/** One monitor's task (agent/network_monitor_task.go): the object that owns the history
    its probes are recorded into, as it is in the protocol. */
module MonitorTasks {
  import opened Common
  import H = MonitorHistory
  import G = ResumeGuard
  import opened MonitorProtocol

  const FAILURE_LOG_INTERVAL := 5 * 60 * 1_000_000_000

  /** What a caller of runProbe finds: the task is gone, a run to join, or its own run. */
  datatype Entry = Gone | Join(run: nat) | Own(run: nat)

  /** The outcome of a run: still open, or closed with what is handed to all its callers. */
  datatype Outcome = Open | Closed(result: Option<H.Result>)

  /** The result of the minute that ends with the last sample of a log. */
  function ResultOf(log: seq<H.Sample>): Option<H.Result> {
    if log == [] then None
    else H.ResultOver(H.KeptOf(log), H.RingOf(log), |log|, H.MINUTE, log[|log| - 1].timestamp)
  }

  /** A response time, or -1 for a failure. */
  function SampleOf(response: Option<H.Int64>, now: H.Instant): H.Sample {
    H.Sample(if response.None? then -1 else response.value, now)
  }

  ghost predicate SameOutcome(outcome: Outcome, run: Run) {
    match outcome
    case Open => run.InFlight?
    case Closed(None) => run.Discarded?
    case Closed(Some(result)) => run.Recorded? && ResultOf(run.report) == Some(result)
  }

  /** Runs of a task against those of the protocol. */
  ghost predicate SameRuns(runs: seq<Outcome>, others: seq<Run>) {
    |runs| == |others| && forall r :: 0 <= r < |runs| ==> SameOutcome(runs[r], others[r])
  }

  lemma {:induction false} StartedRuns(runs: seq<Outcome>, others: seq<Run>)
    requires SameRuns(runs, others)
    ensures SameRuns(runs + [Open], others + [InFlight])
  {
  }

  lemma {:induction false} FinishedRuns(runs: seq<Outcome>, others: seq<Run>, r: nat, outcome: Outcome, run: Run)
    requires SameRuns(runs, others) && r < |runs| && SameOutcome(outcome, run)
    ensures SameRuns(runs[r := outcome], others[r := run])
  {
  }

  class MonitorTask {
    const config: Config
    const history: H.History
    var cancelled: bool
    var inflight: Option<nat>
    var runs: seq<Outcome>
    var lastFailureLog: Option<int>

    ghost predicate Valid()
      reads this, history, history.buckets
    {
      && history.Valid()
      && (forall r :: 0 <= r < |runs| ==> (runs[r].Open? <==> inflight == Some(r)))
      && (inflight.Some? ==> inflight.value < |runs|)
    }

    /** The task as it is in the protocol: its log is what the history recorded. */
    ghost predicate Represents(task: Task)
      reads this, history
    {
      && config == task.config && history.log == task.log && cancelled == task.cancelled && inflight == task.inflight
      && SameRuns(runs, task.runs)
    }

    constructor (config: Config)
      ensures Valid() && Represents(NewTask(config)) && fresh(history) && fresh(history.buckets)
    {
      this.config := config;
      history := new H.History();
      cancelled, inflight, runs, lastFailureLog := false, None, [], None;
    }

    /** A replacement starts with its own copy of all the old task recorded. */
    constructor Replacing(config: Config, existing: MonitorTask, ghost replaced: nat, ghost task: Task)
      requires existing.Valid() && existing.Represents(task)
      ensures Valid() && Represents(CopyOf(config, replaced, task)) && fresh(history) && fresh(history.buckets)
    {
      this.config := config;
      var copied := existing.history.Clone();
      history := copied;
      cancelled, inflight, runs, lastFailureLog := false, None, [], None;
    }

    /** Taken under the same lock as Publish, so nothing is recorded afterwards. */
    method Cancel(ghost task: Task)
      requires Valid() && Represents(task)
      modifies this`cancelled
      ensures Valid() && cancelled && Represents(task.(cancelled := true))
    {
      cancelled := true;
    }

    /** The first critical section of runProbe. */
    method Enter(ghost task: Task) returns (entry: Entry)
      requires Valid() && Represents(task)
      modifies this`inflight, this`runs
      ensures Valid()
      ensures entry.Gone? <==> task.cancelled
      ensures entry.Join? ==> task.inflight == Some(entry.run)
      ensures entry.Own? ==> task.inflight.None? && entry.run == |task.runs| && Represents(StartRun(task))
      ensures !entry.Own? ==> Represents(task)
    {
      if cancelled {
        return Gone;
      }
      if inflight.Some? {
        return Join(inflight.value);
      }
      StartedRuns(runs, task.runs);
      entry := Own(|runs|);
      inflight := Some(|runs|);
      runs := runs + [Open];
    }

    /** A failure is logged unless one was within the last five minutes. */
    method NoteFailure(now: int) returns (logFailure: bool)
      modifies this`lastFailureLog
      ensures lastFailureLog == if logFailure then Some(now) else old(lastFailureLog)
      ensures logFailure <==> old(lastFailureLog).None? || now < old(lastFailureLog).value
                              || now - old(lastFailureLog).value >= FAILURE_LOG_INTERVAL
    {
      logFailure := lastFailureLog.None? || now < lastFailureLog.value
                    || now - lastFailureLog.value >= FAILURE_LOG_INTERVAL;
      if logFailure {
        lastFailureLog := Some(now);
      }
    }

    /** Records what the probe returned, a response time or None for a failure. */
    method RecordOutcome(response: Option<H.Int64>, now: H.Instant) returns (result: Option<H.Result>, logFailure: bool)
      requires history.Valid()
      modifies this`lastFailureLog, history, history.buckets
      ensures history.Valid() && history.log == old(history.log) + [SampleOf(response, now)]
      ensures result.Some? && ResultOf(history.log) == result
      ensures logFailure ==> response.None?
      ensures response.Some? ==> lastFailureLog.None?
      ensures logFailure && old(lastFailureLog).Some? ==>
                now < old(lastFailureLog).value || now - old(lastFailureLog).value >= FAILURE_LOG_INTERVAL
    {
      logFailure := false;
      if response.None? {
        logFailure := NoteFailure(now);
      } else {
        lastFailureLog := None;
      }
      result := history.Record(SampleOf(response, now));
    }

    /** Ends the run in flight. */
    method Close(outcome: Outcome, ghost task: Task, ghost finished: Run)
      requires Valid() && inflight.Some? && Represents(task) && outcome.Closed? && SameOutcome(outcome, finished)
      modifies this`inflight, this`runs
      ensures Valid()
      ensures Represents(task.(inflight := None, runs := task.runs[old(inflight.value) := finished]))
    {
      FinishedRuns(runs, task.runs, inflight.value, outcome, finished);
      runs := runs[inflight.value := outcome];
      inflight := None;
    }

    /** Finishes the run in flight, recording what its probe returned if it counts. */
    method Finish(counts: bool, response: Option<H.Int64>, now: H.Instant, ghost task: Task, ghost finished: Run)
      returns (logFailure: bool)
      requires Valid() && inflight.Some? && Represents(task)
      requires if counts then finished.Recorded? && finished.report == task.log + [SampleOf(response, now)]
               else finished.Discarded?
      modifies this`inflight, this`runs, this`lastFailureLog, history, history.buckets
      ensures Valid()
      ensures var log := if counts then task.log + [SampleOf(response, now)] else task.log;
        Represents(task.(inflight := None, log := log, runs := task.runs[old(inflight.value) := finished]))
      ensures logFailure ==> counts && response.None?
      ensures counts && response.Some? ==> lastFailureLog.None?
      ensures !counts ==> lastFailureLog == old(lastFailureLog)
      ensures logFailure && old(lastFailureLog).Some? ==>
                now < old(lastFailureLog).value || now - old(lastFailureLog).value >= FAILURE_LOG_INTERVAL
    {
      logFailure := false;
      var result := None;
      if counts {
        result, logFailure := RecordOutcome(response, now);
      }
      Close(Closed(result), task.(log := history.log), finished);
    }

    /** The second critical section. The run is finished as the protocol has it, and its
        callers are handed what the history reports of the log it ended with. */
    method Publish(guard: G.Guard, generation: nat, response: Option<H.Int64>, snapshotAt: int, now: H.Instant,
                   ghost task: Task, ghost seen: nat)
      returns (logFailure: bool)
      requires Valid() && guard.Valid() && inflight.Some? && Represents(task)
      modifies this`inflight, this`runs, this`lastFailureLog, history, history.buckets, guard
      ensures Valid() && guard.Valid() && guard.trace == G.AfterSnapshot(old(guard.trace), snapshotAt)
      ensures Represents(FinishRun(task, old(inflight.value), generation, seen, guard.trace, SampleOf(response, now)))
      ensures var counts := !task.cancelled && generation == G.Generation(guard.trace);
        && (logFailure ==> counts && response.None?)
        && (counts && response.Some? ==> lastFailureLog.None?)
        && (!counts ==> lastFailureLog == old(lastFailureLog))
      ensures logFailure && old(lastFailureLog).Some? ==>
                now < old(lastFailureLog).value || now - old(lastFailureLog).value >= FAILURE_LOG_INTERVAL
    {
      var current, _ := guard.Snapshot(snapshotAt);
      var counts := !cancelled && generation == current;
      ghost var log := task.log + [SampleOf(response, now)];
      ghost var finished := if counts then Recorded(log, seen, |guard.trace|) else Discarded;
      logFailure := Finish(counts, response, now, task, finished);
    }
  }
}
