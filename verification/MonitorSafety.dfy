/** What every run of the monitor protocol keeps. */
module MonitorSafety {
  import opened Common
  import opened MonitorHistory
  import opened MonitorProtocol
  import G = ResumeGuard

  // ----------------------------------------------------------------- invariants

  /** How many runs recorded a sample. */
  function RecordedRuns(runs: seq<Run>): nat {
    if |runs| == 0 then 0
    else RecordedRuns(runs[..|runs| - 1]) + if runs[|runs| - 1].Recorded? then 1 else 0
  }

  /** Only the last run of a task can be in flight. */
  ghost predicate InFlightOk(task: Task) {
    && (forall r :: 0 <= r < |task.runs| && task.runs[r].InFlight? ==> task.inflight == Some(r))
    && (task.inflight.Some? ==> task.inflight.value == |task.runs| - 1 && task.runs[|task.runs| - 1].InFlight?)
  }

  /** A recorded run owns one sample of the log, in order, and reports the log up to it. */
  ghost predicate RunOk(task: Task, r: nat)
    requires r < |task.runs|
  {
    var run := task.runs[r];
    run.Recorded? ==>
      && 0 < |run.report| && run.report <= task.log
      && |run.report| == task.inherited + RecordedRuns(task.runs[..r + 1])
  }

  ghost predicate TaskOk(task: Task) {
    && InFlightOk(task)
    && |task.log| == task.inherited + RecordedRuns(task.runs)
    && (forall r :: 0 <= r < |task.runs| ==> RunOk(task, r))
  }

  /** The guard vouched for every recorded run. */
  ghost predicate Vouched(trace: seq<G.Event>, run: Run) {
    run.Recorded? ==>
      && run.seen <= run.published <= |trace|
      && G.Running(trace[..run.seen])
      && G.BreaksFrom(trace[..run.published], run.seen) % G.UINT32 == 0
  }

  ghost predicate TaskFine(trace: seq<G.Event>, task: Task) {
    TaskOk(task) && forall r :: 0 <= r < |task.runs| ==> Vouched(trace, task.runs[r])
  }

  ghost predicate TasksOk(w: World) {
    forall t :: 0 <= t < |w.tasks| ==> TaskFine(w.trace, w.tasks[t])
  }

  predicate Owner(caller: Caller) {
    caller.Started? || caller.Probing?
  }

  ghost predicate CallerOk(w: World, caller: Caller) {
    && caller.task < |w.tasks|
    && var runs := w.tasks[caller.task].runs;
    match caller
    case Gating(_) => true
    case Entering(_) => true
    case Started(_, r) => r < |runs| && runs[r].InFlight?
    case Probing(_, r, generation, seen) =>
      && r < |runs| && runs[r].InFlight?
      && seen <= |w.trace| && generation == G.Generation(w.trace[..seen])
      && (!w.tasks[caller.task].cancelled ==> G.Running(w.trace[..seen]))
    case Waiting(_, r) => r < |runs|
    case Finished(_, r) => r < |runs| && !runs[r].InFlight?
    case Returned(_, via, report) =>
      report.Some? ==>
        via.Some? && via.value < |runs| && runs[via.value].Recorded? && runs[via.value].report == report.value
  }

  ghost predicate CallersOk(w: World) {
    && (forall c :: c in w.callers ==> CallerOk(w, w.callers[c]))
    && OwnersUnique(w)
  }

  /** At most one caller is running the probe of a task. */
  ghost predicate OwnersUnique(w: World) {
    forall c, d :: (&& c in w.callers && d in w.callers && Owner(w.callers[c]) && Owner(w.callers[d])
                    && w.callers[c].task == w.callers[d].task) ==> c == d
  }

  /** Every run in flight has a caller that will finish it. */
  ghost predicate NoOrphans(w: World) {
    forall t :: 0 <= t < |w.tasks| && w.tasks[t].inflight.Some? ==>
      exists c :: c in w.callers && Owner(w.callers[c]) && w.callers[c].task == t
  }

  /** A replacement starts from the whole log of the task it replaced. */
  ghost predicate LineageOk(w: World, t: nat)
    requires t < |w.tasks|
  {
    var task := w.tasks[t];
    match task.parent
    case None => task.inherited == 0
    case Some(p) =>
      && p < t && w.tasks[p].cancelled && w.tasks[p].config.id == task.config.id
      && task.inherited == |w.tasks[p].log| <= |task.log|
      && task.log[..task.inherited] == w.tasks[p].log
  }

  /** The registered tasks are the uncancelled ones, keyed by their own IDs. */
  ghost predicate RegistryOk(w: World) {
    && (forall id :: id in w.monitors ==>
          id != "" && w.monitors[id] < |w.tasks| && w.tasks[w.monitors[id]].config.id == id)
    && (forall t :: 0 <= t < |w.tasks| && !w.tasks[t].cancelled ==>
          w.tasks[t].config.id in w.monitors && w.monitors[w.tasks[t].config.id] == t)
    && (forall id :: id in w.monitors && w.tasks[w.monitors[id]].cancelled ==>
          w.manager.Replacing? && w.manager.config.id == id)
    && (w.manager.Replacing? ==>
          && w.manager.config.id in w.monitors && w.monitors[w.manager.config.id] == w.manager.replaced
          && w.tasks[w.manager.replaced].cancelled && w.tasks[w.manager.replaced].log == w.manager.frozen)
    && (w.monitors != map[] ==> G.Running(w.trace))
  }

  ghost predicate Inv(w: World) {
    && TasksOk(w)
    && CallersOk(w)
    && NoOrphans(w)
    && (forall t :: 0 <= t < |w.tasks| ==> LineageOk(w, t))
    && RegistryOk(w)
    && G.WellFormed(w.trace)
  }

  // ---------------------------------------------------------- what a step may change

  /** Finished runs stay as they are, a log only grows, and not after cancellation. */
  ghost predicate TaskEvolves(a: Task, b: Task) {
    && a.config == b.config && a.parent == b.parent && a.inherited == b.inherited
    && (a.cancelled ==> b.cancelled && a.log == b.log)
    && a.log <= b.log
    && |a.runs| <= |b.runs|
    && (forall r :: 0 <= r < |a.runs| && !a.runs[r].InFlight? ==> b.runs[r] == a.runs[r])
  }

  ghost predicate Evolves(a: World, b: World) {
    && |a.tasks| <= |b.tasks|
    && (forall t :: 0 <= t < |a.tasks| ==> TaskEvolves(a.tasks[t], b.tasks[t]))
    && a.trace <= b.trace
  }

  lemma {:induction false} OneTaskEvolves(tasks: seq<Task>, t: nat, task: Task)
    requires t < |tasks| && TaskEvolves(tasks[t], task)
    ensures forall u :: 0 <= u < |tasks| ==> TaskEvolves(tasks[u], tasks[t := task][u])
  {
  }

  lemma {:induction false} FinishRunEvolves(task: Task, run: nat, generation: nat, seen: nat, trace: seq<G.Event>,
                                            sample: Sample)
    requires run < |task.runs| && task.runs[run].InFlight?
    ensures TaskEvolves(task, FinishRun(task, run, generation, seen, trace, sample))
  {
  }

  lemma {:induction false} TraceGrows(w: World, step: Step)
    requires Enabled(w, step)
    ensures w.trace <= Apply(w, step).trace
  {
  }

  lemma {:induction false} PublishEvolves(w: World, c: nat, now: int, sample: Sample)
    requires Enabled(w, Publish(c, now, sample)) && CallerOk(w, w.callers[c])
    ensures Evolves(w, Apply(w, Publish(c, now, sample)))
  {
    var Probing(t, r, generation, seen) := w.callers[c];
    var trace := G.AfterSnapshot(w.trace, now);
    var task := FinishRun(w.tasks[t], r, generation, seen, trace, sample);
    FinishRunEvolves(w.tasks[t], r, generation, seen, trace, sample);
    OneTaskEvolves(w.tasks, t, task);
    assert Apply(w, Publish(c, now, sample)).tasks == w.tasks[t := task];
  }

  lemma {:induction false} EnterEvolves(w: World, c: nat)
    requires Enabled(w, Enter(c))
    ensures Evolves(w, Apply(w, Enter(c)))
  {
    var t := w.callers[c].task;
    OneTaskEvolves(w.tasks, t, StartRun(w.tasks[t]));
  }

  lemma {:induction false} CancellationEvolves(w: World, step: Step)
    requires Enabled(w, step) && (step.Cancel? || step.Remove?)
    ensures Evolves(w, Apply(w, step))
  {
    var t := w.monitors[if step.Cancel? then step.config.id else step.id];
    OneTaskEvolves(w.tasks, t, w.tasks[t].(cancelled := true));
  }

  lemma {:induction false} StepEvolves(w: World, step: Step)
    requires Enabled(w, step) && CallersOk(w)
    ensures Evolves(w, Apply(w, step))
  {
    match step {
      case Publish(c, now, sample) => PublishEvolves(w, c, now, sample);
      case Enter(c) => EnterEvolves(w, c);
      case Cancel(_) => CancellationEvolves(w, step);
      case Remove(_) => CancellationEvolves(w, step);
      case _ => TraceGrows(w, step);
    }
  }

  // ------------------------------------------------------------- tasks stay in order

  lemma {:induction false} StartRunKeeps(task: Task)
    requires TaskOk(task) && task.inflight.None?
    ensures TaskOk(StartRun(task))
  {
    var task' := StartRun(task);
    assert task'.runs[..|task.runs|] == task.runs;
    forall r | 0 <= r < |task'.runs| ensures RunOk(task', r) {
      if r < |task.runs| {
        assert RunOk(task, r);
        assert task'.runs[..r + 1] == task.runs[..r + 1];
      }
    }
  }

  lemma {:induction false} LastRunDecided(task: Task, run: nat, task': Task)
    requires TaskOk(task) && task.inflight == Some(run) && run < |task.runs|
    requires task'.inflight.None? && task'.inherited == task.inherited && task.log <= task'.log
    requires |task'.runs| == |task.runs| && task'.runs[..run] == task.runs[..run] && !task'.runs[run].InFlight?
    requires |task'.log| == |task.log| + (if task'.runs[run].Recorded? then 1 else 0)
    requires task'.runs[run].Recorded? ==> task'.runs[run].report == task'.log
    ensures TaskOk(task')
  {
    assert task.runs[..|task.runs| - 1] == task'.runs[..run] == task'.runs[..|task'.runs| - 1];
    assert task'.runs[..run + 1] == task'.runs;
    forall r | 0 <= r < |task'.runs| ensures RunOk(task', r) {
      if r < run {
        assert RunOk(task, r);
        assert task'.runs[r] == task'.runs[..run][r] == task.runs[r];
        assert task'.runs[..r + 1] == task'.runs[..run][..r + 1] == task.runs[..r + 1];
      }
    }
    forall r | 0 <= r < |task'.runs| ensures !task'.runs[r].InFlight? {
      assert r < run ==> task'.runs[r] == task'.runs[..run][r] == task.runs[r];
    }
  }

  lemma {:induction false} FinishRunKeeps(task: Task, run: nat, generation: nat, seen: nat, trace: seq<G.Event>,
                                          sample: Sample)
    requires TaskOk(task) && task.inflight == Some(run) && run < |task.runs|
    ensures TaskOk(FinishRun(task, run, generation, seen, trace, sample))
  {
    LastRunDecided(task, run, FinishRun(task, run, generation, seen, trace, sample));
  }

  lemma {:induction false} StillVouched(trace: seq<G.Event>, longer: seq<G.Event>, run: Run)
    requires Vouched(trace, run) && trace <= longer
    ensures Vouched(longer, run)
  {
    if run.Recorded? {
      assert longer[..run.published] == trace[..run.published];
      assert longer[..run.seen] == trace[..run.seen];
    }
  }

  /** A run is recorded only if the guard saw no break since the run began. */
  lemma {:induction false} RecordingIsVouched(task: Task, run: nat, seen: nat, trace: seq<G.Event>, sample: Sample)
    requires run < |task.runs| && seen <= |trace|
    requires !task.cancelled ==> G.Running(trace[..seen])
    ensures var task' := FinishRun(task, run, G.Generation(trace[..seen]), seen, trace, sample);
      && Vouched(trace, task'.runs[run])
      && (task'.runs[run].Recorded? <==> !task.cancelled && G.BreaksFrom(trace, seen) % G.UINT32 == 0)
  {
    G.SameGenerationIffUnbroken(trace, seen);
    assert trace[..|trace|] == trace;
  }

  lemma {:induction false} TaskStaysFine(trace: seq<G.Event>, longer: seq<G.Event>, task: Task)
    requires TaskFine(trace, task) && trace <= longer
    ensures TaskFine(longer, task) && TaskFine(longer, task.(cancelled := true))
  {
    forall r | 0 <= r < |task.runs| ensures Vouched(longer, task.runs[r]) {
      StillVouched(trace, longer, task.runs[r]);
    }
    var cancelled := task.(cancelled := true);
    assert TaskOk(cancelled) by {
      forall r | 0 <= r < |cancelled.runs| ensures RunOk(cancelled, r) {
        assert RunOk(task, r);
      }
    }
  }

  lemma {:induction false} EnterKeepsTasks(w: World, c: nat)
    requires TasksOk(w) && CallersOk(w) && Enabled(w, Enter(c))
    ensures TasksOk(Apply(w, Enter(c)))
  {
    var t := w.callers[c].task;
    assert TaskFine(w.trace, w.tasks[t]);
    if w.tasks[t].inflight.None? {
      StartRunKeeps(w.tasks[t]);
    }
  }

  lemma {:induction false} PublishKeepsTasks(w: World, c: nat, now: int, sample: Sample)
    requires TasksOk(w) && CallersOk(w) && Enabled(w, Publish(c, now, sample))
    ensures TasksOk(Apply(w, Publish(c, now, sample)))
  {
    var w' := Apply(w, Publish(c, now, sample));
    var Probing(t, r, generation, seen) := w.callers[c];
    assert CallerOk(w, w.callers[c]) && TaskFine(w.trace, w.tasks[t]);
    forall u | 0 <= u < |w.tasks| ensures TaskFine(w'.trace, w.tasks[u]) {
      assert TaskFine(w.trace, w.tasks[u]);
      TaskStaysFine(w.trace, w'.trace, w.tasks[u]);
    }
    FinishRunKeeps(w.tasks[t], r, generation, seen, w'.trace, sample);
    assert w'.trace[..seen] == w.trace[..seen];
    RecordingIsVouched(w.tasks[t], r, seen, w'.trace, sample);
    assert TaskFine(w'.trace, w'.tasks[t]);
  }

  lemma {:induction false} StepKeepsTasks(w: World, step: Step)
    requires TasksOk(w) && CallersOk(w) && Enabled(w, step)
    ensures TasksOk(Apply(w, step))
  {
    match step {
      case Enter(c) => EnterKeepsTasks(w, c);
      case Publish(c, now, sample) => PublishKeepsTasks(w, c, now, sample);
      case _ =>
        var w' := Apply(w, step);
        TraceGrows(w, step);
        forall t | 0 <= t < |w'.tasks| ensures TaskFine(w'.trace, w'.tasks[t]) {
          if t < |w.tasks| {
            assert TaskFine(w.trace, w.tasks[t]);
            TaskStaysFine(w.trace, w'.trace, w.tasks[t]);
          }
        }
    }
  }

  // ----------------------------------------------------------- callers stay in order

  lemma {:induction false} CallerStaysOk(w: World, w': World, caller: Caller)
    requires CallerOk(w, caller) && Evolves(w, w')
    requires Owner(caller) ==> w'.tasks[caller.task].runs[caller.run].InFlight?
    ensures CallerOk(w', caller)
  {
    assert TaskEvolves(w.tasks[caller.task], w'.tasks[caller.task]);
    if caller.Probing? {
      assert w'.trace[..caller.seen] == w.trace[..caller.seen];
    }
  }

  predicate ActsAs(step: Step, c: nat) {
    match step
    case Schedule(d, _) => c == d
    case Request(d, _) => c == d
    case Gate(d, _) => c == d
    case Enter(d) => c == d
    case Begin(d, _) => c == d
    case Publish(d, _, _) => c == d
    case Return(d) => c == d
    case Wake(d) => c == d
    case _ => false
  }

  /** The probes of other callers go on. */
  lemma {:induction false} OthersGoOn(w: World, step: Step, c: nat)
    requires CallersOk(w) && Enabled(w, step)
    requires c in w.callers && !ActsAs(step, c)
    ensures var w', caller := Apply(w, step), w.callers[c];
      && c in w'.callers && w'.callers[c] == caller
      && (Owner(caller) ==>
            && caller.task < |w'.tasks| && caller.run < |w'.tasks[caller.task].runs|
            && w'.tasks[caller.task].runs[caller.run].InFlight?)
  {
    assert CallerOk(w, w.callers[c]);
    if step.Publish? {
      var t := w.callers[step.caller].task;
      assert Owner(w.callers[c]) ==> t != w.callers[c].task;
      assert forall u :: 0 <= u < |w.tasks| && u != t ==> Apply(w, step).tasks[u] == w.tasks[u];
    } else {
      RunsStayInFlight(w, step, w.callers[c].task);
    }
  }

  lemma {:induction false} RunsStayInFlight(w: World, step: Step, t: nat)
    requires Enabled(w, step) && !step.Publish? && t < |w.tasks|
    ensures t < |Apply(w, step).tasks| && w.tasks[t].runs <= Apply(w, step).tasks[t].runs
  {
  }

  lemma {:induction false} BeginOk(w: World, c: nat, now: int)
    requires CallersOk(w) && RegistryOk(w) && Enabled(w, Begin(c, now))
    ensures var w' := Apply(w, Begin(c, now)); c in w'.callers && CallerOk(w', w'.callers[c])
  {
    var w' := Apply(w, Begin(c, now));
    assert CallerOk(w, w.callers[c]);
    assert w'.trace[..|w'.trace|] == w'.trace;
    var task := w.tasks[w.callers[c].task];
    assert !task.cancelled ==> task.config.id in w.monitors;
  }

  /** The caller that moved is where it should be. */
  lemma {:induction false} ActorOk(w: World, step: Step, c: nat)
    requires TasksOk(w) && CallersOk(w) && Enabled(w, step) && ActsAs(step, c) && !step.Begin?
    ensures c in Apply(w, step).callers && CallerOk(Apply(w, step), Apply(w, step).callers[c])
  {
    if c in w.callers {
      assert CallerOk(w, w.callers[c]);
      if step.Enter? {
        assert TaskFine(w.trace, w.tasks[w.callers[c].task]);
      }
    }
  }

  lemma {:induction false} StepKeepsCallers(w: World, step: Step)
    requires TasksOk(w) && CallersOk(w) && RegistryOk(w) && Enabled(w, step)
    ensures CallersOk(Apply(w, step))
  {
    var w' := Apply(w, step);
    StepEvolves(w, step);
    forall c | c in w'.callers ensures CallerOk(w', w'.callers[c]) {
      if step.Begin? && c == step.caller {
        BeginOk(w, c, step.now);
      } else if ActsAs(step, c) {
        ActorOk(w, step, c);
      } else {
        OthersGoOn(w, step, c);
        CallerStaysOk(w, w', w.callers[c]);
      }
    }
    StepKeepsOwnersUnique(w, step);
  }

  lemma {:induction false} EnterKeepsOwnersUnique(w: World, c: nat)
    requires TasksOk(w) && CallersOk(w) && Enabled(w, Enter(c))
    ensures OwnersUnique(Apply(w, Enter(c)))
  {
    var t := w.callers[c].task;
    assert TaskFine(w.trace, w.tasks[t]);
    if w.tasks[t].inflight.None? {
      forall d | d in w.callers && Owner(w.callers[d]) ensures w.callers[d].task != t {
        assert CallerOk(w, w.callers[d]);
      }
    }
  }

  lemma {:induction false} StepKeepsOwnersUnique(w: World, step: Step)
    requires TasksOk(w) && CallersOk(w) && Enabled(w, step)
    ensures OwnersUnique(Apply(w, step))
  {
    if step.Enter? {
      EnterKeepsOwnersUnique(w, step.caller);
    } else {
      NoNewOwner(w, step);
    }
  }

  lemma {:induction false} NoNewOwner(w: World, step: Step)
    requires OwnersUnique(w) && Enabled(w, step) && !step.Enter?
    ensures var w' := Apply(w, step);
      forall c :: c in w'.callers && Owner(w'.callers[c]) ==>
        c in w.callers && Owner(w.callers[c]) && w.callers[c].task == w'.callers[c].task
    ensures OwnersUnique(Apply(w, step))
  {
  }

  lemma {:induction false} StepKeepsNoOrphans(w: World, step: Step)
    requires TasksOk(w) && CallersOk(w) && NoOrphans(w) && Enabled(w, step)
    ensures NoOrphans(Apply(w, step))
  {
    var w' := Apply(w, step);
    forall t | 0 <= t < |w'.tasks| && w'.tasks[t].inflight.Some?
      ensures exists c :: c in w'.callers && Owner(w'.callers[c]) && w'.callers[c].task == t
    {
      OrphanFree(w, step, t);
      var c :| OwnedBy(w', t, c);
    }
  }

  ghost predicate OwnedBy(w: World, t: nat, c: nat) {
    c in w.callers && Owner(w.callers[c]) && w.callers[c].task == t
  }

  lemma {:induction false} OwnerStays(w: World, step: Step, t: nat, c: nat)
    requires CallersOk(w) && Enabled(w, step) && OwnedBy(w, t, c)
    requires t < |Apply(w, step).tasks| && Apply(w, step).tasks[t].inflight.Some?
    ensures OwnedBy(Apply(w, step), t, c)
  {
    assert CallerOk(w, w.callers[c]);
    if ActsAs(step, c) {
      assert step.Begin? || step.Publish?;
    } else {
      OthersGoOn(w, step, c);
    }
  }

  lemma {:induction false} OwnerComes(w: World, step: Step, t: nat)
    requires Enabled(w, step) && (t < |w.tasks| ==> w.tasks[t].inflight.None?)
    requires t < |Apply(w, step).tasks| && Apply(w, step).tasks[t].inflight.Some?
    ensures step.Enter? && OwnedBy(Apply(w, step), t, step.caller)
  {
  }

  lemma {:induction false} OrphanFree(w: World, step: Step, t: nat)
    requires CallersOk(w) && NoOrphans(w) && Enabled(w, step)
    requires t < |Apply(w, step).tasks| && Apply(w, step).tasks[t].inflight.Some?
    ensures exists c :: OwnedBy(Apply(w, step), t, c)
  {
    if t < |w.tasks| && w.tasks[t].inflight.Some? {
      var c :| c in w.callers && Owner(w.callers[c]) && w.callers[c].task == t;
      OwnerStays(w, step, t, c);
    } else {
      OwnerComes(w, step, t);
    }
  }

  // ---------------------------------------------------- lineage, registry and trace

  lemma {:induction false} LineageLasts(w: World, w': World, t: nat)
    requires t < |w.tasks| && LineageOk(w, t) && Evolves(w, w')
    ensures t < |w'.tasks| && LineageOk(w', t)
  {
    assert TaskEvolves(w.tasks[t], w'.tasks[t]);
    if w.tasks[t].parent.Some? {
      assert TaskEvolves(w.tasks[w.tasks[t].parent.value], w'.tasks[w.tasks[t].parent.value]);
    }
  }

  lemma {:induction false} LineageStarts(w: World, step: Step)
    requires RegistryOk(w) && Enabled(w, step) && |Apply(w, step).tasks| > |w.tasks|
    ensures |Apply(w, step).tasks| == |w.tasks| + 1 && LineageOk(Apply(w, step), |w.tasks|)
  {
    assert step.Create? || step.Replace?;
  }

  lemma {:induction false} StepKeepsLineage(w: World, step: Step, t: nat)
    requires CallersOk(w) && RegistryOk(w) && Enabled(w, step)
    requires forall u :: 0 <= u < |w.tasks| ==> LineageOk(w, u)
    requires t < |Apply(w, step).tasks|
    ensures LineageOk(Apply(w, step), t)
  {
    if t < |w.tasks| {
      StepEvolves(w, step);
      LineageLasts(w, Apply(w, step), t);
    } else {
      LineageStarts(w, step);
    }
  }

  /** The registry does not notice a probe. */
  ghost predicate SameRegistry(w: World, w': World) {
    && w'.monitors == w.monitors && w'.manager == w.manager && |w'.tasks| == |w.tasks|
    && (forall t :: 0 <= t < |w.tasks| ==>
          && w'.tasks[t].cancelled == w.tasks[t].cancelled && w'.tasks[t].config == w.tasks[t].config
          && (w.tasks[t].cancelled ==> w'.tasks[t].log == w.tasks[t].log))
    && (G.Running(w.trace) ==> G.Running(w'.trace))
  }

  lemma {:induction false} ProbeKeepsRegistryView(w: World, step: Step)
    requires Enabled(w, step) && IsProbing(step)
    ensures SameRegistry(w, Apply(w, step))
  {
  }

  lemma {:induction false} SameRegistryStaysOk(w: World, w': World)
    requires RegistryOk(w) && SameRegistry(w, w')
    ensures RegistryOk(w')
  {
  }

  lemma {:induction false} CreationKeepsRegistry(w: World, step: Step)
    requires RegistryOk(w) && Enabled(w, step)
    requires step.Create? || step.Replace?
    ensures RegistryOk(Apply(w, step))
  {
    var w' := Apply(w, step);
    var config := if step.Create? then step.config else w.manager.config;
    assert w'.tasks == w.tasks + [w'.tasks[|w.tasks|]];
    RegisteredNext(w, w', config.id, w'.tasks[|w.tasks|]);
  }

  lemma {:induction false} RegisteredNext(w: World, w': World, id: string, task: Task)
    requires RegistryOk(w) && w'.tasks == w.tasks + [task] && w'.monitors == w.monitors[id := |w.tasks|]
    requires id != "" && task.config.id == id && !task.cancelled && w'.manager.Idle? && G.Running(w'.trace)
    requires id in w.monitors ==> w.tasks[w.monitors[id]].cancelled
    requires w.manager.Replacing? ==> w.manager.config.id == id
    ensures RegistryOk(w')
  {
  }

  lemma {:induction false} CancellationKeepsRegistry(w: World, step: Step)
    requires RegistryOk(w) && Enabled(w, step)
    requires step.Cancel? || step.Remove?
    ensures RegistryOk(Apply(w, step))
  {
    var w' := Apply(w, step);
    var id := if step.Cancel? then step.config.id else step.id;
    var t := w.monitors[id];
    assert w'.tasks == w.tasks[t := w.tasks[t].(cancelled := true)];
  }

  lemma {:induction false} StepKeepsRegistry(w: World, step: Step)
    requires RegistryOk(w) && Enabled(w, step)
    ensures RegistryOk(Apply(w, step))
  {
    if IsProbing(step) {
      ProbeKeepsRegistryView(w, step);
      SameRegistryStaysOk(w, Apply(w, step));
    } else if step.Create? || step.Replace? {
      CreationKeepsRegistry(w, step);
    } else if step.Cancel? || step.Remove? {
      CancellationKeepsRegistry(w, step);
    }
  }

  lemma {:induction false} StepKeepsTrace(w: World, step: Step)
    requires G.WellFormed(w.trace) && Enabled(w, step)
    ensures G.WellFormed(Apply(w, step).trace)
  {
    var w' := Apply(w, step);
    if w'.trace != w.trace {
      var event := w'.trace[|w.trace|];
      assert w'.trace == w.trace + [event];
      G.Extend(w.trace, event);
    }
  }

  // ----------------------------------------------------------------- whole runs

  lemma {:induction false} StepKeepsInv(w: World, step: Step)
    requires Inv(w) && Enabled(w, step)
    ensures Inv(Apply(w, step))
  {
    StepKeepsTasks(w, step);
    StepKeepsCallers(w, step);
    StepKeepsNoOrphans(w, step);
    StepKeepsRegistry(w, step);
    StepKeepsTrace(w, step);
    forall t | 0 <= t < |Apply(w, step).tasks| ensures LineageOk(Apply(w, step), t) {
      StepKeepsLineage(w, step, t);
    }
  }

  /** A run of the protocol from the start. */
  ghost predicate IsRun(worlds: seq<World>, steps: seq<Step>) {
    IsPath(worlds, steps) && worlds[0] == INITIAL
  }

  lemma {:induction false} RunsKeepInv(worlds: seq<World>, steps: seq<Step>, i: nat)
    requires IsRun(worlds, steps) && i < |worlds|
    ensures Inv(worlds[i])
  {
    if i == 0 {
    } else {
      RunsKeepInv(worlds, steps, i - 1);
      assert StepAt(worlds, steps, i - 1);
      StepKeepsInv(worlds[i - 1], steps[i - 1]);
    }
  }

  /** At most one probe of a task is in flight, whatever the interleaving. */
  lemma {:induction false} SingleFlight(worlds: seq<World>, steps: seq<Step>, i: nat, c: nat, d: nat)
    requires IsRun(worlds, steps) && i < |worlds|
    requires c in worlds[i].callers && d in worlds[i].callers
    requires Owner(worlds[i].callers[c]) && Owner(worlds[i].callers[d])
    requires worlds[i].callers[c].task == worlds[i].callers[d].task
    ensures c == d
  {
    RunsKeepInv(worlds, steps, i);
  }

  lemma {:induction false} TaskEvolvesTransitive(a: Task, b: Task, c: Task)
    requires TaskEvolves(a, b) && TaskEvolves(b, c)
    ensures TaskEvolves(a, c)
  {
    forall r | 0 <= r < |a.runs| && !a.runs[r].InFlight? ensures c.runs[r] == a.runs[r] {
      assert b.runs[r] == a.runs[r];
    }
  }

  lemma {:induction false} RunStepEvolves(worlds: seq<World>, steps: seq<Step>, i: nat)
    requires IsRun(worlds, steps) && i < |steps|
    ensures Evolves(worlds[i], worlds[i + 1])
  {
    RunsKeepInv(worlds, steps, i);
    assert StepAt(worlds, steps, i);
    StepEvolves(worlds[i], steps[i]);
  }

  lemma {:induction false} RunsEvolve(worlds: seq<World>, steps: seq<Step>, i: nat, j: nat, t: nat)
    requires IsRun(worlds, steps) && i <= j < |worlds| && t < |worlds[i].tasks|
    ensures t < |worlds[j].tasks| && TaskEvolves(worlds[i].tasks[t], worlds[j].tasks[t])
  {
    if i < j {
      RunsEvolve(worlds, steps, i, j - 1, t);
      RunStepEvolves(worlds, steps, j - 1);
      assert TaskEvolves(worlds[j - 1].tasks[t], worlds[j].tasks[t]);
      TaskEvolvesTransitive(worlds[i].tasks[t], worlds[j - 1].tasks[t], worlds[j].tasks[t]);
    }
  }

  /** Once a task is cancelled its log never changes again. */
  lemma {:induction false} CancelledLogIsFrozen(worlds: seq<World>, steps: seq<Step>, i: nat, j: nat, t: nat)
    requires IsRun(worlds, steps) && i <= j < |worlds| && t < |worlds[i].tasks|
    requires worlds[i].tasks[t].cancelled
    ensures t < |worlds[j].tasks| && worlds[j].tasks[t].cancelled
    ensures worlds[j].tasks[t].log == worlds[i].tasks[t].log
  {
    RunsEvolve(worlds, steps, i, j, t);
  }

  /** Callers that got a result from the same run got the same one, and it is that run's. */
  lemma {:induction false} SharedRunSharedReport(worlds: seq<World>, steps: seq<Step>, i: nat, c: nat, d: nat)
    requires IsRun(worlds, steps) && i < |worlds|
    requires c in worlds[i].callers && d in worlds[i].callers
    requires worlds[i].callers[c].Returned? && worlds[i].callers[d].Returned?
    requires worlds[i].callers[c].report.Some? && worlds[i].callers[d].report.Some?
    requires worlds[i].callers[c].task == worlds[i].callers[d].task
    requires worlds[i].callers[c].via == worlds[i].callers[d].via
    ensures worlds[i].callers[c].report == worlds[i].callers[d].report
    ensures var caller := worlds[i].callers[c];
      && caller.task < |worlds[i].tasks| && caller.via.Some? && caller.via.value < |worlds[i].tasks[caller.task].runs|
      && var run := worlds[i].tasks[caller.task].runs[caller.via.value];
      run.Recorded? && caller.report == Some(run.report)
  {
    RunsKeepInv(worlds, steps, i);
    assert CallerOk(worlds[i], worlds[i].callers[c]) && CallerOk(worlds[i], worlds[i].callers[d]);
  }

  /** The step publishes a run of a task. */
  ghost predicate Publishes(worlds: seq<World>, steps: seq<Step>, i: nat, t: nat, r: nat)
    requires |worlds| == |steps| + 1 && i < |steps|
  {
    && steps[i].Publish? && t < |worlds[i].tasks| && t < |worlds[i + 1].tasks| && steps[i].caller in worlds[i].callers
    && var caller := worlds[i].callers[steps[i].caller];
    caller.Probing? && caller.task == t && caller.run == r
  }

  /** The step ends the call of the caller that made a run or of one that waited for it. */
  ghost predicate HandsOn(worlds: seq<World>, steps: seq<Step>, j: nat, t: nat, r: nat)
    requires |worlds| == |steps| + 1 && j < |steps|
  {
    && (steps[j].Return? || steps[j].Wake?) && t < |worlds[j].tasks| && steps[j].caller in worlds[j].callers
    && worlds[j].callers[steps[j].caller] in {Finished(t, r), Waiting(t, r)}
  }

  lemma {:induction false} PublishedRun(worlds: seq<World>, steps: seq<Step>, i: nat, t: nat, r: nat)
    requires IsRun(worlds, steps) && i < |steps| && Publishes(worlds, steps, i, t, r)
    ensures var task, task' := worlds[i].tasks[t], worlds[i + 1].tasks[t];
      && r < |task'.runs| && !task'.runs[r].InFlight?
      && (task'.runs[r].Recorded? <==> |task'.log| > |task.log|)
      && (task'.runs[r].Recorded? ==> task'.runs[r].report == task'.log)
  {
    assert StepAt(worlds, steps, i);
  }

  lemma {:induction false} HandsOnReport(worlds: seq<World>, steps: seq<Step>, j: nat, t: nat, r: nat)
    requires IsRun(worlds, steps) && j < |steps| && HandsOn(worlds, steps, j, t, r)
    ensures var task, c := worlds[j].tasks[t], steps[j].caller;
      && r < |task.runs| && (!task.cancelled ==> !task.runs[r].InFlight?) && c in worlds[j + 1].callers
      && worlds[j + 1].callers[c] ==
           Returned(t, Some(r), if task.cancelled || !task.runs[r].Recorded? then None else Some(task.runs[r].report))
  {
    RunsKeepInv(worlds, steps, j);
    assert StepAt(worlds, steps, j);
    assert CallerOk(worlds[j], worlds[j].callers[steps[j].caller]);
  }

  /** What a run recorded is what it hands on: whoever made it or waited for it gets the
      log it ended with, unless the run was discarded or the task is cancelled by then. */
  lemma {:induction false} ResultIsHandedOn(worlds: seq<World>, steps: seq<Step>, i: nat, j: nat, t: nat, r: nat)
    requires IsRun(worlds, steps) && i < j < |steps|
    requires Publishes(worlds, steps, i, t, r) && HandsOn(worlds, steps, j, t, r)
    ensures var before, after, c := worlds[i].tasks[t], worlds[i + 1].tasks[t], steps[j].caller;
      var counts := |after.log| > |before.log| && !worlds[j].tasks[t].cancelled;
      && c in worlds[j + 1].callers
      && worlds[j + 1].callers[c] == Returned(t, Some(r), if counts then Some(after.log) else None)
  {
    PublishedRun(worlds, steps, i, t, r);
    RunsEvolve(worlds, steps, i + 1, j, t);
    HandsOnReport(worlds, steps, j, t, r);
  }

  lemma {:induction false} CompletedWasPublished(worlds: seq<World>, steps: seq<Step>, n: nat, t: nat, r: nat)
      returns (i: nat)
    requires IsRun(worlds, steps) && n < |worlds| && t < |worlds[n].tasks| && r < |worlds[n].tasks[t].runs|
    requires !worlds[n].tasks[t].runs[r].InFlight?
    ensures i < n && Publishes(worlds, steps, i, t, r)
  {
    var w := worlds[n - 1];
    assert StepAt(worlds, steps, n - 1);
    if t < |w.tasks| && r < |w.tasks[t].runs| && !w.tasks[t].runs[r].InFlight? {
      i := CompletedWasPublished(worlds, steps, n - 1, t, r);
    } else {
      i := n - 1;
    }
  }

  /** And nobody is handed anything else: behind a call that ends while the task is not
      cancelled there is such a run, and one that ends after the cancellation gets nothing. */
  lemma {:induction false} OnlyPublishedIsHandedOn(worlds: seq<World>, steps: seq<Step>, j: nat, t: nat, r: nat)
    requires IsRun(worlds, steps) && j < |steps| && HandsOn(worlds, steps, j, t, r)
    ensures !worlds[j].tasks[t].cancelled ==> exists i: nat :: i < j && Publishes(worlds, steps, i, t, r)
    ensures worlds[j].tasks[t].cancelled ==>
              steps[j].caller in worlds[j + 1].callers
              && worlds[j + 1].callers[steps[j].caller] == Returned(t, Some(r), None)
  {
    HandsOnReport(worlds, steps, j, t, r);
    if !worlds[j].tasks[t].cancelled {
      var i := CompletedWasPublished(worlds, steps, j, t, r);
    }
  }

  // ------------------------------------------------------------------- progress

  /** The caller that makes a run. */
  ghost predicate Runs(w: World, c: nat, t: nat, r: nat) {
    && c in w.callers
    && match w.callers[c]
       case Started(task, run) => task == t && run == r
       case Probing(task, run, _, _) => task == t && run == r
       case _ => false
  }

  lemma {:induction false} FlightHasRunner(w: World, t: nat, r: nat) returns (c: nat)
    requires Inv(w) && t < |w.tasks| && r < |w.tasks[t].runs| && w.tasks[t].runs[r].InFlight?
    ensures Runs(w, c, t, r)
  {
    assert TaskFine(w.trace, w.tasks[t]);
    c :| c in w.callers && Owner(w.callers[c]) && w.callers[c].task == t;
    assert CallerOk(w, w.callers[c]);
  }

  /** A waiting caller whose run is still being made. */
  ghost predicate WaitsOn(w: World, c: nat, t: nat, r: nat) {
    && c in w.callers && w.callers[c] == Waiting(t, r)
    && t < |w.tasks| && r < |w.tasks[t].runs| && !w.tasks[t].cancelled && w.tasks[t].runs[r].InFlight?
  }

  /** Probes of a task can be asked for at any time, and are scheduled until it is cancelled. */
  lemma {:induction false} AnyoneCanCall(w: World, c: nat, t: nat)
    requires c !in w.callers && t < |w.tasks|
    ensures Enabled(w, Request(c, t)) && (!w.tasks[t].cancelled ==> Enabled(w, Schedule(c, t)))
    ensures Apply(w, Request(c, t)).callers == w.callers[c := Entering(t)]
  {
  }

  /** No caller is ever stuck: it can go on whatever the clock says and the probe returns, or
      it waits for a run that another caller makes, and that one can. */
  lemma {:induction false} NobodyIsStuck(w: World, c: nat, now: int, sample: Sample) returns (step: Step)
    requires Inv(w) && c in w.callers && !w.callers[c].Returned?
    ensures Enabled(w, step)
    ensures match w.callers[c]
            case Gating(_) => step == Gate(c, now)
            case Entering(_) => step == Enter(c)
            case Started(_, _) => step == Begin(c, now)
            case Probing(_, _, _, _) => step == Publish(c, now, sample)
            case Finished(_, _) => step == Return(c)
            case Waiting(t, r) =>
              if !WaitsOn(w, c, t, r) then step == Wake(c)
              else exists d :: Runs(w, d, t, r) && step in {Begin(d, now), Publish(d, now, sample)}
  {
    assert CallerOk(w, w.callers[c]);
    match w.callers[c]
    case Gating(_) => step := Gate(c, now);
    case Entering(_) => step := Enter(c);
    case Started(_, _) => step := Begin(c, now);
    case Probing(_, _, _, _) => step := Publish(c, now, sample);
    case Finished(_, _) => step := Return(c);
    case Waiting(t, r) =>
      if WaitsOn(w, c, t, r) {
        var d := FlightHasRunner(w, t, r);
        assert CallerOk(w, w.callers[d]);
        step := if w.callers[d].Started? then Begin(d, now) else Publish(d, now, sample);
      } else {
        step := Wake(c);
      }
  }

  /** How far a caller is from its return. */
  ghost function Left(w: World, c: nat): nat
    requires c in w.callers
  {
    match w.callers[c]
    case Gating(_) => 5
    case Entering(_) => 4
    case Started(_, _) => 3
    case Probing(_, _, _, _) => 2
    case Waiting(t, r) =>
      if !WaitsOn(w, c, t, r) then 1 else if exists d :: Runs(w, d, t, r) && w.callers[d].Probing? then 2 else 3
    case Finished(_, _) => 1
    case Returned(_, _, _) => 0
  }

  lemma {:induction false} OwnStepGoesOn(w: World, c: nat, now: int, sample: Sample, step: Step)
    requires Enabled(w, step) && c in w.callers
    requires step in {Gate(c, now), Enter(c), Begin(c, now), Publish(c, now, sample), Return(c), Wake(c)}
    ensures c in Apply(w, step).callers && Left(Apply(w, step), c) < Left(w, c)
  {
  }

  lemma {:induction false} OnlyRunner(w: World, d: nat, t: nat, r: nat)
    requires Inv(w) && Runs(w, d, t, r)
    ensures forall e :: Runs(w, e, t, r) ==> e == d
  {
    assert OwnersUnique(w);
  }

  lemma {:induction false} RunnersStepGoesOn(w: World, c: nat, d: nat, t: nat, r: nat, now: int, sample: Sample,
                                             step: Step)
    requires Enabled(w, step) && WaitsOn(w, c, t, r) && Runs(w, d, t, r) && (forall e :: Runs(w, e, t, r) ==> e == d)
    requires step in {Begin(d, now), Publish(d, now, sample)}
    ensures c in Apply(w, step).callers && Left(Apply(w, step), c) < Left(w, c)
  {
    if step.Begin? {
      assert Runs(Apply(w, step), d, t, r) && Apply(w, step).callers[d].Probing?;
    }
  }

  lemma {:induction false} StepGoesOn(w: World, c: nat, now: int, sample: Sample) returns (step: Step)
    requires Inv(w) && c in w.callers && !w.callers[c].Returned?
    ensures Enabled(w, step) && Inv(Apply(w, step))
    ensures c in Apply(w, step).callers && Left(Apply(w, step), c) < Left(w, c)
  {
    step := NobodyIsStuck(w, c, now, sample);
    if w.callers[c].Waiting? && WaitsOn(w, c, w.callers[c].task, w.callers[c].run) {
      var Waiting(t, r) := w.callers[c];
      var d :| Runs(w, d, t, r) && step in {Begin(d, now), Publish(d, now, sample)};
      OnlyRunner(w, d, t, r);
      RunnersStepGoesOn(w, c, d, t, r, now, sample, step);
    } else {
      OwnStepGoesOn(w, c, now, sample, step);
    }
    StepKeepsInv(w, step);
  }

  /** From every world that a run reaches, every caller can be brought to its return. */
  lemma {:induction false} EveryoneCanReturn(w: World, c: nat, now: int, sample: Sample)
      returns (steps: seq<Step>, w': World)
    requires Inv(w) && c in w.callers
    ensures Leads(w, steps, w') && c in w'.callers && w'.callers[c].Returned?
    decreases Left(w, c)
  {
    if w.callers[c].Returned? {
      LeadsNowhere(w);
      return [], w;
    }
    var step := StepGoesOn(w, c, now, sample);
    steps, w' := EveryoneCanReturn(Apply(w, step), c, now, sample);
    LeadsByOne(w, step);
    LeadsOn(w, [step], Apply(w, step), steps, w');
    steps := [step] + steps;
  }

  /** A completed run adds exactly its one sample if the task is not cancelled and
      the guard saw no break (up to a multiple of 2^32 of them) since the run
      began, and otherwise nothing; no other log changes. */
  lemma {:induction false} PublishAddsOneSampleIff(worlds: seq<World>, steps: seq<Step>, i: nat)
    requires IsRun(worlds, steps) && i < |steps| && steps[i].Publish?
    ensures var w, w', c := worlds[i], worlds[i + 1], steps[i].caller;
      && c in w.callers && w.callers[c].Probing? && w.callers[c].task < |w.tasks| == |w'.tasks|
      && var t := w.callers[c].task;
      && w'.tasks[t].log == w.tasks[t].log +
           (if !w.tasks[t].cancelled && G.BreaksFrom(w'.trace, w.callers[c].seen) % G.UINT32 == 0
            then [steps[i].sample] else [])
      && (forall u :: 0 <= u < |w.tasks| && u != t ==> w'.tasks[u] == w.tasks[u])
  {
    var w, w', c := worlds[i], worlds[i + 1], steps[i].caller;
    RunsKeepInv(worlds, steps, i);
    assert StepAt(worlds, steps, i);
    assert CallerOk(w, w.callers[c]);
    var Probing(t, r, generation, seen) := w.callers[c];
    assert w'.trace[..seen] == w.trace[..seen];
    RecordingIsVouched(w.tasks[t], r, seen, w'.trace, steps[i].sample);
  }

  /** Behind every recorded sample: between the two snapshots of its run the guard
      was not shut down and no two successive observations were more than 20
      seconds apart, unless there were at least 2^32 such breaks. */
  lemma {:induction false} RecordedWhileAwake(worlds: seq<World>, steps: seq<Step>, i: nat, t: nat, r: nat)
    requires IsRun(worlds, steps) && i < |worlds|
    requires t < |worlds[i].tasks| && r < |worlds[i].tasks[t].runs| && worlds[i].tasks[t].runs[r].Recorded?
    ensures var run, trace := worlds[i].tasks[t].runs[r], worlds[i].trace;
      && 0 < run.seen <= run.published <= |trace|
      && (G.BreaksFrom(trace[..run.published], run.seen) < G.UINT32 ==>
            forall k :: run.seen <= k < run.published ==> G.IsOnTime(trace, k))
  {
    RunsKeepInv(worlds, steps, i);
    var w, run := worlds[i], worlds[i].tasks[t].runs[r];
    var stretch := w.trace[..run.published];
    assert TaskFine(w.trace, w.tasks[t]);
    assert Vouched(w.trace, run);
    assert stretch[..run.seen] == w.trace[..run.seen];
    G.NoBreaksIffUnbroken(stretch, run.seen);
    G.PrefixWellFormed(w.trace, run.published);
    G.UnbrokenMeansOnTime(stretch, run.seen);
    if G.BreaksFrom(stretch, run.seen) < G.UINT32 {
      forall k | run.seen <= k < run.published ensures G.IsOnTime(w.trace, k) {
        assert G.IsOnTime(stretch, k);
      }
    }
  }

  /** The gate lets a scheduled probe pass exactly when every gap the running guard
      detected since it was started is at least 10 seconds old. */
  lemma {:induction false} GateHoldsAfterGap(worlds: seq<World>, steps: seq<Step>, i: nat)
    requires IsRun(worlds, steps) && i < |steps| && steps[i].Gate?
    requires G.Running(worlds[i].trace) && G.Ordered(worlds[i + 1].trace)
    ensures var trace := worlds[i + 1].trace;
      && steps[i].caller in worlds[i + 1].callers
      && |trace| > 0 && trace[|trace| - 1] == G.Observed(steps[i].now)
      && (worlds[i + 1].callers[steps[i].caller].Entering? <==> G.GapsAreOld(trace, 0, steps[i].now))
  {
    assert StepAt(worlds, steps, i);
    G.AllowedIffGapsAreOld(worlds[i + 1].trace);
  }

  lemma {:induction false} TracesGrow(worlds: seq<World>, steps: seq<Step>, i: nat, j: nat)
    requires IsRun(worlds, steps) && i <= j < |worlds|
    ensures worlds[i].trace <= worlds[j].trace
  {
    if i == j {
    } else {
      TracesGrow(worlds, steps, i, j - 1);
      assert StepAt(worlds, steps, j - 1);
      TraceGrows(worlds[j - 1], steps[j - 1]);
    }
  }

  lemma {:induction false} PassedIsAllowed(worlds: seq<World>, steps: seq<Step>, i: nat)
    requires IsRun(worlds, steps) && i < |steps| && steps[i].Gate?
    requires steps[i].caller in worlds[i + 1].callers && worlds[i + 1].callers[steps[i].caller].Entering?
    ensures G.Allowed(worlds[i + 1].trace)
  {
    assert StepAt(worlds, steps, i);
  }

  lemma {:induction false} StartObserves(worlds: seq<World>, steps: seq<Step>, j: nat)
    requires IsRun(worlds, steps) && j < |steps| && steps[j].Begin? && G.Running(worlds[j].trace)
    ensures worlds[j + 1].trace == worlds[j].trace + [G.Observed(steps[j].now)]
    ensures steps[j].caller in worlds[j + 1].callers && worlds[j + 1].callers[steps[j].caller].Probing?
  {
    assert StepAt(worlds, steps, j);
  }

  /** When a probe starts that passed its gate, every gap of the running guard is at least
      10 seconds old if and only if every one detected since the gate is: the probe can
      only start too early after a gap that the gate did not see. */
  lemma {:induction false} StartsAfterGapsIff(worlds: seq<World>, steps: seq<Step>, i: nat, j: nat)
    requires IsRun(worlds, steps) && i < j < |steps| && steps[i].Gate? && steps[j].Begin?
    requires steps[i].caller == steps[j].caller
    requires steps[i].caller in worlds[i + 1].callers && worlds[i + 1].callers[steps[i].caller].Entering?
    requires G.Running(worlds[j].trace) && G.Ordered(worlds[j + 1].trace)
    ensures var trace, now, gate := worlds[j + 1].trace, steps[j].now, |worlds[i + 1].trace|;
      && worlds[i + 1].trace < trace && trace[|trace| - 1] == G.Observed(now)
      && steps[j].caller in worlds[j + 1].callers && worlds[j + 1].callers[steps[j].caller].Probing?
      && (G.GapsAreOld(trace, 0, now) <==> G.GapsAreOld(trace, gate, now))
  {
    PassedIsAllowed(worlds, steps, i);
    TracesGrow(worlds, steps, i + 1, j);
    StartObserves(worlds, steps, j);
    TraceIsWellFormed(worlds, steps, j + 1);
    assert worlds[j + 1].trace[..|worlds[i + 1].trace|] == worlds[i + 1].trace;
    G.GapsSincePermission(worlds[j + 1].trace, |worlds[i + 1].trace|);
  }

  lemma {:induction false} TraceIsWellFormed(worlds: seq<World>, steps: seq<Step>, n: nat)
    requires IsRun(worlds, steps) && n < |worlds|
    ensures G.WellFormed(worlds[n].trace)
  {
    RunsKeepInv(worlds, steps, n);
  }

  const MONITOR := Config("m", "host", "tcp", 80, 60)
  const RESUMED := 1_000_000_000_000

  /** A monitor is created, its schedule comes up, and the gate lets it pass. */
  lemma {:induction false} PassesGate(w1: World, w2: World, w3: World)
    requires w1 == World([NewTask(MONITOR)], map[], [G.Began(0)], map["m" := 0], Idle)
    requires w2 == w1.(callers := map[0 := Gating(0)])
    requires w3 == w1.(callers := map[0 := Entering(0)], trace := [G.Began(0), G.Observed(1_000_000_000)])
    ensures IsPath([INITIAL, w1, w2, w3], [Create(MONITOR, 0), Schedule(0, 0), Gate(0, 1_000_000_000)])
  {
    var worlds, steps := [INITIAL, w1, w2, w3], [Create(MONITOR, 0), Schedule(0, 0), Gate(0, 1_000_000_000)];
    FirstMonitor(w1);
    AtGate(w2, w3);
    assert StepAt(worlds, steps, 0) && StepAt(worlds, steps, 1) && StepAt(worlds, steps, 2);
  }

  lemma {:induction false} FirstMonitor(w1: World)
    requires w1 == World([NewTask(MONITOR)], map[], [G.Began(0)], map["m" := 0], Idle)
    ensures Enabled(INITIAL, Create(MONITOR, 0)) && Apply(INITIAL, Create(MONITOR, 0)) == w1
  {
  }

  lemma {:induction false} AtGate(w2: World, w3: World)
    requires w2 == World([NewTask(MONITOR)], map[0 := Gating(0)], [G.Began(0)], map["m" := 0], Idle)
    requires w3 == w2.(callers := map[0 := Entering(0)], trace := [G.Began(0), G.Observed(1_000_000_000)])
    ensures Enabled(w2, Gate(0, 1_000_000_000)) && Apply(w2, Gate(0, 1_000_000_000)) == w3
  {
    assert w3.trace == w2.trace + [G.Observed(1_000_000_000)] && w3.trace[..1] == [G.Began(0)];
    assert G.PauseUntil(w3.trace) == G.PauseUntil([G.Began(0)]) == None;
  }

  /** The heartbeat detects the gap, and the probe starts. */
  lemma {:induction false} StartsAnyway(w3: World, w4: World, w5: World, w6: World)
    requires w3 == World([NewTask(MONITOR)], map[0 := Entering(0)], [G.Began(0), G.Observed(1_000_000_000)],
                         map["m" := 0], Idle)
    requires w4 == w3.(trace := w3.trace + [G.Observed(RESUMED)])
    requires w5 == w4.(tasks := [StartRun(NewTask(MONITOR))], callers := map[0 := Started(0, 0)])
    requires w6 == w5.(trace := w5.trace + [G.Observed(RESUMED)],
                       callers := map[0 := Probing(0, 0, G.Generation(w5.trace + [G.Observed(RESUMED)]), 4)])
    ensures IsPath([w3, w4, w5, w6], [Beat(RESUMED), Enter(0), Begin(0, RESUMED)])
  {
    assert |w6.trace| == 4;
    var worlds, steps := [w3, w4, w5, w6], [Beat(RESUMED), Enter(0), Begin(0, RESUMED)];
    assert StepAt(worlds, steps, 0) && StepAt(worlds, steps, 1) && StepAt(worlds, steps, 2);
  }

  /** Such a gap is possible: a machine suspended between the gate and the start of the
      probe starts it right after resuming. */
  lemma {:induction false} StartCanFollowGap() returns (worlds: seq<World>, steps: seq<Step>)
    ensures IsRun(worlds, steps) && |steps| == 6 && steps[2].Gate? && steps[5] == Begin(0, RESUMED)
    ensures G.Running(worlds[5].trace) && 0 in worlds[6].callers && worlds[6].callers[0].Probing?
    ensures worlds[6].trace == [G.Began(0), G.Observed(1_000_000_000), G.Observed(RESUMED), G.Observed(RESUMED)]
    ensures G.Ordered(worlds[6].trace) && G.IsCurrentGap(worlds[6].trace, 2)
  {
    var w1 := World([NewTask(MONITOR)], map[], [G.Began(0)], map["m" := 0], Idle);
    var w2 := w1.(callers := map[0 := Gating(0)]);
    var w3 := w1.(callers := map[0 := Entering(0)], trace := [G.Began(0), G.Observed(1_000_000_000)]);
    var w4 := w3.(trace := w3.trace + [G.Observed(RESUMED)]);
    var w5 := w4.(tasks := [StartRun(NewTask(MONITOR))], callers := map[0 := Started(0, 0)]);
    var trace := w5.trace + [G.Observed(RESUMED)];
    var w6 := w5.(trace := trace, callers := map[0 := Probing(0, 0, G.Generation(trace), 4)]);
    PassesGate(w1, w2, w3);
    StartsAnyway(w3, w4, w5, w6);
    var first, second := [INITIAL, w1, w2, w3], [w3, w4, w5, w6];
    var gate := [Create(MONITOR, 0), Schedule(0, 0), Gate(0, 1_000_000_000)];
    var start := [Beat(RESUMED), Enter(0), Begin(0, RESUMED)];
    JoinPaths(first, gate, second, start);
    worlds, steps := first + second[1..], gate + start;
  }

  /** The replacement of a task starts with everything recorded up to its
      cancellation, whatever ran in between. */
  lemma {:induction false} ReplacementInheritsEverything(worlds: seq<World>, steps: seq<Step>, k: nat, i: nat)
    requires IsRun(worlds, steps) && k < i < |steps| && steps[k].Cancel? && steps[i].Replace?
    requires forall j :: k < j < i ==> !steps[j].Replace?
    ensures Enabled(worlds[k], steps[k])
    ensures |worlds[i + 1].tasks| == |worlds[i].tasks| + 1
    ensures worlds[i + 1].tasks[|worlds[i].tasks|].log == worlds[k].tasks[worlds[k].monitors[steps[k].config.id]].log
    ensures worlds[i + 1].tasks[|worlds[i].tasks|].config == steps[k].config
  {
    assert StepAt(worlds, steps, k) && StepAt(worlds, steps, i);
    ManagerWaits(worlds, steps, k, i);
    RunsKeepInv(worlds, steps, i);
    CopyIsFrozenLog(worlds[i], steps[i].now);
  }

  lemma {:induction false} CopyIsFrozenLog(w: World, now: int)
    requires RegistryOk(w) && Enabled(w, Replace(now))
    ensures var w' := Apply(w, Replace(now));
      && |w'.tasks| == |w.tasks| + 1
      && w'.tasks[|w.tasks|].log == w.manager.frozen
      && w'.tasks[|w.tasks|].config == w.manager.config
  {
  }

  lemma {:induction false} ManagerWaits(worlds: seq<World>, steps: seq<Step>, k: nat, i: nat)
    requires IsRun(worlds, steps) && k < i <= |steps| && steps[k].Cancel?
    requires forall j :: k < j < i ==> !steps[j].Replace?
    ensures worlds[i].manager == worlds[k + 1].manager
    decreases i
  {
    if k + 1 < i {
      ManagerWaits(worlds, steps, k, i - 1);
      assert StepAt(worlds, steps, i - 1);
    }
    assert StepAt(worlds, steps, k);
  }

  /** The samples recorded for a monitor by a task and all the tasks it replaced. */
  function RecordedInLineage(tasks: seq<Task>, t: nat): nat
    requires t < |tasks|
  {
    RecordedRuns(tasks[t].runs) +
    if tasks[t].parent.Some? && tasks[t].parent.value < t then RecordedInLineage(tasks, tasks[t].parent.value) else 0
  }

  lemma {:induction false} LineageConserves(w: World, t: nat)
    requires Inv(w) && t < |w.tasks|
    ensures |w.tasks[t].log| == RecordedInLineage(w.tasks, t)
  {
    assert TaskFine(w.trace, w.tasks[t]) && LineageOk(w, t);
    if w.tasks[t].parent.Some? {
      LineageConserves(w, w.tasks[t].parent.value);
    }
  }

  /** Reconfiguring a monitor neither loses nor duplicates samples: the log of a
      task has one sample per recorded run of the task and of all it replaced. */
  lemma {:induction false} SamplesConserved(worlds: seq<World>, steps: seq<Step>, i: nat, t: nat)
    requires IsRun(worlds, steps) && i < |worlds| && t < |worlds[i].tasks|
    ensures |worlds[i].tasks[t].log| == RecordedInLineage(worlds[i].tasks, t)
  {
    RunsKeepInv(worlds, steps, i);
    LineageConserves(worlds[i], t);
  }

  // ------------------------------------------------------------ reachable worlds

  ghost predicate Reachable(w: World) {
    exists worlds, steps :: IsRun(worlds, steps) && worlds[|steps|] == w
  }

  /** An operation that is a run of protocol steps keeps to the worlds that runs reach, so
      everything proved of runs holds after it, whatever callers there are. */
  lemma {:induction false} LeadsStaysReachable(w: World, steps: seq<Step>, w': World)
    requires Reachable(w) && Leads(w, steps, w')
    ensures Reachable(w') && Inv(w')
  {
    var worlds, before :| IsRun(worlds, before) && worlds[|before|] == w;
    var more :| IsPath(more, steps) && more[0] == w && more[|steps|] == w';
    JoinPaths(worlds, before, more, steps);
    var all := worlds + more[1..];
    assert IsRun(all, before + steps) && all[|before + steps|] == w';
    RunsKeepInv(all, before + steps, |before + steps|);
  }
}
