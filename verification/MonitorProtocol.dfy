/** Probes, cancellation, replacement and the resume guard as one concurrent
    protocol (agent/network_monitor_task.go, network_monitor.go,
    network_monitor_resume.go, network_monitor_schedule.go).

    A world holds every task ever created, every caller of runProbe and the trace
    of the guard. Each critical section is one step, and steps of all callers, of
    the heartbeat and of the manager interleave freely; a probe itself runs
    between the step that starts it and the step that publishes it. */
module MonitorProtocol {
  import opened Common
  import opened MonitorHistory
  import G = ResumeGuard

  datatype Config = Config(id: string, target: string, protocol: string, port: nat, interval: nat)

  /** A run that recorded a sample reports the log ending with that sample. `seen`
      and `published` are the lengths of the guard's trace after its two snapshots. */
  datatype Run =
    | InFlight
    | Discarded
    | Recorded(report: seq<Sample>, seen: nat, published: nat)

  datatype Task = Task(config: Config, parent: Option<nat>, inherited: nat,
                       cancelled: bool, inflight: Option<nat>, runs: seq<Run>, log: seq<Sample>)

  datatype Caller =
    | Gating(task: nat)
    | Entering(task: nat)
    | Started(task: nat, run: nat)
    | Probing(task: nat, run: nat, generation: nat, seen: nat)
    | Waiting(task: nat, run: nat)
    | Finished(task: nat, run: nat)
    | Returned(task: nat, via: Option<nat>, report: Option<seq<Sample>>)

  /** A replacement in progress: the old task is cancelled, its copy not made yet.
      `frozen` is the log at the moment of cancellation. */
  datatype Manager = Idle | Replacing(config: Config, replaced: nat, frozen: seq<Sample>)

  datatype World = World(tasks: seq<Task>, callers: map<nat, Caller>, trace: seq<G.Event>,
                         monitors: map<string, nat>, manager: Manager)

  const INITIAL := World([], map[], [], map[], Idle)

  // --------------------------------------------------------------------- steps

  datatype Step =
    | Schedule(caller: nat, task: nat)
    | Request(caller: nat, task: nat)
    | Gate(caller: nat, now: int)
    | Enter(caller: nat)
    | Begin(caller: nat, now: int)
    | Publish(caller: nat, now: int, sample: Sample)
    | Return(caller: nat)
    | Wake(caller: nat)
    | Beat(now: int)
    | Create(config: Config, now: int)
    | Cancel(config: Config)
    | Replace(now: int)
    | Remove(id: string)
    | Shutdown

  /** The steps of callers and of the heartbeat. */
  predicate IsProbing(step: Step) {
    !step.Create? && !step.Cancel? && !step.Replace? && !step.Remove? && !step.Shutdown?
  }

  predicate Known(w: World, c: nat) {
    c in w.callers && w.callers[c].task < |w.tasks|
  }

  predicate Enabled(w: World, step: Step) {
    match step
    case Schedule(c, t) => c !in w.callers && t < |w.tasks| && !w.tasks[t].cancelled
    case Request(c, t) => c !in w.callers && t < |w.tasks|
    case Gate(c, _) => Known(w, c) && w.callers[c].Gating?
    case Enter(c) => Known(w, c) && w.callers[c].Entering?
    case Begin(c, _) => Known(w, c) && w.callers[c].Started?
    case Publish(c, _, _) => Known(w, c) && w.callers[c].Probing?
                             && w.callers[c].run < |w.tasks[w.callers[c].task].runs|
    case Return(c) => Known(w, c) && w.callers[c].Finished? && w.callers[c].run < |w.tasks[w.callers[c].task].runs|
    case Wake(c) =>
      && Known(w, c) && w.callers[c].Waiting?
      && w.callers[c].run < |w.tasks[w.callers[c].task].runs|
      && (w.tasks[w.callers[c].task].cancelled || !w.tasks[w.callers[c].task].runs[w.callers[c].run].InFlight?)
    case Beat(_) => G.Running(w.trace)
    case Create(config, _) => w.manager.Idle? && config.id != "" && config.id !in w.monitors
    case Cancel(config) =>
      && w.manager.Idle? && config.id in w.monitors && w.monitors[config.id] < |w.tasks|
      && w.tasks[w.monitors[config.id]].config != config
    case Replace(_) => w.manager.Replacing? && w.manager.replaced < |w.tasks|
    case Remove(id) => w.manager.Idle? && id in w.monitors && w.monitors[id] < |w.tasks|
    case Shutdown => w.manager.Idle? && w.monitors == map[]
  }

  /** What a caller gets: the log its result was computed from, or nothing. */
  function ReportOf(task: Task, r: nat): Option<seq<Sample>>
    requires r < |task.runs|
  {
    if task.cancelled || !task.runs[r].Recorded? then None else Some(task.runs[r].report)
  }

  function WithTask(w: World, t: nat, task: Task): World
    requires t < |w.tasks|
  {
    w.(tasks := w.tasks[t := task])
  }

  function WithCaller(w: World, c: nat, caller: Caller): World {
    w.(callers := w.callers[c := caller])
  }

  function GuardStarted(trace: seq<G.Event>, now: int): seq<G.Event> {
    if G.Running(trace) then trace else trace + [G.Began(now)]
  }

  function StartRun(task: Task): Task {
    task.(inflight := Some(|task.runs|), runs := task.runs + [InFlight])
  }

  /** The end of a run under the task's lock: the sample counts only if the task is
      not cancelled and the guard's generation is still the one the run started with. */
  function FinishRun(task: Task, run: nat, generation: nat, seen: nat, trace: seq<G.Event>, sample: Sample): Task
    requires run < |task.runs|
  {
    if !task.cancelled && generation == G.Generation(trace) then
      var log := task.log + [sample];
      task.(inflight := None, log := log, runs := task.runs[run := Recorded(log, seen, |trace|)])
    else
      task.(inflight := None, runs := task.runs[run := Discarded])
  }

  function NewTask(config: Config): Task {
    Task(config, None, 0, false, None, [], [])
  }

  function CopyOf(config: Config, replaced: nat, task: Task): Task {
    NewTask(config).(parent := Some(replaced), inherited := |task.log|, log := task.log)
  }

  function Apply(w: World, step: Step): World
    requires Enabled(w, step)
  {
    match step
    case Schedule(c, t) => WithCaller(w, c, Gating(t))
    case Request(c, t) => WithCaller(w, c, Entering(t))
    case Gate(c, now) =>
      var t := w.callers[c].task;
      var trace := G.AfterSnapshot(w.trace, now);
      WithCaller(w, c, if G.Allowed(trace) then Entering(t) else Returned(t, None, None)).(trace := trace)
    case Enter(c) =>
      var t := w.callers[c].task;
      var task := w.tasks[t];
      if task.cancelled then WithCaller(w, c, Returned(t, None, None))
      else if task.inflight.Some? then WithCaller(w, c, Waiting(t, task.inflight.value))
      else WithCaller(WithTask(w, t, StartRun(task)), c, Started(t, |task.runs|))
    case Begin(c, now) =>
      var trace := G.AfterSnapshot(w.trace, now);
      WithCaller(w, c, Probing(w.callers[c].task, w.callers[c].run, G.Generation(trace), |trace|)).(trace := trace)
    case Publish(c, now, sample) =>
      var Probing(t, r, generation, seen) := w.callers[c];
      var trace := G.AfterSnapshot(w.trace, now);
      var task := FinishRun(w.tasks[t], r, generation, seen, trace, sample);
      WithCaller(WithTask(w, t, task), c, Finished(t, r)).(trace := trace)
    case Return(c) =>
      var Finished(t, r) := w.callers[c];
      WithCaller(w, c, Returned(t, Some(r), ReportOf(w.tasks[t], r)))
    case Wake(c) =>
      var Waiting(t, r) := w.callers[c];
      WithCaller(w, c, Returned(t, Some(r), ReportOf(w.tasks[t], r)))
    case Beat(now) => w.(trace := w.trace + [G.Observed(now)])
    case Create(config, now) =>
      w.(tasks := w.tasks + [NewTask(config)], monitors := w.monitors[config.id := |w.tasks|],
         trace := GuardStarted(w.trace, now))
    case Cancel(config) =>
      var replaced := w.monitors[config.id];
      var task := w.tasks[replaced];
      WithTask(w, replaced, task.(cancelled := true)).(manager := Replacing(config, replaced, task.log))
    case Replace(now) =>
      var Replacing(config, replaced, _) := w.manager;
      w.(tasks := w.tasks + [CopyOf(config, replaced, w.tasks[replaced])],
         monitors := w.monitors[config.id := |w.tasks|],
         trace := GuardStarted(w.trace, now), manager := Idle)
    case Remove(id) =>
      var replaced := w.monitors[id];
      WithTask(w, replaced, w.tasks[replaced].(cancelled := true)).(monitors := w.monitors - {id})
    case Shutdown =>
      w.(trace := if G.Running(w.trace) then w.trace + [G.Ended] else w.trace)
  }

  // ---------------------------------------------------------------------- runs

  ghost predicate StepAt(worlds: seq<World>, steps: seq<Step>, i: nat)
    requires |worlds| == |steps| + 1 && i < |steps|
  {
    Enabled(worlds[i], steps[i]) && worlds[i + 1] == Apply(worlds[i], steps[i])
  }

  /** Worlds joined by enabled steps. */
  ghost predicate IsPath(worlds: seq<World>, steps: seq<Step>) {
    |worlds| == |steps| + 1 && forall i :: 0 <= i < |steps| ==> StepAt(worlds, steps, i)
  }

  /** Steps that go from one world to another. */
  ghost predicate Leads(w: World, steps: seq<Step>, w': World) {
    exists worlds :: IsPath(worlds, steps) && worlds[0] == w && worlds[|steps|] == w'
  }

  lemma {:induction false} LeadsNowhere(w: World)
    ensures Leads(w, [], w)
  {
    assert IsPath([w], []);
  }

  lemma {:induction false} LeadsByOne(w: World, step: Step)
    requires Enabled(w, step)
    ensures Leads(w, [step], Apply(w, step))
  {
    var worlds := [w, Apply(w, step)];
    assert StepAt(worlds, [step], 0);
    assert IsPath(worlds, [step]);
  }

  lemma {:induction false} JoinPaths(first: seq<World>, steps: seq<Step>, second: seq<World>, more: seq<Step>)
    requires IsPath(first, steps) && IsPath(second, more) && first[|steps|] == second[0]
    ensures IsPath(first + second[1..], steps + more)
  {
    var worlds, all := first + second[1..], steps + more;
    forall i | 0 <= i < |all| ensures StepAt(worlds, all, i) {
      if i < |steps| {
        assert StepAt(first, steps, i);
        assert all[i] == steps[i] && worlds[i] == first[i] && worlds[i + 1] == first[i + 1];
      } else {
        var j := i - |steps|;
        assert StepAt(second, more, j);
        assert all[i] == more[j] && worlds[i] == second[j] && worlds[i + 1] == second[j + 1];
      }
    }
  }

  lemma {:induction false} LeadsOn(w: World, steps: seq<Step>, w': World, more: seq<Step>, w'': World)
    requires Leads(w, steps, w') && Leads(w', more, w'')
    ensures Leads(w, steps + more, w'')
  {
    var first :| IsPath(first, steps) && first[0] == w && first[|steps|] == w';
    var second :| IsPath(second, more) && second[0] == w' && second[|more|] == w'';
    JoinPaths(first, steps, second, more);
  }
}
