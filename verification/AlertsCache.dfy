/** The cache of each system's alerts (internal/alerts/alerts_cache.go), against any
    interleaving of commits, their events delivered late but in order, lazy loads and
    populations. A load's query, its clearing of the store and each stored row are
    separate steps under the lock. */
module AlertsCache {
  import opened Common

  /** `data` stands for the fields of the record that are cached. */
  datatype Alert = Alert(system: string, data: string)

  type Store = map<string, map<string, string>>

  datatype Event = Event(id: string, system: string, data: Option<string>)

  datatype Load =
    | Idle
    | Lazy(system: string, rows: map<string, string>)
    | Queried(all: map<string, Alert>)
    | Filling(todo: map<string, Alert>)

  datatype World = World(db: map<string, Alert>, store: Store, populated: bool, queue: seq<Event>, load: Load)

  datatype Step =
    | Save(id: string, alert: Alert)
    | Delete(id: string)
    | Deliver
    | QuerySystem(system: string)
    | StoreSystem
    | QueryAll
    | Clear
    | Fill(id: string)
    | Populated
    | Fail

  // ------------------------------------------------------------ the cache's parts

  function AlertsOf(db: map<string, Alert>, system: string): map<string, string> {
    map id | id in db && db[id].system == system :: db[id].data
  }

  function SystemStore(store: Store, system: string): map<string, string> {
    if system in store then store[system] else map[]
  }

  /** Storing one alert; records without a system are passed over. */
  function Update(store: Store, id: string, alert: Alert): Store {
    if alert.system == "" then store
    else store[alert.system := SystemStore(store, alert.system)[id := alert.data]]
  }

  /** Removing one alert from the store of the system its record names. */
  function Remove(store: Store, id: string, system: string): Store {
    if system == "" || system !in store then store else store[system := store[system] - {id}]
  }

  function Handle(store: Store, event: Event): Store {
    if event.data.Some? then Update(store, event.id, Alert(event.system, event.data.value))
    else Remove(store, event.id, event.system)
  }

  // -------------------------------------------------------------------- the steps

  predicate CanTake(w: World, step: Step) {
    match step
    case Save(_, _) => true
    case Delete(id) => id in w.db
    case Deliver => |w.queue| > 0 && w.load.Idle?
    case QuerySystem(system) => w.load.Idle? && system !in w.store
    case StoreSystem => w.load.Lazy?
    case QueryAll => w.load.Idle?
    case Clear => w.load.Queried?
    case Fill(id) => w.load.Filling? && id in w.load.todo
    case Populated => w.load.Filling? && w.load.todo == map[]
    case Fail => w.load.Lazy? || w.load.Queried?
  }

  function Take(w: World, step: Step): World
    requires CanTake(w, step)
  {
    match step
    case Save(id, alert) =>
      w.(db := w.db[id := alert], queue := w.queue + [Event(id, alert.system, Some(alert.data))])
    case Delete(id) => w.(db := w.db - {id}, queue := w.queue + [Event(id, w.db[id].system, None)])
    case Deliver => w.(store := Handle(w.store, w.queue[0]), queue := w.queue[1..])
    case QuerySystem(system) => w.(load := Lazy(system, AlertsOf(w.db, system)))
    case StoreSystem => w.(store := w.store[w.load.system := w.load.rows], load := Idle)
    case QueryAll => w.(load := Queried(w.db))
    case Clear => w.(store := map[], load := Filling(w.load.all))
    case Fill(id) => w.(store := Update(w.store, id, w.load.todo[id]), load := Filling(w.load.todo - {id}))
    case Populated => w.(populated := true, load := Idle)
    case Fail => w.(load := Idle)
  }

  ghost predicate StepAt(worlds: seq<World>, steps: seq<Step>, i: nat)
    requires i < |steps| && |worlds| == |steps| + 1
  {
    CanTake(worlds[i], steps[i]) && worlds[i + 1] == Take(worlds[i], steps[i])
  }

  /** A run from an empty cache. */
  ghost predicate IsRun(worlds: seq<World>, steps: seq<Step>) {
    && |worlds| == |steps| + 1
    && worlds[0].store == map[] && worlds[0].queue == [] && worlds[0].load.Idle? && !worlds[0].populated
    && forall i: nat :: i < |steps| ==> StepAt(worlds, steps, i)
  }

  // ------------------------------------------------------------------ one alert

  function Find(alerts: map<string, string>, id: string): Option<string> {
    if id in alerts then Some(alerts[id]) else None
  }

  function InDb(db: map<string, Alert>, system: string, id: string): Option<string> {
    if id in db && db[id].system == system then Some(db[id].data) else None
  }

  predicate Concerns(event: Event, system: string, id: string) {
    event.system == system && event.id == id
  }

  predicate Pending(queue: seq<Event>, system: string, id: string) {
    exists i :: 0 <= i < |queue| && Concerns(queue[i], system, id)
  }

  /** What the events leave of one alert, given what is stored now. */
  function Replay(queue: seq<Event>, system: string, id: string, stored: Option<string>): Option<string>
    decreases |queue|
  {
    if |queue| == 0 then stored
    else if Concerns(queue[|queue| - 1], system, id) then queue[|queue| - 1].data
    else Replay(queue[..|queue| - 1], system, id, stored)
  }

  function Cached(w: World, system: string, id: string): Option<string> {
    Find(SystemStore(w.store, system), id)
  }

  /** A load in progress that will replace what is stored for a system. */
  predicate Loads(w: World, system: string) {
    w.load.Queried? || w.load.Filling? || (w.load.Lazy? && w.load.system == system)
  }

  /** What the load in progress will leave of one alert. */
  function Loaded(w: World, system: string, id: string): Option<string>
    requires Loads(w, system)
  {
    match w.load
    case Lazy(_, rows) => Find(rows, id)
    case Queried(all) => InDb(all, system, id)
    case Filling(todo) => if InDb(todo, system, id).Some? then InDb(todo, system, id) else Cached(w, system, id)
  }

  // -------------------------------------------------------------- alerts left behind

  /** A save that moves an alert out of a system. Its event names the new system only. */
  predicate MovesOut(w: World, step: Step, system: string, id: string) {
    step.Save? && step.id == id && id in w.db && w.db[id].system == system && step.alert.system != system
  }

  /** A commit whose event says how an alert of a system now is. */
  predicate Settles(w: World, step: Step, system: string, id: string) {
    || (step.Save? && step.id == id && step.alert.system == system)
    || (step.Delete? && step.id == id && id in w.db && w.db[id].system == system)
  }

  /** Whether an alert was moved out of a system and not settled since; and then whether
      what is stored, or about to be, still has it there. */
  datatype Lag = Lag(gone: bool, stored: bool, loading: bool)

  const CURRENT := Lag(false, false, false)

  /** Moving an alert out leaves it behind, settling it ends that, and so does a load that
      is queried afterwards, unless events of the alert were still pending then. */
  ghost function LagAfter(w: World, step: Step, system: string, id: string, lag: Lag): Lag
    requires CanTake(w, step)
  {
    if MovesOut(w, step, system, id) then Lag(true, true, true)
    else if Settles(w, step, system, id) then CURRENT
    else if step == QueryAll || step == QuerySystem(system)
    then lag.(loading := lag.gone && Pending(w.queue, system, id))
    else if step == Populated || (step == StoreSystem && w.load.system == system) then lag.(stored := lag.loading)
    else lag
  }

  ghost function LagAt(worlds: seq<World>, steps: seq<Step>, n: nat, system: string, id: string): Lag
    requires IsRun(worlds, steps) && n <= |steps|
  {
    if n == 0 then CURRENT
    else
      assert StepAt(worlds, steps, n - 1);
      LagAfter(worlds[n - 1], steps[n - 1], system, id, LagAt(worlds, steps, n - 1, system, id))
  }

  /** What the events will make of the stored alert, of the loaded one, and of one loaded
      now, is what the database holds, each if and only if it is not left behind. */
  ghost predicate AgreesBut(w: World, system: string, id: string, lag: Lag) {
    && (lag.stored || lag.loading ==> lag.gone) && (lag.gone ==> InDb(w.db, system, id).None?)
    && (Replay(w.queue, system, id, InDb(w.db, system, id)) == InDb(w.db, system, id) <==>
        !(lag.gone && Pending(w.queue, system, id)))
    && (w.populated && !w.load.Filling? ==>
          (Replay(w.queue, system, id, Cached(w, system, id)) == InDb(w.db, system, id) <==> !lag.stored))
    && (Loads(w, system) ==>
          (Replay(w.queue, system, id, Loaded(w, system, id)) == InDb(w.db, system, id) <==> !lag.loading))
  }

  /** Nothing left behind. */
  ghost predicate Agrees(w: World, system: string, id: string) {
    AgreesBut(w, system, id, CURRENT)
  }

  ghost predicate Coherent(w: World) {
    forall system, id :: system != "" ==> Agrees(w, system, id)
  }

  lemma {:induction false} ReplayNext(queue: seq<Event>, event: Event, system: string, id: string,
                                      stored: Option<string>)
    ensures Replay(queue + [event], system, id, stored) ==
            if Concerns(event, system, id) then event.data else Replay(queue, system, id, stored)
  {
    assert (queue + [event])[..|queue|] == queue;
  }

  lemma {:induction false} ReplayFirst(queue: seq<Event>, system: string, id: string, stored: Option<string>)
    requires |queue| > 0
    ensures Replay(queue, system, id, stored) ==
            Replay(queue[1..], system, id, if Concerns(queue[0], system, id) then queue[0].data else stored)
    decreases |queue|
  {
    var last := |queue| - 1;
    if last > 0 && !Concerns(queue[last], system, id) {
      ReplayFirst(queue[..last], system, id, stored);
      assert queue[..last][1..] == queue[1..][..last - 1];
    }
  }

  lemma {:induction false} ReplayOver(queue: seq<Event>, system: string, id: string, stored: Option<string>)
    requires !Pending(queue, system, id)
    ensures Replay(queue, system, id, stored) == stored
    decreases |queue|
  {
    if |queue| == 0 {
    } else {
      var front := queue[..|queue| - 1];
      assert forall i :: 0 <= i < |front| ==> front[i] == queue[i];
      ReplayOver(front, system, id, stored);
    }
  }

  lemma {:induction false} ReplayKnown(queue: seq<Event>, system: string, id: string, stored: Option<string>,
                                       value: Option<string>)
    requires Replay(queue, system, id, stored) == value
    ensures Replay(queue, system, id, value) == value
    decreases |queue|
  {
    if |queue| > 0 && !Concerns(queue[|queue| - 1], system, id) {
      ReplayKnown(queue[..|queue| - 1], system, id, stored, value);
    }
  }

  lemma {:induction false} HandleOne(store: Store, event: Event, system: string, id: string)
    requires system != ""
    ensures Find(SystemStore(Handle(store, event), system), id) ==
            if Concerns(event, system, id) then event.data else Find(SystemStore(store, system), id)
  {
  }

  // --------------------------------------------------------------- whole runs

  lemma {:induction false} PendingNext(queue: seq<Event>, event: Event, system: string, id: string)
    ensures Pending(queue + [event], system, id) <==> Pending(queue, system, id) || Concerns(event, system, id)
  {
    var longer := queue + [event];
    if i :| 0 <= i < |queue| && Concerns(queue[i], system, id) {
      assert Concerns(longer[i], system, id);
    }
    if Concerns(event, system, id) {
      assert Concerns(longer[|queue|], system, id);
    }
  }

  lemma {:induction false} PendingFirst(queue: seq<Event>, system: string, id: string)
    requires |queue| > 0
    ensures Pending(queue, system, id) <==> Concerns(queue[0], system, id) || Pending(queue[1..], system, id)
  {
    if i :| 0 <= i < |queue| && Concerns(queue[i], system, id) {
      assert i > 0 ==> Concerns(queue[1..][i - 1], system, id);
    }
    if i :| 0 <= i < |queue[1..]| && Concerns(queue[1..][i], system, id) {
      assert Concerns(queue[i + 1], system, id);
    }
  }

  /** What pending events leave does not depend on what was stored. */
  lemma {:induction false} ReplayForgets(queue: seq<Event>, system: string, id: string, a: Option<string>,
                                         b: Option<string>)
    requires Pending(queue, system, id)
    ensures Replay(queue, system, id, a) == Replay(queue, system, id, b)
    decreases |queue|
  {
    var n := |queue| - 1;
    if !Concerns(queue[n], system, id) {
      assert queue == queue[..n] + [queue[n]];
      PendingNext(queue[..n], queue[n], system, id);
      ReplayForgets(queue[..n], system, id, a, b);
    }
  }

  /** A commit that neither moves the alert out nor settles it leaves it alone. */
  lemma {:induction false} OtherCommitKeeps(w: World, step: Step, system: string, id: string, lag: Lag)
    requires CanTake(w, step) && (step.Save? || step.Delete?) && AgreesBut(w, system, id, lag)
    requires !MovesOut(w, step, system, id) && !Settles(w, step, system, id)
    ensures AgreesBut(Take(w, step), system, id, lag)
  {
    var w' := Take(w, step);
    var event := w'.queue[|w.queue|];
    assert InDb(w'.db, system, id) == InDb(w.db, system, id);
    PendingNext(w.queue, event, system, id);
    ReplayNext(w.queue, event, system, id, InDb(w.db, system, id));
    ReplayNext(w.queue, event, system, id, Cached(w, system, id));
    if Loads(w, system) {
      ReplayNext(w.queue, event, system, id, Loaded(w, system, id));
    }
  }

  lemma {:induction false} SettlingKeeps(w: World, step: Step, system: string, id: string)
    requires CanTake(w, step) && Settles(w, step, system, id)
    ensures AgreesBut(Take(w, step), system, id, CURRENT)
  {
    var w' := Take(w, step);
    var event := w'.queue[|w.queue|];
    ReplayNext(w.queue, event, system, id, InDb(w'.db, system, id));
    ReplayNext(w.queue, event, system, id, Cached(w, system, id));
    if Loads(w, system) {
      ReplayNext(w.queue, event, system, id, Loaded(w, system, id));
    }
  }

  lemma {:induction false} MovingLeavesBehind(w: World, step: Step, system: string, id: string, lag: Lag)
    requires CanTake(w, step) && MovesOut(w, step, system, id) && AgreesBut(w, system, id, lag)
    ensures AgreesBut(Take(w, step), system, id, Lag(true, true, true))
  {
    var w' := Take(w, step);
    var event, value := w'.queue[|w.queue|], InDb(w.db, system, id);
    assert InDb(w'.db, system, id).None? && value.Some? && !lag.gone;
    PendingNext(w.queue, event, system, id);
    ReplayNext(w.queue, event, system, id, None);
    if Pending(w.queue, system, id) {
      ReplayForgets(w.queue, system, id, value, None);
    } else {
      ReplayOver(w.queue, system, id, None);
    }
    ReplayNext(w.queue, event, system, id, Cached(w, system, id));
    if Loads(w, system) {
      ReplayNext(w.queue, event, system, id, Loaded(w, system, id));
    }
  }

  lemma {:induction false} DeliverKeeps(w: World, system: string, id: string, lag: Lag)
    requires CanTake(w, Deliver) && system != "" && AgreesBut(w, system, id, lag)
    ensures AgreesBut(Take(w, Deliver), system, id, lag)
  {
    var value, first, rest := InDb(w.db, system, id), w.queue[0], w.queue[1..];
    ReplayFirst(w.queue, system, id, Cached(w, system, id));
    HandleOne(w.store, first, system, id);
    ReplayFirst(w.queue, system, id, value);
    PendingFirst(w.queue, system, id);
    if Pending(rest, system, id) {
      ReplayForgets(rest, system, id, if Concerns(first, system, id) then first.data else value, value);
    } else {
      ReplayOver(rest, system, id, value);
    }
  }

  lemma {:induction false} QueryKeeps(w: World, step: Step, system: string, id: string, lag: Lag)
    requires CanTake(w, step) && (step.QueryAll? || step.QuerySystem?) && AgreesBut(w, system, id, lag)
    ensures AgreesBut(Take(w, step), system, id, LagAfter(w, step, system, id, lag))
  {
  }

  lemma {:induction false} StoringKeeps(w: World, step: Step, system: string, id: string, lag: Lag)
    requires CanTake(w, step) && (step.StoreSystem? || step.Populated?) && AgreesBut(w, system, id, lag)
    ensures AgreesBut(Take(w, step), system, id, LagAfter(w, step, system, id, lag))
  {
  }

  lemma {:induction false} FillingKeeps(w: World, step: Step, system: string, id: string, lag: Lag)
    requires CanTake(w, step) && (step.Clear? || step.Fill? || step.Fail?)
    requires system != "" && AgreesBut(w, system, id, lag)
    ensures AgreesBut(Take(w, step), system, id, lag)
  {
  }

  lemma {:induction false} StepKeepsLag(w: World, step: Step, system: string, id: string, lag: Lag)
    requires CanTake(w, step) && system != "" && AgreesBut(w, system, id, lag)
    ensures AgreesBut(Take(w, step), system, id, LagAfter(w, step, system, id, lag))
  {
    if step.Save? || step.Delete? {
      if MovesOut(w, step, system, id) {
        MovingLeavesBehind(w, step, system, id, lag);
      } else if Settles(w, step, system, id) {
        SettlingKeeps(w, step, system, id);
      } else {
        OtherCommitKeeps(w, step, system, id, lag);
      }
    } else if step.Deliver? {
      DeliverKeeps(w, system, id, lag);
    } else if step.QueryAll? || step.QuerySystem? {
      QueryKeeps(w, step, system, id, lag);
    } else if step.StoreSystem? || step.Populated? {
      StoringKeeps(w, step, system, id, lag);
    } else {
      FillingKeeps(w, step, system, id, lag);
    }
  }

  /** A step that moves no alert to another system keeps the cache coherent. */
  lemma {:induction false} StepKeeps(w: World, step: Step)
    requires CanTake(w, step) && Coherent(w)
    requires step.Save? && step.id in w.db ==> w.db[step.id].system == step.alert.system
    ensures Coherent(Take(w, step))
  {
    forall system, id | system != "" ensures Agrees(Take(w, step), system, id) {
      assert Agrees(w, system, id);
      StepKeepsLag(w, step, system, id, CURRENT);
    }
  }

  /** At every point of every run, for every alert of every system: what pending events will
      make of the stored or loaded alert is what the database holds, if and only if the
      alert is not left behind. */
  lemma {:induction false} RunAgreesBut(worlds: seq<World>, steps: seq<Step>, n: nat, system: string, id: string)
    requires IsRun(worlds, steps) && n <= |steps| && system != ""
    ensures AgreesBut(worlds[n], system, id, LagAt(worlds, steps, n, system, id))
  {
    if n == 0 {
    } else {
      RunAgreesBut(worlds, steps, n - 1, system, id);
      assert StepAt(worlds, steps, n - 1);
      StepKeepsLag(worlds[n - 1], steps[n - 1], system, id, LagAt(worlds, steps, n - 1, system, id));
    }
  }

  /** No step so far moved the alert out of the system. */
  ghost predicate NeverMovedOut(worlds: seq<World>, steps: seq<Step>, n: nat, system: string, id: string)
    requires n <= |steps| && |worlds| == |steps| + 1
  {
    forall i: nat :: i < n ==> !MovesOut(worlds[i], steps[i], system, id)
  }

  lemma {:induction false} NeverMovedIsCurrent(worlds: seq<World>, steps: seq<Step>, n: nat, system: string, id: string)
    requires IsRun(worlds, steps) && n <= |steps| && NeverMovedOut(worlds, steps, n, system, id)
    ensures LagAt(worlds, steps, n, system, id) == CURRENT
  {
    if n == 0 {
    } else {
      NeverMovedIsCurrent(worlds, steps, n - 1, system, id);
    }
  }

  /** What a reader of a system's alerts is given: what is stored, or a load of its own. */
  function Read(w: World, system: string): map<string, string> {
    if system in w.store then w.store[system] else AlertsOf(w.db, system)
  }

  /** Alerts still to be stored by a refill are not in the cleared store. */
  ghost predicate FillsOnce(w: World) {
    w.load.Filling? ==>
      forall system, id :: system != "" && InDb(w.load.todo, system, id).Some? ==> Cached(w, system, id).None?
  }

  lemma {:induction false} StepFillsOnce(w: World, step: Step)
    requires CanTake(w, step) && FillsOnce(w)
    ensures FillsOnce(Take(w, step))
  {
    var w' := Take(w, step);
    if w'.load.Filling? {
      forall system, id | system != "" && InDb(w'.load.todo, system, id).Some? ensures Cached(w', system, id).None? {
        if step.Fill? {
          assert id != step.id && InDb(w.load.todo, system, id).Some?;
        }
      }
    }
  }

  lemma {:induction false} RunFillsOnce(worlds: seq<World>, steps: seq<Step>, n: nat)
    requires IsRun(worlds, steps) && n <= |steps|
    ensures FillsOnce(worlds[n])
  {
    if n == 0 {
    } else {
      RunFillsOnce(worlds, steps, n - 1);
      assert StepAt(worlds, steps, n - 1);
      StepFillsOnce(worlds[n - 1], steps[n - 1]);
    }
  }

  /** What a refill in progress has still to store of one alert. */
  predicate ToBeFilled(w: World, system: string, id: string) {
    w.load.Filling? && InDb(w.load.todo, system, id).Some?
  }

  /** Whether a reader gets an answer now: one that does not find its system waits for a
      refill to end. */
  predicate Answers(w: World, system: string) {
    w.load.Filling? ==> system in w.store
  }

  /** Whether a reader is misled about an alert: the stored one was left behind by a move;
      or, during a refill, it has still to be stored, unless it was moved away meanwhile. */
  ghost predicate Misled(worlds: seq<World>, steps: seq<Step>, n: nat, system: string, id: string)
    requires IsRun(worlds, steps) && n <= |steps|
  {
    var w, lag := worlds[n], LagAt(worlds, steps, n, system, id);
    if w.load.Filling? then ToBeFilled(w, system, id) != lag.loading else lag.stored
  }

  /** From the first population on, a reader gets an alert without a pending event exactly
      as the database has it, deleted ones included, if and only if it is not misled. */
  lemma {:induction false} ReadIsExactPerAlert(worlds: seq<World>, steps: seq<Step>, n: nat, system: string, id: string)
    requires IsRun(worlds, steps) && n <= |steps| && system != "" && Answers(worlds[n], system)
    requires (worlds[n].populated || worlds[n].load.Filling?) && !Pending(worlds[n].queue, system, id)
    ensures Find(Read(worlds[n], system), id) == InDb(worlds[n].db, system, id) <==>
            !Misled(worlds, steps, n, system, id)
    ensures NeverMovedOut(worlds, steps, n, system, id) ==>
              (Misled(worlds, steps, n, system, id) <==> ToBeFilled(worlds[n], system, id))
  {
    var w := worlds[n];
    RunAgreesBut(worlds, steps, n, system, id);
    RunFillsOnce(worlds, steps, n);
    ReplayOver(w.queue, system, id, Cached(w, system, id));
    if w.load.Filling? {
      ReplayOver(w.queue, system, id, Loaded(w, system, id));
    }
    if NeverMovedOut(worlds, steps, n, system, id) {
      NeverMovedIsCurrent(worlds, steps, n, system, id);
    }
  }

  /** With no event pending for the system, the cache returns exactly its alerts if and only
      if it misleads about none of them. */
  lemma {:induction false} ReadIsExact(worlds: seq<World>, steps: seq<Step>, n: nat, system: string)
    requires IsRun(worlds, steps) && n <= |steps| && system != "" && Answers(worlds[n], system)
    requires worlds[n].populated || worlds[n].load.Filling?
    requires forall i :: 0 <= i < |worlds[n].queue| ==> worlds[n].queue[i].system != system
    ensures Read(worlds[n], system) == AlertsOf(worlds[n].db, system) <==>
            forall id :: !Misled(worlds, steps, n, system, id)
  {
    var read, alerts := Read(worlds[n], system), AlertsOf(worlds[n].db, system);
    forall id ensures Find(read, id) == Find(alerts, id) <==> !Misled(worlds, steps, n, system, id) {
      ReadIsExactPerAlert(worlds, steps, n, system, id);
    }
    if forall id :: !Misled(worlds, steps, n, system, id) {
      forall id ensures Find(read, id) == Find(alerts, id) {
        assert !Misled(worlds, steps, n, system, id);
      }
      SameAlerts(read, alerts);
    }
  }

  lemma {:induction false} LoadingStays(worlds: seq<World>, steps: seq<Step>, n: nat, k: nat, system: string,
                                        id: string)
    requires IsRun(worlds, steps) && n <= k <= |steps| && !LagAt(worlds, steps, n, system, id).loading
    requires forall j: nat :: n <= j < k ==>
               !MovesOut(worlds[j], steps[j], system, id) && !steps[j].QueryAll? && !steps[j].QuerySystem?
    ensures !LagAt(worlds, steps, k, system, id).loading
  {
    if n == k {
    } else {
      LoadingStays(worlds, steps, n, k - 1, system, id);
    }
  }

  /** A refill that is queried when an alert has no event pending and runs to its end puts
      even an alert right that was moved out before. */
  lemma {:induction false} RefillRepairs(worlds: seq<World>, steps: seq<Step>, n: nat, k: nat, system: string,
                                         id: string)
    requires IsRun(worlds, steps) && n < k < |steps| && steps[n] == QueryAll && steps[k] == Populated
    requires !Pending(worlds[n].queue, system, id)
    requires forall j: nat :: n < j < k ==>
               !MovesOut(worlds[j], steps[j], system, id) && !steps[j].QueryAll? && !steps[j].QuerySystem?
    ensures !LagAt(worlds, steps, k + 1, system, id).stored
  {
    LoadingStays(worlds, steps, n + 1, k, system, id);
  }

  lemma {:induction false} SameAlerts(a: map<string, string>, b: map<string, string>)
    requires forall id :: Find(a, id) == Find(b, id)
    ensures a == b
  {
    forall id ensures id in a <==> id in b {
      assert Find(a, id) == Find(b, id);
    }
    forall id | id in a ensures a[id] == b[id] {
      assert Find(a, id) == Find(b, id);
    }
  }

  // ---------------------------------------------------- where coherence ends

  ghost predicate ReadsExactly(w: World) {
    forall system :: system != "" ==> Read(w, system) == AlertsOf(w.db, system)
  }

  lemma {:induction false} QuietSystemIsExact(w: World, system: string)
    requires Coherent(w) && w.populated && w.load.Idle? && system != ""
    requires forall i :: 0 <= i < |w.queue| ==> w.queue[i].system != system
    ensures Read(w, system) == AlertsOf(w.db, system)
  {
    forall id ensures Find(Read(w, system), id) == Find(AlertsOf(w.db, system), id) {
      assert Agrees(w, system, id);
      ReplayOver(w.queue, system, id, Cached(w, system, id));
    }
    SameAlerts(Read(w, system), AlertsOf(w.db, system));
  }

  lemma {:induction false} QuietIsExact(w: World)
    requires Coherent(w) && w.populated && w.queue == [] && w.load.Idle?
    ensures ReadsExactly(w)
  {
    forall system | system != "" ensures Read(w, system) == AlertsOf(w.db, system) {
      QuietSystemIsExact(w, system);
    }
  }

  /** Once the event of an update has been handled the cache is exact again if and only
      if the update kept the alert's system: a moved alert stays behind in the old one. */
  lemma {:induction false} ExactIffNotMoved(w: World, id: string, alert: Alert)
    requires Coherent(w) && w.populated && w.queue == [] && w.load.Idle?
    requires id in w.db && w.db[id].system != ""
    ensures ReadsExactly(Take(Take(w, Save(id, alert)), Deliver)) <==> alert.system == w.db[id].system
  {
    var saved, home := Take(w, Save(id, alert)), w.db[id].system;
    var w' := Take(saved, Deliver);
    if alert.system == home {
      StepKeeps(w, Save(id, alert));
      StepKeeps(saved, Deliver);
      QuietIsExact(w');
    } else {
      QuietIsExact(w);
      assert AlertsOf(w.db, home)[id] == w.db[id].data;
      assert id in Read(w, home) && home != "";
      assert Agrees(w, home, id);
      assert id in w.store[home] && id in Read(w', home) && id !in AlertsOf(w'.db, home);
    }
  }

  /** An update that arrives before its system was ever loaded makes the system look
      loaded: what is read then is exact if and only if the system has no other alert. */
  lemma {:induction false} EarlyUpdateExactIffAlone(w: World, id: string)
    requires CanTake(w, Deliver) && id in w.db && w.db[id].system != "" && w.db[id].system !in w.store
    requires w.queue[0] == Event(id, w.db[id].system, Some(w.db[id].data))
    ensures var system := w.db[id].system;
      Read(Take(w, Deliver), system) == AlertsOf(w.db, system) <==>
      forall other :: other in w.db && w.db[other].system == system ==> other == id
  {
    var system := w.db[id].system;
    assert Read(Take(w, Deliver), system) == map[id := w.db[id].data];
    if other :| other in w.db && w.db[other].system == system && other != id {
      assert other in AlertsOf(w.db, system) && other !in Read(Take(w, Deliver), system);
    } else {
      assert AlertsOf(w.db, system) == map[id := w.db[id].data];
    }
  }

  /** Such a run: without a population the alert "a" is never read. */
  lemma {:induction false} EarlyUpdateHidesAlerts() returns (worlds: seq<World>, steps: seq<Step>)
    ensures IsRun(worlds, steps) && |steps| == 2 && worlds[2].queue == [] && worlds[2].load.Idle?
    ensures "a" in AlertsOf(worlds[2].db, "s") && "a" !in Read(worlds[2], "s")
  {
    var w0 := World(map["a" := Alert("s", "cpu")], map[], false, [], Idle);
    steps := [Save("b", Alert("s", "memory")), Deliver];
    var w1 := Take(w0, steps[0]);
    var w2 := Take(w1, steps[1]);
    worlds := [w0, w1, w2];
    assert StepAt(worlds, steps, 0) && StepAt(worlds, steps, 1);
  }

  // ------------------------------------------------------------------- the cache

  datatype Row = Row(id: string, alert: Alert)

  /** What the queries may return: the alerts asked for, in any order. */
  ghost predicate Returns(rows: seq<Row>, db: map<string, Alert>, asked: string -> bool) {
    && (forall i :: 0 <= i < |rows| ==>
          rows[i].id in db && db[rows[i].id] == rows[i].alert && asked(rows[i].alert.system))
    && (forall id :: id in db && asked(db[id].system) ==> exists i :: 0 <= i < |rows| && rows[i].id == id)
  }

  lemma {:induction false} EventHandled(before: World, event: Event, queue: seq<Event>, after: World)
    requires before.queue == [event] + queue && before.load.Idle?
    requires after == before.(store := Handle(before.store, event), queue := queue)
    ensures Coherent(before) ==> Coherent(after)
  {
    assert before.queue[0] == event && before.queue[1..] == queue;
    if Coherent(before) {
      StepKeeps(before, Deliver);
    }
  }

  /** A store that has every alert as the database does. */
  ghost predicate IsMirror(w: World) {
    forall system, id :: system != "" ==> Cached(w, system, id) == InDb(w.db, system, id)
  }

  lemma {:induction false} MirrorReadsExactly(w: World)
    requires IsMirror(w)
    ensures ReadsExactly(w)
  {
    forall system | system != "" ensures Read(w, system) == AlertsOf(w.db, system) {
      forall id ensures Find(Read(w, system), id) == Find(AlertsOf(w.db, system), id) {
        assert Cached(w, system, id) == InDb(w.db, system, id);
      }
      SameAlerts(Read(w, system), AlertsOf(w.db, system));
    }
  }

  lemma {:induction false} RunGoesOn(worlds: seq<World>, steps: seq<Step>, step: Step)
    requires IsRun(worlds, steps) && CanTake(worlds[|steps|], step)
    ensures IsRun(worlds + [Take(worlds[|steps|], step)], steps + [step])
  {
    var more, all := worlds + [Take(worlds[|steps|], step)], steps + [step];
    forall i: nat | i < |all| ensures StepAt(more, all, i) {
      assert i < |steps| ==> StepAt(worlds, steps, i);
    }
  }

  /** A run that goes on from another without a commit. */
  ghost predicate GoesOn(worlds: seq<World>, steps: seq<Step>, worlds': seq<World>, steps': seq<Step>) {
    && IsRun(worlds, steps) && IsRun(worlds', steps') && worlds <= worlds' && steps <= steps'
    && worlds'[|steps'|].db == worlds[|steps|].db
  }

  lemma {:induction false} GoesOnByOne(worlds: seq<World>, steps: seq<Step>, step: Step)
      returns (worlds': seq<World>, steps': seq<Step>)
    requires IsRun(worlds, steps) && CanTake(worlds[|steps|], step) && !step.Save? && !step.Delete?
    ensures GoesOn(worlds, steps, worlds', steps') && worlds'[|steps'|] == Take(worlds[|steps|], step)
  {
    RunGoesOn(worlds, steps, step);
    worlds', steps' := worlds + [Take(worlds[|steps|], step)], steps + [step];
  }

  /** During a refill: each alert is stored, or to be, as the database has it. */
  ghost predicate FillsMirror(w: World) {
    && w.load.Filling?
    && (forall id :: id in w.load.todo ==> id in w.db && w.db[id] == w.load.todo[id])
    && (forall system, id :: system != "" && id !in w.load.todo ==> Cached(w, system, id) == InDb(w.db, system, id))
    && (forall system, id :: system != "" && id in w.load.todo ==> Cached(w, system, id).None?)
  }

  lemma {:induction false} FilledOne(w: World, id: string, system: string, other: string)
    requires FillsMirror(w) && id in w.load.todo && system != ""
    ensures Cached(Take(w, Fill(id)), system, other) ==
            if other == id then InDb(w.db, system, id) else Cached(w, system, other)
  {
    var alert := w.load.todo[id];
    HandleOne(w.store, Event(id, alert.system, Some(alert.data)), system, other);
    assert w.db[id] == alert;
    assert Cached(w, system, id).None?;
  }

  lemma {:induction false} FillKeepsMirror(w: World, id: string)
    requires FillsMirror(w) && id in w.load.todo
    ensures FillsMirror(Take(w, Fill(id)))
  {
    var w' := Take(w, Fill(id));
    forall system, other | system != ""
      ensures Cached(w', system, other) == if other == id then InDb(w.db, system, id) else Cached(w, system, other) {
      FilledOne(w, id, system, other);
    }
  }

  /** Filling in what is left of a refill. */
  lemma {:induction false} CanFill(worlds: seq<World>, steps: seq<Step>)
      returns (worlds': seq<World>, steps': seq<Step>)
    requires IsRun(worlds, steps) && worlds[|steps|].load.Filling?
    ensures GoesOn(worlds, steps, worlds', steps')
    ensures var w, w' := worlds[|steps|], worlds'[|steps'|];
      && w'.load.Idle? && w'.populated && w'.queue == w.queue && (FillsMirror(w) ==> IsMirror(w'))
    decreases |worlds[|steps|].load.todo|
  {
    var w := worlds[|steps|];
    if w.load.todo == map[] {
      worlds', steps' := GoesOnByOne(worlds, steps, Populated);
    } else {
      var id :| id in w.load.todo;
      if FillsMirror(w) {
        FillKeepsMirror(w, id);
      }
      assert (w.load.todo - {id}).Keys < w.load.todo.Keys;
      var more, all := GoesOnByOne(worlds, steps, Fill(id));
      worlds', steps' := CanFill(more, all);
    }
  }

  /** Ending the load in progress. */
  lemma {:induction false} CanFinish(worlds: seq<World>, steps: seq<Step>)
      returns (worlds': seq<World>, steps': seq<Step>)
    requires IsRun(worlds, steps)
    ensures GoesOn(worlds, steps, worlds', steps')
    ensures worlds'[|steps'|].load.Idle? && worlds'[|steps'|].queue == worlds[|steps|].queue
  {
    match worlds[|steps|].load
    case Idle => worlds', steps' := worlds, steps;
    case Lazy(_, _) => worlds', steps' := GoesOnByOne(worlds, steps, StoreSystem);
    case Queried(_) =>
      var more, all := GoesOnByOne(worlds, steps, Clear);
      worlds', steps' := CanFill(more, all);
    case Filling(_) => worlds', steps' := CanFill(worlds, steps);
  }

  /** Handling the events that are pending. */
  lemma {:induction false} CanDeliver(worlds: seq<World>, steps: seq<Step>)
      returns (worlds': seq<World>, steps': seq<Step>)
    requires IsRun(worlds, steps) && worlds[|steps|].load.Idle?
    ensures GoesOn(worlds, steps, worlds', steps')
    ensures worlds'[|steps'|].load.Idle? && worlds'[|steps'|].queue == []
    decreases |worlds[|steps|].queue|
  {
    if worlds[|steps|].queue == [] {
      worlds', steps' := worlds, steps;
    } else {
      var more, all := GoesOnByOne(worlds, steps, Deliver);
      worlds', steps' := CanDeliver(more, all);
    }
  }

  /** Every run can go on, without a further commit, to where no load is in progress, no
      event is pending, and every system is read as the database has it, whatever was moved
      or read early before. */
  lemma {:induction false} CanSettle(worlds: seq<World>, steps: seq<Step>)
      returns (worlds': seq<World>, steps': seq<Step>)
    requires IsRun(worlds, steps)
    ensures GoesOn(worlds, steps, worlds', steps')
    ensures var w' := worlds'[|steps'|]; w'.load.Idle? && w'.queue == [] && w'.populated && ReadsExactly(w')
  {
    worlds', steps' := CanFinish(worlds, steps);
    worlds', steps' := CanDeliver(worlds', steps');
    worlds', steps' := GoesOnByOne(worlds', steps', QueryAll);
    worlds', steps' := GoesOnByOne(worlds', steps', Clear);
    assert FillsMirror(worlds'[|steps'|]);
    worlds', steps' := CanFill(worlds', steps');
    MirrorReadsExactly(worlds'[|steps'|]);
  }

  /** Commits do not wait for the cache. */
  lemma {:induction false} CommitsAnyTime(w: World, id: string, alert: Alert)
    ensures CanTake(w, Save(id, alert)) && (id in w.db ==> CanTake(w, Delete(id)))
  {
  }

  /** A query that fails leaves everything as it was, the first one and later ones. */
  lemma {:induction false} FailureChangesNothing(w: World, system: string)
    requires w.load.Idle?
    ensures var asked := Take(w, QueryAll); CanTake(asked, Fail) && Take(asked, Fail) == w
    ensures system !in w.store ==>
              var asked := Take(w, QuerySystem(system)); CanTake(asked, Fail) && Take(asked, Fail) == w
  {
  }

  lemma {:induction false} MirrorIsCoherent(before: World, after: World)
    requires Coherent(before) && IsMirror(after) && after.load.Idle? && after.db == before.db
    requires after.queue == before.queue
    ensures Coherent(after)
  {
    forall system, id | system != "" ensures Agrees(after, system, id) {
      assert Agrees(before, system, id);
      assert Cached(after, system, id) == InDb(after.db, system, id);
    }
  }

  class Cache {
    var store: Store
    var populated: bool

    constructor ()
      ensures store == map[] && !populated
    {
      store, populated := map[], false;
    }

    ghost function Seen(db: map<string, Alert>, queue: seq<Event>): World
      reads this
    {
      World(db, store, populated, queue, Idle)
    }

    /** Every alert is stored, or not, as the database has it. */
    ghost predicate Mirrors(db: map<string, Alert>)
      reads this
    {
      forall system, id :: system != "" ==> Find(SystemStore(store, system), id) == InDb(db, system, id)
    }

    /** A population skipped or failed changes nothing; one that is done leaves every
        system as the database has it. Either way the cache stays coherent with whatever
        events are pending. */
    method PopulateFromDB(force: bool, ghost db: map<string, Alert>, ghost queue: seq<Event>, rows: Option<seq<Row>>)
      returns (failed: bool)
      requires rows.Some? ==> Returns(rows.value, db, _ => true)
      modifies this
      ensures var skipped := !force && old(populated);
        && (failed <==> !skipped && rows.None?)
        && (skipped || failed ==> store == old(store) && populated == old(populated))
        && (!skipped && !failed ==> populated && Mirrors(db) && ReadsExactly(Seen(db, queue)))
      ensures old(Coherent(Seen(db, queue))) ==> Coherent(Seen(db, queue))
    {
      if !force && populated {
        return false;
      }
      if rows.None? {
        return true;
      }
      ghost var before := Seen(db, queue);
      failed := false;
      Refill(db, rows.value);
      populated := true;
      MirrorReadsExactly(Seen(db, queue));
      if Coherent(before) {
        MirrorIsCoherent(before, Seen(db, queue));
      }
    }

    method Refill(ghost db: map<string, Alert>, rows: seq<Row>)
      requires Returns(rows, db, _ => true)
      modifies `store
      ensures Mirrors(db)
    {
      store := map[];
      for i := 0 to |rows|
        invariant forall system, id :: system != "" && Find(SystemStore(store, system), id).Some? ==>
                    Find(SystemStore(store, system), id) == InDb(db, system, id)
        invariant forall j :: 0 <= j < i && rows[j].alert.system != "" ==>
                    Find(SystemStore(store, rows[j].alert.system), rows[j].id).Some?
      {
        UpdateRecord(rows[i].id, rows[i].alert, db, []);
      }
    }

    /** Stores one alert under its system and touches no other; a record without a system
        is passed over. So the event of a save is handled. */
    method UpdateRecord(id: string, alert: Alert, ghost db: map<string, Alert>, ghost queue: seq<Event>)
      modifies `store
      ensures alert.system == "" ==> store == old(store)
      ensures alert.system != "" ==> store.Keys == old(store).Keys + {alert.system}
      ensures forall system, other :: alert.system != "" ==>
                Find(SystemStore(store, system), other) ==
                if system == alert.system && other == id then Some(alert.data)
                else Find(SystemStore(old(store), system), other)
      ensures old(Coherent(Seen(db, [Event(id, alert.system, Some(alert.data))] + queue))) ==> Coherent(Seen(db, queue))
    {
      ghost var event := Event(id, alert.system, Some(alert.data));
      ghost var before := Seen(db, [event] + queue);
      if alert.system != "" {
        var systemStore := if alert.system in store then store[alert.system] else map[];
        store := store[alert.system := systemStore[id := alert.data]];
      }
      EventHandled(before, event, queue, Seen(db, queue));
    }

    /** Removes one alert from its system's store and touches no other. So the event of a
        deletion is handled. */
    method DeleteRecord(id: string, alert: Alert, ghost db: map<string, Alert>, ghost queue: seq<Event>)
      modifies `store
      ensures store.Keys == old(store).Keys
      ensures forall system, other :: system != "" ==>
                Find(SystemStore(store, system), other) ==
                if system == alert.system && other == id then None else Find(SystemStore(old(store), system), other)
      ensures old(Coherent(Seen(db, [Event(id, alert.system, None)] + queue))) ==> Coherent(Seen(db, queue))
    {
      ghost var event := Event(id, alert.system, None);
      ghost var before := Seen(db, [event] + queue);
      if alert.system != "" && alert.system in store {
        store := store[alert.system := store[alert.system] - {id}];
      }
      EventHandled(before, event, queue, Seen(db, queue));
    }

    /** A lazy load stores what it returns and disturbs no other system. */
    method GetSystemAlerts(system: string, ghost db: map<string, Alert>, ghost queue: seq<Event>,
                           rows: Option<seq<Row>>)
      returns (alerts: map<string, string>)
      requires rows.Some? ==> Returns(rows.value, db, s => s == system)
      modifies `store
      ensures system in old(store) ==> store == old(store) && alerts == store[system]
      ensures system !in old(store) && rows.None? ==> store == old(store) && alerts == map[]
      ensures system !in old(store) && rows.Some? ==>
                store == old(store)[system := alerts] && alerts == AlertsOf(db, system)
      ensures old(Coherent(Seen(db, queue))) ==> Coherent(Seen(db, queue))
    {
      if system in store {
        return store[system];
      }
      if rows.None? {
        return map[];
      }
      alerts := map[];
      for i := 0 to |rows.value|
        invariant forall id :: id in alerts ==> id in db && db[id] == Alert(system, alerts[id])
        invariant forall j :: 0 <= j < i ==> rows.value[j].id in alerts
      {
        alerts := alerts[rows.value[i].id := rows.value[i].alert.data];
      }
      assert alerts == AlertsOf(db, system);
      ghost var before := Seen(db, queue);
      store := store[system := alerts];
      ghost var asked := Take(before, QuerySystem(system));
      assert Seen(db, queue) == Take(asked, StoreSystem);
      if Coherent(before) {
        StepKeeps(before, QuerySystem(system));
        StepKeeps(asked, StoreSystem);
      }
    }
  }
}
