/** The cache of each system's enabled monitors (internal/alerts/network_monitor_cache.go),
    against any interleaving of commits, invalidations delivered late and in any
    order, and loads whose query and store are separate steps under the lock. */
module MonitorCache {
  import opened Common

  datatype Monitor = Monitor(system: string, enabled: bool, interval: int)

  datatype Load = Load(system: string, rows: map<string, int>)

  /** `pending` are the calls to invalidate that committed changes have still to make. */
  datatype World = World(
    db: map<string, Monitor>,
    systems: map<string, map<string, int>>,
    pending: seq<string>,
    load: Option<Load>)

  datatype Step =
    | Save(id: string, monitor: Monitor)
    | Delete(id: string)
    | DeleteSystem(system: string)
    | Invalidate(index: nat)
    | Query(system: string)
    | Store
    | Fail

  /** The answer of the load query. */
  function EnabledOf(db: map<string, Monitor>, system: string): map<string, int> {
    map id | id in db && db[id].system == system && db[id].enabled :: db[id].interval
  }

  /** The systems a save invalidates: saves that leave the cached fields alone, such
      as those of results, invalidate none. */
  function Touched(db: map<string, Monitor>, id: string, monitor: Monitor): seq<string> {
    if id !in db then [monitor.system]
    else if db[id] != monitor then [db[id].system, monitor.system]
    else []
  }

  predicate CanTake(w: World, step: Step) {
    match step
    case Save(_, _) => true
    case Delete(id) => id in w.db
    case DeleteSystem(_) => true
    case Invalidate(index) => index < |w.pending| && w.load.None?
    case Query(system) => w.load.None? && system !in w.systems
    case Store => w.load.Some?
    case Fail => w.load.Some?
  }

  function Take(w: World, step: Step): World
    requires CanTake(w, step)
  {
    match step
    case Save(id, monitor) => w.(db := w.db[id := monitor], pending := w.pending + Touched(w.db, id, monitor))
    case Delete(id) => w.(db := w.db - {id}, pending := w.pending + [w.db[id].system])
    case DeleteSystem(system) =>
      w.(db := map id | id in w.db && w.db[id].system != system :: w.db[id], pending := w.pending + [system])
    case Invalidate(index) =>
      w.(systems := w.systems - {w.pending[index]}, pending := w.pending[..index] + w.pending[index + 1..])
    case Query(system) => w.(load := Some(Load(system, EnabledOf(w.db, system))))
    case Store => w.(systems := w.systems[w.load.value.system := w.load.value.rows], load := None)
    case Fail => w.(load := None)
  }

  ghost predicate StepAt(worlds: seq<World>, steps: seq<Step>, i: nat)
    requires i < |steps| && |worlds| == |steps| + 1
  {
    CanTake(worlds[i], steps[i]) && worlds[i + 1] == Take(worlds[i], steps[i])
  }

  /** A run from an empty cache. */
  ghost predicate IsRun(worlds: seq<World>, steps: seq<Step>) {
    && |worlds| == |steps| + 1
    && worlds[0].systems == map[] && worlds[0].pending == [] && worlds[0].load == None
    && forall i: nat :: i < |steps| ==> StepAt(worlds, steps, i)
  }

  ghost predicate Accounted(w: World, system: string, monitors: map<string, int>) {
    system in w.pending || monitors == EnabledOf(w.db, system)
  }

  ghost predicate Coherent(w: World) {
    && (forall system :: system in w.systems ==> Accounted(w, system, w.systems[system]))
    && (w.load.Some? ==> Accounted(w, w.load.value.system, w.load.value.rows))
  }

  lemma {:induction false} SaveKeeps(w: World, id: string, monitor: Monitor, system: string, monitors: map<string, int>)
    requires Accounted(w, system, monitors)
    ensures Accounted(Take(w, Save(id, monitor)), system, monitors)
  {
    var w' := Take(w, Save(id, monitor));
    if system !in w'.pending {
      assert EnabledOf(w'.db, system) == EnabledOf(w.db, system);
    }
  }

  lemma {:induction false} CommitKeeps(w: World, step: Step, system: string, monitors: map<string, int>)
    requires (step.Delete? || step.DeleteSystem?) && CanTake(w, step) && Accounted(w, system, monitors)
    ensures Accounted(Take(w, step), system, monitors)
  {
    var w' := Take(w, step);
    if system !in w'.pending {
      assert system !in w.pending;
      assert w'.pending[|w'.pending| - 1] in w'.pending;
      assert EnabledOf(w'.db, system) == EnabledOf(w.db, system);
    }
  }

  lemma {:induction false} InvalidateKeeps(w: World, index: nat)
    requires CanTake(w, Invalidate(index)) && Coherent(w)
    ensures Coherent(Take(w, Invalidate(index)))
  {
    var w' := Take(w, Invalidate(index));
    forall system | system in w'.systems ensures Accounted(w', system, w'.systems[system]) {
      assert system != w.pending[index];
      if k: nat :| k < |w.pending| && w.pending[k] == system {
        assert w'.pending[if k < index then k else k - 1] == system;
      }
    }
  }

  lemma {:induction false} StepKeeps(w: World, step: Step)
    requires CanTake(w, step) && Coherent(w)
    ensures Coherent(Take(w, step))
  {
    var w' := Take(w, step);
    match step
    case Invalidate(index) => InvalidateKeeps(w, index);
    case Save(id, monitor) =>
      forall system | system in w.systems ensures Accounted(w', system, w.systems[system]) {
        SaveKeeps(w, id, monitor, system, w.systems[system]);
      }
      if w.load.Some? {
        SaveKeeps(w, id, monitor, w.load.value.system, w.load.value.rows);
      }
    case Query(_) =>
    case Store =>
    case Fail =>
    case _ =>
      forall system | system in w.systems ensures Accounted(w', system, w.systems[system]) {
        CommitKeeps(w, step, system, w.systems[system]);
      }
      if w.load.Some? {
        CommitKeeps(w, step, w.load.value.system, w.load.value.rows);
      }
  }

  lemma {:induction false} RunIsCoherent(worlds: seq<World>, steps: seq<Step>, n: nat)
    requires IsRun(worlds, steps) && n <= |steps|
    ensures Coherent(worlds[n])
  {
    if n == 0 {
    } else {
      RunIsCoherent(worlds, steps, n - 1);
      assert StepAt(worlds, steps, n - 1);
      StepKeeps(worlds[n - 1], steps[n - 1]);
    }
  }

  /** At every point of every run, a cached map and a map about to be cached are the
      enabled monitors in the database, unless the invalidation of a committed change
      is still to come. */
  lemma {:induction false} CachedMeansEnabled(worlds: seq<World>, steps: seq<Step>, n: nat, system: string)
    requires IsRun(worlds, steps) && n <= |steps| && system !in worlds[n].pending
    ensures system in worlds[n].systems ==> worlds[n].systems[system] == EnabledOf(worlds[n].db, system)
    ensures worlds[n].load.Some? && worlds[n].load.value.system == system ==>
              worlds[n].load.value.rows == EnabledOf(worlds[n].db, system)
  {
    RunIsCoherent(worlds, steps, n);
    if system in worlds[n].systems {
      assert Accounted(worlds[n], system, worlds[n].systems[system]);
    }
  }

  ghost predicate Was(worlds: seq<World>, n: nat, system: string, monitors: map<string, int>)
  {
    exists k: nat :: k <= n && k < |worlds| && EnabledOf(worlds[k].db, system) == monitors
  }

  /** Even while an invalidation is pending, a cached map is one the database held at
      some moment: no cached map mixes two configurations. */
  lemma {:induction false} CachedIsSnapshot(worlds: seq<World>, steps: seq<Step>, n: nat, system: string)
    requires IsRun(worlds, steps) && n <= |steps|
    ensures system in worlds[n].systems ==> Was(worlds, n, system, worlds[n].systems[system])
    ensures worlds[n].load.Some? && worlds[n].load.value.system == system ==>
              Was(worlds, n, system, worlds[n].load.value.rows)
  {
    if n == 0 {
    } else {
      CachedIsSnapshot(worlds, steps, n - 1, system);
      assert StepAt(worlds, steps, n - 1);
    }
  }

  /** A hit taken while its system has an invalidation to come can be stale: the commit
      of a change does not evict, only its event does. */
  lemma {:induction false} PendingCanBeStale() returns (worlds: seq<World>, steps: seq<Step>)
    ensures IsRun(worlds, steps) && |steps| == 3
    ensures "s" in worlds[3].systems && worlds[3].systems["s"] != EnabledOf(worlds[3].db, "s")
  {
    var w0 := World(map[], map[], [], None);
    steps := [Query("s"), Store, Save("m", Monitor("s", true, 60))];
    var w1 := Take(w0, steps[0]);
    var w2 := Take(w1, steps[1]);
    var w3 := Take(w2, steps[2]);
    worlds := [w0, w1, w2, w3];
    assert StepAt(worlds, steps, 0) && StepAt(worlds, steps, 1) && StepAt(worlds, steps, 2);
    assert "m" in EnabledOf(w3.db, "s") && "m" !in w3.systems["s"];
  }

  lemma {:induction false} RunGoesOn(worlds: seq<World>, steps: seq<Step>, step: Step)
    requires IsRun(worlds, steps) && CanTake(worlds[|steps|], step)
    ensures IsRun(worlds + [Take(worlds[|steps|], step)], steps + [step])
  {
    var more, all := worlds + [Take(worlds[|steps|], step)], steps + [step];
    forall i: nat | i < |all| ensures StepAt(more, all, i) {
      assert i < |steps| ==> StepAt(worlds, steps, i);
    }
  }

  /** Every run can go on, without a further commit, to where no load and no invalidation is
      left: there every cached map is the database's. */
  lemma {:induction false} CanSettle(worlds: seq<World>, steps: seq<Step>)
      returns (worlds': seq<World>, steps': seq<Step>)
    requires IsRun(worlds, steps)
    ensures IsRun(worlds', steps') && worlds <= worlds' && steps <= steps'
    ensures var w, w' := worlds[|steps|], worlds'[|steps'|];
      && w'.db == w.db && w'.load.None? && w'.pending == []
      && (forall system :: system in w'.systems ==> w'.systems[system] == EnabledOf(w.db, system))
    decreases |worlds[|steps|].pending|, if worlds[|steps|].load.Some? then 1 else 0
  {
    var w := worlds[|steps|];
    if w.load.None? && w.pending == [] {
      worlds', steps' := worlds, steps;
      forall system | system in w.systems ensures w.systems[system] == EnabledOf(w.db, system) {
        CachedMeansEnabled(worlds, steps, |steps|, system);
      }
    } else {
      var step := if w.load.Some? then Store else Invalidate(0);
      RunGoesOn(worlds, steps, step);
      worlds', steps' := CanSettle(worlds + [Take(w, step)], steps + [step]);
    }
  }

  /** Commits do not wait for the cache. */
  lemma {:induction false} CommitsAnyTime(w: World, id: string, monitor: Monitor, system: string)
    ensures CanTake(w, Save(id, monitor)) && CanTake(w, DeleteSystem(system)) && (id in w.db ==> CanTake(w, Delete(id)))
  {
  }

  /** A query that fails leaves everything as it was. */
  lemma {:induction false} FailureChangesNothing(w: World, system: string)
    requires CanTake(w, Query(system))
    ensures var asked := Take(w, Query(system)); CanTake(asked, Fail) && Take(asked, Fail) == w
  {
  }

  // ------------------------------------------------------------------- the cache

  datatype Row = Row(id: string, interval: int)

  /** What the load query may return: every enabled monitor of the system, once, in
      any order. */
  ghost predicate Answers(rows: seq<Row>, db: map<string, Monitor>, system: string) {
    && (forall i :: 0 <= i < |rows| ==> rows[i].id in db && db[rows[i].id] == Monitor(system, true, rows[i].interval))
    && (forall id :: id in EnabledOf(db, system) ==> exists i :: 0 <= i < |rows| && rows[i].id == id)
  }

  class Cache {
    var systems: map<string, map<string, int>>

    constructor ()
      ensures systems == map[]
    {
      systems := map[];
    }

    /** Making the invalidation a commit asked for keeps the cache coherent, so what it
        still has of the system afterwards is nothing, and of the others what it had. */
    method Invalidate(system: string, ghost db: map<string, Monitor>, ghost pending: seq<string>, ghost index: nat)
      requires index < |pending| && pending[index] == system
      modifies this
      ensures system !in systems && systems.Keys == old(systems).Keys - {system}
      ensures forall other :: other in systems ==> systems[other] == old(systems)[other]
      ensures old(Coherent(World(db, systems, pending, None))) ==>
                Coherent(World(db, systems, pending[..index] + pending[index + 1..], None))
    {
      ghost var before := World(db, systems, pending, None);
      systems := systems - {system};
      assert World(db, systems, pending[..index] + pending[index + 1..], None) == Take(before, Step.Invalidate(index));
      if Coherent(before) {
        StepKeeps(before, Step.Invalidate(index));
      }
    }

    /** Neither kind of call can undo the coherence a run has; a hit reads no rows, a
        failed query changes nothing, and a miss returns what it stores. */
    method Get(system: string, ghost db: map<string, Monitor>, ghost pending: seq<string>, rows: Option<seq<Row>>)
      returns (monitors: Option<map<string, int>>)
      requires rows.Some? ==> Answers(rows.value, db, system)
      modifies this
      ensures system in old(systems) ==> systems == old(systems) && monitors == Some(systems[system])
      ensures system !in old(systems) && rows.None? ==> systems == old(systems) && monitors == None
      ensures system !in old(systems) && rows.Some? ==>
                monitors == Some(EnabledOf(db, system)) && systems == old(systems)[system := EnabledOf(db, system)]
      ensures old(Coherent(World(db, systems, pending, None))) ==> Coherent(World(db, systems, pending, None))
      ensures old(Coherent(World(db, systems, pending, None))) && system !in pending && monitors.Some? ==>
                monitors.value == EnabledOf(db, system)
    {
      ghost var before := World(db, systems, pending, None);
      if system in systems {
        assert Coherent(before) ==> Accounted(before, system, systems[system]);
        return Some(systems[system]);
      }
      if rows.None? {
        return None;
      }
      var loaded: map<string, int> := map[];
      for i := 0 to |rows.value|
        invariant forall id :: id in loaded <==> exists j :: 0 <= j < i && rows.value[j].id == id
        invariant forall id :: id in loaded ==> id in db && db[id] == Monitor(system, true, loaded[id])
      {
        loaded := loaded[rows.value[i].id := rows.value[i].interval];
      }
      assert loaded == EnabledOf(db, system);
      systems := systems[system := loaded];
      monitors := Some(loaded);
      ghost var asked := Take(before, Query(system));
      assert World(db, systems, pending, None) == Take(asked, Store);
      if Coherent(before) {
        StepKeeps(before, Query(system));
        StepKeeps(asked, Store);
      }
    }
  }
}
