/** State rules with their persisted targets and history rows
    (internal/alerts/alerts_state.go): evaluation, edits and deletions. Saving a
    changed rule and resolving its rows is one step here. */
module StateAlerts {
  import opened Common
  import opened StateRules
  import I = Incidents

  datatype Target = Target(count: nat, history: Option<nat>)

  datatype Record = Record(rule: Rule, kind: string, snapshot: int, targets: map<string, Target>, triggered: bool)

  datatype Hub = Hub(records: map<string, Record>, born: seq<I.Incident>, rows: map<nat, bool>, log: seq<I.Notice>)

  function AbsentState(kind: string): string {
    if kind == "container" || kind == "process" then "stopped" else "absent"
  }

  // --------------------------------------------------------------- one evaluation

  function TargetOf(targets: map<string, Target>, name: string): Target {
    if name in targets then targets[name] else Target(0, None)
  }

  /** A target after its count has been updated and transitions applied; `row` is
      the ID of the history row saved if the incident opens. */
  function NextTarget(rule: Rule, fires: bool, target: Target, row: nat): Target {
    var count := if fires then target.count + 1 else 0;
    if target.history.None? && count >= rule.Cycles() then Target(count, Some(row))
    else if target.history.Some? && count == 0 then Target(count, None)
    else Target(count, target.history)
  }

  predicate Forgotten(rule: Rule, report: Report, name: string, target: Target) {
    name !in report && target.history.None? && target.count == 0 && name !in rule.patterns
  }

  function TargetAfter(record: Record, report: Report, name: string, row: nat): Target {
    NextTarget(record.rule, Fires(record.rule, Seen(report, AbsentState(record.kind), name)),
               TargetOf(record.targets, name), row)
  }

  function TargetsAfter(record: Record, report: Report, name: string, row: nat): map<string, Target> {
    var after := TargetAfter(record, report, name, row);
    if Forgotten(record.rule, report, name, after) then record.targets - {name} else record.targets[name := after]
  }

  /** The body of the loop over a rule's targets. */
  function Visit(hub: Hub, id: string, report: Report, name: string): Hub
    requires id in hub.records
  {
    var record, row := hub.records[id], |hub.born|;
    var before, after := TargetOf(record.targets, name), TargetAfter(record, report, name, row);
    var records := hub.records[id := record.(targets := TargetsAfter(record, report, name, row))];
    if before.history.None? && after.history.Some? then
      Hub(records, hub.born + [I.Incident(id, name)], hub.rows[row := false], hub.log + [I.Sent(id, name, true)])
    else if before.history.Some? && after.history.None? then
      Hub(records, hub.born, I.Resolve(hub.rows, before.history.value), hub.log + [I.Sent(id, name, false)])
    else hub.(records := records)
  }

  function VisitAll(hub: Hub, id: string, report: Report, names: seq<string>): (hub': Hub)
    requires id in hub.records
    ensures id in hub'.records
    decreases |names|
  {
    if |names| == 0 then hub
    else Visit(VisitAll(hub, id, report, names[..|names| - 1]), id, report, names[|names| - 1])
  }

  predicate AnyOpen(targets: map<string, Target>) {
    exists name :: name in targets && targets[name].history.Some?
  }

  function Finish(hub: Hub, id: string, snapshot: int): Hub
    requires id in hub.records
  {
    var record := hub.records[id];
    hub.(records := hub.records[id := record.(snapshot := if snapshot > 0 then snapshot else record.snapshot,
                                              triggered := AnyOpen(record.targets))])
  }

  function NamesOf(globs: Globs, record: Record, report: Report): set<string> {
    TargetNames(globs, record.rule, report.Keys, record.targets.Keys)
  }

  /** Evaluating one rule; a service snapshot already seen is skipped. */
  function EvaluateRule(hub: Hub, id: string, report: Report, snapshot: int, names: seq<string>): Hub
    requires id in hub.records
  {
    if snapshot > 0 && hub.records[id].snapshot == snapshot then hub
    else Finish(VisitAll(hub, id, report, names), id, snapshot)
  }

  // ------------------------------------------------------------------ all actions

  datatype Action =
    | Create(id: string, rule: Rule, kind: string)
    | Evaluated(id: string, report: Report, snapshot: int, names: seq<string>)
    | Edit(id: string, rule: Rule, kind: string)
    | Delete(id: string)
    | Purge(row: nat)

  predicate Enabled(globs: Globs, hub: Hub, action: Action) {
    match action
    case Create(id, _, _) => id !in hub.records
    case Evaluated(id, report, _, names) =>
      id in hub.records && Enumerates(names, NamesOf(globs, hub.records[id], report))
    case Edit(id, _, _) => id in hub.records
    case Delete(id) => id in hub.records
    case Purge(_) => true
  }

  function Apply(globs: Globs, hub: Hub, action: Action): Hub
    requires Enabled(globs, hub, action)
  {
    match action
    case Create(id, rule, kind) =>
      hub.(records := hub.records[id := Record(rule, kind, 0, map[], false)], log := hub.log + [I.Reset(id)])
    case Evaluated(id, report, snapshot, names) => EvaluateRule(hub, id, report, snapshot, names)
    case Edit(id, rule, kind) =>
      if hub.records[id].rule == rule && hub.records[id].kind == kind then hub
      else hub.(records := hub.records[id := Record(rule, kind, 0, map[], false)],
                rows := I.ResolveAll(hub.born, hub.rows, id), log := hub.log + [I.Reset(id)])
    case Delete(id) =>
      hub.(records := hub.records - {id}, rows := I.ResolveAll(hub.born, hub.rows, id), log := hub.log + [I.Reset(id)])
    case Purge(row) => hub.(rows := hub.rows - {row})
  }

  /** A target that is not reported counts for a rule on states as absent if it is a service
      and as stopped if it is a container or a process. */
  lemma {:induction false} AbsenceCounts(record: Record, report: Report, name: string, row: nat, state: string)
    requires name !in report && record.rule.metric == "" && record.rule.condition == "is"
    requires record.rule.states == [state] && record.rule.subStates == []
    ensures record.kind == "service" ==> (TargetAfter(record, report, name, row).count > 0 <==> state == "absent")
    ensures record.kind in {"container", "process"} ==>
              (TargetAfter(record, report, name, row).count > 0 <==> state == "stopped")
  {
  }

  /** And for a rule on a metric it uses and runs nothing. */
  lemma {:induction false} AbsenceIsZero(record: Record, report: Report, name: string, row: nat)
    requires name !in report && record.rule.metric in {"cpu", "mem", "count"}
    ensures record.rule.condition == "above" ==>
              (TargetAfter(record, report, name, row).count > 0 <==> record.rule.threshold < 0.0)
    ensures record.rule.condition == "below" ==>
              (TargetAfter(record, report, name, row).count > 0 <==> record.rule.threshold > 0.0)
  {
  }

  /** A rule can be created unless it is there, and once it is it can be evaluated on every
      report, edited and deleted; rows can be purged at any time. */
  lemma {:induction false} EverythingCanHappen(globs: Globs, hub: Hub, id: string, rule: Rule, kind: string,
                                               report: Report, snapshot: int, row: nat)
      returns (names: seq<string>)
    ensures Enabled(globs, hub, Purge(row))
    ensures id !in hub.records ==> Enabled(globs, hub, Create(id, rule, kind))
    ensures id in hub.records ==>
              && Enabled(globs, hub, Evaluated(id, report, snapshot, names))
              && Enabled(globs, hub, Edit(id, rule, kind)) && Enabled(globs, hub, Delete(id))
  {
    names := [];
    if id in hub.records {
      names := SomeOrder(NamesOf(globs, hub.records[id], report));
    }
  }

  /** An edit starts a rule over if and only if it changes it: nothing is counted, no incident
      is open and no row of the rule is left unresolved. Other rules and rows stay as they are. */
  lemma {:induction false} EditStartsOverIffChanged(globs: Globs, hub: Hub, id: string, rule: Rule, kind: string)
    requires id in hub.records
    ensures var hub', was := Apply(globs, hub, Edit(id, rule, kind)), hub.records[id];
      && (hub' == hub <==> was.rule == rule && was.kind == kind)
      && (hub' != hub ==> hub'.records == hub.records[id := Record(rule, kind, 0, map[], false)])
      && (hub' != hub ==> hub'.rows.Keys == hub.rows.Keys && forall row :: row in hub.rows ==>
            hub'.rows[row] == (hub.rows[row] || (row < |hub.born| && hub.born[row].owner == id)))
  {
  }

  // ---------------------------------------------------- the books behind the records

  function HeldBy(targets: map<string, Target>): map<string, nat> {
    map name | name in targets && targets[name].history.Some? :: targets[name].history.value
  }

  function DeskOf(hub: Hub): I.Desk {
    I.Desk(hub.born, hub.rows, map id | id in hub.records :: HeldBy(hub.records[id].targets), hub.log)
  }

  /** Every history row is accounted for, and `triggered` says whether a rule has an
      open incident. */
  ghost predicate Inv(hub: Hub) {
    && I.Inv(DeskOf(hub))
    && forall id :: id in hub.records ==> (hub.records[id].triggered <==> AnyOpen(hub.records[id].targets))
  }

  lemma {:induction false} HeldPut(targets: map<string, Target>, name: string, target: Target)
    ensures HeldBy(targets[name := target]) ==
            if target.history.Some? then HeldBy(targets)[name := target.history.value] else HeldBy(targets) - {name}
    ensures HeldBy(targets - {name}) == HeldBy(targets) - {name}
  {
  }

  lemma {:induction false} HeldAfter(record: Record, report: Report, name: string, row: nat)
    ensures var before, after := TargetOf(record.targets, name), TargetAfter(record, report, name, row);
      HeldBy(TargetsAfter(record, report, name, row)) ==
        if before.history.None? && after.history.Some? then HeldBy(record.targets)[name := row]
        else if before.history.Some? && after.history.None? then HeldBy(record.targets) - {name}
        else HeldBy(record.targets)
  {
    var before, after := TargetOf(record.targets, name), TargetAfter(record, report, name, row);
    HeldPut(record.targets, name, after);
    if before.history == after.history {
      assert name in HeldBy(record.targets) <==> before.history.Some?;
      if before.history.Some? {
        assert HeldBy(record.targets)[name := before.history.value] == HeldBy(record.targets);
      } else {
        assert HeldBy(record.targets) - {name} == HeldBy(record.targets);
      }
    }
  }

  lemma {:induction false} DeskWith(hub: Hub, id: string, record: Record)
    ensures DeskOf(hub.(records := hub.records[id := record])) ==
              DeskOf(hub).(held := DeskOf(hub).held[id := HeldBy(record.targets)])
  {
  }

  /** Visiting a target opens its incident, closes it, or leaves the books alone. */
  lemma {:induction false} VisitDesk(hub: Hub, id: string, report: Report, name: string)
    requires id in hub.records
    ensures var desk, desk' := DeskOf(hub), DeskOf(Visit(hub, id, report, name));
      || desk' == desk
      || (!I.Holds(desk, id, name) && desk' == I.Open(desk, id, name))
      || (I.Holds(desk, id, name) && desk' == I.Close(desk, id, name, I.Sent(id, name, false)))
  {
    var record := hub.records[id];
    var record' := record.(targets := TargetsAfter(record, report, name, |hub.born|));
    HeldAfter(record, report, name, |hub.born|);
    DeskWith(hub, id, record');
    assert DeskOf(hub).held[id] == HeldBy(record.targets);
    assert DeskOf(hub).held[id := HeldBy(record.targets)] == DeskOf(hub).held;
  }

  /** One record differs from another at most in its targets. */
  predicate SameButTargets(a: Record, b: Record) {
    a.rule == b.rule && a.kind == b.kind && a.snapshot == b.snapshot && a.triggered == b.triggered
  }

  ghost predicate OnlyTargetsOf(hub: Hub, hub': Hub, id: string) {
    && hub'.records.Keys == hub.records.Keys
    && forall other :: other in hub.records ==>
         SameButTargets(hub.records[other], hub'.records[other])
         && (other != id ==> hub'.records[other] == hub.records[other])
  }

  lemma {:induction false} VisitFrame(hub: Hub, id: string, report: Report, name: string)
    requires id in hub.records
    ensures OnlyTargetsOf(hub, Visit(hub, id, report, name), id)
  {
    var record := hub.records[id];
    var record' := record.(targets := TargetsAfter(record, report, name, |hub.born|));
    assert Visit(hub, id, report, name).records == hub.records[id := record'];
    OneRecordDiffers(hub, Visit(hub, id, report, name), id, record');
  }

  lemma {:induction false} OneRecordDiffers(hub: Hub, hub': Hub, id: string, record: Record)
    requires id in hub.records && hub'.records == hub.records[id := record]
    requires SameButTargets(hub.records[id], record)
    ensures OnlyTargetsOf(hub, hub', id)
  {
  }

  lemma {:induction false} VisitAllFrame(hub: Hub, id: string, report: Report, names: seq<string>)
    requires id in hub.records
    ensures OnlyTargetsOf(hub, VisitAll(hub, id, report, names), id)
    decreases |names|
  {
    if |names| == 0 {
    } else {
      var front := names[..|names| - 1];
      VisitAllFrame(hub, id, report, front);
      VisitFrame(VisitAll(hub, id, report, front), id, report, names[|names| - 1]);
    }
  }

  lemma {:induction false} VisitKeeps(hub: Hub, id: string, report: Report, name: string)
    requires id in hub.records && I.Inv(DeskOf(hub))
    ensures I.Inv(DeskOf(Visit(hub, id, report, name)))
  {
    var desk := DeskOf(hub);
    VisitDesk(hub, id, report, name);
    if I.Holds(desk, id, name) {
      I.CloseKeeps(desk, id, name, I.Sent(id, name, false));
    } else {
      I.OpenKeeps(desk, id, name);
    }
  }

  lemma {:induction false} VisitAllKeeps(hub: Hub, id: string, report: Report, names: seq<string>)
    requires id in hub.records && I.Inv(DeskOf(hub))
    ensures I.Inv(DeskOf(VisitAll(hub, id, report, names)))
    decreases |names|
  {
    if |names| == 0 {
    } else {
      var front := names[..|names| - 1];
      VisitAllKeeps(hub, id, report, front);
      VisitKeeps(VisitAll(hub, id, report, front), id, report, names[|names| - 1]);
    }
  }

  lemma {:induction false} FinishDesk(visited: Hub, id: string, snapshot: int)
    requires id in visited.records
    ensures DeskOf(Finish(visited, id, snapshot)) == DeskOf(visited)
  {
    var record := Finish(visited, id, snapshot).records[id];
    DeskWith(visited, id, record);
    assert DeskOf(visited).held[id := HeldBy(record.targets)] == DeskOf(visited).held;
  }

  lemma {:induction false} FinishKeeps(hub: Hub, visited: Hub, id: string, snapshot: int)
    requires Inv(hub) && id in hub.records && I.Inv(DeskOf(visited)) && OnlyTargetsOf(hub, visited, id)
    ensures Inv(Finish(visited, id, snapshot))
  {
    FinishDesk(visited, id, snapshot);
    forall other | other in visited.records && other != id
      ensures visited.records[other].triggered <==> AnyOpen(visited.records[other].targets) {
      assert visited.records[other] == hub.records[other];
    }
  }

  lemma {:induction false} EvaluateKeeps(hub: Hub, id: string, report: Report, snapshot: int, names: seq<string>)
    requires Inv(hub) && id in hub.records
    ensures Inv(EvaluateRule(hub, id, report, snapshot, names))
  {
    VisitAllKeeps(hub, id, report, names);
    VisitAllFrame(hub, id, report, names);
    FinishKeeps(hub, VisitAll(hub, id, report, names), id, snapshot);
  }

  lemma {:induction false} EditKeeps(globs: Globs, hub: Hub, id: string, rule: Rule, kind: string)
    requires Inv(hub) && id in hub.records
    ensures Inv(Apply(globs, hub, Edit(id, rule, kind)))
  {
    var desk := DeskOf(hub);
    DeskWith(hub, id, Record(rule, kind, 0, map[], false));
    I.StartOverKeeps(desk, id);
  }

  lemma {:induction false} DeleteKeeps(globs: Globs, hub: Hub, id: string)
    requires Inv(hub) && id in hub.records
    ensures Inv(Apply(globs, hub, Delete(id)))
  {
    var desk := DeskOf(hub);
    I.StartOverKeeps(desk, id);
    assert DeskOf(Apply(globs, hub, Delete(id))) == I.Discard(desk, id);
  }

  lemma {:induction false} CreateKeeps(globs: Globs, hub: Hub, id: string, rule: Rule, kind: string)
    requires Inv(hub) && id !in hub.records
    ensures Inv(Apply(globs, hub, Create(id, rule, kind)))
  {
    DeskWith(hub, id, Record(rule, kind, 0, map[], false));
    I.RegisterKeeps(DeskOf(hub), id);
    assert DeskOf(Apply(globs, hub, Create(id, rule, kind))) == I.Register(DeskOf(hub), id);
  }

  lemma {:induction false} ActionKeepsInv(globs: Globs, hub: Hub, action: Action)
    requires Inv(hub) && Enabled(globs, hub, action)
    ensures Inv(Apply(globs, hub, action))
  {
    match action {
      case Create(id, rule, kind) => CreateKeeps(globs, hub, id, rule, kind);
      case Evaluated(id, report, snapshot, names) => EvaluateKeeps(hub, id, report, snapshot, names);
      case Edit(id, rule, kind) => EditKeeps(globs, hub, id, rule, kind);
      case Delete(id) => DeleteKeeps(globs, hub, id);
      case Purge(row) => I.PurgeKeeps(DeskOf(hub), row);
    }
  }

  // ------------------------------------------------------------------- whole runs

  const INITIAL := Hub(map[], [], map[], [])

  ghost predicate ActionAt(globs: Globs, hubs: seq<Hub>, actions: seq<Action>, i: nat)
    requires |hubs| == |actions| + 1 && i < |actions|
  {
    Enabled(globs, hubs[i], actions[i]) && hubs[i + 1] == Apply(globs, hubs[i], actions[i])
  }

  ghost predicate IsRun(globs: Globs, hubs: seq<Hub>, actions: seq<Action>) {
    IsPath(globs, hubs, actions) && hubs[0] == INITIAL
  }

  /** Over every run of evaluations, edits, deletions and purges: each unresolved row
      of a rule belongs to exactly one of its targets, every ID a target holds is
      unresolved or purged, `triggered` holds exactly when some target is open, and
      triggered and recovered messages of a target alternate between resets. */
  lemma {:induction false} IncidentsConserved(globs: Globs, hubs: seq<Hub>, actions: seq<Action>, i: nat)
    requires IsRun(globs, hubs, actions) && i < |hubs|
    ensures Inv(hubs[i])
  {
    if i == 0 {
    } else {
      IncidentsConserved(globs, hubs, actions, i - 1);
      assert ActionAt(globs, hubs, actions, i - 1);
      ActionKeepsInv(globs, hubs[i - 1], actions[i - 1]);
    }
  }

  /** The same, said of records and rows: a row is unresolved only if the rule and
      target it was opened for hold it, and no other target does. */
  lemma {:induction false} UnresolvedRowsAreHeld(globs: Globs, hubs: seq<Hub>, actions: seq<Action>, i: nat, row: nat)
    requires IsRun(globs, hubs, actions) && i < |hubs| && row in hubs[i].rows && !hubs[i].rows[row]
    ensures var hub := hubs[i];
      && row < |hub.born| && hub.born[row].owner in hub.records
      && hub.records[hub.born[row].owner].triggered
      && (forall id, name :: id in hub.records && name in hub.records[id].targets ==>
            (hub.records[id].targets[name].history == Some(row) <==> hub.born[row] == I.Incident(id, name)))
      && hub.born[row].target in hub.records[hub.born[row].owner].targets
  {
    IncidentsConserved(globs, hubs, actions, i);
    var hub := hubs[i];
    var desk, incident := DeskOf(hub), hub.born[row];
    assert I.Holds(desk, incident.owner, incident.target) && desk.held[incident.owner][incident.target] == row;
    forall id, name | id in hub.records && name in hub.records[id].targets
      ensures hub.records[id].targets[name].history == Some(row) <==> incident == I.Incident(id, name)
    {
      I.OpenRowHasOneHolder(desk, row, id, name);
      assert I.Holds(desk, id, name) <==> hub.records[id].targets[name].history.Some?;
    }
  }

  // ------------------------------------------- the stored targets follow the status machine

  function StatusIn(target: Target): Status {
    Status(target.count, target.history.Some?)
  }

  function TrackedBy(targets: map<string, Target>): Tracked {
    map name | name in targets :: StatusIn(targets[name])
  }

  lemma {:induction false} VisitStatus(hub: Hub, id: string, report: Report, name: string)
    requires id in hub.records
    ensures var record, record' := hub.records[id], Visit(hub, id, report, name).records[id];
      var after := After(record.rule, AbsentState(record.kind), report, TrackedBy(record.targets), name);
      TrackedBy(record'.targets) ==
        if name !in report && name !in record.rule.patterns && after == QUIET then TrackedBy(record.targets) - {name}
        else TrackedBy(record.targets)[name := after]
  {
    var record := hub.records[id];
    var after := TargetAfter(record, report, name, |hub.born|);
    assert StatusIn(TargetOf(record.targets, name)) == StatusOf(TrackedBy(record.targets), name);
    assert StatusIn(after) == After(record.rule, AbsentState(record.kind), report, TrackedBy(record.targets), name);
    assert TrackedBy(record.targets[name := after]) == TrackedBy(record.targets)[name := StatusIn(after)];
    assert TrackedBy(record.targets - {name}) == TrackedBy(record.targets) - {name};
  }

  /** A visited target: forgotten, or with its next status. */
  function Visited(record: Record, report: Report, tracked: Tracked, name: string, after: Status): Tracked {
    if name !in report && name !in record.rule.patterns && after == QUIET then tracked - {name}
    else tracked[name := after]
  }

  /** The statuses after visiting some names, all computed from the statuses before. */
  function PartlyEvaluated(record: Record, report: Report, names: seq<string>): Tracked
    decreases |names|
  {
    var before := TrackedBy(record.targets);
    if |names| == 0 then before
    else
      var name := names[|names| - 1];
      Visited(record, report, PartlyEvaluated(record, report, names[..|names| - 1]), name,
              After(record.rule, AbsentState(record.kind), report, before, name))
  }

  /** Visiting other names leaves a target alone, and a visited one has its next status. */
  lemma {:induction false} PartlyPointwise(record: Record, report: Report, names: seq<string>, n: string)
    ensures var before, result := TrackedBy(record.targets), PartlyEvaluated(record, report, names);
      var after := After(record.rule, AbsentState(record.kind), report, before, n);
      if n in names then
        && (n in result <==> !(n !in report && n !in record.rule.patterns && after == QUIET))
        && (n in result ==> result[n] == after)
      else (n in result <==> n in before) && (n in result ==> result[n] == before[n])
    decreases |names|
  {
    if |names| == 0 {
    } else {
      PartlyPointwise(record, report, names[..|names| - 1], n);
      assert names == names[..|names| - 1] + [names[|names| - 1]];
    }
  }

  lemma {:induction false} VisitAllStatus(hub: Hub, id: string, report: Report, names: seq<string>)
    requires id in hub.records
    requires Distinct(names)
    ensures TrackedBy(VisitAll(hub, id, report, names).records[id].targets) ==
              PartlyEvaluated(hub.records[id], report, names)
    decreases |names|
  {
    if |names| == 0 {
    } else {
      var front, name := names[..|names| - 1], names[|names| - 1];
      DistinctFront(names);
      VisitAllStatus(hub, id, report, front);
      VisitAllFrame(hub, id, report, front);
      VisitStatus(VisitAll(hub, id, report, front), id, report, name);
      PartlyPointwise(hub.records[id], report, front, name);
    }
  }

  lemma {:induction false} FullyPointwise(globs: Globs, record: Record, report: Report, names: seq<string>, n: string)
    requires Enumerates(names, NamesOf(globs, record, report))
    ensures var result := PartlyEvaluated(record, report, names);
      var expected := Evaluate(globs, record.rule, AbsentState(record.kind), report, TrackedBy(record.targets), true);
      (n in result <==> n in expected) && (n in result ==> result[n] == expected[n])
  {
    assert TrackedBy(record.targets).Keys == record.targets.Keys;
    TargetNamesExact(globs, record.rule, report.Keys, record.targets.Keys);
    PartlyPointwise(record, report, names, n);
    assert n in names <==> n in (set name | name in names);
  }

  lemma {:induction false} FullyEvaluated(globs: Globs, record: Record, report: Report, names: seq<string>)
    requires Enumerates(names, NamesOf(globs, record, report))
    ensures PartlyEvaluated(record, report, names)
         == Evaluate(globs, record.rule, AbsentState(record.kind), report, TrackedBy(record.targets), true)
  {
    var result := PartlyEvaluated(record, report, names);
    var expected := Evaluate(globs, record.rule, AbsentState(record.kind), report, TrackedBy(record.targets), true);
    forall n ensures (n in result <==> n in expected) && (n in result ==> result[n] == expected[n]) {
      FullyPointwise(globs, record, report, names, n);
    }
    SameMaps(result, expected);
  }

  lemma {:induction false} SameMaps<T>(a: map<string, T>, b: map<string, T>)
    requires forall n :: (n in a <==> n in b) && (n in a ==> a[n] == b[n])
    ensures a == b
  {
    assert a.Keys == b.Keys;
  }

  /** Evaluating a stored rule is one evaluation of the status machine, in whatever
      order its targets are visited; an already seen snapshot changes nothing. */
  lemma {:induction false} EvaluateRefines(globs: Globs, hub: Hub, id: string, report: Report, snapshot: int,
                                           names: seq<string>)
    requires id in hub.records && Enumerates(names, NamesOf(globs, hub.records[id], report))
    ensures var record, hub' := hub.records[id], EvaluateRule(hub, id, report, snapshot, names);
      if snapshot > 0 && record.snapshot == snapshot then hub' == hub
      else
        && id in hub'.records
        && TrackedBy(hub'.records[id].targets)
           == Evaluate(globs, record.rule, AbsentState(record.kind), report, TrackedBy(record.targets), true)
        && hub'.records[id].snapshot == if snapshot > 0 then snapshot else record.snapshot
  {
    VisitAllStatus(hub, id, report, names);
    VisitAllFrame(hub, id, report, names);
    FullyEvaluated(globs, hub.records[id], report, names);
  }

  /** A name whose status an evaluation leaves as it is. */
  lemma {:induction false} UnmovedTarget(globs: Globs, record: Record, report: Report, name: string, row: nat)
    requires name in NamesOf(globs, record, report)
    requires Evaluate(globs, record.rule, AbsentState(record.kind), report, TrackedBy(record.targets), true) ==
               TrackedBy(record.targets)
    ensures TargetsAfter(record, report, name, row) == record.targets
    ensures TargetAfter(record, report, name, row).history == TargetOf(record.targets, name).history
  {
    var tracked := TrackedBy(record.targets);
    assert tracked.Keys == record.targets.Keys;
    var after := After(record.rule, AbsentState(record.kind), report, tracked, name);
    assert StatusIn(TargetOf(record.targets, name)) == StatusOf(tracked, name);
    assert StatusIn(TargetAfter(record, report, name, row)) == after;
    if name in record.targets {
      assert tracked[name] == after;
      assert record.targets[name := record.targets[name]] == record.targets;
    } else {
      assert record.targets - {name} == record.targets;
    }
  }

  lemma {:induction false} UnmovedVisits(globs: Globs, hub: Hub, id: string, report: Report, names: seq<string>)
    requires id in hub.records && forall name :: name in names ==> name in NamesOf(globs, hub.records[id], report)
    requires var record := hub.records[id];
      Evaluate(globs, record.rule, AbsentState(record.kind), report, TrackedBy(record.targets), true) ==
        TrackedBy(record.targets)
    ensures VisitAll(hub, id, report, names) == hub
    decreases |names|
  {
    if |names| == 0 {
    } else {
      var front, name := names[..|names| - 1], names[|names| - 1];
      assert names == front + [name];
      UnmovedVisits(globs, hub, id, report, front);
      UnmovedTarget(globs, hub.records[id], report, name, |hub.born|);
      assert hub.records[id := hub.records[id]] == hub.records;
    }
  }

  lemma {:induction false} UnmovedIsNoOp(globs: Globs, hub: Hub, id: string, report: Report, snapshot: int,
                                         names: seq<string>)
    requires id in hub.records && Enumerates(names, NamesOf(globs, hub.records[id], report)) && snapshot <= 0
    requires hub.records[id].triggered <==> AnyOpen(hub.records[id].targets)
    requires var record := hub.records[id];
      Evaluate(globs, record.rule, AbsentState(record.kind), report, TrackedBy(record.targets), true) ==
        TrackedBy(record.targets)
    ensures EvaluateRule(hub, id, report, snapshot, names) == hub
  {
    assert forall name :: name in names <==> name in (set x | x in names);
    UnmovedVisits(globs, hub, id, report, names);
    assert hub.records[id := hub.records[id]] == hub.records;
  }

  /** An evaluation changes nothing exactly when its snapshot is the stored one or, without
      a snapshot, the status machine stays where it is. */
  lemma {:induction false} NoOpIff(globs: Globs, hub: Hub, id: string, report: Report, snapshot: int,
                                   names: seq<string>)
    requires id in hub.records && Enumerates(names, NamesOf(globs, hub.records[id], report))
    requires hub.records[id].triggered <==> AnyOpen(hub.records[id].targets)
    ensures var record := hub.records[id];
      EvaluateRule(hub, id, report, snapshot, names) == hub <==>
      || (snapshot > 0 && record.snapshot == snapshot)
      || (snapshot <= 0
          && Evaluate(globs, record.rule, AbsentState(record.kind), report, TrackedBy(record.targets), true) ==
               TrackedBy(record.targets))
  {
    var record := hub.records[id];
    EvaluateRefines(globs, hub, id, report, snapshot, names);
    if snapshot <= 0
       && Evaluate(globs, record.rule, AbsentState(record.kind), report, TrackedBy(record.targets), true) ==
            TrackedBy(record.targets) {
      UnmovedIsNoOp(globs, hub, id, report, snapshot, names);
    }
  }

  // ------------------------------------------------------------------ what is sent

  /** The messages of visiting names in order, from the statuses before. */
  function Notices(id: string, record: Record, report: Report, names: seq<string>): seq<I.Notice>
    decreases |names|
  {
    if |names| == 0 then []
    else
      var name, before := names[|names| - 1], TrackedBy(record.targets);
      var after := After(record.rule, AbsentState(record.kind), report, before, name);
      Notices(id, record, report, names[..|names| - 1])
      + if StatusOf(before, name).open == after.open then [] else [I.Sent(id, name, after.open)]
  }

  lemma {:induction false} VisitLog(hub: Hub, id: string, report: Report, name: string)
    requires id in hub.records
    ensures Visit(hub, id, report, name).log == hub.log + Notices(id, hub.records[id], report, [name])
  {
    var record := hub.records[id];
    assert StatusIn(TargetOf(record.targets, name)) == StatusOf(TrackedBy(record.targets), name);
    assert StatusIn(TargetAfter(record, report, name, |hub.born|))
        == After(record.rule, AbsentState(record.kind), report, TrackedBy(record.targets), name);
    assert Notices(id, record, report, [name][..0]) == [];
  }

  lemma {:induction false} NoticesSnoc(id: string, record: Record, report: Report, names: seq<string>, name: string)
    ensures Notices(id, record, report, names + [name]) ==
              Notices(id, record, report, names) + Notices(id, record, report, [name])
  {
    assert (names + [name])[..|names|] == names && [name][..0] == [];
  }

  lemma {:induction false} UnvisitedStatus(hub: Hub, id: string, report: Report, names: seq<string>, name: string)
    requires id in hub.records && name !in names
    requires Distinct(names)
    ensures var record, record' := hub.records[id], VisitAll(hub, id, report, names).records[id];
      SameButTargets(record, record')
      && StatusOf(TrackedBy(record'.targets), name) == StatusOf(TrackedBy(record.targets), name)
  {
    VisitAllFrame(hub, id, report, names);
    VisitAllStatus(hub, id, report, names);
    PartlyPointwise(hub.records[id], report, names, name);
  }

  lemma {:induction false} NoticesOfOne(id: string, a: Record, b: Record, report: Report, name: string)
    requires SameButTargets(a, b) && StatusOf(TrackedBy(a.targets), name) == StatusOf(TrackedBy(b.targets), name)
    ensures Notices(id, a, report, [name]) == Notices(id, b, report, [name])
  {
    assert [name][..0] == [];
  }

  /** An evaluation sends exactly one message per target whose incident opened or
      closed, in the order the targets were visited. */
  lemma {:induction false} VisitAllLog(hub: Hub, id: string, report: Report, names: seq<string>)
    requires id in hub.records
    requires Distinct(names)
    ensures VisitAll(hub, id, report, names).log == hub.log + Notices(id, hub.records[id], report, names)
    decreases |names|
  {
    if |names| == 0 {
    } else {
      var front, name := names[..|names| - 1], names[|names| - 1];
      DistinctFront(names);
      VisitAllLog(hub, id, report, front);
      NextVisitLog(hub, id, report, front, name);
      NoticesSnoc(id, hub.records[id], report, front, name);
      assert hub.log + (Notices(id, hub.records[id], report, front) + Notices(id, hub.records[id], report, [name]))
          == hub.log + Notices(id, hub.records[id], report, front) + Notices(id, hub.records[id], report, [name]);
    }
  }

  lemma {:induction false} NextVisitLog(hub: Hub, id: string, report: Report, names: seq<string>, name: string)
    requires id in hub.records && name !in names
    requires Distinct(names)
    ensures var mid := VisitAll(hub, id, report, names);
      Visit(mid, id, report, name).log == mid.log + Notices(id, hub.records[id], report, [name])
  {
    var mid := VisitAll(hub, id, report, names);
    UnvisitedStatus(hub, id, report, names, name);
    VisitLog(mid, id, report, name);
    NoticesOfOne(id, hub.records[id], mid.records[id], report, name);
  }

  // --------------------------------------------------------------- the two loops

  /** Updates one target: its count, its history row, the message, and whether to forget it. */
  method VisitOne(hub: Hub, id: string, report: Report, name: string) returns (result: Hub)
    requires id in hub.records
    ensures result == Visit(hub, id, report, name)
  {
    var record := hub.records[id];
    var born, rows, log := hub.born, hub.rows, hub.log;
    var obs := if name in report then report[name] else Absent(AbsentState(record.kind));
    var target := if name in record.targets then record.targets[name] else Target(0, None);
    var count, history := if Fires(record.rule, obs) then target.count + 1 else 0, target.history;
    if history.None? && count >= record.rule.Cycles() {
      history := Some(|born|);
      rows := rows[|born| := false];
      born := born + [I.Incident(id, name)];
      log := log + [I.Sent(id, name, true)];
    } else if history.Some? && count == 0 {
      rows := I.Resolve(rows, history.value);
      history := None;
      log := log + [I.Sent(id, name, false)];
    }
    var targets := record.targets[name := Target(count, history)];
    if name !in report && history.None? && count == 0 && name !in record.rule.patterns {
      targets := targets - {name};
      assert targets == record.targets - {name};
    }
    result := Hub(hub.records[id := record.(targets := targets)], born, rows, log);
  }

  /** Evaluates one rule, target by target. */
  method EvaluateOne(globs: Globs, hub: Hub, id: string, report: Report, snapshot: int)
    returns (result: Hub, names: seq<string>)
    requires id in hub.records
    ensures Enumerates(names, NamesOf(globs, hub.records[id], report))
    ensures result == EvaluateRule(hub, id, report, snapshot, names)
  {
    names := InSomeOrder(NamesOf(globs, hub.records[id], report));
    result := VisitNames(hub, id, report, snapshot, names);
  }

  method VisitNames(hub: Hub, id: string, report: Report, snapshot: int, names: seq<string>) returns (result: Hub)
    requires id in hub.records
    ensures result == EvaluateRule(hub, id, report, snapshot, names)
  {
    result := hub;
    if snapshot > 0 && hub.records[id].snapshot == snapshot {
      return;
    }
    for i := 0 to |names|
      invariant result == VisitAll(hub, id, report, names[..i])
    {
      assert names[..i + 1][..i] == names[..i];
      result := VisitOne(result, id, report, names[i]);
    }
    assert names[..|names|] == names;
    var record := result.records[id];
    var triggered := exists name :: name in record.targets && record.targets[name].history.Some?;
    var seen := if snapshot > 0 then snapshot else record.snapshot;
    result := result.(records := result.records[id := record.(triggered := triggered, snapshot := seen)]);
  }

  ghost predicate IsPath(globs: Globs, hubs: seq<Hub>, actions: seq<Action>) {
    |hubs| == |actions| + 1 && forall i :: 0 <= i < |actions| ==> ActionAt(globs, hubs, actions, i)
  }

  /** Actions that lead from one hub to another. */
  ghost predicate Leads(globs: Globs, hub: Hub, actions: seq<Action>, hub': Hub) {
    exists hubs :: IsPath(globs, hubs, actions) && hubs[0] == hub && hubs[|actions|] == hub'
  }

  lemma {:induction false} LeadsNowhere(globs: Globs, hub: Hub)
    ensures Leads(globs, hub, [], hub)
  {
    assert IsPath(globs, [hub], []);
  }

  lemma {:induction false} LeadsOn(globs: Globs, hub: Hub, actions: seq<Action>, mid: Hub, action: Action)
    requires Leads(globs, hub, actions, mid) && Enabled(globs, mid, action)
    ensures Leads(globs, hub, actions + [action], Apply(globs, mid, action))
  {
    var hubs :| IsPath(globs, hubs, actions) && hubs[0] == hub && hubs[|actions|] == mid;
    var hubs', actions' := hubs + [Apply(globs, mid, action)], actions + [action];
    forall i | 0 <= i < |actions'| ensures ActionAt(globs, hubs', actions', i) {
      if i < |actions| {
        assert ActionAt(globs, hubs, actions, i);
        assert hubs'[i] == hubs[i] && hubs'[i + 1] == hubs[i + 1] && actions'[i] == actions[i];
      }
    }
    assert IsPath(globs, hubs', actions');
  }

  ghost predicate IsEvaluation(action: Action, id: string, report: Report, snapshot: int) {
    action.Evaluated? && action.id == id && action.report == report && action.snapshot == snapshot
  }

  /** Evaluates every rule of a kind: a run of one evaluation for each of them. */
  method EvaluateStateAlerts(globs: Globs, hub: Hub, kind: string, report: Report, snapshot: int)
    returns (result: Hub, ids: seq<string>, ghost actions: seq<Action>)
    ensures Enumerates(ids, set id | id in hub.records && hub.records[id].kind == kind)
    ensures |actions| == |ids| && forall i :: 0 <= i < |ids| ==> IsEvaluation(actions[i], ids[i], report, snapshot)
    ensures Leads(globs, hub, actions, result)
  {
    var all := set id | id in hub.records && hub.records[id].kind == kind;
    ids := InSomeOrder(all);
    forall id | id in ids ensures id in hub.records {
      assert id in (set name | name in ids);
      assert id in all;
    }
    result, actions := EvaluateIds(globs, hub, ids, report, snapshot);
  }

  method EvaluateIds(globs: Globs, hub: Hub, ids: seq<string>, report: Report, snapshot: int)
    returns (result: Hub, ghost actions: seq<Action>)
    requires forall id :: id in ids ==> id in hub.records
    ensures |actions| == |ids| && forall i :: 0 <= i < |ids| ==> IsEvaluation(actions[i], ids[i], report, snapshot)
    ensures Leads(globs, hub, actions, result)
  {
    result, actions := hub, [];
    LeadsNowhere(globs, hub);
    for i := 0 to |ids|
      invariant result.records.Keys == hub.records.Keys
      invariant |actions| == i && forall j :: 0 <= j < i ==> IsEvaluation(actions[j], ids[j], report, snapshot)
      invariant Leads(globs, hub, actions, result)
    {
      assert ids[i] in hub.records;
      var evaluated, names := EvaluateOne(globs, result, ids[i], report, snapshot);
      ghost var action := Evaluated(ids[i], report, snapshot, names);
      LeadsOn(globs, hub, actions, result, action);
      EvaluateKeepsKeys(result, ids[i], report, snapshot, names);
      result, actions := evaluated, actions + [action];
    }
  }

  lemma {:induction false} EvaluateKeepsKeys(hub: Hub, id: string, report: Report, snapshot: int, names: seq<string>)
    requires id in hub.records
    ensures EvaluateRule(hub, id, report, snapshot, names).records.Keys == hub.records.Keys
  {
    VisitAllFrame(hub, id, report, names);
  }

  // ------------------------------------------------- a stored rule over a whole run

  /** The reports a rule evaluated, without repeated service snapshots, and the last
      snapshot among them. */
  function Effective(actions: seq<Action>, id: string): (seq<Report>, int)
    decreases |actions|
  {
    if |actions| == 0 then ([], 0)
    else
      var (reports, snapshot) := Effective(actions[..|actions| - 1], id);
      var last := actions[|actions| - 1];
      if !last.Evaluated? || last.id != id || (last.snapshot > 0 && last.snapshot == snapshot) then (reports, snapshot)
      else (reports + [last.report], if last.snapshot > 0 then last.snapshot else snapshot)
  }

  /** Anything but a change of the rule; an edit that changes nothing is none. */
  predicate LeavesRule(action: Action, id: string, rule: Rule, kind: string) {
    match action
    case Create(other, _, _) => other != id
    case Edit(other, rule', kind') => other != id || (rule' == rule && kind' == kind)
    case Delete(other) => other != id
    case _ => true
  }

  lemma {:induction false} OthersLeaveRecord(globs: Globs, hub: Hub, action: Action, id: string)
    requires Enabled(globs, hub, action) && id in hub.records
    requires LeavesRule(action, id, hub.records[id].rule, hub.records[id].kind)
    requires !(action.Evaluated? && action.id == id)
    ensures id in Apply(globs, hub, action).records && Apply(globs, hub, action).records[id] == hub.records[id]
  {
    if action.Evaluated? {
      VisitAllFrame(hub, action.id, action.report, action.names);
    }
  }

  lemma {:induction false} EvaluationKeepsRule(globs: Globs, hub: Hub, action: Action)
    requires Enabled(globs, hub, action) && action.Evaluated?
    ensures var hub' := Apply(globs, hub, action);
      && action.id in hub'.records
      && hub'.records[action.id].rule == hub.records[action.id].rule
      && hub'.records[action.id].kind == hub.records[action.id].kind
  {
    VisitAllFrame(hub, action.id, action.report, action.names);
  }

  /** From its creation on, whatever else happens, the targets of an unchanged rule
      are those of the status machine run on its reports. */
  lemma {:induction false} StoredFollowsRun(globs: Globs, hubs: seq<Hub>, actions: seq<Action>, id: string)
    requires IsPath(globs, hubs, actions)
    requires id in hubs[0].records && hubs[0].records[id].targets == map[] && hubs[0].records[id].snapshot == 0
    requires forall i :: 0 <= i < |actions| ==>
               LeavesRule(actions[i], id, hubs[0].records[id].rule, hubs[0].records[id].kind)
    ensures var first, last := hubs[0].records[id], hubs[|actions|];
      && id in last.records && last.records[id].rule == first.rule && last.records[id].kind == first.kind
      && last.records[id].snapshot == Effective(actions, id).1
      && TrackedBy(last.records[id].targets) ==
           Run(globs, first.rule, AbsentState(first.kind), Effective(actions, id).0, true)
    decreases |actions|
  {
    var first := hubs[0].records[id];
    if |actions| == 0 {
      assert TrackedBy(map[]) == map[];
    } else {
      var n := |actions| - 1;
      PathPrefix(globs, hubs, actions);
      StoredFollowsRun(globs, hubs[..n + 1], actions[..n], id);
      var hub, action := hubs[n], actions[n];
      assert ActionAt(globs, hubs, actions, n);
      if action.Evaluated? && action.id == id {
        EvaluationKeepsRule(globs, hub, action);
        EvaluateRefines(globs, hub, id, action.report, action.snapshot, action.names);
        var reports := Effective(actions[..n], id).0;
        assert (reports + [action.report])[..|reports|] == reports;
      } else {
        OthersLeaveRecord(globs, hub, action, id);
      }
    }
  }

  lemma {:induction false} PathPrefix(globs: Globs, hubs: seq<Hub>, actions: seq<Action>)
    requires IsPath(globs, hubs, actions) && |actions| > 0
    ensures IsPath(globs, hubs[..|actions|], actions[..|actions| - 1])
  {
    var frontHubs, front := hubs[..|actions|], actions[..|actions| - 1];
    forall i | 0 <= i < |front| ensures ActionAt(globs, frontHubs, front, i) {
      assert ActionAt(globs, hubs, actions, i);
    }
  }

  /** The count a rule stores for a target is its trailing streak of firing reports,
      and it holds a history row exactly when the streak has reached its cycles. */
  lemma {:induction false} StoredCountIsStreak(globs: Globs, hubs: seq<Hub>, actions: seq<Action>, id: string,
                                               name: string)
    requires IsPath(globs, hubs, actions)
    requires id in hubs[0].records && hubs[0].records[id].targets == map[] && hubs[0].records[id].snapshot == 0
    requires forall i :: 0 <= i < |actions| ==>
               LeavesRule(actions[i], id, hubs[0].records[id].rule, hubs[0].records[id].kind)
    ensures id in hubs[|actions|].records
    ensures var first, target := hubs[0].records[id], TargetOf(hubs[|actions|].records[id].targets, name);
      && target.count == Streak(globs, first.rule, AbsentState(first.kind), Effective(actions, id).0, name, true)
      && (target.history.Some? <==> target.count >= first.rule.Cycles())
  {
    var first := hubs[0].records[id];
    StoredFollowsRun(globs, hubs, actions, id);
    StatusIsStreak(globs, first.rule, AbsentState(first.kind), Effective(actions, id).0, name, true);
    var targets := hubs[|actions|].records[id].targets;
    assert StatusIn(TargetOf(targets, name)) == StatusOf(TrackedBy(targets), name);
  }

  // ------------------------------------------------------- a snapshot counts once

  predicate Evaluates(action: Action, id: string) {
    action.Evaluated? && action.id == id
  }

  /** An evaluation of a rule with a service snapshot. */
  predicate WithSnapshot(action: Action, id: string) {
    Evaluates(action, id) && action.snapshot > 0
  }

  predicate HasSnapshot(action: Action, id: string, snapshot: int) {
    WithSnapshot(action, id) && action.snapshot == snapshot
  }

  predicate SeenBefore(actions: seq<Action>, id: string, snapshot: int) {
    exists i :: 0 <= i < |actions| && HasSnapshot(actions[i], id, snapshot)
  }

  function LastSnapshot(actions: seq<Action>, id: string): int {
    if |actions| == 0 then 0
    else
      var last := actions[|actions| - 1];
      if WithSnapshot(last, id) then last.snapshot else LastSnapshot(actions[..|actions| - 1], id)
  }

  /** The reports of a rule, one for each service snapshot: the first with it. */
  function FirstReports(actions: seq<Action>, id: string): seq<Report> {
    if |actions| == 0 then []
    else
      var front, last := actions[..|actions| - 1], actions[|actions| - 1];
      if !Evaluates(last, id) || (last.snapshot > 0 && SeenBefore(front, id, last.snapshot))
      then FirstReports(front, id)
      else FirstReports(front, id) + [last.report]
  }

  /** An evaluation with a snapshot seen before, but not last. */
  ghost predicate ComesBack(actions: seq<Action>, id: string, i: nat)
    requires i < |actions|
  {
    && WithSnapshot(actions[i], id)
    && SeenBefore(actions[..i], id, actions[i].snapshot) && LastSnapshot(actions[..i], id) != actions[i].snapshot
  }

  ghost predicate NeverBack(actions: seq<Action>, id: string) {
    forall i: nat :: i < |actions| ==> !ComesBack(actions, id, i)
  }

  lemma {:induction false} NeverBackFront(actions: seq<Action>, id: string)
    requires |actions| > 0
    ensures NeverBack(actions, id) <==>
            NeverBack(actions[..|actions| - 1], id) && !ComesBack(actions, id, |actions| - 1)
  {
    var n, front := |actions| - 1, actions[..|actions| - 1];
    forall i: nat | i < n ensures ComesBack(actions, id, i) <==> ComesBack(front, id, i) {
      assert actions[..i] == front[..i];
    }
  }

  lemma {:induction false} LastIsSeen(actions: seq<Action>, id: string)
    ensures LastSnapshot(actions, id) > 0 ==> SeenBefore(actions, id, LastSnapshot(actions, id))
    ensures LastSnapshot(actions, id) == Effective(actions, id).1
  {
    if |actions| == 0 {
    } else {
      var n, front := |actions| - 1, actions[..|actions| - 1];
      LastIsSeen(front, id);
      if WithSnapshot(actions[n], id) {
        assert HasSnapshot(actions[n], id, actions[n].snapshot);
      } else if LastSnapshot(front, id) > 0 {
        var i :| 0 <= i < n && HasSnapshot(front[i], id, LastSnapshot(front, id));
        assert HasSnapshot(actions[i], id, LastSnapshot(front, id));
      }
    }
  }

  /** Every snapshot of a rule counts at least once, and exactly once if and only if none
      comes back after another one. */
  lemma {:induction false} CountsOnceIffNeverBack(actions: seq<Action>, id: string)
    ensures |FirstReports(actions, id)| <= |Effective(actions, id).0|
    ensures |FirstReports(actions, id)| == |Effective(actions, id).0| <==> NeverBack(actions, id)
    ensures NeverBack(actions, id) ==> FirstReports(actions, id) == Effective(actions, id).0
  {
    if |actions| == 0 {
    } else {
      var n, front := |actions| - 1, actions[..|actions| - 1];
      CountsOnceIffNeverBack(front, id);
      NeverBackFront(actions, id);
      LastIsSeen(front, id);
    }
  }

  /** Snapshots of a rule that never go back in time. */
  ghost predicate Ascending(actions: seq<Action>, id: string) {
    forall i, j :: 0 <= i < j < |actions| && WithSnapshot(actions[i], id) && WithSnapshot(actions[j], id) ==>
      actions[i].snapshot <= actions[j].snapshot
  }

  lemma {:induction false} LastIsGreatest(actions: seq<Action>, id: string, i: nat)
    requires Ascending(actions, id) && i < |actions| && WithSnapshot(actions[i], id)
    ensures actions[i].snapshot <= LastSnapshot(actions, id)
  {
    var n, front := |actions| - 1, actions[..|actions| - 1];
    if !WithSnapshot(actions[n], id) {
      LastIsGreatest(front, id, i);
    }
  }

  lemma {:induction false} AscendingNeverBack(actions: seq<Action>, id: string)
    requires Ascending(actions, id)
    ensures NeverBack(actions, id)
  {
    forall j: nat | j < |actions| ensures !ComesBack(actions, id, j) {
      var front := actions[..j];
      if WithSnapshot(actions[j], id) && SeenBefore(front, id, actions[j].snapshot) {
        var i :| 0 <= i < j && HasSnapshot(front[i], id, actions[j].snapshot);
        LastIsGreatest(front, id, i);
        LastIsSeen(front, id);
        var k :| 0 <= k < j && HasSnapshot(front[k], id, LastSnapshot(front, id));
        assert actions[k] == front[k];
      }
    }
  }

  /** So a stored rule whose snapshots never go back follows the status machine run on one
      report for each snapshot, however often each was evaluated. */
  lemma {:induction false} SnapshotsCountOnce(globs: Globs, hubs: seq<Hub>, actions: seq<Action>, id: string)
    requires IsPath(globs, hubs, actions)
    requires id in hubs[0].records && hubs[0].records[id].targets == map[] && hubs[0].records[id].snapshot == 0
    requires forall i :: 0 <= i < |actions| ==>
               LeavesRule(actions[i], id, hubs[0].records[id].rule, hubs[0].records[id].kind)
    requires Ascending(actions, id)
    ensures id in hubs[|actions|].records
    ensures var first := hubs[0].records[id];
      TrackedBy(hubs[|actions|].records[id].targets) ==
        Run(globs, first.rule, AbsentState(first.kind), FirstReports(actions, id), true)
  {
    StoredFollowsRun(globs, hubs, actions, id);
    AscendingNeverBack(actions, id);
    CountsOnceIffNeverBack(actions, id);
  }

  function Snapshots(actions: seq<Action>, id: string): set<int> {
    set i | 0 <= i < |actions| && WithSnapshot(actions[i], id) :: actions[i].snapshot
  }

  lemma {:induction false} SnapshotsFront(actions: seq<Action>, id: string)
    requires |actions| > 0
    ensures var front, last := actions[..|actions| - 1], actions[|actions| - 1];
      Snapshots(actions, id) == Snapshots(front, id) + if WithSnapshot(last, id) then {last.snapshot} else {}
  {
    var n, front := |actions| - 1, actions[..|actions| - 1];
    assert forall i :: 0 <= i < n ==> front[i] == actions[i];
    forall s | s in Snapshots(actions, id)
      ensures s in Snapshots(front, id) || (WithSnapshot(actions[n], id) && s == actions[n].snapshot) {
      var i :| 0 <= i < |actions| && WithSnapshot(actions[i], id) && actions[i].snapshot == s;
      assert i < n ==> WithSnapshot(front[i], id);
    }
    forall s | s in Snapshots(front, id) ensures s in Snapshots(actions, id) {
      var i :| 0 <= i < n && WithSnapshot(front[i], id) && front[i].snapshot == s;
      assert WithSnapshot(actions[i], id);
    }
  }

  lemma {:induction false} SnapshotsAreSeen(actions: seq<Action>, id: string, snapshot: int)
    ensures snapshot in Snapshots(actions, id) <==> SeenBefore(actions, id, snapshot)
  {
    if i :| 0 <= i < |actions| && HasSnapshot(actions[i], id, snapshot) {
      assert WithSnapshot(actions[i], id);
    }
  }

  lemma {:induction false} OneMore(s: set<int>, x: int)
    ensures |s + {x}| == |s| + if x in s then 0 else 1
  {
    if x in s {
      assert s + {x} == s;
    }
  }

  /** If all evaluations have one, there are as many first reports as distinct snapshots. */
  lemma {:induction false} OneReportPerSnapshot(actions: seq<Action>, id: string)
    requires forall i :: 0 <= i < |actions| && Evaluates(actions[i], id) ==> actions[i].snapshot > 0
    ensures |FirstReports(actions, id)| == |Snapshots(actions, id)|
  {
    if |actions| == 0 {
      assert Snapshots(actions, id) == {};
    } else {
      var front, last := actions[..|actions| - 1], actions[|actions| - 1];
      OneReportPerSnapshot(front, id);
      SnapshotsFront(actions, id);
      if Evaluates(last, id) {
        SnapshotsAreSeen(front, id, last.snapshot);
        OneMore(Snapshots(front, id), last.snapshot);
      } else {
        assert Snapshots(actions, id) == Snapshots(front, id);
      }
    }
  }

  const COUNTED := Rule(["x"], "is", ["failed"], [], 5, "", 0.0)

  lemma {:induction false} OneLiteral(globs: Globs, names: set<string>)
    requires names <= {"x"}
    ensures WithLiterals(globs, names, ["x"]) == {"x"}
  {
    assert ["x"][..0] == [] && IsLiteral("x");
    assert WithLiterals(globs, names, []) == names;
  }

  lemma {:induction false} OnlyTarget(globs: Globs, observed: set<string>, known: set<string>)
    requires observed == {"x"} && known <= {"x"}
    ensures TargetNames(globs, COUNTED, observed, known) == {"x"} && Enumerates(["x"], {"x"})
  {
    OneLiteral(globs, Base(globs, COUNTED, observed, known));
    assert (set name | name in ["x"]) == {"x"};
  }

  ghost predicate Counting(hub: Hub, count: nat, snapshot: int) {
    && "r" in hub.records
    && var record := hub.records["r"];
    && record.rule == COUNTED && record.targets.Keys <= {"x"} && record.snapshot == snapshot
    && TargetOf(record.targets, "x").count == count
  }

  const FAILED: Report := map["x" := Observation("failed", "", 0.0, 0.0, 0)]

  lemma {:induction false} VisitCounts(hub: Hub, count: nat, before: int, snapshot: int)
    requires Counting(hub, count, before) && snapshot > 0 && before != snapshot
    ensures Counting(EvaluateRule(hub, "r", FAILED, snapshot, ["x"]), count + 1, snapshot)
  {
    assert COUNTED.states[0] == "failed" && Fires(COUNTED, FAILED["x"]);
    assert ["x"][..0] == [];
    assert VisitAll(hub, "r", FAILED, ["x"]) == Visit(hub, "r", FAILED, "x");
  }

  /** One more evaluation of a failed report counts it. */
  lemma {:induction false} CountsOneMore(globs: Globs, start: Hub, actions: seq<Action>, hub: Hub, count: nat,
                                         before: int, snapshot: int)
    returns (hub': Hub)
    requires Leads(globs, start, actions, hub) && Counting(hub, count, before) && snapshot > 0 && before != snapshot
    ensures Leads(globs, start, actions + [Evaluated("r", FAILED, snapshot, ["x"])], hub')
    ensures Counting(hub', count + 1, snapshot)
  {
    OnlyTarget(globs, FAILED.Keys, hub.records["r"].targets.Keys);
    LeadsOn(globs, start, actions, hub, Evaluated("r", FAILED, snapshot, ["x"]));
    VisitCounts(hub, count, before, snapshot);
    hub' := EvaluateRule(hub, "r", FAILED, snapshot, ["x"]);
  }

  lemma {:induction false} StartsCounting(globs: Globs) returns (hub: Hub)
    ensures Leads(globs, INITIAL, [Create("r", COUNTED, "service")], hub) && Counting(hub, 0, 0)
  {
    LeadsNowhere(globs, INITIAL);
    LeadsOn(globs, INITIAL, [], INITIAL, Create("r", COUNTED, "service"));
    assert [] + [Create("r", COUNTED, "service")] == [Create("r", COUNTED, "service")];
    hub := Apply(globs, INITIAL, Create("r", COUNTED, "service"));
  }

  /** A snapshot that comes back counts again: a run in which the snapshots 1, 2, 1 of a
      failed service count three times. */
  lemma {:induction false} ReturningCountsAgain(globs: Globs) returns (hubs: seq<Hub>, actions: seq<Action>)
    ensures IsRun(globs, hubs, actions) && |actions| == 4
    ensures forall i :: 1 <= i < 4 ==> IsEvaluation(actions[i], "r", FAILED, if i == 2 then 2 else 1)
    ensures Counting(hubs[4], 3, 1)
  {
    var one, two := Evaluated("r", FAILED, 1, ["x"]), Evaluated("r", FAILED, 2, ["x"]);
    actions := [Create("r", COUNTED, "service")];
    var h1 := StartsCounting(globs);
    var h2 := CountsOneMore(globs, INITIAL, actions, h1, 0, 0, 1);
    var h3 := CountsOneMore(globs, INITIAL, actions + [one], h2, 1, 1, 2);
    var h4 := CountsOneMore(globs, INITIAL, actions + [one] + [two], h3, 2, 2, 1);
    actions := actions + [one] + [two] + [one];
    hubs :| IsPath(globs, hubs, actions) && hubs[0] == INITIAL && hubs[|actions|] == h4;
  }
}
