/** Packet loss alerts on network monitors
    (internal/alerts/alerts_network_monitors.go): the transactional evaluation, the
    fast path in front of it, and incidents over whole runs.

    Times are nanoseconds; a probe timestamp is milliseconds. */
module MonitorAlerts {
  import opened Common
  import I = Incidents

  const SECOND := 1_000_000_000
  const MINUTE := 60 * SECOND
  const HOUR := 60 * MINUTE

  datatype Loss = Percent(value: real) | NotANumber | Infinite

  datatype Result = Result(packetLoss1h: Loss, lastProbeAt: int, sampleCount: int)

  function Min(a: int, b: int): int { if a < b then a else b }

  function Max(a: int, b: int): int { if a < b then b else a }

  /** A result counts after three attempts, with a real loss, and while it is fresh. */
  predicate Ready(result: Result, interval: int, now: int) {
    && result.sampleCount >= 3 && result.lastProbeAt > 0
    && result.packetLoss1h.Percent? && 0.0 <= result.packetLoss1h.value <= 100.0
    && var maxAge := Min(HOUR, Max(3 * interval * SECOND, 3 * MINUTE));
    var age := now - result.lastProbeAt * 1_000_000;
    -MINUTE <= age <= maxAge
  }

  /** A result is fresh for three of its intervals, but for no less than three minutes and no
      more than an hour, and may be a minute ahead. */
  lemma {:induction false} FreshFor(result: Result, interval: int, now: int)
    ensures Ready(result, interval, now) <==>
      && result.sampleCount >= 3 && result.lastProbeAt > 0
      && result.packetLoss1h.Percent? && 0.0 <= result.packetLoss1h.value <= 100.0
      && now + 60_000_000_000 >= result.lastProbeAt * 1_000_000
      && now <= result.lastProbeAt * 1_000_000 +
                  (if interval <= 60 then 180_000_000_000
                   else if interval <= 1_200 then interval * 3_000_000_000
                   else 3_600_000_000_000)
  {
  }

  /** `decodable` tells whether the stored state can be read at all. The state itself,
      monitor IDs to open history rows, is what the desk holds for the alert. */
  datatype Alert = Alert(value: real, triggered: bool, decodable: bool)

  datatype Hub = Hub(alerts: map<string, Alert>, desk: I.Desk)

  /** What an evaluation reads: the enabled monitors with their intervals, whether the
      system is up, the results and the time. */
  datatype Input = Input(enabled: map<string, int>, up: bool, results: map<string, Result>, now: int)

  /** Whether an evaluation learns anything about a monitor. */
  predicate Heard(input: Input, m: string) {
    input.up && m in input.enabled && m in input.results && Ready(input.results[m], input.enabled[m], input.now)
  }

  predicate Lossy(input: Input, value: real, m: string)
    requires Heard(input, m)
  {
    input.results[m].packetLoss1h.value > value
  }

  // ------------------------------------------------------------- the evaluation

  function SweepOne(desk: I.Desk, a: string, input: Input, m: string): (desk': I.Desk)
    requires a in desk.held
    ensures a in desk'.held
  {
    if I.Holds(desk, a, m) && m !in input.enabled then I.Close(desk, a, m, I.Silent(a, m)) else desk
  }

  /** Going through the held monitors: removed and disabled ones close silently. */
  function Sweep(desk: I.Desk, a: string, input: Input, keys: seq<string>): (desk': I.Desk)
    requires a in desk.held
    ensures a in desk'.held
    decreases |keys|
  {
    if |keys| == 0 then desk else SweepOne(Sweep(desk, a, input, keys[..|keys| - 1]), a, input, keys[|keys| - 1])
  }

  predicate Flips(desk: I.Desk, a: string, value: real, input: Input, m: string) {
    Heard(input, m) && (Lossy(input, value, m) != I.Holds(desk, a, m))
  }

  function Judge(desk: I.Desk, a: string, value: real, input: Input, m: string): (desk': I.Desk)
    requires a in desk.held
    ensures a in desk'.held
  {
    if !Flips(desk, a, value, input, m) then desk
    else if Lossy(input, value, m) then I.Open(desk, a, m)
    else I.Close(desk, a, m, I.Sent(a, m, false))
  }

  function JudgeAll(desk: I.Desk, a: string, value: real, input: Input, ms: seq<string>): (desk': I.Desk)
    requires a in desk.held
    ensures a in desk'.held
    decreases |ms|
  {
    if |ms| == 0 then desk else Judge(JudgeAll(desk, a, value, input, ms[..|ms| - 1]), a, value, input, ms[|ms| - 1])
  }

  /** The monitors an alert still holds that are no longer enabled. */
  function Gone(desk: I.Desk, a: string, input: Input): set<string>
    requires a in desk.held
  {
    set m | m in desk.held[a] && m !in input.enabled
  }

  /** The orders in which the held and the enabled monitors are gone through. */
  datatype Plan = Plan(held: seq<string>, enabled: seq<string>)

  ghost predicate Covers(plan: Plan, desk: I.Desk, a: string, input: Input)
    requires a in desk.held
  {
    (forall m :: m in plan.held <==> m in desk.held[a]) && (forall m :: m in plan.enabled <==> m in input.enabled)
  }

  function EvaluateAlert(desk: I.Desk, a: string, value: real, input: Input, plan: Plan): (desk': I.Desk)
    requires a in desk.held
    ensures a in desk'.held
  {
    JudgeAll(Sweep(desk, a, input, plan.held), a, value, input, plan.enabled)
  }

  /** What an operation on one alert leaves alone. */
  ghost predicate OnlyTouches(desk: I.Desk, desk': I.Desk, a: string) {
    && desk'.held.Keys == desk.held.Keys
    && (forall b :: b in desk.held && b != a ==> desk'.held[b] == desk.held[b])
    && desk.log <= desk'.log
  }

  lemma {:induction false} SweepOneKeeps(desk: I.Desk, a: string, input: Input, m: string)
    requires a in desk.held
    ensures OnlyTouches(desk, SweepOne(desk, a, input, m), a)
    ensures I.Inv(desk) ==> I.Inv(SweepOne(desk, a, input, m))
    ensures forall n :: I.Holds(SweepOne(desk, a, input, m), a, n) <==>
            I.Holds(desk, a, n) && (n == m ==> m in input.enabled)
  {
    if I.Inv(desk) && I.Holds(desk, a, m) {
      I.CloseKeeps(desk, a, m, I.Silent(a, m));
    }
  }

  lemma {:induction false} SweepKeeps(desk: I.Desk, a: string, input: Input, keys: seq<string>)
    requires a in desk.held
    ensures OnlyTouches(desk, Sweep(desk, a, input, keys), a)
    ensures I.Inv(desk) ==> I.Inv(Sweep(desk, a, input, keys))
    ensures forall n :: I.Holds(Sweep(desk, a, input, keys), a, n) <==>
            I.Holds(desk, a, n) && (n in keys ==> n in input.enabled)
    decreases |keys|
  {
    if |keys| == 0 {
    } else {
      var front, m := keys[..|keys| - 1], keys[|keys| - 1];
      SweepKeeps(desk, a, input, front);
      SweepOneKeeps(Sweep(desk, a, input, front), a, input, m);
      assert keys == front + [m];
    }
  }

  lemma {:induction false} JudgeKeeps(desk: I.Desk, a: string, value: real, input: Input, m: string)
    requires a in desk.held
    ensures OnlyTouches(desk, Judge(desk, a, value, input, m), a)
    ensures I.Inv(desk) ==> I.Inv(Judge(desk, a, value, input, m))
    ensures forall n :: I.Holds(Judge(desk, a, value, input, m), a, n) <==>
              if n == m && Heard(input, m) then Lossy(input, value, m) else I.Holds(desk, a, n)
  {
    if I.Inv(desk) && Flips(desk, a, value, input, m) {
      if Lossy(input, value, m) {
        I.OpenKeeps(desk, a, m);
      } else {
        I.CloseKeeps(desk, a, m, I.Sent(a, m, false));
      }
    }
  }

  lemma {:induction false} JudgeAllKeeps(desk: I.Desk, a: string, value: real, input: Input, ms: seq<string>)
    requires a in desk.held
    ensures OnlyTouches(desk, JudgeAll(desk, a, value, input, ms), a)
    ensures I.Inv(desk) ==> I.Inv(JudgeAll(desk, a, value, input, ms))
    ensures forall n :: I.Holds(JudgeAll(desk, a, value, input, ms), a, n) <==>
              if n in ms && Heard(input, n) then Lossy(input, value, n) else I.Holds(desk, a, n)
    decreases |ms|
  {
    if |ms| == 0 {
    } else {
      var front, m := ms[..|ms| - 1], ms[|ms| - 1];
      JudgeAllKeeps(desk, a, value, input, front);
      JudgeKeeps(JudgeAll(desk, a, value, input, front), a, value, input, m);
      assert ms == front + [m];
    }
  }

  /** Whether an alert has an open incident for a monitor after an evaluation: never
      if the monitor is not enabled; what its result says if there is a ready one and
      the system is up; and otherwise as before. */
  predicate OpenAfter(desk: I.Desk, a: string, value: real, input: Input, m: string) {
    if m !in input.enabled then false
    else if Heard(input, m) then Lossy(input, value, m)
    else I.Holds(desk, a, m)
  }

  lemma {:induction false} EvaluateAlertExact(desk: I.Desk, a: string, value: real, input: Input, plan: Plan)
    requires a in desk.held && Covers(plan, desk, a, input)
    ensures var desk' := EvaluateAlert(desk, a, value, input, plan);
      && OnlyTouches(desk, desk', a)
      && (I.Inv(desk) ==> I.Inv(desk'))
      && (forall m :: I.Holds(desk', a, m) <==> OpenAfter(desk, a, value, input, m))
  {
    SweepKeeps(desk, a, input, plan.held);
    JudgeAllKeeps(Sweep(desk, a, input, plan.held), a, value, input, plan.enabled);
  }

  /** With the system up, three samples or more and the last of them no older than three
      minutes, an enabled monitor has an incident afterwards if and only if its loss is above
      the threshold. */
  lemma {:induction false} LossDecides(desk: I.Desk, a: string, value: real, input: Input, plan: Plan, m: string)
    requires a in desk.held && Covers(plan, desk, a, input)
    requires input.up && m in input.enabled && m in input.results
    requires var result := input.results[m];
      && result.sampleCount >= 3 && result.lastProbeAt > 0 && result.packetLoss1h.Percent?
      && 0.0 <= result.packetLoss1h.value <= 100.0
      && 0 <= input.now - result.lastProbeAt * 1_000_000 <= 180_000_000_000
    ensures I.Holds(EvaluateAlert(desk, a, value, input, plan), a, m) <==>
            input.results[m].packetLoss1h.value > value
  {
    FreshFor(input.results[m], input.enabled[m], input.now);
    EvaluateAlertExact(desk, a, value, input, plan);
  }

  /** One alert record after its evaluation. */
  function EvaluateRecord(hub: Hub, a: string, input: Input, plan: Plan): (hub': Hub)
    requires a in hub.alerts && a in hub.desk.held
    ensures a in hub'.desk.held
  {
    var desk := EvaluateAlert(hub.desk, a, hub.alerts[a].value, input, plan);
    Hub(hub.alerts[a := hub.alerts[a].(triggered := desk.held[a] != map[])], desk)
  }

  /** An alert after an evaluation: every incident as OpenAfter says, and `triggered`
      exactly when it has one. */
  ghost predicate Settled(hub: Hub, hub': Hub, input: Input, a: string)
    requires a in hub.alerts && a in hub'.alerts
  {
    && hub'.alerts[a].value == hub.alerts[a].value && hub'.alerts[a].decodable == hub.alerts[a].decodable
    && (hub'.alerts[a].triggered <==> exists m :: I.Holds(hub'.desk, a, m))
    && (forall m :: I.Holds(hub'.desk, a, m) <==> OpenAfter(hub.desk, a, hub.alerts[a].value, input, m))
  }

  lemma {:induction false} TriggeredMeansHolding(desk: I.Desk, a: string)
    requires a in desk.held
    ensures desk.held[a] != map[] <==> exists m :: I.Holds(desk, a, m)
  {
    if desk.held[a] != map[] {
      var m :| m in desk.held[a];
      assert I.Holds(desk, a, m);
    }
  }

  lemma {:induction false} EvaluateRecordSettles(hub: Hub, a: string, input: Input, plan: Plan)
    requires a in hub.alerts && a in hub.desk.held && Covers(plan, hub.desk, a, input)
    ensures Settled(hub, EvaluateRecord(hub, a, input, plan), input, a)
  {
    EvaluateAlertExact(hub.desk, a, hub.alerts[a].value, input, plan);
    TriggeredMeansHolding(EvaluateRecord(hub, a, input, plan).desk, a);
  }

  // -------------------------------------------------- what an evaluation writes and sends

  /** The evaluation's `changed`: something was closed silently or some monitor flipped. */
  ghost predicate Changed(desk: I.Desk, a: string, value: real, input: Input)
    requires a in desk.held
  {
    Gone(desk, a, input) != {} || exists m :: m in input.enabled && Flips(desk, a, value, input, m)
  }

  /** Whether the transaction saves an alert record. */
  ghost predicate Saves(hub: Hub, a: string, input: Input)
    requires a in hub.alerts && a in hub.desk.held
  {
    var alert := hub.alerts[a];
    Changed(hub.desk, a, alert.value, input) || alert.triggered != (hub.desk.held[a] != map[])
  }

  /** What the cache keeps of an alert; `states` are the monitors with an open incident. */
  datatype CachedAlert = CachedAlert(value: real, triggered: bool, valid: bool, states: set<string>)

  function CachedOf(hub: Hub): map<string, CachedAlert>
    requires hub.desk.held.Keys == hub.alerts.Keys
  {
    map a | a in hub.alerts ::
      CachedAlert(hub.alerts[a].value, hub.alerts[a].triggered, hub.alerts[a].decodable, hub.desk.held[a].Keys)
  }

  /** Whether a result disagrees with what is known of its monitor. */
  predicate Crosses(alert: CachedAlert, monitors: map<string, int>, results: map<string, Result>, now: int, m: string) {
    && m in results && m in monitors && Ready(results[m], monitors[m], now)
    && (results[m].packetLoss1h.value > alert.value) != (m in alert.states)
  }

  predicate NeedsEvaluation(alert: CachedAlert, monitors: map<string, int>, results: map<string, Result>, now: int) {
    || !alert.valid
    || alert.triggered != (|alert.states| > 0)
    || (exists m :: m in alert.states && m !in monitors)
    || (exists m :: m in results && Crosses(alert, monitors, results, now, m))
  }

  /** The fast path, on cached data: no transaction unless this holds. */
  predicate TransitionPending(alerts: map<string, CachedAlert>, monitors: map<string, int>,
                              results: map<string, Result>, now: int) {
    exists a :: a in alerts && NeedsEvaluation(alerts[a], monitors, results, now)
  }

  predicate Fails(hub: Hub) {
    exists a :: a in hub.alerts && !hub.alerts[a].decodable
  }

  /** With caches that agree with the database, the same time and a system that is
      up, the fast path is exact: it holds if and only if the transaction would fail
      or save some alert. */
  lemma {:induction false} FastPathExact(hub: Hub, input: Input)
    requires hub.desk.held.Keys == hub.alerts.Keys && input.up
    ensures TransitionPending(CachedOf(hub), input.enabled, input.results, input.now) <==>
            Fails(hub) || exists a :: a in hub.alerts && Saves(hub, a, input)
  {
    forall a | a in hub.alerts
      ensures NeedsEvaluation(CachedOf(hub)[a], input.enabled, input.results, input.now) <==>
              !hub.alerts[a].decodable || Saves(hub, a, input)
    {
      SavesMeans(hub, a, input);
    }
  }

  lemma {:induction false} SavesMeans(hub: Hub, a: string, input: Input)
    requires hub.desk.held.Keys == hub.alerts.Keys && input.up && a in hub.alerts
    ensures NeedsEvaluation(CachedOf(hub)[a], input.enabled, input.results, input.now) <==>
            !hub.alerts[a].decodable || Saves(hub, a, input)
  {
    var states, cached := hub.desk.held[a], CachedOf(hub)[a];
    assert |cached.states| > 0 <==> states != map[];
    if m :| m in cached.states && m !in input.enabled {
      assert m in Gone(hub.desk, a, input);
    }
    if m :| m in Gone(hub.desk, a, input) {
      assert m in cached.states && m !in input.enabled;
    }
    if m :| m in input.enabled && Flips(hub.desk, a, hub.alerts[a].value, input, m) {
      assert Crosses(cached, input.enabled, input.results, input.now, m);
    }
    if m :| m in input.results && Crosses(cached, input.enabled, input.results, input.now, m) {
      assert Flips(hub.desk, a, hub.alerts[a].value, input, m);
    }
  }

  lemma {:induction false} SweepNothing(desk: I.Desk, a: string, input: Input, keys: seq<string>)
    requires a in desk.held && Gone(desk, a, input) == {}
    ensures Sweep(desk, a, input, keys) == desk
    decreases |keys|
  {
    if |keys| == 0 {
    } else {
      SweepNothing(desk, a, input, keys[..|keys| - 1]);
      var m := keys[|keys| - 1];
      assert m !in Gone(desk, a, input);
    }
  }

  lemma {:induction false} JudgeNothing(desk: I.Desk, a: string, value: real, input: Input, ms: seq<string>)
    requires a in desk.held && forall m :: m in ms ==> !Flips(desk, a, value, input, m)
    ensures JudgeAll(desk, a, value, input, ms) == desk
    decreases |ms|
  {
    if |ms| == 0 {
    } else {
      var front, m := ms[..|ms| - 1], ms[|ms| - 1];
      assert ms == front + [m];
      JudgeNothing(desk, a, value, input, front);
    }
  }

  /** An alert that is not saved was not changed, and nothing was sent for it. */
  lemma {:induction false} UnsavedIsUnchanged(hub: Hub, a: string, input: Input, plan: Plan)
    requires a in hub.alerts && a in hub.desk.held && Covers(plan, hub.desk, a, input)
    requires !Saves(hub, a, input)
    ensures EvaluateRecord(hub, a, input, plan) == hub
  {
    SweepNothing(hub.desk, a, input, plan.held);
    JudgeNothing(hub.desk, a, hub.alerts[a].value, input, plan.enabled);
    assert hub.alerts[a := hub.alerts[a].(triggered := hub.desk.held[a] != map[])] == hub.alerts;
  }

  // ---------------------------------------------------------------- what is sent

  /** Whether a notice was given between two states of the desk. */
  ghost predicate Gave(desk: I.Desk, desk': I.Desk, notice: I.Notice) {
    |desk.log| <= |desk'.log| && notice in desk'.log[|desk.log|..]
  }

  lemma {:induction false} GaveNext(desk: I.Desk, mid: I.Desk, desk': I.Desk, notice: I.Notice)
    requires desk.log <= mid.log <= desk'.log
    ensures Gave(desk, desk', notice) <==> Gave(desk, mid, notice) || Gave(mid, desk', notice)
  {
    assert desk'.log[|desk.log|..] == mid.log[|desk.log|..] + desk'.log[|mid.log|..];
  }

  lemma {:induction false} JudgeGives(desk: I.Desk, a: string, value: real, input: Input, m: string, notice: I.Notice)
    requires a in desk.held
    ensures Gave(desk, Judge(desk, a, value, input, m), notice) <==>
            Flips(desk, a, value, input, m) && notice == I.Sent(a, m, Lossy(input, value, m))
  {
    var desk' := Judge(desk, a, value, input, m);
    if Flips(desk, a, value, input, m) {
      assert desk'.log[|desk.log|..] == [I.Sent(a, m, Lossy(input, value, m))];
    } else {
      assert desk'.log[|desk.log|..] == [];
    }
  }

  lemma {:induction false} JudgeAllGives(desk: I.Desk, a: string, value: real, input: Input, ms: seq<string>,
                                         notice: I.Notice)
    requires a in desk.held
    ensures Gave(desk, JudgeAll(desk, a, value, input, ms), notice) <==>
            && notice.Sent? && notice.target in ms && Flips(desk, a, value, input, notice.target)
            && notice == I.Sent(a, notice.target, Lossy(input, value, notice.target))
    decreases |ms|
  {
    if |ms| == 0 {
      assert desk.log[|desk.log|..] == [];
    } else {
      var front, m := ms[..|ms| - 1], ms[|ms| - 1];
      var mid := JudgeAll(desk, a, value, input, front);
      JudgeAllGives(desk, a, value, input, front, notice);
      JudgeAllKeeps(desk, a, value, input, front);
      JudgeKeeps(mid, a, value, input, m);
      JudgeGives(mid, a, value, input, m, notice);
      GaveNext(desk, mid, Judge(mid, a, value, input, m), notice);
      assert ms == front + [m];
      assert Flips(mid, a, value, input, m) <==> m !in front && Flips(desk, a, value, input, m);
    }
  }

  lemma {:induction false} SweepOneGives(desk: I.Desk, a: string, input: Input, m: string, notice: I.Notice)
    requires a in desk.held
    ensures Gave(desk, SweepOne(desk, a, input, m), notice) <==>
            I.Holds(desk, a, m) && m !in input.enabled && notice == I.Silent(a, m)
  {
    var desk' := SweepOne(desk, a, input, m);
    assert desk'.log[|desk.log|..] == if I.Holds(desk, a, m) && m !in input.enabled then [I.Silent(a, m)] else [];
  }

  lemma {:induction false} SweepGives(desk: I.Desk, a: string, input: Input, keys: seq<string>, notice: I.Notice)
    requires a in desk.held
    ensures Gave(desk, Sweep(desk, a, input, keys), notice) <==>
            && notice.Silent? && notice.target in keys && notice.owner == a
            && I.Holds(desk, a, notice.target) && notice.target !in input.enabled
    decreases |keys|
  {
    if |keys| == 0 {
      assert desk.log[|desk.log|..] == [];
    } else {
      var front, m := keys[..|keys| - 1], keys[|keys| - 1];
      var mid := Sweep(desk, a, input, front);
      SweepGives(desk, a, input, front, notice);
      SweepKeeps(desk, a, input, front);
      SweepOneKeeps(mid, a, input, m);
      SweepOneGives(mid, a, input, m, notice);
      GaveNext(desk, mid, SweepOne(mid, a, input, m), notice);
      assert keys == front + [m];
    }
  }

  /** Everything an evaluation says about an alert: a message when a monitor with a
      ready result of a running system crosses the threshold, which is a recovery only
      at or below it; and nothing but a silent close for monitors no longer enabled. */
  lemma {:induction false} EvaluateAlertGives(desk: I.Desk, a: string, value: real, input: Input, plan: Plan,
                                              notice: I.Notice)
    requires a in desk.held && Covers(plan, desk, a, input)
    ensures Gave(desk, EvaluateAlert(desk, a, value, input, plan), notice) <==>
      var m := if notice.Reset? then "" else notice.target;
      || (notice == I.Silent(a, m) && I.Holds(desk, a, m) && m !in input.enabled)
      || (notice == I.Sent(a, m, true) && Heard(input, m) && Lossy(input, value, m) && !I.Holds(desk, a, m))
      || (notice == I.Sent(a, m, false) && Heard(input, m) && !Lossy(input, value, m) && I.Holds(desk, a, m))
  {
    var swept := Sweep(desk, a, input, plan.held);
    SweepKeeps(desk, a, input, plan.held);
    SweepGives(desk, a, input, plan.held, notice);
    JudgeAllKeeps(swept, a, value, input, plan.enabled);
    JudgeAllGives(swept, a, value, input, plan.enabled, notice);
    GaveNext(desk, swept, EvaluateAlert(desk, a, value, input, plan), notice);
    assert forall m :: m in input.enabled ==> (Flips(swept, a, value, input, m) <==> Flips(desk, a, value, input, m));
  }

  // ------------------------------------------------------------------- whole runs

  datatype Action =
    | Create(alert: string, value: real)
    | SetValue(alert: string, value: real)
    | Evaluated(alert: string, input: Input, plan: Plan)
    | Delete(alert: string)
    | Purge(row: nat)

  ghost predicate Enabled(hub: Hub, action: Action) {
    match action
    case Create(a, _) => a !in hub.alerts
    case SetValue(a, _) => a in hub.alerts
    case Evaluated(a, input, plan) => a in hub.alerts && a in hub.desk.held && Covers(plan, hub.desk, a, input)
    case Delete(a) => a in hub.alerts
    case Purge(_) => true
  }

  /** Every row is accounted for, and `triggered` means a non-empty state. */
  ghost predicate Inv(hub: Hub) {
    && I.Inv(hub.desk)
    && hub.desk.held.Keys == hub.alerts.Keys
    && forall a :: a in hub.alerts ==> (hub.alerts[a].triggered <==> hub.desk.held[a] != map[])
  }

  ghost function Apply(hub: Hub, action: Action): Hub
    requires Enabled(hub, action)
  {
    match action
    case Create(a, value) => Hub(hub.alerts[a := Alert(value, false, true)], I.Register(hub.desk, a))
    case SetValue(a, value) => hub.(alerts := hub.alerts[a := hub.alerts[a].(value := value)])
    case Evaluated(a, input, plan) => EvaluateRecord(hub, a, input, plan)
    case Delete(a) => Hub(hub.alerts - {a}, I.Discard(hub.desk, a))
    case Purge(row) => hub.(desk := I.Purge(hub.desk, row))
  }

  lemma {:induction false} ActionKeepsInv(hub: Hub, action: Action)
    requires Inv(hub) && Enabled(hub, action)
    ensures Inv(Apply(hub, action))
  {
    match action {
      case Create(a, _) => I.RegisterKeeps(hub.desk, a);
      case SetValue(_, _) =>
      case Evaluated(a, input, plan) => EvaluateAlertExact(hub.desk, a, hub.alerts[a].value, input, plan);
      case Delete(a) => I.StartOverKeeps(hub.desk, a);
      case Purge(row) => I.PurgeKeeps(hub.desk, row);
    }
  }

  const INITIAL := Hub(map[], I.Desk([], map[], map[], []))

  /** The hubs a run of actions goes through. */
  ghost predicate ActionAt(hubs: seq<Hub>, actions: seq<Action>, i: nat)
    requires |hubs| == |actions| + 1 && i < |actions|
  {
    Enabled(hubs[i], actions[i]) && hubs[i + 1] == Apply(hubs[i], actions[i])
  }

  ghost predicate IsPath(hubs: seq<Hub>, actions: seq<Action>) {
    |hubs| == |actions| + 1 && forall i :: 0 <= i < |actions| ==> ActionAt(hubs, actions, i)
  }

  ghost predicate IsRun(hubs: seq<Hub>, actions: seq<Action>) {
    IsPath(hubs, actions) && hubs[0] == INITIAL
  }

  /** Actions that go from one hub to another. */
  ghost predicate Leads(hub: Hub, actions: seq<Action>, hub': Hub) {
    exists hubs :: IsPath(hubs, actions) && hubs[0] == hub && hubs[|actions|] == hub'
  }

  lemma {:induction false} LeadsNowhere(hub: Hub)
    ensures Leads(hub, [], hub)
  {
    assert IsPath([hub], []);
  }

  lemma {:induction false} LeadsOn(hub: Hub, actions: seq<Action>, mid: Hub, action: Action)
    requires Leads(hub, actions, mid) && Enabled(mid, action)
    ensures Leads(hub, actions + [action], Apply(mid, action))
  {
    var hubs :| IsPath(hubs, actions) && hubs[0] == hub && hubs[|actions|] == mid;
    var hubs', actions' := hubs + [Apply(mid, action)], actions + [action];
    forall i | 0 <= i < |actions'| ensures ActionAt(hubs', actions', i) {
      if i < |actions| {
        assert ActionAt(hubs, actions, i);
        assert hubs'[i] == hubs[i] && hubs'[i + 1] == hubs[i + 1] && actions'[i] == actions[i];
      }
    }
    assert IsPath(hubs', actions');
  }

  lemma {:induction false} LeadsFront(hub: Hub, actions: seq<Action>, hub': Hub) returns (mid: Hub)
    requires Leads(hub, actions, hub') && |actions| > 0
    ensures var n := |actions| - 1;
      Leads(hub, actions[..n], mid) && Enabled(mid, actions[n]) && hub' == Apply(mid, actions[n])
  {
    var hubs :| IsPath(hubs, actions) && hubs[0] == hub && hubs[|actions|] == hub';
    var n := |actions| - 1;
    mid := hubs[n];
    assert ActionAt(hubs, actions, n);
    var hubs', front := hubs[..n + 1], actions[..n];
    forall i | 0 <= i < |front| ensures ActionAt(hubs', front, i) {
      assert ActionAt(hubs, actions, i);
    }
    assert IsPath(hubs', front);
  }

  /** Over every run of evaluations, threshold changes, deletions and purges the rows,
      the states and the triggered flags agree. */
  lemma {:induction false} IncidentsConserved(hubs: seq<Hub>, actions: seq<Action>, i: nat)
    requires IsRun(hubs, actions) && i < |hubs|
    ensures Inv(hubs[i])
  {
    if i == 0 {
    } else {
      IncidentsConserved(hubs, actions, i - 1);
      assert ActionAt(hubs, actions, i - 1);
      ActionKeepsInv(hubs[i - 1], actions[i - 1]);
    }
  }

  /** In every run: a missing or unready result, or a system that is down, neither
      opens nor closes the incident of an enabled monitor and says nothing about it; a
      recovery is sent only for a ready result at or below the threshold; and a
      monitor that is not enabled has no incident left. */
  lemma {:induction false} OnlyReadyResultsDecide(hubs: seq<Hub>, actions: seq<Action>, i: nat, m: string)
    requires IsRun(hubs, actions) && i < |actions| && actions[i].Evaluated?
    ensures var hub, hub', a, input := hubs[i], hubs[i + 1], actions[i].alert, actions[i].input;
      && a in hub.alerts && a in hub'.alerts && a in hub'.desk.held
      && (m in input.enabled && !Heard(input, m) ==>
            && (I.Holds(hub'.desk, a, m) <==> I.Holds(hub.desk, a, m))
            && (forall triggered :: !Gave(hub.desk, hub'.desk, I.Sent(a, m, triggered))))
      && (m !in input.enabled ==>
            !I.Holds(hub'.desk, a, m) && forall triggered :: !Gave(hub.desk, hub'.desk, I.Sent(a, m, triggered)))
      && (Gave(hub.desk, hub'.desk, I.Sent(a, m, false)) ==> Heard(input, m) && !Lossy(input, hub.alerts[a].value, m))
      && (hub'.alerts[a].triggered <==> hub'.desk.held[a] != map[])
  {
    IncidentsConserved(hubs, actions, i);
    assert ActionAt(hubs, actions, i);
    var hub, a, input, plan := hubs[i], actions[i].alert, actions[i].input, actions[i].plan;
    EvaluateAlertExact(hub.desk, a, hub.alerts[a].value, input, plan);
    EvaluateAlertGives(hub.desk, a, hub.alerts[a].value, input, plan, I.Sent(a, m, true));
    EvaluateAlertGives(hub.desk, a, hub.alerts[a].value, input, plan, I.Sent(a, m, false));
    ActionKeepsInv(hub, actions[i]);
  }

  // --------------------------------------------------------- the transaction's loops

  method CloseGone(desk: I.Desk, a: string, input: Input, keys: seq<string>) returns (result: I.Desk, changed: bool)
    requires a in desk.held
    ensures result == Sweep(desk, a, input, keys)
    ensures changed <==> exists m :: m in keys && I.Holds(desk, a, m) && m !in input.enabled
  {
    result, changed := desk, false;
    for i := 0 to |keys|
      invariant a in result.held && result == Sweep(desk, a, input, keys[..i])
      invariant changed <==> exists m :: m in keys[..i] && I.Holds(desk, a, m) && m !in input.enabled
    {
      assert keys[..i + 1][..i] == keys[..i] && keys[..i + 1] == keys[..i] + [keys[i]];
      SweepKeeps(desk, a, input, keys[..i]);
      if keys[i] in result.held[a] && keys[i] !in input.enabled {
        assert I.Holds(desk, a, keys[i]);
        result := I.Close(result, a, keys[i], I.Silent(a, keys[i]));
        changed := true;
      }
    }
    assert keys[..|keys|] == keys;
  }

  method JudgeEach(desk: I.Desk, a: string, value: real, input: Input, ms: seq<string>)
    returns (result: I.Desk, changed: bool)
    requires a in desk.held
    ensures result == JudgeAll(desk, a, value, input, ms)
    ensures changed <==> exists m :: m in ms && Flips(desk, a, value, input, m)
  {
    result, changed := desk, false;
    for i := 0 to |ms|
      invariant a in result.held && result == JudgeAll(desk, a, value, input, ms[..i])
      invariant changed <==> exists m :: m in ms[..i] && Flips(desk, a, value, input, m)
    {
      var m := ms[i];
      assert ms[..i + 1][..i] == ms[..i] && ms[..i + 1] == ms[..i] + [m];
      JudgeAllKeeps(desk, a, value, input, ms[..i]);
      assert Flips(result, a, value, input, m) <==> m !in ms[..i] && Flips(desk, a, value, input, m);
      if Heard(input, m) {
        var triggered, active := input.results[m].packetLoss1h.value > value, m in result.held[a];
        if triggered != active {
          result := if triggered then I.Open(result, a, m) else I.Close(result, a, m, I.Sent(a, m, false));
          changed := true;
        }
      }
    }
    assert ms[..|ms|] == ms;
  }

  /** Evaluates one alert and tells whether it has to be saved. */
  method EvaluateOne(hub: Hub, a: string, input: Input) returns (result: Hub, saved: bool, ghost plan: Plan)
    requires a in hub.alerts && a in hub.desk.held
    ensures Covers(plan, hub.desk, a, input) && result == EvaluateRecord(hub, a, input, plan)
    ensures saved <==> Saves(hub, a, input)
  {
    var held := InSomeOrder(hub.desk.held[a].Keys);
    var enabled := InSomeOrder(input.enabled.Keys);
    plan := Plan(held, enabled);
    var alert := hub.alerts[a];
    var swept, closed := CloseGone(hub.desk, a, input, held);
    var desk, flipped := JudgeEach(swept, a, alert.value, input, enabled);
    saved := closed || flipped || alert.triggered != (desk.held[a] != map[]);
    result := hub;
    ghost var expected := EvaluateRecord(hub, a, input, plan);
    SweepKeeps(hub.desk, a, input, held);
    ChangedMeans(hub, a, input, plan, swept);
    if saved {
      result := Hub(hub.alerts[a := alert.(triggered := desk.held[a] != map[])], desk);
    }
    if !Changed(hub.desk, a, alert.value, input) {
      SweepNothing(hub.desk, a, input, held);
      JudgeNothing(hub.desk, a, alert.value, input, enabled);
    }
    if !Saves(hub, a, input) {
      UnsavedIsUnchanged(hub, a, input, plan);
    }
  }

  lemma {:induction false} ChangedMeans(hub: Hub, a: string, input: Input, plan: Plan, swept: I.Desk)
    requires a in hub.alerts && a in hub.desk.held && Covers(plan, hub.desk, a, input)
    requires swept == Sweep(hub.desk, a, input, plan.held)
    ensures var value := hub.alerts[a].value;
      Changed(hub.desk, a, value, input) <==>
        || (exists m :: m in plan.held && I.Holds(hub.desk, a, m) && m !in input.enabled)
        || (exists m :: m in plan.enabled && Flips(swept, a, value, input, m))
  {
    var value := hub.alerts[a].value;
    SweepKeeps(hub.desk, a, input, plan.held);
    assert forall m :: m in input.enabled ==>
             (Flips(swept, a, value, input, m) <==> Flips(hub.desk, a, value, input, m));
    if m :| m in plan.held && I.Holds(hub.desk, a, m) && m !in input.enabled {
      assert m in Gone(hub.desk, a, input);
    }
    if m :| m in Gone(hub.desk, a, input) {
      assert m in plan.held && I.Holds(hub.desk, a, m);
    }
    if m :| m in plan.enabled && Flips(swept, a, value, input, m) {
      assert m in input.enabled && Flips(hub.desk, a, value, input, m);
    }
    if m :| m in input.enabled && Flips(hub.desk, a, value, input, m) {
      assert m in plan.enabled && Flips(swept, a, value, input, m);
    }
  }

  /** Two hubs that agree on one alert. */
  ghost predicate SameFor(hub: Hub, hub': Hub, a: string) {
    && a in hub.alerts && a in hub'.alerts && a in hub.desk.held && a in hub'.desk.held
    && hub'.alerts[a] == hub.alerts[a] && hub'.desk.held[a] == hub.desk.held[a]
  }

  lemma {:induction false} SavesIsLocal(hub: Hub, hub': Hub, a: string, input: Input)
    requires SameFor(hub, hub', a)
    ensures Saves(hub, a, input) <==> Saves(hub', a, input)
  {
    var value := hub.alerts[a].value;
    assert Gone(hub.desk, a, input) == Gone(hub'.desk, a, input);
    assert forall m :: Flips(hub.desk, a, value, input, m) <==> Flips(hub'.desk, a, value, input, m);
  }

  lemma {:induction false} SettledIsLocal(hub: Hub, mid: Hub, hub': Hub, input: Input, a: string)
    requires SameFor(hub, mid, a) && a in hub'.alerts && Settled(mid, hub', input, a)
    ensures Settled(hub, hub', input, a)
  {
    assert forall m :: OpenAfter(hub.desk, a, hub.alerts[a].value, input, m) <==>
           OpenAfter(mid.desk, a, hub.alerts[a].value, input, m);
  }

  lemma {:induction false} SettledStays(hub: Hub, mid: Hub, hub': Hub, input: Input, a: string)
    requires a in hub.alerts && SameFor(mid, hub', a) && Settled(hub, mid, input, a)
    ensures Settled(hub, hub', input, a)
  {
    assert forall m :: I.Holds(hub'.desk, a, m) <==> I.Holds(mid.desk, a, m);
  }

  lemma {:induction false} EvaluateRecordFrame(hub: Hub, a: string, input: Input, plan: Plan)
    requires a in hub.alerts && hub.desk.held.Keys == hub.alerts.Keys && Covers(plan, hub.desk, a, input)
    ensures var hub' := EvaluateRecord(hub, a, input, plan);
      && hub'.alerts.Keys == hub.alerts.Keys && hub'.desk.held.Keys == hub.desk.held.Keys
      && (forall b :: b in hub.alerts && b != a ==> SameFor(hub, hub', b))
      && hub.desk.log <= hub'.desk.log
      && (I.Inv(hub.desk) ==> I.Inv(hub'.desk))
  {
    EvaluateAlertExact(hub.desk, a, hub.alerts[a].value, input, plan);
  }

  // --------------------------------------------------------------- the transaction

  /** One evaluation for each of some alerts, in some order. */
  ghost predicate EvaluatesEach(actions: seq<Action>, input: Input, done: set<string>) {
    if |actions| == 0 then done == {}
    else
      var last := actions[|actions| - 1];
      && last.Evaluated? && last.input == input && last.alert in done
      && EvaluatesEach(actions[..|actions| - 1], input, done - {last.alert})
  }

  lemma {:induction false} EvaluatesOneMore(actions: seq<Action>, input: Input, done: set<string>, a: string,
                                            plan: Plan)
    requires EvaluatesEach(actions, input, done) && a !in done
    ensures EvaluatesEach(actions + [Action.Evaluated(a, input, plan)], input, done + {a})
  {
    var more := actions + [Action.Evaluated(a, input, plan)];
    assert more[..|more| - 1] == actions && done + {a} - {a} == done;
  }

  /** Evaluations so far went from one hub to another. */
  ghost predicate Evaluations(hub: Hub, actions: seq<Action>, input: Input, done: set<string>, result: Hub) {
    EvaluatesEach(actions, input, done) && Leads(hub, actions, result)
  }

  /** What the transaction does if it does not fail: an evaluation of each alert, with the
      rows it opens and resolves and the messages it sends. */
  ghost predicate Transacted(hub: Hub, result: Hub, input: Input) {
    exists actions :: Evaluations(hub, actions, input, hub.alerts.Keys, result)
  }

  ghost predicate Untouched(hub: Hub, result: Hub, done: set<string>) {
    forall a :: a in hub.alerts && a !in done ==> SameFor(hub, result, a)
  }

  ghost predicate AllSettled(hub: Hub, result: Hub, input: Input, done: set<string>)
    requires result.alerts.Keys == hub.alerts.Keys && done <= hub.alerts.Keys
  {
    forall a :: a in done ==> Settled(hub, result, input, a)
  }

  /** The alerts after some of them were evaluated. */
  ghost predicate PartlySettled(hub: Hub, result: Hub, input: Input, done: set<string>) {
    && result.alerts.Keys == hub.alerts.Keys == result.desk.held.Keys && done <= hub.alerts.Keys
    && Untouched(hub, result, done) && AllSettled(hub, result, input, done)
    && hub.desk.log <= result.desk.log
    && (I.Inv(hub.desk) ==> I.Inv(result.desk))
  }

  lemma {:induction false} UntouchedOn(hub: Hub, mid: Hub, hub': Hub, done: set<string>, a: string)
    requires Untouched(hub, mid, done)
    requires forall b :: b in mid.alerts && b != a ==> SameFor(mid, hub', b)
    ensures Untouched(hub, hub', done + {a})
  {
    forall b | b in hub.alerts && b !in done + {a} ensures SameFor(hub, hub', b) {
      assert SameFor(hub, mid, b) && SameFor(mid, hub', b);
    }
  }

  lemma {:induction false} AllSettledOn(hub: Hub, mid: Hub, hub': Hub, input: Input, done: set<string>, a: string)
    requires hub.alerts.Keys == mid.alerts.Keys == hub'.alerts.Keys && done <= hub.alerts.Keys
    requires AllSettled(hub, mid, input, done)
    requires a in hub.alerts && a !in done && Settled(hub, hub', input, a)
    requires forall b :: b in mid.alerts && b != a ==> SameFor(mid, hub', b)
    ensures AllSettled(hub, hub', input, done + {a})
  {
    forall b | b in done + {a} ensures Settled(hub, hub', input, b) {
      if b != a {
        SettledStays(hub, mid, hub', input, b);
      }
    }
  }

  lemma {:induction false} SettlesAsBefore(hub: Hub, mid: Hub, input: Input, a: string, plan: Plan)
    requires SameFor(hub, mid, a) && Covers(plan, mid.desk, a, input) && a in EvaluateRecord(mid, a, input, plan).alerts
    ensures Settled(hub, EvaluateRecord(mid, a, input, plan), input, a)
  {
    EvaluateRecordSettles(mid, a, input, plan);
    SettledIsLocal(hub, mid, EvaluateRecord(mid, a, input, plan), input, a);
  }

  lemma {:induction false} SettledOneMore(hub: Hub, mid: Hub, input: Input, done: set<string>, a: string, plan: Plan,
                                          hub': Hub)
    requires hub.desk.held.Keys == hub.alerts.Keys && PartlySettled(hub, mid, input, done)
    requires a in hub.alerts && a !in done && Covers(plan, mid.desk, a, input)
    requires hub' == EvaluateRecord(mid, a, input, plan)
    ensures PartlySettled(hub, hub', input, done + {a})
  {
    EvaluateRecordFrame(mid, a, input, plan);
    assert SameFor(hub, mid, a);
    SettlesAsBefore(hub, mid, input, a, plan);
    UntouchedOn(hub, mid, hub', done, a);
    AllSettledOn(hub, mid, hub', input, done, a);
  }

  lemma {:induction false} EvaluationsSettle(hub: Hub, actions: seq<Action>, input: Input, done: set<string>,
                                             result: Hub)
    requires hub.desk.held.Keys == hub.alerts.Keys && Evaluations(hub, actions, input, done, result)
    ensures PartlySettled(hub, result, input, done)
    decreases |actions|
  {
    if |actions| == 0 {
    } else {
      var last, before := actions[|actions| - 1], done - {actions[|actions| - 1].alert};
      var mid := LeadsFront(hub, actions, result);
      EvaluationsSettle(hub, actions[..|actions| - 1], input, before, mid);
      SettledOneMore(hub, mid, input, before, last.alert, last.plan, result);
      assert before + {last.alert} == done;
    }
  }

  /** After the transaction every alert is as its results say. */
  lemma {:induction false} TransactedSettles(hub: Hub, result: Hub, input: Input)
    requires hub.desk.held.Keys == hub.alerts.Keys && Transacted(hub, result, input)
    ensures PartlySettled(hub, result, input, hub.alerts.Keys)
  {
    var actions :| Evaluations(hub, actions, input, hub.alerts.Keys, result);
    EvaluationsSettle(hub, actions, input, hub.alerts.Keys, result);
  }

  /** What is to be said about an alert. */
  ghost predicate Says(hub: Hub, a: string, input: Input, notice: I.Notice)
    requires a in hub.alerts
  {
    var m, value := if notice.Reset? then "" else notice.target, hub.alerts[a].value;
    || (notice == I.Silent(a, m) && I.Holds(hub.desk, a, m) && m !in input.enabled)
    || (notice == I.Sent(a, m, true) && Heard(input, m) && Lossy(input, value, m) && !I.Holds(hub.desk, a, m))
    || (notice == I.Sent(a, m, false) && Heard(input, m) && !Lossy(input, value, m) && I.Holds(hub.desk, a, m))
  }

  lemma {:induction false} RecordGives(hub: Hub, mid: Hub, a: string, input: Input, plan: Plan, notice: I.Notice)
    requires SameFor(hub, mid, a) && Covers(plan, mid.desk, a, input)
    ensures Gave(mid.desk, EvaluateRecord(mid, a, input, plan).desk, notice) <==> Says(hub, a, input, notice)
  {
    EvaluateAlertGives(mid.desk, a, mid.alerts[a].value, input, plan, notice);
  }

  lemma {:induction false} EvaluationsGive(hub: Hub, actions: seq<Action>, input: Input, done: set<string>,
                                           result: Hub, notice: I.Notice)
    requires hub.desk.held.Keys == hub.alerts.Keys && Evaluations(hub, actions, input, done, result)
    ensures Gave(hub.desk, result.desk, notice) <==>
            exists a :: a in done && a in hub.alerts && Says(hub, a, input, notice)
    decreases |actions|
  {
    if |actions| == 0 {
      assert hub.desk.log[|hub.desk.log|..] == [];
    } else {
      var last, before := actions[|actions| - 1], done - {actions[|actions| - 1].alert};
      var front := actions[..|actions| - 1];
      var mid := LeadsFront(hub, actions, result);
      EvaluationsGive(hub, front, input, before, mid, notice);
      EvaluationsSettle(hub, front, input, before, mid);
      EvaluationsSettle(hub, actions, input, done, result);
      EvaluateRecordFrame(mid, last.alert, input, last.plan);
      EvaluateAlertExact(mid.desk, last.alert, mid.alerts[last.alert].value, input, last.plan);
      RecordGives(hub, mid, last.alert, input, last.plan, notice);
      GaveNext(hub.desk, mid.desk, result.desk, notice);
    }
  }

  /** The transaction sends exactly the messages, and closes silently exactly the incidents,
      that its alerts call for as they were before it. */
  lemma {:induction false} TransactedGives(hub: Hub, result: Hub, input: Input, notice: I.Notice)
    requires hub.desk.held.Keys == hub.alerts.Keys && Transacted(hub, result, input)
    ensures Gave(hub.desk, result.desk, notice) <==> exists a :: a in hub.alerts && Says(hub, a, input, notice)
  {
    var actions :| Evaluations(hub, actions, input, hub.alerts.Keys, result);
    EvaluationsGive(hub, actions, input, hub.alerts.Keys, result, notice);
  }

  // ---------------------------------------------------------------- and its loop

  /** Those are saved that have to be, of the ones that are done. */
  ghost predicate Listed(hub: Hub, input: Input, done: set<string>, saved: set<string>)
    requires hub.desk.held.Keys == hub.alerts.Keys
  {
    forall a :: a in saved <==> a in hub.alerts && a in done && Saves(hub, a, input)
  }

  lemma {:induction false} ListedOn(hub: Hub, input: Input, done: set<string>, saved: set<string>, a: string,
                                    saves: bool)
    requires hub.desk.held.Keys == hub.alerts.Keys && Listed(hub, input, done, saved) && a in hub.alerts
    requires saves <==> Saves(hub, a, input)
    ensures Listed(hub, input, done + {a}, if saves then saved + {a} else saved)
  {
  }

  lemma {:induction false} NotYetEvaluated(hub: Hub, actions: seq<Action>, input: Input, done: set<string>,
                                           result: Hub, a: string)
    requires hub.desk.held.Keys == hub.alerts.Keys && Evaluations(hub, actions, input, done, result)
    requires a in hub.alerts && a !in done
    ensures SameFor(hub, result, a)
  {
    EvaluationsSettle(hub, actions, input, done, result);
  }

  lemma {:induction false} SavesAsBefore(hub: Hub, mid: Hub, input: Input, a: string, plan: Plan)
    requires SameFor(hub, mid, a) && Covers(plan, mid.desk, a, input)
    ensures Saves(mid, a, input) <==> Saves(hub, a, input)
    ensures !Saves(mid, a, input) ==> EvaluateRecord(mid, a, input, plan) == mid
  {
    SavesIsLocal(hub, mid, a, input);
    if !Saves(mid, a, input) {
      UnsavedIsUnchanged(mid, a, input, plan);
    }
  }

  lemma {:induction false} OneMoreEvaluation(hub: Hub, actions: seq<Action>, input: Input, done: set<string>, mid: Hub,
                                             a: string, plan: Plan)
    requires Evaluations(hub, actions, input, done, mid) && a !in done
    requires a in mid.alerts && a in mid.desk.held && Covers(plan, mid.desk, a, input)
    ensures Evaluations(hub, actions + [Action.Evaluated(a, input, plan)], input,
                        done + {a}, EvaluateRecord(mid, a, input, plan))
  {
    EvaluatesOneMore(actions, input, done, a, plan);
    LeadsOn(hub, actions, mid, Action.Evaluated(a, input, plan));
  }

  /** One round of the loop over the alerts. */
  method EvaluateNext(ghost hub: Hub, mid: Hub, a: string, input: Input, ghost actions: seq<Action>,
                      ghost done: set<string>)
    returns (next: Hub, saves: bool, ghost more: seq<Action>)
    requires hub.desk.held.Keys == hub.alerts.Keys && Evaluations(hub, actions, input, done, mid)
    requires a in hub.alerts && a !in done
    ensures Evaluations(hub, more, input, done + {a}, next)
    ensures saves <==> Saves(hub, a, input)
    ensures !saves ==> next == mid
  {
    NotYetEvaluated(hub, actions, input, done, mid, a);
    ghost var plan;
    next, saves, plan := EvaluateOne(mid, a, input);
    SavesAsBefore(hub, mid, input, a, plan);
    OneMoreEvaluation(hub, actions, input, done, mid, a, plan);
    more := actions + [Action.Evaluated(a, input, plan)];
  }

  /** Everything so far in the loop. */
  ghost predicate Progress(hub: Hub, actions: seq<Action>, input: Input, done: set<string>, result: Hub,
                           saved: set<string>)
    requires hub.desk.held.Keys == hub.alerts.Keys
  {
    && Evaluations(hub, actions, input, done, result) && Listed(hub, input, done, saved)
    && (saved == {} ==> result == hub)
  }

  method EvaluateAndList(ghost hub: Hub, mid: Hub, a: string, input: Input, saved: set<string>,
                         ghost actions: seq<Action>, ghost done: set<string>)
    returns (next: Hub, all: set<string>, ghost more: seq<Action>)
    requires hub.desk.held.Keys == hub.alerts.Keys && Progress(hub, actions, input, done, mid, saved)
    requires a in hub.alerts && a !in done
    ensures Progress(hub, more, input, done + {a}, next, all)
  {
    var saves;
    next, saves, more := EvaluateNext(hub, mid, a, input, actions, done);
    ListedOn(hub, input, done, saved, a, saves);
    all := if saves then saved + {a} else saved;
  }

  /** The transaction. An unreadable state fails it and nothing is written; otherwise
      every alert is evaluated, exactly the alerts that have to be are saved, and if there
      are none nothing was changed or sent. */
  method EvaluateNetworkMonitorAlerts(hub: Hub, input: Input)
    returns (failed: bool, result: Hub, saved: set<string>, ghost actions: seq<Action>)
    requires hub.desk.held.Keys == hub.alerts.Keys
    ensures failed <==> Fails(hub)
    ensures failed ==> result == hub
    ensures !failed ==>
      && Evaluations(hub, actions, input, hub.alerts.Keys, result)
      && Listed(hub, input, hub.alerts.Keys, saved)
      && (saved == {} ==> result == hub)
  {
    failed, result, saved, actions := false, hub, {}, [];
    LeadsNowhere(hub);
    var todo := hub.alerts.Keys;
    ghost var done: set<string> := {};
    while todo != {}
      invariant todo !! done && todo + done == hub.alerts.Keys && Progress(hub, actions, input, done, result, saved)
      invariant forall a :: a in done ==> hub.alerts[a].decodable
      decreases |todo|
    {
      var a :| a in todo;
      if !hub.alerts[a].decodable {
        return true, hub, {}, [];
      }
      result, saved, actions := EvaluateAndList(hub, result, a, input, saved, actions, done);
      todo, done := todo - {a}, done + {a};
    }
    assert done == hub.alerts.Keys;
  }

  /** Evaluating alerts that do not have to be saved leaves the hub as it is. */
  lemma {:induction false} QuietEvaluations(hub: Hub, input: Input, names: seq<string>) returns (actions: seq<Action>)
    requires hub.desk.held.Keys == hub.alerts.Keys && Distinct(names)
    requires forall a :: a in names ==> a in hub.alerts && !Saves(hub, a, input)
    ensures Evaluations(hub, actions, input, (set a | a in names), hub)
    decreases |names|
  {
    if |names| == 0 {
      actions := [];
      LeadsNowhere(hub);
    } else {
      var front, a := names[..|names| - 1], names[|names| - 1];
      DistinctFront(names);
      actions := QuietEvaluations(hub, input, front);
      var held := SomeOrder(hub.desk.held[a].Keys);
      var enabled := SomeOrder(input.enabled.Keys);
      var plan := Plan(held, enabled);
      assert forall m :: m in held <==> m in (set x | x in held);
      assert forall m :: m in enabled <==> m in (set x | x in enabled);
      UnsavedIsUnchanged(hub, a, input, plan);
      OneMoreEvaluation(hub, actions, input, (set x | x in front), hub, a, plan);
      actions := actions + [Action.Evaluated(a, input, plan)];
      assert (set x | x in front) + {a} == (set x | x in names);
    }
  }

  lemma {:induction false} NotPendingIsTransacted(hub: Hub, input: Input)
    requires hub.desk.held.Keys == hub.alerts.Keys && input.up
    requires !TransitionPending(CachedOf(hub), input.enabled, input.results, input.now)
    ensures !Fails(hub) && Transacted(hub, hub, input)
  {
    FastPathExact(hub, input);
    var names := SomeOrder(hub.alerts.Keys);
    assert forall a :: a in names <==> a in (set x | x in names);
    var actions := QuietEvaluations(hub, input, names);
  }

  /** With the fast path in front. Whatever the caches hold, the effect is the transaction's
      or none; with caches that agree with the database it is the transaction's. */
  method HandleNetworkMonitorAlerts(hub: Hub, input: Input, alerts: map<string, CachedAlert>,
                                    monitors: Option<map<string, int>>)
    returns (failed: bool, result: Hub)
    requires hub.desk.held.Keys == hub.alerts.Keys
    ensures !input.up || failed ==> result == hub
    ensures result == hub || Transacted(hub, result, input)
    ensures input.up && alerts == CachedOf(hub) && monitors == Some(input.enabled) ==>
              (failed <==> Fails(hub)) && (!failed ==> Transacted(hub, result, input))
  {
    failed, result := false, hub;
    if !input.up {
      return;
    }
    if alerts == map[] {
      if CachedOf(hub) == map[] {
        NotPendingIsTransacted(hub, input);
      }
      return;
    }
    if monitors.None? {
      return true, hub;
    }
    if !TransitionPending(alerts, monitors.value, input.results, input.now) {
      if alerts == CachedOf(hub) && monitors.value == input.enabled {
        NotPendingIsTransacted(hub, input);
      }
      return;
    }
    var saved;
    ghost var actions;
    failed, result, saved, actions := EvaluateNetworkMonitorAlerts(hub, input);
  }
}
