/** Container-health alerts (internal/alerts/alerts_container.go) and their history
    rows (internal/alerts/alerts_history.go). One alert is followed through any
    interleaving of report handlers, each working from a possibly stale snapshot of
    it; a log fetch separates the decision to send from the claim of the generation.
    Finding and saving the record together, with its history hook, is one step. */
module ContainerAlerts {
  import opened Common

  /** Times are in nanoseconds, stamps of pending generations in milliseconds. */
  datatype Snapshot = Snapshot(triggered: bool, pending: Option<nat>, min: nat)

  /** A handler that decided at `decided` to send and is fetching logs. */
  datatype Sender = Sender(stamp: nat, decided: nat)

  datatype Generation = Generation(stamp: nat, at: nat)

  /** The alert's record, its history rows (resolved or not) and the senders under way;
      then what became of the generations. */
  datatype World = World(
    alive: bool,
    triggered: bool,
    pending: Option<nat>,
    rows: seq<bool>,
    senders: seq<Sender>,
    born: seq<Generation>,
    fired: seq<Sender>,
    cleared: seq<nat>,
    dropped: seq<nat>)

  datatype Step =
    | Unhealthy(seen: Snapshot, now: nat)
    | Claim(index: nat)
    | Abandon(index: nat)
    | Clear(seen: Snapshot)
    | Recover
    | Delete

  /** Dates are stored with millisecond precision. */
  function Millis(time: nat): nat {
    time / 1_000_000
  }

  /** The time a number of minutes after a stamp. */
  function MinutesAfter(stamp: nat, minutes: nat): nat {
    (stamp + minutes * 60_000) * 1_000_000
  }

  // ------------------------------------------------------------ the record's updates

  /** The generation to claim, if any: the one pending, or a new one. */
  function SetPending(w: World, now: nat): (result: (World, Option<nat>)) {
    if !w.alive || w.triggered then (w, None)
    else if w.pending.Some? then (w, w.pending)
    else
      var stamp := Millis(now);
      (w.(pending := Some(stamp), born := w.born + [Generation(stamp, now)]), Some(stamp))
  }

  function ClearPending(w: World, seen: Snapshot): World {
    if seen.pending.None? || !w.alive || w.pending.None? then w
    else w.(pending := None, cleared := w.cleared + [w.pending.value])
  }

  function ClaimPending(w: World, sender: Sender): World {
    if !w.alive || w.triggered || w.pending != Some(sender.stamp) then w
    else w.(pending := None, triggered := true, rows := w.rows + [false], fired := w.fired + [sender])
  }

  function ResolveFirst(rows: seq<bool>): seq<bool> {
    if |rows| == 0 then []
    else if !rows[0] then [true] + rows[1..]
    else [true] + ResolveFirst(rows[1..])
  }

  function SetHealthy(w: World): World {
    if !w.alive || !w.triggered then w else w.(triggered := false, rows := ResolveFirst(w.rows))
  }

  function DeleteAlert(w: World): World {
    w.(alive := false, triggered := false, pending := None,
       rows := if w.triggered then ResolveFirst(w.rows) else w.rows,
       dropped := if w.pending.Some? then w.dropped + [w.pending.value] else w.dropped)
  }

  // ------------------------------------------------------------------- the handlers

  function Min(seen: Snapshot): nat {
    if seen.min < 1 then 1 else seen.min
  }

  predicate Due(stamp: nat, min: nat, now: nat) {
    min > 1 ==> now >= MinutesAfter(stamp, min)
  }

  /** What an unhealthy report does up to the log fetch. */
  function Decide(w: World, seen: Snapshot, now: nat): (result: (World, Option<Sender>)) {
    var min := Min(seen);
    if seen.triggered then (w, None)
    else if seen.pending.None? then
      var (w', stamp) := SetPending(w, now);
      (w', if stamp.None? || min > 1 then None else Some(Sender(stamp.value, now)))
    else (w, if Due(seen.pending.value, min, now) then Some(Sender(seen.pending.value, now)) else None)
  }

  predicate CanTake(w: World, step: Step) {
    match step
    case Claim(index) => index < |w.senders|
    case Abandon(index) => index < |w.senders|
    case Delete => w.alive
    case _ => true
  }

  function Without(senders: seq<Sender>, index: nat): seq<Sender>
    requires index < |senders|
  {
    senders[..index] + senders[index + 1..]
  }

  function Take(w: World, step: Step): World
    requires CanTake(w, step)
  {
    match step
    case Unhealthy(seen, now) =>
      var (w', sender) := Decide(w, seen, now);
      if sender.Some? then w'.(senders := w'.senders + [sender.value]) else w'
    case Claim(index) => ClaimPending(w, w.senders[index]).(senders := Without(w.senders, index))
    case Abandon(index) => w.(senders := Without(w.senders, index))
    case Clear(seen) => ClearPending(w, seen)
    case Recover => SetHealthy(w)
    case Delete => DeleteAlert(w)
  }

  ghost predicate StepAt(worlds: seq<World>, steps: seq<Step>, i: nat)
    requires i < |steps| && |worlds| == |steps| + 1
  {
    CanTake(worlds[i], steps[i]) && worlds[i + 1] == Take(worlds[i], steps[i])
  }

  ghost predicate IsRun(worlds: seq<World>, steps: seq<Step>) {
    && |worlds| == |steps| + 1
    && worlds[0] == World(true, false, None, [], [], [], [], [], [])
    && forall i: nat :: i < |steps| ==> StepAt(worlds, steps, i)
  }

  // -------------------------------------------------------------------- invariants

  function Stamps(born: seq<Generation>): multiset<nat> {
    if |born| == 0 then multiset{} else Stamps(born[..|born| - 1]) + multiset{born[|born| - 1].stamp}
  }

  function FiredStamps(fired: seq<Sender>): multiset<nat> {
    if |fired| == 0 then multiset{} else FiredStamps(fired[..|fired| - 1]) + multiset{fired[|fired| - 1].stamp}
  }

  function PendingStamps(pending: Option<nat>): multiset<nat> {
    if pending.Some? then multiset{pending.value} else multiset{}
  }

  function Unresolved(rows: seq<bool>): nat {
    if |rows| == 0 then 0 else (if rows[0] then 0 else 1) + Unresolved(rows[1..])
  }

  /** Every generation is pending or came to exactly one end. */
  ghost predicate Conserved(w: World) {
    Stamps(w.born) == PendingStamps(w.pending) + FiredStamps(w.fired) + multiset(w.cleared) + multiset(w.dropped)
  }

  ghost predicate Stamped(born: seq<Generation>) {
    forall i :: 0 <= i < |born| ==> born[i].stamp == Millis(born[i].at)
  }

  ghost predicate RowsMatch(w: World) {
    Unresolved(w.rows) == (if w.triggered then 1 else 0) && |w.rows| == |w.fired|
  }

  ghost predicate Sound(w: World) {
    && Conserved(w) && RowsMatch(w)
    && (w.triggered ==> w.alive && w.pending.None?)
    && (!w.alive ==> w.pending.None?)
  }

  lemma {:induction false} UnresolvedAppend(rows: seq<bool>)
    ensures Unresolved(rows + [false]) == Unresolved(rows) + 1
  {
    if |rows| == 0 {
    } else {
      UnresolvedAppend(rows[1..]);
      assert (rows + [false])[1..] == rows[1..] + [false];
    }
  }

  lemma {:induction false} ResolveFirstCounts(rows: seq<bool>)
    ensures |ResolveFirst(rows)| == |rows|
    ensures Unresolved(ResolveFirst(rows)) == if Unresolved(rows) == 0 then 0 else Unresolved(rows) - 1
  {
    if |rows| == 0 {
    } else {
      ResolveFirstCounts(rows[1..]);
      assert ResolveFirst(rows)[1..] == if rows[0] then ResolveFirst(rows[1..]) else rows[1..];
    }
  }

  lemma {:induction false} SetKeeps(w: World, now: nat)
    requires Sound(w)
    ensures Sound(SetPending(w, now).0)
  {
    var w' := SetPending(w, now).0;
    if w' != w {
      assert w'.born[..|w.born|] == w.born;
    }
  }

  lemma {:induction false} ClaimKeeps(w: World, sender: Sender)
    requires Sound(w)
    ensures Sound(ClaimPending(w, sender))
  {
    var w' := ClaimPending(w, sender);
    if w' != w {
      UnresolvedAppend(w.rows);
      assert w'.fired[..|w.fired|] == w.fired;
    }
  }

  lemma {:induction false} SoundIgnoresSenders(w: World, senders: seq<Sender>)
    requires Sound(w)
    ensures Sound(w.(senders := senders))
  {
  }

  lemma {:induction false} DecideKeeps(w: World, seen: Snapshot, now: nat)
    requires Sound(w)
    ensures Sound(Decide(w, seen, now).0)
  {
    SetKeeps(w, now);
    assert Decide(w, seen, now).0 == if seen.triggered || seen.pending.Some? then w else SetPending(w, now).0;
  }

  lemma {:induction false} ClearKeeps(w: World, seen: Snapshot)
    requires Sound(w)
    ensures Sound(ClearPending(w, seen))
  {
  }

  lemma {:induction false} RecoverKeeps(w: World)
    requires Sound(w)
    ensures Sound(SetHealthy(w)) && Sound(DeleteAlert(w))
  {
    ResolveFirstCounts(w.rows);
  }

  lemma {:induction false} StepKeepsSound(w: World, step: Step)
    requires CanTake(w, step) && Sound(w)
    ensures Sound(Take(w, step))
  {
    var senders := Take(w, step).senders;
    match step
    case Unhealthy(seen, now) =>
      DecideKeeps(w, seen, now);
      SoundIgnoresSenders(Decide(w, seen, now).0, senders);
    case Claim(index) =>
      ClaimKeeps(w, w.senders[index]);
      SoundIgnoresSenders(ClaimPending(w, w.senders[index]), senders);
    case Abandon(_) => SoundIgnoresSenders(w, senders);
    case Clear(seen) => ClearKeeps(w, seen);
    case Recover => RecoverKeeps(w);
    case Delete => RecoverKeeps(w);
  }

  lemma {:induction false} StepKeepsStamped(w: World, step: Step)
    requires CanTake(w, step) && Stamped(w.born)
    ensures Stamped(Take(w, step).born)
  {
  }

  lemma {:induction false} StartIsSound(w: World)
    requires w == World(true, false, None, [], [], [], [], [], [])
    ensures Sound(w) && Stamped(w.born)
  {
  }

  lemma {:induction false} StepToKeeps(w: World, step: Step, w': World)
    requires CanTake(w, step) && w' == Take(w, step) && Sound(w) && Stamped(w.born)
    ensures Sound(w') && Stamped(w'.born)
  {
    StepKeepsSound(w, step);
    StepKeepsStamped(w, step);
  }

  lemma {:induction false} RunsAreSound(worlds: seq<World>, steps: seq<Step>, n: nat)
    requires IsRun(worlds, steps) && n <= |steps|
    ensures Sound(worlds[n]) && Stamped(worlds[n].born)
  {
    if n == 0 {
      StartIsSound(worlds[0]);
    } else {
      var i := n - 1;
      RunsAreSound(worlds, steps, i);
      assert StepAt(worlds, steps, i);
      StepToKeeps(worlds[i], steps[i], worlds[n]);
    }
  }

  // ------------------------------------------------------------------ main results

  /** No two generations have this stamp. */
  ghost predicate UniqueStamp(born: seq<Generation>, stamp: nat) {
    forall i, j :: 0 <= i < j < |born| ==> !(born[i].stamp == stamp && born[j].stamp == stamp)
  }

  lemma {:induction false} StampsFront(born: seq<Generation>, stamp: nat)
    requires |born| > 0
    ensures var front, last := born[..|born| - 1], born[|born| - 1];
      && ((exists i :: 0 <= i < |born| && born[i].stamp == stamp) <==>
          last.stamp == stamp || exists i :: 0 <= i < |front| && front[i].stamp == stamp)
      && (UniqueStamp(born, stamp) <==>
          UniqueStamp(front, stamp)
          && !(last.stamp == stamp && exists i :: 0 <= i < |front| && front[i].stamp == stamp))
  {
    var n, front := |born| - 1, born[..|born| - 1];
    assert forall i :: 0 <= i < n ==> front[i] == born[i];
    if i :| 0 <= i < |front| && front[i].stamp == stamp {
      assert born[i].stamp == stamp;
    }
  }

  lemma {:induction false} StampsCount(born: seq<Generation>, stamp: nat)
    ensures Stamps(born)[stamp] > 0 <==> exists i :: 0 <= i < |born| && born[i].stamp == stamp
    ensures UniqueStamp(born, stamp) <==> Stamps(born)[stamp] <= 1
  {
    if |born| == 0 {
    } else {
      StampsCount(born[..|born| - 1], stamp);
      StampsFront(born, stamp);
    }
  }

  lemma {:induction false} FiredCount(fired: seq<Sender>, i: nat)
    requires i < |fired|
    ensures FiredStamps(fired)[fired[i].stamp] >= 1
    ensures forall j :: 0 <= j < i && fired[j].stamp == fired[i].stamp ==> FiredStamps(fired)[fired[i].stamp] >= 2
  {
    var front, last := fired[..|fired| - 1], |fired| - 1;
    if i < last {
      FiredCount(front, i);
    } else if j :| 0 <= j < i && fired[j].stamp == fired[i].stamp {
      FiredCount(front, j);
    }
  }

  lemma {:induction false} FiredOnce(fired: seq<Sender>, i: nat)
    requires i < |fired|
    ensures FiredStamps(fired)[fired[i].stamp] == 1 <==>
            forall j :: 0 <= j < |fired| && fired[j].stamp == fired[i].stamp ==> j == i
  {
    var stamp := fired[i].stamp;
    if j :| 0 <= j < |fired| && fired[j].stamp == stamp && j != i {
      FiredCount(fired, if i < j then j else i);
    } else {
      OnlyFiring(fired, i);
    }
  }

  lemma {:induction false} OnlyFiring(fired: seq<Sender>, i: nat)
    requires i < |fired| && forall j :: 0 <= j < |fired| && j != i ==> fired[j].stamp != fired[i].stamp
    ensures FiredStamps(fired)[fired[i].stamp] == 1
  {
    var front := fired[..|fired| - 1];
    if i == |front| {
      NotFired(front, fired[i].stamp);
    } else {
      OnlyFiring(front, i);
    }
  }

  /** How the ends of the generations with one stamp add up. */
  lemma {:induction false} StampsAddUp(w: World, stamp: nat)
    requires Conserved(w)
    ensures Stamps(w.born)[stamp] == (if w.pending == Some(stamp) then 1 else 0) + FiredStamps(w.fired)[stamp]
                                     + multiset(w.cleared)[stamp] + multiset(w.dropped)[stamp]
  {
  }

  /** A fired generation fired once, and was not cleared by a healthy or unknown report,
      dropped by the alert's deletion or left pending, if and only if no other generation
      has its stamp. */
  lemma {:induction false} FiresOnceIffUnique(worlds: seq<World>, steps: seq<Step>, n: nat, i: nat)
    requires IsRun(worlds, steps) && n <= |steps| && i < |worlds[n].fired|
    ensures var w := worlds[n]; var stamp := w.fired[i].stamp;
      && (exists g :: 0 <= g < |w.born| && w.born[g].stamp == stamp)
      && (UniqueStamp(w.born, stamp) <==>
          && (forall j :: 0 <= j < |w.fired| && w.fired[j].stamp == stamp ==> j == i)
          && stamp !in w.cleared && stamp !in w.dropped && w.pending != Some(stamp))
  {
    var w := worlds[n];
    RunsAreSound(worlds, steps, n);
    FiredCount(w.fired, i);
    FiredOnce(w.fired, i);
    StampsCount(w.born, w.fired[i].stamp);
    StampsAddUp(w, w.fired[i].stamp);
  }

  /** A claim fires if and only if more generations with its stamp were set than came to an
      end: none that ended, while the logs were fetched or before, is claimed again. */
  lemma {:induction false} ClaimFiresIffOutstanding(worlds: seq<World>, steps: seq<Step>, n: nat, sender: Sender)
    requires IsRun(worlds, steps) && n <= |steps|
    ensures var w := worlds[n]; var stamp := sender.stamp;
      |ClaimPending(w, sender).fired| > |w.fired| <==>
      Stamps(w.born)[stamp] > FiredStamps(w.fired)[stamp] + multiset(w.cleared)[stamp] + multiset(w.dropped)[stamp]
  {
    RunsAreSound(worlds, steps, n);
    StampsAddUp(worlds[n], sender.stamp);
  }

  /** For a stamp of one generation: if and only if that was not fired, cleared or dropped. */
  lemma {:induction false} ClaimFiresIffUntouched(worlds: seq<World>, steps: seq<Step>, n: nat, sender: Sender)
    requires IsRun(worlds, steps) && n <= |steps| && UniqueStamp(worlds[n].born, sender.stamp)
    ensures var w := worlds[n]; var stamp := sender.stamp;
      |ClaimPending(w, sender).fired| > |w.fired| <==>
      && (exists g :: 0 <= g < |w.born| && w.born[g].stamp == stamp)
      && stamp !in w.cleared && stamp !in w.dropped
      && (forall j :: 0 <= j < |w.fired| ==> w.fired[j].stamp != stamp)
  {
    ClaimFiresIffOutstanding(worlds, steps, n, sender);
    StampsCount(worlds[n].born, sender.stamp);
    FiredIff(worlds[n].fired, sender.stamp);
  }

  lemma {:induction false} FiredIff(fired: seq<Sender>, stamp: nat)
    ensures FiredStamps(fired)[stamp] == 0 <==> forall j :: 0 <= j < |fired| ==> fired[j].stamp != stamp
  {
    if j :| 0 <= j < |fired| && fired[j].stamp == stamp {
      FiredCount(fired, j);
    } else {
      NotFired(fired, stamp);
    }
  }

  lemma {:induction false} NotFired(fired: seq<Sender>, stamp: nat)
    requires forall j :: 0 <= j < |fired| ==> fired[j].stamp != stamp
    ensures FiredStamps(fired)[stamp] == 0
  {
    if |fired| == 0 {
    } else {
      NotFired(fired[..|fired| - 1], stamp);
    }
  }

  /** An unhealthy report that sends. With more than one minute configured it saw the
      generation pending, and that long after its stamp. */
  ghost predicate Sends(step: Step, sender: Sender) {
    && step.Unhealthy? && step.now == sender.decided && !step.seen.triggered
    && (step.seen.min > 1 ==>
          step.seen.pending == Some(sender.stamp) && step.now >= (sender.stamp + step.seen.min * 60_000) * 1_000_000)
  }

  ghost predicate SentBy(steps: seq<Step>, n: nat, sender: Sender)
    requires n <= |steps|
  {
    exists k :: 0 <= k < n && Sends(steps[k], sender)
  }

  /** Every sender goes back to a report. */
  ghost predicate AllSent(steps: seq<Step>, n: nat, senders: seq<Sender>)
    requires n <= |steps|
  {
    forall i :: 0 <= i < |senders| ==> SentBy(steps, n, senders[i])
  }

  lemma {:induction false} SentEarlier(steps: seq<Step>, n: nat, senders: seq<Sender>)
    requires n < |steps| && AllSent(steps, n, senders)
    ensures AllSent(steps, n + 1, senders)
  {
    forall i | 0 <= i < |senders| ensures SentBy(steps, n + 1, senders[i]) {
      assert SentBy(steps, n, senders[i]);
    }
  }

  /** A step adds at most the sender of its own report, and fires at most a sender there was. */
  lemma {:induction false} StepSends(w: World, step: Step)
    requires CanTake(w, step)
    ensures forall sender :: sender in Take(w, step).senders ==> sender in w.senders || Sends(step, sender)
    ensures forall sender :: sender in Take(w, step).fired ==> sender in w.fired || sender in w.senders
  {
  }

  lemma {:induction false} SendersWereSent(worlds: seq<World>, steps: seq<Step>, n: nat)
    requires IsRun(worlds, steps) && n <= |steps|
    ensures AllSent(steps, n, worlds[n].senders) && AllSent(steps, n, worlds[n].fired)
  {
    if n == 0 {
    } else {
      var i := n - 1;
      SendersWereSent(worlds, steps, i);
      SentEarlier(steps, i, worlds[i].senders);
      SentEarlier(steps, i, worlds[i].fired);
      assert StepAt(worlds, steps, i);
      StepSends(worlds[i], steps[i]);
      forall sender | sender in worlds[n].senders ensures SentBy(steps, n, sender) {
        assert sender in worlds[i].senders ==> SentBy(steps, n, sender);
        assert Sends(steps[i], sender) ==> SentBy(steps, n, sender);
      }
      forall sender | sender in worlds[n].fired ensures SentBy(steps, n, sender) {
      }
    }
  }

  /** A firing goes back to an unhealthy report. With more than one minute configured that
      report came as many minutes after the first unhealthy one of the generation, to the
      millisecond its stamp is cut off to. */
  lemma {:induction false} FiresOnlyWhenDue(worlds: seq<World>, steps: seq<Step>, n: nat, i: nat, g: nat)
      returns (k: nat)
    requires IsRun(worlds, steps) && n <= |steps| && i < |worlds[n].fired| && g < |worlds[n].born|
    requires worlds[n].born[g].stamp == worlds[n].fired[i].stamp
    ensures k < n && steps[k].Unhealthy? && steps[k].now == worlds[n].fired[i].decided && !steps[k].seen.triggered
    ensures steps[k].seen.min > 1 ==>
              steps[k].now + 1_000_000 > worlds[n].born[g].at + steps[k].seen.min * 60_000_000_000
  {
    RunsAreSound(worlds, steps, n);
    SendersWereSent(worlds, steps, n);
    assert SentBy(steps, n, worlds[n].fired[i]);
    k :| 0 <= k < n && Sends(steps[k], worlds[n].fired[i]);
  }

  /** Reports come at any time and from any snapshot, and every sender can end either way. */
  lemma {:induction false} AnythingCanHappen(w: World, seen: Snapshot, now: nat, index: nat)
    ensures CanTake(w, Unhealthy(seen, now)) && CanTake(w, Clear(seen)) && CanTake(w, Recover)
    ensures index < |w.senders| ==> CanTake(w, Claim(index)) && CanTake(w, Abandon(index))
    ensures w.alive ==> CanTake(w, Delete)
  {
  }

  /** An unhealthy report decides to send if and only if the alert it saw was not triggered
      and had waited for the configured minutes, a single one being no wait at all. */
  lemma {:induction false} SendsIffWaited(w: World, seen: Snapshot, now: nat)
    ensures var w' := Take(w, Unhealthy(seen, now));
      && |w.senders| <= |w'.senders| <= |w.senders| + 1
      && (|w'.senders| > |w.senders| <==>
            && !seen.triggered
            && if seen.pending.Some? then
                 seen.min <= 1 || now >= (seen.pending.value + seen.min * 60_000) * 1_000_000
               else seen.min <= 1 && w.alive && !w.triggered)
  {
  }

  /** A deleted alert is over: whatever senders and reports are still under way, it neither
      waits nor fires again, and its rows stay resolved. */
  lemma {:induction false} DeletedIsOver(worlds: seq<World>, steps: seq<Step>, i: nat, j: nat)
    requires IsRun(worlds, steps) && i < j <= |steps| && steps[i] == Delete
    ensures !worlds[j].triggered && worlds[j].pending.None? && worlds[j].fired == worlds[i].fired
    ensures forall r :: 0 <= r < |worlds[j].rows| ==> worlds[j].rows[r]
  {
    OverStays(worlds, steps, i, j);
    OneOpenRowIffTriggered(worlds, steps, j);
  }

  lemma {:induction false} OverStays(worlds: seq<World>, steps: seq<Step>, i: nat, j: nat)
    requires IsRun(worlds, steps) && i < j <= |steps| && steps[i] == Delete
    ensures !worlds[j].alive && !worlds[j].triggered && worlds[j].pending.None? && worlds[j].fired == worlds[i].fired
  {
    assert StepAt(worlds, steps, j - 1);
    if i < j - 1 {
      OverStays(worlds, steps, i, j - 1);
    }
  }

  /** The alert has one unresolved history row if and only if it is triggered, none
      otherwise, and as many rows as times it fired. */
  lemma {:induction false} OneOpenRowIffTriggered(worlds: seq<World>, steps: seq<Step>, n: nat)
    requires IsRun(worlds, steps) && n <= |steps|
    ensures worlds[n].triggered <==> Unresolved(worlds[n].rows) == 1
    ensures !worlds[n].triggered <==> forall i :: 0 <= i < |worlds[n].rows| ==> worlds[n].rows[i]
    ensures |worlds[n].rows| == |worlds[n].fired|
    ensures worlds[n].triggered ==> worlds[n].alive && worlds[n].pending.None?
  {
    RunsAreSound(worlds, steps, n);
    AllResolved(worlds[n].rows);
  }

  lemma {:induction false} AllResolved(rows: seq<bool>)
    ensures Unresolved(rows) == 0 <==> forall i :: 0 <= i < |rows| ==> rows[i]
  {
    if |rows| == 0 {
    } else {
      AllResolved(rows[1..]);
      assert forall i :: 1 <= i < |rows| ==> rows[i] == rows[1..][i - 1];
    }
  }

  /** Stamps have to be distinct: when a cleared generation and the next one share their
      millisecond, a sender of the first fires the second, five minutes early here. */
  lemma {:induction false} SharedStampFiresCleared() returns (worlds: seq<World>, steps: seq<Step>)
    ensures IsRun(worlds, steps) && |steps| == 4
    ensures worlds[4].cleared == [0] && worlds[4].fired == [Sender(0, 0)]
  {
    steps := [Unhealthy(Snapshot(false, None, 1), 0), Clear(Snapshot(false, Some(0), 1)),
              Unhealthy(Snapshot(false, None, 5), 1), Claim(0)];
    var w0 := World(true, false, None, [], [], [], [], [], []);
    var w1 := Take(w0, steps[0]);
    var w2 := Take(w1, steps[1]);
    var w3 := Take(w2, steps[2]);
    var w4 := Take(w3, steps[3]);
    worlds := [w0, w1, w2, w3, w4];
    assert StepAt(worlds, steps, 0) && StepAt(worlds, steps, 1) && StepAt(worlds, steps, 2) && StepAt(worlds, steps, 3);
  }

  // -------------------------------------------------------- handling without overlap

  datatype Report = Unknown | Healthy | SomeUnhealthy

  /** What one report does to an alert when no other handler runs meanwhile. */
  function Handled(w: World, seen: Snapshot, report: Report, now: nat): World {
    match report
    case Unknown => ClearPending(w, seen)
    case Healthy => if seen.triggered then SetHealthy(ClearPending(w, seen)) else ClearPending(w, seen)
    case SomeUnhealthy =>
      var (w', sender) := Decide(w, seen, now);
      if sender.Some? then ClaimPending(w', sender.value) else w'
  }

  /** Steps that lead from one world to another. */
  ghost predicate Leads(w: World, steps: seq<Step>, w': World)
    decreases |steps|
  {
    if |steps| == 0 then w' == w else CanTake(w, steps[0]) && Leads(Take(w, steps[0]), steps[1..], w')
  }

  /** What a report sets off in the protocol. */
  function StepsOf(w: World, seen: Snapshot, report: Report, now: nat): seq<Step> {
    match report
    case Unknown => [Clear(seen)]
    case Healthy => if seen.triggered then [Clear(seen), Recover] else [Clear(seen)]
    case SomeUnhealthy =>
      if Decide(w, seen, now).1.Some? then [Unhealthy(seen, now), Claim(|w.senders|)] else [Unhealthy(seen, now)]
  }

  /** Handling a report without overlap is a run of the protocol: a clear and a recovery, or
      an unhealthy report and the claim of its own sender. */
  lemma {:induction false} HandledIsSteps(w: World, seen: Snapshot, report: Report, now: nat)
    ensures Leads(w, StepsOf(w, seen, report, now), Handled(w, seen, report, now))
  {
    var w', steps := Handled(w, seen, report, now), StepsOf(w, seen, report, now);
    var mid := Take(w, steps[0]);
    if |steps| == 1 {
      assert steps[1..] == [];
    } else {
      assert steps[1..] == [steps[1]] && [steps[1]][1..] == [];
      if report.SomeUnhealthy? {
        UnhealthyThenClaim(w, seen, now);
      }
      assert Take(mid, steps[1]) == w';
      assert Leads(mid, steps[1..], w');
    }
  }

  lemma {:induction false} UnhealthyThenClaim(w: World, seen: Snapshot, now: nat)
    requires Decide(w, seen, now).1.Some?
    ensures var mid := Take(w, Unhealthy(seen, now));
      CanTake(mid, Claim(|w.senders|)) && Take(mid, Claim(|w.senders|)) == Handled(w, seen, SomeUnhealthy, now)
  {
    var (decided, sender) := Decide(w, seen, now);
    assert decided.senders == w.senders;
    assert Without(w.senders + [sender.value], |w.senders|) == w.senders;
  }

  predicate Current(w: World, seen: Snapshot) {
    w.alive && seen.triggered == w.triggered && seen.pending == w.pending
  }

  lemma {:induction false} HandledKeeps(w: World, seen: Snapshot, report: Report, now: nat)
    requires Sound(w)
    ensures Sound(Handled(w, seen, report, now))
  {
    match report
    case Unknown => ClearKeeps(w, seen);
    case Healthy =>
      ClearKeeps(w, seen);
      RecoverKeeps(ClearPending(w, seen));
    case SomeUnhealthy =>
      DecideKeeps(w, seen, now);
      var (mid, sender) := Decide(w, seen, now);
      if sender.Some? {
        ClaimKeeps(mid, sender.value);
      }
  }

  /** From a current snapshot an unknown report only stops the wait, a healthy one ends
      the incident too, and an unhealthy one leaves the alert waiting since its first
      unhealthy report or, once the minimum has passed, triggered. */
  lemma {:induction false} HandledMeans(w: World, seen: Snapshot, report: Report, now: nat)
    requires Current(w, seen) && (w.triggered ==> w.pending.None?)
    ensures var w' := Handled(w, seen, report, now);
      && (report.Unknown? ==> w'.pending.None? && w'.triggered == w.triggered && w'.rows == w.rows)
      && (report.Healthy? ==> w'.pending.None? && !w'.triggered)
      && (report.SomeUnhealthy? ==>
            var since := if w.pending.Some? then w.pending.value else now / 1_000_000;
            && (w'.triggered <==>
                  || w.triggered || seen.min <= 1
                  || (w.pending.Some? && now >= (since + seen.min * 60_000) * 1_000_000))
            && (!w'.triggered ==> w'.pending == Some(since)))
  {
  }

  datatype Container = Container(name: string, unhealthy: bool)

  function ReportOf(containers: Option<seq<Container>>): Report {
    if containers.None? then Unknown
    else if exists c :: c in containers.value && c.unhealthy then SomeUnhealthy
    else Healthy
  }

  /** From a current snapshot: without container data a triggered alert stays as it is and
      nothing is waited for; with no container unhealthy the alert is over; and with one it
      waits or is triggered. */
  lemma {:induction false} ContainersDecide(w: World, seen: Snapshot, containers: Option<seq<Container>>, now: nat)
    requires Current(w, seen) && (w.triggered ==> w.pending.None?)
    ensures var w' := Handled(w, seen, ReportOf(containers), now);
      && (containers.None? ==> w'.triggered == w.triggered && w'.rows == w.rows && w'.pending.None?)
      && (containers.Some? && (forall c :: c in containers.value ==> !c.unhealthy) ==>
            !w'.triggered && w'.pending.None?)
      && (containers.Some? && (exists c :: c in containers.value && c.unhealthy) ==>
            && w'.triggered != w'.pending.Some?
            && (w'.triggered <==>
                  || w.triggered || seen.min <= 1
                  || (w.pending.Some? && now >= (w.pending.value + seen.min * 60_000) * 1_000_000)))
  {
    HandledMeans(w, seen, ReportOf(containers), now);
  }

  /** Where the loop over the alerts is. */
  ghost predicate Progress(before: map<string, World>, after: map<string, World>, seen: map<string, Snapshot>,
                           report: Report, now: nat, todo: set<string>) {
    && after.Keys == before.Keys
    && (forall a :: a in after ==>
          after[a] == if a in seen && a !in todo then Handled(before[a], seen[a], report, now) else before[a])
  }

  lemma {:induction false} ProgressOn(before: map<string, World>, mid: map<string, World>, seen: map<string, Snapshot>,
                                      report: Report, now: nat, todo: set<string>, a: string)
    requires Progress(before, mid, seen, report, now, todo) && a in todo && a in seen && a in mid
    ensures Progress(before, mid[a := Handled(mid[a], seen[a], report, now)], seen, report, now, todo - {a})
  {
  }

  class Alerts {
    var alerts: map<string, World>

    constructor (alerts: map<string, World>)
      ensures this.alerts == alerts
    {
      this.alerts := alerts;
    }

    static method Examine(containers: Option<seq<Container>>) returns (report: Report)
      ensures report == ReportOf(containers)
    {
      if containers.None? {
        return Unknown;
      }
      var unhealthy: seq<Container> := [];
      for i := 0 to |containers.value|
        invariant forall c :: c in unhealthy <==> c in containers.value[..i] && c.unhealthy
      {
        if containers.value[i].unhealthy {
          unhealthy := unhealthy + [containers.value[i]];
        }
      }
      assert containers.value[..|containers.value|] == containers.value;
      if |unhealthy| > 0 {
        assert unhealthy[0] in unhealthy;
        report := SomeUnhealthy;
      } else {
        report := Healthy;
      }
    }

    /** What is done to the alert is a run of the protocol, and keeps it sound. */
    method HandleAlert(a: string, seen: Snapshot, report: Report, now: nat)
      requires a in alerts
      modifies this
      ensures alerts == old(alerts)[a := Handled(old(alerts)[a], seen, report, now)]
      ensures Leads(old(alerts)[a], StepsOf(old(alerts)[a], seen, report, now), alerts[a])
      ensures Sound(old(alerts)[a]) ==> Sound(alerts[a])
    {
      var w := alerts[a];
      HandledIsSteps(w, seen, report, now);
      if Sound(w) {
        HandledKeeps(w, seen, report, now);
      }
      match report {
        case Unknown =>
          w := ClearPending(w, seen);
        case SomeUnhealthy =>
          var (mid, sender) := Decide(w, seen, now);
          w := mid;
          if sender.Some? {
            w := ClaimPending(w, sender.value);
          }
        case Healthy =>
          w := ClearPending(w, seen);
          if seen.triggered {
            w := SetHealthy(w);
          }
      }
      alerts := alerts[a := w];
    }

    /** Each alert in the snapshot is handled once, and no other one is touched. */
    method HandleContainerAlerts(seen: map<string, Snapshot>, containers: Option<seq<Container>>, now: nat)
      requires seen.Keys <= alerts.Keys
      modifies this
      ensures Progress(old(alerts), alerts, seen, ReportOf(containers), now, {})
    {
      var report := Examine(containers);
      ghost var before := alerts;
      var todo := seen.Keys;
      while todo != {}
        invariant todo <= seen.Keys <= alerts.Keys && Progress(before, alerts, seen, report, now, todo)
        decreases |todo|
      {
        var a :| a in todo;
        ghost var mid := alerts;
        HandleAlert(a, seen[a], report, now);
        ProgressOn(before, mid, seen, report, now, todo, a);
        todo := todo - {a};
      }
    }
  }
}
