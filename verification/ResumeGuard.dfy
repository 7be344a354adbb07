/** The suspend/resume guard shared by all network monitors
    (agent/network_monitor_resume.go).

    Everything the guard does is stated over its trace: when it was started, the
    times it observed, and when it was shut down. Times are nanoseconds. */
module ResumeGuard {
  import opened Common

  const HEARTBEAT := 10 * 1_000_000_000
  const GAP := 2 * HEARTBEAT
  const PAUSE := 10 * 1_000_000_000
  const UINT32 := 0x1_0000_0000

  datatype Event = Began(at: int) | Observed(at: int) | Ended

  /** Observations only happen while the guard runs. */
  predicate WellFormed(trace: seq<Event>) {
    |trace| == 0 ||
    var front := trace[..|trace| - 1];
    WellFormed(front) && (trace[|trace| - 1].Began? <==> !Running(front))
  }

  lemma {:induction false} WellFormedAt(trace: seq<Event>, i: nat)
    requires WellFormed(trace) && i < |trace|
    ensures trace[i].Began? <==> i == 0 || trace[i - 1].Ended?
  {
    if i < |trace| - 1 {
      WellFormedAt(trace[..|trace| - 1], i);
    }
  }

  predicate Running(trace: seq<Event>) {
    |trace| > 0 && !trace[|trace| - 1].Ended?
  }

  /** An observation more than 20 seconds after the previous one. */
  predicate IsGap(trace: seq<Event>, i: nat)
    requires i < |trace|
  {
    i > 0 && trace[i].Observed? && !trace[i - 1].Ended? && trace[i].at - trace[i - 1].at > GAP
  }

  /** A gap or a shutdown. */
  predicate IsBreak(trace: seq<Event>, i: nat)
    requires i < |trace|
  {
    trace[i].Ended? || IsGap(trace, i)
  }

  function BreaksFrom(trace: seq<Event>, from: nat): nat {
    if |trace| <= from then 0
    else BreaksFrom(trace[..|trace| - 1], from) + if IsBreak(trace, |trace| - 1) then 1 else 0
  }

  /** The uint32 generation counter. */
  function Generation(trace: seq<Event>): nat {
    BreaksFrom(trace, 0) % UINT32
  }

  /** The end of the current pause, if this run of the guard had a gap. */
  function PauseUntil(trace: seq<Event>): Option<int> {
    if |trace| == 0 || trace[|trace| - 1].Began? then None
    else if IsGap(trace, |trace| - 1) then Some(trace[|trace| - 1].at + PAUSE)
    else PauseUntil(trace[..|trace| - 1])
  }

  /** What a snapshot at a time leaves behind: it observes the time if the guard runs. */
  function AfterSnapshot(trace: seq<Event>, now: int): seq<Event> {
    if Running(trace) then trace + [Observed(now)] else trace
  }

  /** Whether a snapshot that left this trace lets a scheduled probe go ahead. */
  predicate Allowed(trace: seq<Event>) {
    !Running(trace) || PauseUntil(trace).None? || trace[|trace| - 1].at >= PauseUntil(trace).value
  }

  lemma {:induction false} PrefixWellFormed(trace: seq<Event>, n: nat)
    requires WellFormed(trace) && n <= |trace|
    ensures WellFormed(trace[..n])
  {
    if n < |trace| {
      PrefixWellFormed(trace[..|trace| - 1], n);
      assert trace[..|trace| - 1][..n] == trace[..n];
    } else {
      assert trace[..n] == trace;
    }
  }

  lemma {:induction false} Extend(trace: seq<Event>, event: Event)
    requires WellFormed(trace) && (event.Began? <==> !Running(trace))
    ensures WellFormed(trace + [event])
    ensures Generation(trace + [event]) ==
            if IsBreak(trace + [event], |trace|) then (Generation(trace) + 1) % UINT32 else Generation(trace)
    ensures PauseUntil(trace + [event]) ==
            if event.Began? then None
            else if IsGap(trace + [event], |trace|) then Some(event.at + PAUSE)
            else PauseUntil(trace)
  {
    assert (trace + [event])[..|trace|] == trace;
  }

  // -------------------------------------------------- generations detect breaks

  ghost predicate Unbroken(trace: seq<Event>, from: nat) {
    forall i :: from <= i < |trace| ==> !IsBreak(trace, i)
  }

  lemma {:induction false} BreaksSplit(trace: seq<Event>, from: nat)
    requires from <= |trace|
    ensures BreaksFrom(trace, 0) == BreaksFrom(trace[..from], 0) + BreaksFrom(trace, from)
  {
    if from < |trace| {
      var front := trace[..|trace| - 1];
      BreaksSplit(front, from);
      assert front[..from] == trace[..from];
    } else {
      assert trace[..from] == trace;
    }
  }

  lemma {:induction false} NoBreaksIffUnbroken(trace: seq<Event>, from: nat)
    ensures BreaksFrom(trace, from) == 0 <==> Unbroken(trace, from)
  {
    if from < |trace| {
      var n := |trace| - 1;
      var front := trace[..n];
      NoBreaksIffUnbroken(front, from);
      assert forall i :: 0 <= i < n ==> IsBreak(front, i) == IsBreak(trace, i);
      if Unbroken(front, from) && !IsBreak(trace, n) {
        assert Unbroken(trace, from);
      }
    }
  }

  /** Two snapshots see the same generation exactly when the number of breaks in
      between is a multiple of 2^32; short of that many, when there was none. */
  lemma {:induction false} SameGenerationIffUnbroken(trace: seq<Event>, from: nat)
    requires from <= |trace|
    ensures Generation(trace[..from]) == Generation(trace) <==> BreaksFrom(trace, from) % UINT32 == 0
    ensures BreaksFrom(trace, from) < UINT32 ==>
              (Generation(trace[..from]) == Generation(trace) <==> Unbroken(trace, from))
  {
    BreaksSplit(trace, from);
    NoBreaksIffUnbroken(trace, from);
  }

  /** An observation within 20 seconds of the one before it. */
  predicate IsOnTime(trace: seq<Event>, i: nat)
    requires 0 < i < |trace|
  {
    trace[i].Observed? && !trace[i - 1].Ended? && trace[i].at - trace[i - 1].at <= 20_000_000_000
  }

  /** What an unbroken stretch means: the guard kept running and no two successive
      observations were more than 20 seconds apart. */
  lemma {:induction false} UnbrokenMeansOnTime(trace: seq<Event>, from: nat)
    requires WellFormed(trace) && 0 < from <= |trace| && Running(trace[..from])
    ensures Unbroken(trace, from) <==> forall i :: from <= i < |trace| ==> IsOnTime(trace, i)
  {
    if Unbroken(trace, from) {
      forall i | from <= i < |trace| ensures IsOnTime(trace, i) {
        WellFormedAt(trace, i);
        assert !IsBreak(trace, i);
        assert i > from ==> !IsBreak(trace, i - 1);
        assert i == from ==> trace[i - 1] == trace[..from][i - 1];
      }
    } else {
      var i :| from <= i < |trace| && IsBreak(trace, i);
      assert !IsOnTime(trace, i);
    }
  }

  // ----------------------------------------------------------- the pause after a gap

  /** A gap of the current run of the guard. */
  ghost predicate IsCurrentGap(trace: seq<Event>, i: nat)
    requires i < |trace|
  {
    IsGap(trace, i) && forall j :: i < j < |trace| ==> !trace[j].Began?
  }

  /** From an event on, every gap of the current run is at least ten seconds old. */
  ghost predicate GapsAreOld(trace: seq<Event>, from: nat, now: int) {
    forall i :: from <= i < |trace| && IsCurrentGap(trace, i) ==> now >= trace[i].at + 10_000_000_000
  }

  /** Wall times that do not go back. */
  ghost predicate Ordered(trace: seq<Event>) {
    forall i, j :: 0 <= i < j < |trace| && !trace[i].Ended? && !trace[j].Ended? ==> trace[i].at <= trace[j].at
  }

  lemma {:induction false} StaysCurrentGap(trace: seq<Event>, i: nat)
    requires i + 1 < |trace| && !trace[|trace| - 1].Began?
    ensures IsCurrentGap(trace[..|trace| - 1], i) <==> IsCurrentGap(trace, i)
  {
    var front := trace[..|trace| - 1];
    assert IsGap(front, i) <==> IsGap(trace, i);
    assert forall j :: i < j < |front| ==> front[j] == trace[j];
  }

  lemma {:induction false} PauseFollowsLastGap(trace: seq<Event>)
    ensures PauseUntil(trace).None? ==> forall i :: 0 <= i < |trace| ==> !IsCurrentGap(trace, i)
    ensures PauseUntil(trace).Some? ==> exists k ::
      && 0 <= k < |trace| && IsCurrentGap(trace, k) && PauseUntil(trace).value == trace[k].at + PAUSE
      && (forall i :: k < i < |trace| ==> !IsCurrentGap(trace, i))
  {
    if |trace| == 0 {
    } else {
      var n := |trace| - 1;
      var front := trace[..n];
      PauseFollowsLastGap(front);
      if trace[n].Began? {
        forall i | 0 <= i < |trace| ensures !IsCurrentGap(trace, i) {
          assert trace[n].Began?;
        }
      } else if IsGap(trace, n) {
        assert IsCurrentGap(trace, n);
      } else {
        forall i | 0 <= i < n ensures IsCurrentGap(front, i) <==> IsCurrentGap(trace, i) {
          StaysCurrentGap(trace, i);
        }
      }
    }
  }

  /** A snapshot lets a scheduled probe go ahead exactly when every gap detected
      since the guard was started, its own included, is at least 10 seconds old. */
  lemma {:induction false} AllowedIffGapsAreOld(trace: seq<Event>)
    requires Running(trace) && Ordered(trace)
    ensures Allowed(trace) <==> GapsAreOld(trace, 0, trace[|trace| - 1].at)
  {
    PauseFollowsLastGap(trace);
    if PauseUntil(trace).Some? {
      var k :| && 0 <= k < |trace| && IsCurrentGap(trace, k) && PauseUntil(trace).value == trace[k].at + PAUSE
               && (forall i :: k < i < |trace| ==> !IsCurrentGap(trace, i));
      forall i | 0 <= i < |trace| && IsCurrentGap(trace, i) ensures trace[i].at <= trace[k].at {
        assert i <= k;
        assert !trace[i].Ended? && !trace[k].Ended?;
      }
    }
  }

  /** A permission covers the gaps it saw for as long as the guard runs. */
  lemma {:induction false} AllowedLasts(trace: seq<Event>, n: nat, k: nat)
    requires WellFormed(trace) && Running(trace) && Ordered(trace) && k < n <= |trace| && Allowed(trace[..n])
    requires IsCurrentGap(trace, k)
    ensures trace[|trace| - 1].at >= trace[k].at + PAUSE
  {
    var seen := trace[..n];
    if Running(seen) {
      assert Ordered(seen) && IsGap(seen, k) && IsCurrentGap(seen, k);
      AllowedIffGapsAreOld(seen);
      assert seen[n - 1].at <= trace[|trace| - 1].at;
    } else {
      WellFormedAt(trace, n);
    }
  }

  /** So all gaps are old if and only if those are that were detected since. */
  lemma {:induction false} GapsSincePermission(trace: seq<Event>, n: nat)
    requires WellFormed(trace) && Running(trace) && Ordered(trace) && n <= |trace| && Allowed(trace[..n])
    ensures var now := trace[|trace| - 1].at; GapsAreOld(trace, 0, now) <==> GapsAreOld(trace, n, now)
  {
    forall k | 0 <= k < n && IsCurrentGap(trace, k) ensures trace[|trace| - 1].at >= trace[k].at + PAUSE {
      AllowedLasts(trace, n, k);
    }
  }

  // ------------------------------------------------------------- the object itself

  /** `stop` identifies the channel of the running heartbeat; a heartbeat of an
      earlier start no longer matches it. */
  class Guard {
    var stop: Option<nat>
    var nextStop: nat
    var lastTick: int
    var pauseUntil: Option<int>
    var generation: nat
    ghost var trace: seq<Event>

    ghost predicate Valid()
      reads this
    {
      && WellFormed(trace)
      && (stop.Some? <==> Running(trace))
      && (stop.Some? ==> lastTick == trace[|trace| - 1].at && stop.value < nextStop && pauseUntil == PauseUntil(trace))
      && generation == Generation(trace)
    }

    constructor ()
      ensures Valid() && trace == []
    {
      stop, nextStop, lastTick, pauseUntil, generation, trace := None, 0, 0, None, 0, [];
    }

    method Start(now: int)
      requires Valid()
      modifies this
      ensures Valid()
      ensures trace == if Running(old(trace)) then old(trace) else old(trace) + [Began(now)]
    {
      if stop.Some? {
        return;
      }
      stop := Some(nextStop);
      nextStop := nextStop + 1;
      lastTick := now;
      pauseUntil := None;
      Extend(trace, Began(now));
      trace := trace + [Began(now)];
    }

    method Shutdown()
      requires Valid()
      modifies this
      ensures Valid()
      ensures trace == if Running(old(trace)) then old(trace) + [Ended] else old(trace)
    {
      if stop.Some? {
        stop := None;
        generation := (generation + 1) % UINT32;
        Extend(trace, Ended);
        trace := trace + [Ended];
      }
    }

    method Observe(now: int)
      requires Valid() && stop.Some?
      modifies this
      ensures Valid() && stop == old(stop) && nextStop == old(nextStop)
      ensures trace == old(trace) + [Observed(now)]
    {
      if now - lastTick > GAP {
        pauseUntil := Some(now + PAUSE);
        generation := (generation + 1) % UINT32;
      }
      lastTick := now;
      Extend(trace, Observed(now));
      trace := trace + [Observed(now)];
    }

    /** A heartbeat started with a given channel. */
    method Tick(channel: nat, now: int)
      requires Valid()
      modifies this
      ensures Valid()
      ensures trace == if old(stop) == Some(channel) then old(trace) + [Observed(now)] else old(trace)
    {
      if stop == Some(channel) {
        Observe(now);
      }
    }

    method Snapshot(now: int) returns (seen: nat, allowed: bool)
      requires Valid()
      modifies this
      ensures Valid() && trace == AfterSnapshot(old(trace), now)
      ensures seen == Generation(trace) && allowed == Allowed(trace)
    {
      if stop.None? {
        return generation, true;
      }
      Observe(now);
      seen := generation;
      allowed := pauseUntil.None? || lastTick >= pauseUntil.value;
    }
  }
}
