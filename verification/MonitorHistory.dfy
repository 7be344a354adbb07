/** The sample store of one network monitor (agent/network_monitor_history.go).

    Samples are kept twice: the individual samples of the last 61 seconds, and a
    ring of 61 buckets with one wall-clock minute each. The reference throughout
    is the full, never pruned log of everything recorded.

    Times are nanoseconds since the epoch. */
module MonitorHistory {
  import opened Common

  const SECOND := 1_000_000_000
  const MINUTE := 60 * SECOND
  const HOUR := 60 * MINUTE
  const RAW_RETENTION := 61 * SECOND
  const BUCKETS := 61
  const MAX_INT64 := 0x7fff_ffff_ffff_ffff

  type Int64 = x: int | -0x8000_0000_0000_0000 <= x <= 0x7fff_ffff_ffff_ffff

  /** Instants whose minute fits a non-negative int32; the ring is indexed by minute % 61. */
  type Instant = t: int | 0 <= t < 0x8000_0000 * 60 * 1_000_000_000

  datatype Sample = Sample(responseUs: Int64, timestamp: Instant)

  // ---------------------------------------------------------------- aggregates

  datatype Aggregate = Aggregate(sumUs: int, minUs: int, maxUs: int, totalCount: int, successCount: int)

  const EMPTY := Aggregate(0, MAX_INT64, 0, 0, 0)

  /** A negative response is a lost probe. */
  function AddResponse(agg: Aggregate, responseUs: Int64): Aggregate {
    var counted := agg.(totalCount := agg.totalCount + 1);
    if responseUs < 0 then counted
    else counted.(successCount := agg.successCount + 1,
                  sumUs := agg.sumUs + responseUs,
                  minUs := if responseUs < agg.minUs then responseUs else agg.minUs,
                  maxUs := if responseUs > agg.maxUs then responseUs else agg.maxUs)
  }

  function AddAggregate(agg: Aggregate, other: Aggregate): Aggregate {
    if other.totalCount == 0 then agg
    else
      var counted := agg.(totalCount := agg.totalCount + other.totalCount,
                          successCount := agg.successCount + other.successCount,
                          sumUs := agg.sumUs + other.sumUs);
      if other.successCount == 0 then counted
      else counted.(minUs := if agg.minUs == MAX_INT64 || other.minUs < agg.minUs then other.minUs else agg.minUs,
                    maxUs := if other.maxUs > agg.maxUs then other.maxUs else agg.maxUs)
  }

  /** Aggregating samples one by one, in order. */
  function Fold(samples: seq<Sample>): Aggregate {
    if |samples| == 0 then EMPTY
    else AddResponse(Fold(samples[..|samples| - 1]), samples[|samples| - 1].responseUs)
  }

  lemma {:induction false} FoldSnoc(samples: seq<Sample>, last: Sample)
    ensures Fold(samples + [last]) == AddResponse(Fold(samples), last.responseUs)
  {
    assert (samples + [last])[..|samples|] == samples;
  }

  lemma {:induction false} FoldOne(sample: Sample)
    ensures Fold([sample]) == AddResponse(EMPTY, sample.responseUs)
    ensures Fold([sample]).totalCount == 1
  {
    FoldSnoc([], sample);
    assert [] + [sample] == [sample];
  }

  /** The responses of the successful samples, in order. */
  function Successes(samples: seq<Sample>): seq<int> {
    if |samples| == 0 then []
    else var last := samples[|samples| - 1].responseUs;
         Successes(samples[..|samples| - 1]) + if last < 0 then [] else [last]
  }

  function Sum(values: seq<int>): int {
    if |values| == 0 then 0 else Sum(values[..|values| - 1]) + values[|values| - 1]
  }

  /** What the five fields of an aggregate mean. */
  ghost predicate Summarizes(agg: Aggregate, samples: seq<Sample>) {
    var successes := Successes(samples);
    && agg.totalCount == |samples|
    && agg.successCount == |successes|
    && agg.sumUs == Sum(successes)
    && (forall r :: r in successes ==> agg.minUs <= r <= agg.maxUs)
    && (if successes == [] then agg.minUs == MAX_INT64 && agg.maxUs == 0
        else agg.minUs in successes && agg.maxUs in successes)
  }

  ghost predicate WellFormed(agg: Aggregate) {
    && 0 <= agg.successCount <= agg.totalCount
    && agg.minUs <= MAX_INT64
    && agg.maxUs >= 0
    && (agg.successCount == 0 ==> agg.minUs == MAX_INT64 && agg.maxUs == 0 && agg.sumUs == 0)
  }

  lemma {:induction false} SuccessesBounds(samples: seq<Sample>)
    ensures |Successes(samples)| <= |samples|
    ensures forall r :: r in Successes(samples) ==> 0 <= r <= MAX_INT64
  {
    if |samples| == 0 {
    } else {
      SuccessesBounds(samples[..|samples| - 1]);
    }
  }

  lemma {:induction false} FoldCounts(samples: seq<Sample>)
    ensures Fold(samples).totalCount == |samples|
    ensures Fold(samples).successCount == |Successes(samples)|
    ensures Fold(samples).sumUs == Sum(Successes(samples))
  {
    if |samples| == 0 {
    } else {
      var n := |samples| - 1;
      FoldCounts(samples[..n]);
      var prior, last := Successes(samples[..n]), samples[n].responseUs;
      if last >= 0 {
        assert Successes(samples) == prior + [last];
        assert (prior + [last])[..|prior|] == prior;
      } else {
        assert Successes(samples) == prior;
      }
    }
  }

  lemma {:induction false} FoldRange(samples: seq<Sample>)
    ensures var agg, successes := Fold(samples), Successes(samples);
      && (forall r :: r in successes ==> agg.minUs <= r <= agg.maxUs)
      && (if successes == [] then agg.minUs == MAX_INT64 && agg.maxUs == 0
          else agg.minUs in successes && agg.maxUs in successes)
  {
    if |samples| == 0 {
    } else {
      var n := |samples| - 1;
      FoldRange(samples[..n]);
      var prior, last := Successes(samples[..n]), samples[n].responseUs;
      if last < 0 {
        assert Successes(samples) == prior;
      } else {
        SuccessesBounds(samples[..n]);
        assert forall r :: r in Successes(samples) <==> r in prior || r == last;
      }
    }
  }

  lemma {:induction false} FoldSummarizes(samples: seq<Sample>)
    ensures Summarizes(Fold(samples), samples)
    ensures WellFormed(Fold(samples))
  {
    FoldCounts(samples);
    FoldRange(samples);
    SuccessesBounds(samples);
    var successes := Successes(samples);
    if successes != [] {
      assert Fold(samples).maxUs in successes && Fold(samples).minUs in successes;
    }
  }

  // -------------------------------------------------- minutes and the reference

  /** Go's integer division, which truncates toward zero. */
  function TruncatedDiv(a: int, b: int): int
    requires b > 0
  {
    if a >= 0 then a / b else -((-a) / b)
  }

  /** The wall-clock minute of a time: its Unix seconds divided by 60. */
  function MinuteOf(time: int): int {
    TruncatedDiv(time / SECOND, 60)
  }

  function SlotOf(sample: Sample): nat {
    MinuteOf(sample.timestamp) % BUCKETS
  }

  /** The samples of a log in the wall-clock minutes lo..hi, both included. */
  function InMinutes(log: seq<Sample>, lo: int, hi: int): seq<Sample> {
    if |log| == 0 then []
    else
      var last := log[|log| - 1];
      InMinutes(log[..|log| - 1], lo, hi) + if lo <= MinuteOf(last.timestamp) <= hi then [last] else []
  }

  /** The samples of a log taken at or after a time. */
  function Since(log: seq<Sample>, cutoff: int): seq<Sample> {
    if |log| == 0 then []
    else
      var last := log[|log| - 1];
      Since(log[..|log| - 1], cutoff) + if last.timestamp < cutoff then [] else [last]
  }

  // ---------------------------------------------------------- the minute ring

  datatype Bucket = Bucket(minute: int, filled: bool, stats: Aggregate)

  type Ring = r: seq<Bucket> | |r| == BUCKETS witness seq(61, _ => Bucket(0, false, EMPTY))

  function EmptyRing(): Ring {
    seq(BUCKETS, _ => Bucket(0, false, EMPTY))
  }

  function BucketAdd(bucket: Bucket, sample: Sample): Bucket {
    var minute := MinuteOf(sample.timestamp);
    var current := if !bucket.filled || bucket.minute != minute then Bucket(minute, true, EMPTY) else bucket;
    current.(stats := AddResponse(current.stats, sample.responseUs))
  }

  /** The ring after recording a whole log. */
  function RingOf(log: seq<Sample>): Ring {
    if |log| == 0 then EmptyRing()
    else
      var ring, last := RingOf(log[..|log| - 1]), log[|log| - 1];
      ring[SlotOf(last) := BucketAdd(ring[SlotOf(last)], last)]
  }

  function Contribution(bucket: Bucket, lo: int, hi: int): Aggregate {
    if !bucket.filled || bucket.minute < lo || bucket.minute > hi then EMPTY else bucket.stats
  }

  /** Merging the buckets that fall in the minutes lo..hi. */
  function AggregateBuckets(ring: seq<Bucket>, lo: int, hi: int): Aggregate {
    if |ring| == 0 then EMPTY
    else AddAggregate(AggregateBuckets(ring[..|ring| - 1], lo, hi), Contribution(ring[|ring| - 1], lo, hi))
  }

  /** A later sample of another minute reused the slot of a sample of this minute. */
  ghost predicate Overwritten(log: seq<Sample>, minute: int) {
    exists i, j :: 0 <= i < j < |log| && MinuteOf(log[i].timestamp) == minute && Displaces(log[j], minute)
  }

  predicate Displaces(sample: Sample, minute: int) {
    MinuteOf(sample.timestamp) != minute && SlotOf(sample) == minute % BUCKETS
  }

  /** Overwritten, following the log. */
  predicate Reused(log: seq<Sample>, minute: int) {
    |log| > 0 &&
    var front, last := log[..|log| - 1], log[|log| - 1];
    Reused(front, minute) || (InMinutes(front, minute, minute) != [] && Displaces(last, minute))
  }

  lemma {:induction false} InMinuteNonEmpty(log: seq<Sample>, minute: int)
    ensures InMinutes(log, minute, minute) != [] <==> exists i :: 0 <= i < |log| && MinuteOf(log[i].timestamp) == minute
  {
    if |log| == 0 {
    } else {
      var n := |log| - 1;
      InMinuteNonEmpty(log[..n], minute);
      if exists i :: 0 <= i < |log| && MinuteOf(log[i].timestamp) == minute {
        var i :| 0 <= i < |log| && MinuteOf(log[i].timestamp) == minute;
        assert i < n ==> log[..n][i] == log[i];
      }
    }
  }

  lemma {:induction false} ReusedIsOverwritten(log: seq<Sample>, minute: int)
    requires Reused(log, minute)
    ensures Overwritten(log, minute)
  {
    var n := |log| - 1;
    var front := log[..n];
    if Reused(front, minute) {
      ReusedIsOverwritten(front, minute);
      var i, j :| 0 <= i < j < |front| && MinuteOf(front[i].timestamp) == minute && Displaces(front[j], minute);
      assert log[i] == front[i] && log[j] == front[j];
    } else {
      InMinuteNonEmpty(front, minute);
      var i :| 0 <= i < |front| && MinuteOf(front[i].timestamp) == minute;
      assert log[i] == front[i] && Displaces(log[n], minute);
    }
  }

  lemma {:induction false} OverwrittenIsReused(log: seq<Sample>, minute: int, i: nat, j: nat)
    requires i < j < |log| && MinuteOf(log[i].timestamp) == minute && Displaces(log[j], minute)
    ensures Reused(log, minute)
  {
    var front := log[..|log| - 1];
    assert front[i] == log[i];
    if j < |front| {
      assert front[j] == log[j];
      OverwrittenIsReused(front, minute, i, j);
    } else {
      InMinuteNonEmpty(front, minute);
    }
  }

  lemma {:induction false} ReusedIffOverwritten(log: seq<Sample>, minute: int)
    ensures Reused(log, minute) <==> Overwritten(log, minute)
  {
    if Reused(log, minute) {
      ReusedIsOverwritten(log, minute);
    }
    if Overwritten(log, minute) {
      var i, j :| 0 <= i < j < |log| && MinuteOf(log[i].timestamp) == minute && Displaces(log[j], minute);
      OverwrittenIsReused(log, minute, i, j);
    }
  }

  function Held(log: seq<Sample>, minute: nat): Aggregate {
    Contribution(RingOf(log)[minute % BUCKETS], minute, minute)
  }

  lemma {:induction false} HeldStep(log: seq<Sample>, last: Sample, minute: nat)
    ensures MinuteOf(last.timestamp) == minute ==>
              Held(log + [last], minute) == AddResponse(Held(log, minute), last.responseUs)
    ensures Displaces(last, minute) ==> Held(log + [last], minute) == EMPTY
    ensures MinuteOf(last.timestamp) != minute && !Displaces(last, minute) ==>
              Held(log + [last], minute) == Held(log, minute)
  {
    assert (log + [last])[..|log|] == log;
    var ring := RingOf(log);
    assert RingOf(log + [last]) == ring[SlotOf(last) := BucketAdd(ring[SlotOf(last)], last)];
  }

  /** One bucket against the log: it holds exactly the samples of its minute unless
      the slot was reused in between, and then it holds fewer. */
  lemma {:induction false} BucketAgainstLog(log: seq<Sample>, minute: nat)
    ensures var held, all := Held(log, minute), Fold(InMinutes(log, minute, minute));
      if Reused(log, minute) then 0 <= held.totalCount < all.totalCount else held == all
  {
    if |log| == 0 {
    } else {
      var front, last := log[..|log| - 1], log[|log| - 1];
      assert log == front + [last];
      var all := InMinutes(front, minute, minute);
      BucketAgainstLog(front, minute);
      HeldStep(front, last, minute);
      FoldCounts(all);
      if MinuteOf(last.timestamp) == minute {
        FoldSnoc(all, last);
      } else {
        assert InMinutes(log, minute, minute) == all;
      }
    }
  }

  // ------------------------------------------- merging buckets is folding samples

  lemma {:induction false} AddCommutesWithMerge(a: Aggregate, b: Aggregate, r: Int64)
    requires WellFormed(a) && WellFormed(b)
    ensures AddAggregate(AddResponse(a, r), b) == AddResponse(AddAggregate(a, b), r)
    ensures AddAggregate(a, AddResponse(b, r)) == AddResponse(AddAggregate(a, b), r)
  {
  }

  /** The samples in the minutes lo..hi whose slot is below k. */
  function InSlots(log: seq<Sample>, lo: int, hi: int, k: nat): seq<Sample> {
    if |log| == 0 then []
    else
      var last := log[|log| - 1];
      InSlots(log[..|log| - 1], lo, hi, k)
      + if lo <= MinuteOf(last.timestamp) <= hi && SlotOf(last) < k then [last] else []
  }

  lemma {:induction false} InAllSlots(log: seq<Sample>, lo: int, hi: int)
    ensures InSlots(log, lo, hi, BUCKETS) == InMinutes(log, lo, hi)
    ensures InSlots(log, lo, hi, 0) == []
  {
    if |log| == 0 {
    } else {
      InAllSlots(log[..|log| - 1], lo, hi);
    }
  }

  /** At most one minute of a window of 61 minutes uses a slot. */
  function MinuteInSlot(lo: int, k: nat): int {
    lo + (k - lo) % BUCKETS
  }

  lemma {:induction false} MinuteInSlotUnique(lo: int, hi: int, minute: int, k: nat)
    requires k < BUCKETS && lo <= hi < lo + BUCKETS
    ensures lo <= minute <= hi && minute % BUCKETS == k <==> minute == MinuteInSlot(lo, k) <= hi
  {
  }

  lemma {:induction false} OneMoreSlot(log: seq<Sample>, lo: int, hi: int, k: nat)
    requires k < BUCKETS && lo <= hi < lo + BUCKETS
    ensures var minute := MinuteInSlot(lo, k);
      Fold(InSlots(log, lo, hi, k + 1)) ==
      AddAggregate(Fold(InSlots(log, lo, hi, k)), if minute <= hi then Fold(InMinutes(log, minute, minute)) else EMPTY)
  {
    if |log| == 0 {
    } else {
      var front, last := log[..|log| - 1], log[|log| - 1];
      var minute := MinuteInSlot(lo, k);
      OneMoreSlot(front, lo, hi, k);
      MinuteInSlotUnique(lo, hi, MinuteOf(last.timestamp), k);
      var below, here := InSlots(front, lo, hi, k), InMinutes(front, minute, minute);
      var through := InSlots(front, lo, hi, k + 1);
      if lo <= MinuteOf(last.timestamp) <= hi && SlotOf(last) <= k {
        FoldSummarizes(below);
        FoldSummarizes(here);
        FoldSnoc(through, last);
        AddCommutesWithMerge(Fold(below), if minute <= hi then Fold(here) else EMPTY, last.responseUs);
        if SlotOf(last) < k {
          FoldSnoc(below, last);
          assert InMinutes(log, minute, minute) == here;
        } else {
          FoldSnoc(here, last);
          assert InSlots(log, lo, hi, k) == below;
        }
      } else {
        assert InSlots(log, lo, hi, k) == below && InSlots(log, lo, hi, k + 1) == through;
        assert minute <= hi ==> InMinutes(log, minute, minute) == here;
      }
    }
  }

  lemma {:induction false} RingSlots(log: seq<Sample>)
    ensures forall k :: 0 <= k < BUCKETS && RingOf(log)[k].filled ==> RingOf(log)[k].minute % BUCKETS == k
    ensures forall k :: 0 <= k < BUCKETS && RingOf(log)[k].filled ==> RingOf(log)[k].minute >= 0
  {
    if |log| == 0 {
    } else {
      RingSlots(log[..|log| - 1]);
    }
  }

  lemma {:induction false} ContributionIsHeld(log: seq<Sample>, lo: int, hi: int, k: nat)
    requires k < BUCKETS && lo <= hi < lo + BUCKETS
    ensures var minute := MinuteInSlot(lo, k);
      Contribution(RingOf(log)[k], lo, hi) == if 0 <= minute <= hi then Held(log, minute) else EMPTY
  {
    RingSlots(log);
    var bucket := RingOf(log)[k];
    MinuteInSlotUnique(lo, hi, bucket.minute, k);
    MinuteInSlotUnique(lo, hi, MinuteInSlot(lo, k), k);
  }

  /** Some minute of the window with a slot below k had its slot reused. */
  predicate LossBelow(log: seq<Sample>, lo: int, hi: int, k: nat) {
    k > 0 && (LossBelow(log, lo, hi, k - 1) || (MinuteInSlot(lo, k - 1) <= hi && Reused(log, MinuteInSlot(lo, k - 1))))
  }

  lemma {:induction false} NoLossBelow(log: seq<Sample>, lo: int, hi: int, k: nat)
    requires k <= BUCKETS && lo <= hi < lo + BUCKETS
    requires forall minute :: lo <= minute <= hi ==> !Reused(log, minute)
    ensures !LossBelow(log, lo, hi, k)
  {
    if k == 0 {
    } else {
      NoLossBelow(log, lo, hi, k - 1);
    }
  }

  lemma {:induction false} LossBelowCovers(log: seq<Sample>, lo: int, hi: int, k: nat, minute: int)
    requires k <= BUCKETS && lo <= hi < lo + BUCKETS
    requires lo <= minute <= hi && minute % BUCKETS < k && Reused(log, minute)
    ensures LossBelow(log, lo, hi, k)
  {
    MinuteInSlotUnique(lo, hi, minute, k - 1);
    if minute % BUCKETS < k - 1 {
      LossBelowCovers(log, lo, hi, k - 1, minute);
    }
  }

  lemma {:induction false} NoNegativeMinutes(log: seq<Sample>, minute: int)
    requires minute < 0
    ensures InMinutes(log, minute, minute) == [] && !Reused(log, minute)
  {
    if |log| == 0 {
    } else {
      NoNegativeMinutes(log[..|log| - 1], minute);
    }
  }

  /** What was read against what there is: the same, or fewer samples after a loss. */
  ghost predicate ReadAgainst(read: Aggregate, all: Aggregate, loss: bool) {
    if loss then 0 <= read.totalCount < all.totalCount else read == all && all.totalCount >= 0
  }

  lemma {:induction false} MergeReads(read: Aggregate, all: Aggregate, loss: bool, read': Aggregate, all': Aggregate,
                                      loss': bool)
    requires ReadAgainst(read, all, loss) && ReadAgainst(read', all', loss')
    ensures ReadAgainst(AddAggregate(read, read'), AddAggregate(all, all'), loss || loss')
  {
  }

  lemma {:induction false} SlotAgainstLog(log: seq<Sample>, lo: int, hi: int, k: nat)
    requires k < BUCKETS && lo <= hi < lo + BUCKETS
    ensures var minute := MinuteInSlot(lo, k);
      ReadAgainst(Contribution(RingOf(log)[k], lo, hi),
                  if minute <= hi then Fold(InMinutes(log, minute, minute)) else EMPTY,
                  minute <= hi && Reused(log, minute))
  {
    var minute := MinuteInSlot(lo, k);
    ContributionIsHeld(log, lo, hi, k);
    FoldCounts(InMinutes(log, minute, minute));
    if minute < 0 {
      NoNegativeMinutes(log, minute);
    } else {
      BucketAgainstLog(log, minute);
    }
  }

  lemma {:induction false} RingPrefixAgainstLog(log: seq<Sample>, lo: int, hi: int, k: nat)
    requires k <= BUCKETS && lo <= hi < lo + BUCKETS
    ensures ReadAgainst(AggregateBuckets(RingOf(log)[..k], lo, hi), Fold(InSlots(log, lo, hi, k)),
                        LossBelow(log, lo, hi, k))
  {
    if k == 0 {
      InAllSlots(log, lo, hi);
    } else {
      var minute := MinuteInSlot(lo, k - 1);
      RingPrefixAgainstLog(log, lo, hi, k - 1);
      SlotAgainstLog(log, lo, hi, k - 1);
      assert RingOf(log)[..k][..k - 1] == RingOf(log)[..k - 1];
      MergeReads(AggregateBuckets(RingOf(log)[..k - 1], lo, hi), Fold(InSlots(log, lo, hi, k - 1)),
                 LossBelow(log, lo, hi, k - 1),
                 Contribution(RingOf(log)[k - 1], lo, hi),
                 if minute <= hi then Fold(InMinutes(log, minute, minute)) else EMPTY,
                 minute <= hi && Reused(log, minute));
      OneMoreSlot(log, lo, hi, k - 1);
    }
  }

  /** The ring read over a window of at most 61 minutes is the fold over the full
      log if and only if no sample of the window had its slot reused since. */
  lemma {:induction false} RingExactIffNotOverwritten(log: seq<Sample>, lo: int, hi: int)
    requires lo <= hi < lo + BUCKETS
    ensures AggregateBuckets(RingOf(log), lo, hi) == Fold(InMinutes(log, lo, hi))
       <==> (forall minute :: lo <= minute <= hi ==> !Overwritten(log, minute))
  {
    RingPrefixAgainstLog(log, lo, hi, BUCKETS);
    InAllSlots(log, lo, hi);
    assert RingOf(log)[..BUCKETS] == RingOf(log);
    forall minute ensures Reused(log, minute) <==> Overwritten(log, minute) {
      ReusedIffOverwritten(log, minute);
    }
    if minute :| lo <= minute <= hi && Overwritten(log, minute) {
      LossBelowCovers(log, lo, hi, BUCKETS, minute);
    } else {
      NoLossBelow(log, lo, hi, BUCKETS);
    }
  }

  // ------------------------------------------------------------ ordinary clocks

  ghost predicate Monotone(log: seq<Sample>) {
    forall i, j :: 0 <= i < j < |log| ==> log[i].timestamp <= log[j].timestamp
  }

  /** No sample of the log is later than a time. */
  ghost predicate UpTo(log: seq<Sample>, now: int) {
    forall i :: 0 <= i < |log| ==> log[i].timestamp <= now
  }

  lemma {:induction false} MinuteMonotone(a: int, b: int)
    requires a <= b
    ensures MinuteOf(a) <= MinuteOf(b)
  {
    assert a / SECOND <= b / SECOND;
  }

  lemma {:induction false} WindowSpansAtMost61Minutes(now: Instant, duration: int)
    requires 0 <= duration <= HOUR
    ensures MinuteOf(now - duration) <= MinuteOf(now) < MinuteOf(now - duration) + BUCKETS
  {
    MinuteMonotone(now - duration, now);
    MinuteMonotone(now - HOUR, now - duration);
    assert (now - HOUR) / SECOND == now / SECOND - 3600;
  }

  lemma {:induction false} NeverOverwrittenInWindow(log: seq<Sample>, now: Instant, lo: int, minute: int)
    requires Monotone(log) && UpTo(log, now)
    requires lo <= minute && MinuteOf(now) < lo + BUCKETS
    ensures !Overwritten(log, minute)
  {
    forall i, j | 0 <= i < j < |log| && MinuteOf(log[i].timestamp) == minute
      ensures !Displaces(log[j], minute)
    {
      MinuteMonotone(log[i].timestamp, log[j].timestamp);
      MinuteMonotone(log[j].timestamp, now);
    }
  }

  /** Every window of up to an hour read from the ring is the fold over the full
      log restricted to the wall-clock minutes of the window. */
  lemma {:induction false} HourWindowExact(log: seq<Sample>, now: Instant, duration: int)
    requires Monotone(log) && UpTo(log, now)
    requires 0 <= duration <= HOUR
    ensures AggregateBuckets(RingOf(log), MinuteOf(now - duration), MinuteOf(now))
         == Fold(InMinutes(log, MinuteOf(now - duration), MinuteOf(now)))
  {
    var lo, hi := MinuteOf(now - duration), MinuteOf(now);
    WindowSpansAtMost61Minutes(now, duration);
    forall minute | lo <= minute <= hi ensures !Overwritten(log, minute) {
      NeverOverwrittenInWindow(log, now, lo, minute);
    }
    RingExactIffNotOverwritten(log, lo, hi);
  }

  /** A wall clock set back by more than an hour loses samples of the window. */
  lemma {:induction false} ClockSetBackLosesSamples()
    ensures var log := [Sample(7, 61 * MINUTE), Sample(9, 0)];
      AggregateBuckets(RingOf(log), 1, 61) != Fold(InMinutes(log, 1, 61))
  {
    var log := [Sample(7, 61 * MINUTE), Sample(9, 0)];
    assert MinuteOf(log[0].timestamp) == 61 && Displaces(log[1], 61);
    assert Overwritten(log, 61);
    RingExactIffNotOverwritten(log, 1, 61);
  }

  // -------------------------------------------------------------- raw samples

  /** Dropping the leading samples older than the cutoff. */
  function Prune(samples: seq<Sample>, cutoff: int): seq<Sample> {
    if |samples| > 0 && samples[0].timestamp < cutoff then Prune(samples[1..], cutoff) else samples
  }

  /** The raw samples kept after recording a whole log. */
  function KeptOf(log: seq<Sample>): seq<Sample> {
    if |log| == 0 then []
    else
      var last := log[|log| - 1];
      Prune(KeptOf(log[..|log| - 1]), last.timestamp - RAW_RETENTION) + [last]
  }

  lemma {:induction false} PruneIsSuffix(samples: seq<Sample>, cutoff: int)
    ensures |Prune(samples, cutoff)| <= |samples|
    ensures var dropped := |samples| - |Prune(samples, cutoff)|;
      && Prune(samples, cutoff) == samples[dropped..]
      && (forall i :: 0 <= i < dropped ==> samples[i].timestamp < cutoff)
      && (dropped < |samples| ==> samples[dropped].timestamp >= cutoff)
  {
    if |samples| > 0 && samples[0].timestamp < cutoff {
      PruneIsSuffix(samples[1..], cutoff);
      var dropped := |samples| - |Prune(samples, cutoff)|;
      forall i | 0 <= i < dropped ensures samples[i].timestamp < cutoff {
        assert i > 0 ==> samples[i] == samples[1..][i - 1];
      }
    }
  }

  /** How many leading samples of a log the raw layer no longer holds. */
  function Dropped(log: seq<Sample>): int {
    |log| - |KeptOf(log)|
  }

  lemma {:induction false} KeptIsSuffix(log: seq<Sample>)
    ensures 0 <= Dropped(log) <= |log| && KeptOf(log) == log[Dropped(log)..]
    ensures |log| > 0 ==> Dropped(log) < |log|
  {
    if |log| == 0 {
    } else {
      var front := log[..|log| - 1];
      KeptIsSuffix(front);
      PruneIsSuffix(KeptOf(front), log[|log| - 1].timestamp - RAW_RETENTION);
    }
  }

  /** What the last sample of a log makes the raw layer drop. */
  lemma {:induction false} PrunedFront(log: seq<Sample>)
    requires |log| > 1
    ensures var n, front := |log| - 1, log[..|log| - 1];
      var cutoff := log[n].timestamp - RAW_RETENTION;
      && 0 <= Dropped(front) <= Dropped(log) <= n
      && (forall k :: Dropped(front) <= k < Dropped(log) ==> log[k].timestamp < cutoff)
      && (Dropped(log) < n ==> log[Dropped(log)].timestamp >= cutoff)
  {
    var n, front := |log| - 1, log[..|log| - 1];
    var kept, d := KeptOf(front), Dropped(front);
    KeptIsSuffix(front);
    PruneIsSuffix(kept, log[n].timestamp - RAW_RETENTION);
    assert forall k :: d <= k < n ==> kept[k - d] == log[k];
  }

  /** With an ordinary clock exactly the samples older than 61 seconds are dropped. */
  lemma {:induction false} DroppedAreOld(log: seq<Sample>)
    requires |log| > 0 && Monotone(log)
    ensures 0 <= Dropped(log) < |log|
    ensures forall i :: 0 <= i < |log| ==>
              (i < Dropped(log) <==> log[i].timestamp < log[|log| - 1].timestamp - RAW_RETENTION)
  {
    KeptIsSuffix(log);
    var n := |log| - 1;
    var front := log[..n];
    if |front| == 0 {
    } else {
      DroppedAreOld(front);
      PrunedFront(log);
      forall i | 0 <= i < n
        ensures i < Dropped(log) <==> log[i].timestamp < log[n].timestamp - RAW_RETENTION
      {
        OldIffDropped(log, Dropped(front), Dropped(log), i);
      }
    }
  }

  lemma {:induction false} OldIffDropped(log: seq<Sample>, before: nat, dropped: nat, i: nat)
    requires |log| > 0 && Monotone(log) && before <= dropped < |log| && i < |log| - 1
    requires var cutoff := log[|log| - 1].timestamp - RAW_RETENTION;
      && (forall k :: before <= k < dropped ==> log[k].timestamp < cutoff)
      && (dropped < |log| - 1 ==> log[dropped].timestamp >= cutoff)
      && (i < before ==> log[i].timestamp < cutoff)
    ensures i < dropped <==> log[i].timestamp < log[|log| - 1].timestamp - RAW_RETENTION
  {
    if i > dropped {
      assert log[dropped].timestamp <= log[i].timestamp;
    }
  }

  lemma {:induction false} SinceConcat(a: seq<Sample>, b: seq<Sample>, cutoff: int)
    ensures Since(a + b, cutoff) == Since(a, cutoff) + Since(b, cutoff)
  {
    if |b| == 0 {
      assert a + b == a;
    } else {
      SinceConcat(a, b[..|b| - 1], cutoff);
      assert (a + b)[..|a + b| - 1] == a + b[..|b| - 1];
    }
  }

  ghost predicate SomeSince(log: seq<Sample>, cutoff: int) {
    exists i :: 0 <= i < |log| && log[i].timestamp >= cutoff
  }

  lemma {:induction false} SomeSinceFront(log: seq<Sample>, cutoff: int)
    requires |log| > 0
    ensures SomeSince(log, cutoff) <==> SomeSince(log[..|log| - 1], cutoff) || log[|log| - 1].timestamp >= cutoff
  {
    var n, front := |log| - 1, log[..|log| - 1];
    if i :| 0 <= i < |front| && front[i].timestamp >= cutoff {
      assert log[i] == front[i];
    }
    if i :| 0 <= i < |log| && log[i].timestamp >= cutoff {
      assert i < n ==> front[i] == log[i];
    }
  }

  lemma {:induction false} SinceNonEmpty(log: seq<Sample>, cutoff: int)
    ensures Since(log, cutoff) != [] <==> SomeSince(log, cutoff)
  {
    if |log| == 0 {
    } else {
      SinceNonEmpty(log[..|log| - 1], cutoff);
      SomeSinceFront(log, cutoff);
    }
  }

  /** Reading a window from the raw samples is exact if and only if no dropped
      sample belongs to it, whatever the clock did. */
  lemma {:induction false} RawExactIffNothingDropped(log: seq<Sample>, cutoff: int)
    ensures 0 <= Dropped(log) <= |log|
    ensures Fold(Since(KeptOf(log), cutoff)) == Fold(Since(log, cutoff))
       <==> (forall i :: 0 <= i < Dropped(log) ==> log[i].timestamp < cutoff)
  {
    KeptIsSuffix(log);
    var d := Dropped(log);
    var dropped, kept := log[..d], KeptOf(log);
    assert log == dropped + kept;
    SinceConcat(dropped, kept, cutoff);
    FoldCounts(Since(log, cutoff));
    FoldCounts(Since(kept, cutoff));
    SinceNonEmpty(dropped, cutoff);
    if Since(dropped, cutoff) == [] {
      assert Since(log, cutoff) == Since(kept, cutoff);
      forall i | 0 <= i < d ensures log[i].timestamp < cutoff {
        assert dropped[i] == log[i];
      }
    }
  }

  lemma {:induction false} DroppedBeforeWindow(log: seq<Sample>, now: Instant, duration: int)
    requires Monotone(log) && UpTo(log, now)
    requires duration <= RAW_RETENTION
    ensures Dropped(log) <= |log|
    ensures forall i :: 0 <= i < Dropped(log) ==> log[i].timestamp < now - duration
  {
    if |log| > 0 {
      DroppedAreOld(log);
      assert log[|log| - 1].timestamp <= now;
    }
  }

  /** For windows of at most 61 seconds the raw samples give the aggregate of the full log. */
  lemma {:induction false} ShortWindowExact(log: seq<Sample>, now: Instant, duration: int)
    requires Monotone(log) && UpTo(log, now)
    requires duration <= RAW_RETENTION
    ensures Fold(Since(KeptOf(log), now - duration)) == Fold(Since(log, now - duration))
  {
    DroppedBeforeWindow(log, now, duration);
    RawExactIffNothingDropped(log, now - duration);
  }

  // ------------------------------------------------------------------- results

  /** A reported result. The two loss percentages are given by the counts they are
      computed from: lost out of total, for the window and for the hour. */
  datatype Result = Result(avgResponse: int, minResponse: int, maxResponse: int,
                           totalCount: int, successCount: int, responseSum: int,
                           avgResponse1h: int, minResponse1h: int, maxResponse1h: int,
                           lost1h: int, total1h: int,
                           lastProbeAt: int, sampleCount: int)

  function AvgResponse(agg: Aggregate): int {
    if agg.successCount == 0 then 0 else TruncatedAverage(agg.sumUs, agg.successCount)
  }

  function TruncatedAverage(sum: int, count: int): int
    requires count != 0
  {
    if count > 0 then TruncatedDiv(sum, count) else TruncatedDiv(-sum, -count)
  }

  function MakeResult(window: Aggregate, hour: Aggregate, lastProbeAt: int, sampleCount: int): Result {
    Result(AvgResponse(window),
           if window.successCount == 0 then 0 else window.minUs,
           if window.successCount == 0 then 0 else window.maxUs,
           window.totalCount, window.successCount, window.sumUs,
           AvgResponse(hour),
           if hour.successCount == 0 then 0 else hour.minUs,
           if hour.successCount == 0 then 0 else hour.maxUs,
           hour.totalCount - hour.successCount, hour.totalCount,
           lastProbeAt, sampleCount)
  }

  function AggregateOver(samples: seq<Sample>, ring: seq<Bucket>, duration: int, now: Instant): Aggregate {
    if duration <= RAW_RETENTION then Fold(Since(samples, now - duration))
    else AggregateBuckets(ring, MinuteOf(now - duration), MinuteOf(now))
  }

  function ResultOver(samples: seq<Sample>, ring: seq<Bucket>, sampleCount: int, duration: int,
                      now: Instant): Option<Result> {
    var window := AggregateOver(samples, ring, duration, now);
    var agg := if window.totalCount > 0 then window
               else if |samples| == 0 then EMPTY
               else AddResponse(EMPTY, samples[|samples| - 1].responseUs);
    if agg.totalCount <= 0 then None
    else Some(MakeResult(agg, AggregateOver(samples, ring, HOUR, now),
                         if |samples| > 0 then samples[|samples| - 1].timestamp / 1_000_000 else 0,
                         sampleCount))
  }

  /** The samples of a window, read off the full log: to the nanosecond when the
      window is short, else all of its wall-clock minutes. */
  function Window(log: seq<Sample>, duration: int, now: Instant): seq<Sample> {
    if duration <= RAW_RETENTION then Since(log, now - duration)
    else InMinutes(log, MinuteOf(now - duration), MinuteOf(now))
  }

  lemma {:induction false} WindowMatchesLog(log: seq<Sample>, duration: int, now: Instant)
    requires Monotone(log) && UpTo(log, now)
    requires duration <= HOUR
    ensures AggregateOver(KeptOf(log), RingOf(log), duration, now) == Fold(Window(log, duration, now))
  {
    if duration <= RAW_RETENTION {
      ShortWindowExact(log, now, duration);
    } else {
      HourWindowExact(log, now, duration);
    }
  }

  /** The result of a full log; a window without samples reports the latest one. */
  function Reported(log: seq<Sample>, duration: int, now: Instant): Option<Result> {
    if log == [] then None
    else
      var window, last := Window(log, duration, now), log[|log| - 1];
      Some(MakeResult(Fold(if window == [] then [last] else window), Fold(Window(log, HOUR, now)),
                      last.timestamp / 1_000_000, |log|))
  }

  /** What is reported from the two retention layers is what the full log says. */
  lemma {:induction false} ResultMatchesLog(log: seq<Sample>, duration: int, now: Instant)
    requires Monotone(log) && UpTo(log, now)
    requires duration <= HOUR
    ensures ResultOver(KeptOf(log), RingOf(log), |log|, duration, now) == Reported(log, duration, now)
  {
    KeptIsSuffix(log);
    WindowMatchesLog(log, duration, now);
    WindowMatchesLog(log, HOUR, now);
    FoldCounts(Window(log, duration, now));
    if |log| > 0 {
      FoldOne(log[|log| - 1]);
    }
  }

  lemma {:induction false} OneMoreTimes(n: int, x: int)
    ensures (n + 1) * x == n * x + x
  {
  }

  lemma {:induction false} TimesKeepsOrder(a: int, b: int, c: int)
    requires a <= b && c > 0
    ensures a * c <= b * c
  {
  }

  lemma {:induction false} SumInRange(values: seq<int>, lo: int, hi: int)
    requires forall v :: v in values ==> lo <= v <= hi
    ensures |values| * lo <= Sum(values) <= |values| * hi
  {
    if |values| == 0 {
    } else {
      var front, last := values[..|values| - 1], values[|values| - 1];
      assert forall v :: v in front ==> v in values;
      SumInRange(front, lo, hi);
      assert last in values;
      OneMoreTimes(|front|, lo);
      OneMoreTimes(|front|, hi);
    }
  }

  lemma {:induction false} Quotient(sum: int, count: int)
    requires count > 0
    ensures (sum / count) * count <= sum < (sum / count) * count + count
  {
    assert sum == (sum / count) * count + sum % count;
  }

  lemma {:induction false} QuotientInRange(sum: int, count: int, lo: int, hi: int)
    requires count > 0 && count * lo <= sum <= count * hi
    ensures lo <= sum / count <= hi
  {
    var q := sum / count;
    Quotient(sum, count);
    if q < lo {
      TimesKeepsOrder(q + 1, lo, count);
      OneMoreTimes(q, count);
    } else if q > hi {
      TimesKeepsOrder(hi + 1, q, count);
      OneMoreTimes(hi, count);
    }
  }

  /** The reported average lies between the reported minimum and maximum. */
  lemma {:induction false} AverageInRange(samples: seq<Sample>)
    requires Successes(samples) != []
    ensures var agg := Fold(samples); agg.successCount > 0 && agg.minUs <= AvgResponse(agg) <= agg.maxUs
  {
    var agg, successes := Fold(samples), Successes(samples);
    FoldCounts(samples);
    FoldRange(samples);
    SuccessesBounds(samples);
    SumInRange(successes, agg.minUs, agg.maxUs);
    SumInRange(successes, 0, agg.maxUs);
    QuotientInRange(agg.sumUs, agg.successCount, agg.minUs, agg.maxUs);
  }

  // ------------------------------------------------------ what a result says, in full

  /** Whether a sample belongs to a window: to the nanosecond when the window is short, else
      by the wall-clock minutes of its ends, both included. */
  predicate Belongs(sample: Sample, duration: int, now: Instant) {
    if duration <= 61_000_000_000 then sample.timestamp >= now - duration
    else
      && sample.timestamp / 60_000_000_000 <= now / 60_000_000_000
      && (now >= duration ==> sample.timestamp / 60_000_000_000 >= (now - duration) / 60_000_000_000)
  }

  lemma {:induction false} MinuteIs(time: int)
    requires time >= 0
    ensures MinuteOf(time) == time / 60_000_000_000
  {
  }

  lemma {:induction false} MinuteIsNot(time: int)
    requires time < 0
    ensures MinuteOf(time) <= 0
  {
  }

  lemma {:induction false} BelongsByMinute(sample: Sample, duration: int, now: Instant)
    requires duration > RAW_RETENTION
    ensures Belongs(sample, duration, now) <==>
            MinuteOf(now - duration) <= MinuteOf(sample.timestamp) <= MinuteOf(now)
  {
    MinuteIs(sample.timestamp);
    MinuteIs(now);
    if now >= duration {
      MinuteIs(now - duration);
    } else {
      MinuteIsNot(now - duration);
    }
  }

  lemma {:induction false} SinceHolds(log: seq<Sample>, cutoff: int, sample: Sample)
    ensures multiset(Since(log, cutoff))[sample] == if sample.timestamp >= cutoff then multiset(log)[sample] else 0
  {
    if |log| == 0 {
    } else {
      SinceHolds(log[..|log| - 1], cutoff, sample);
      assert log == log[..|log| - 1] + [log[|log| - 1]];
    }
  }

  lemma {:induction false} InMinutesHolds(log: seq<Sample>, lo: int, hi: int, sample: Sample)
    ensures multiset(InMinutes(log, lo, hi))[sample] ==
              if lo <= MinuteOf(sample.timestamp) <= hi then multiset(log)[sample] else 0
  {
    if |log| == 0 {
    } else {
      InMinutesHolds(log[..|log| - 1], lo, hi, sample);
      assert log == log[..|log| - 1] + [log[|log| - 1]];
    }
  }

  /** A window holds every sample that belongs to it, as often as it was recorded, and no other. */
  lemma {:induction false} WindowHolds(log: seq<Sample>, duration: int, now: Instant, sample: Sample)
    ensures multiset(Window(log, duration, now))[sample] ==
              if Belongs(sample, duration, now) then multiset(log)[sample] else 0
  {
    if duration <= RAW_RETENTION {
      SinceHolds(log, now - duration, sample);
    } else {
      BelongsByMinute(sample, duration, now);
      InMinutesHolds(log, MinuteOf(now - duration), MinuteOf(now), sample);
    }
  }

  lemma {:induction false} SuccessesAre(samples: seq<Sample>, response: int)
    ensures response in Successes(samples) <==>
            response >= 0 && exists i :: 0 <= i < |samples| && samples[i].responseUs == response
  {
    if |samples| == 0 {
    } else {
      var front, last := samples[..|samples| - 1], samples[|samples| - 1];
      SuccessesAre(front, response);
      assert forall i :: 0 <= i < |front| ==> front[i] == samples[i];
      if i :| 0 <= i < |front| && front[i].responseUs == response {
        assert samples[i].responseUs == response;
      }
    }
  }

  /** The responses a report speaks of: bounds that are taken on and the average rounded
      down, or zeros without any. */
  ghost predicate Describes(responses: seq<int>, avg: int, min: int, max: int) {
    if responses == [] then avg == 0 && min == 0 && max == 0
    else
      && min in responses && max in responses && (forall r :: r in responses ==> min <= r <= max)
      && avg * |responses| <= Sum(responses) < (avg + 1) * |responses|
  }

  lemma {:induction false} AggregateDescribes(samples: seq<Sample>)
    ensures var agg := Fold(samples);
      Describes(Successes(samples), AvgResponse(agg), if agg.successCount == 0 then 0 else agg.minUs,
                if agg.successCount == 0 then 0 else agg.maxUs)
  {
    FoldCounts(samples);
    FoldRange(samples);
    SuccessesBounds(samples);
    var successes := Successes(samples);
    if successes != [] {
      SumInRange(successes, 0, MAX_INT64);
      Quotient(Sum(successes), |successes|);
      OneMoreTimes(Sum(successes) / |successes|, |successes|);
    }
  }

  /** What each field of a report says about the samples of its window, or about the latest
      one if there are none, and about those of the hour. */
  lemma {:induction false} ReportedMeans(log: seq<Sample>, duration: int, now: Instant)
    requires log != []
    ensures Reported(log, duration, now).Some?
    ensures var last, window, hour := log[|log| - 1], Window(log, duration, now), Window(log, HOUR, now);
      var shown := if window == [] then [last] else window;
      var r := Reported(log, duration, now).value;
      && Describes(Successes(shown), r.avgResponse, r.minResponse, r.maxResponse)
      && r.totalCount == |shown| && r.successCount == |Successes(shown)| && r.responseSum == Sum(Successes(shown))
      && Describes(Successes(hour), r.avgResponse1h, r.minResponse1h, r.maxResponse1h)
      && r.total1h == |hour| && r.lost1h == |hour| - |Successes(hour)|
      && r.lastProbeAt * 1_000_000 <= last.timestamp < (r.lastProbeAt + 1) * 1_000_000 && r.sampleCount == |log|
  {
    var window, hour := Window(log, duration, now), Window(log, HOUR, now);
    var shown := if window == [] then [log[|log| - 1]] else window;
    FoldCounts(shown);
    FoldCounts(hour);
    AggregateDescribes(shown);
    AggregateDescribes(hour);
  }

  lemma {:induction false} SomethingReported(log: seq<Sample>, duration: int, now: Instant)
    requires |log| > 0
    ensures ResultOver(KeptOf(log), RingOf(log), |log|, duration, now).Some?
  {
    KeptIsSuffix(log);
  }

  lemma {:induction false} LastIsLatest(log: seq<Sample>)
    requires |log| > 0 && Monotone(log)
    ensures UpTo(log, log[|log| - 1].timestamp)
  {
  }

  // ------------------------------------------------------------ the object itself

  /** The store as the agent keeps it. `log` is everything ever recorded into it. */
  class History {
    var sampleCount: int
    var samples: seq<Sample>
    const buckets: array<Bucket>
    ghost var log: seq<Sample>

    ghost predicate Valid()
      reads this, buckets
    {
      && buckets.Length == BUCKETS
      && buckets[..] == RingOf(log)
      && samples == KeptOf(log)
      && sampleCount == |log|
    }

    constructor ()
      ensures Valid() && log == [] && fresh(buckets)
    {
      sampleCount := 0;
      samples := [];
      log := [];
      buckets := new Bucket[BUCKETS](_ => Bucket(0, false, EMPTY));
    }

    /** A deep copy: recording into either history leaves the other alone. */
    method Clone() returns (cloned: History)
      requires Valid()
      ensures fresh(cloned) && fresh(cloned.buckets) && cloned.Valid()
      ensures cloned.log == log
    {
      cloned := new History();
      forall i | 0 <= i < BUCKETS {
        cloned.buckets[i] := buckets[i];
      }
      cloned.samples := samples;
      cloned.sampleCount := sampleCount;
      cloned.log := log;
      assert cloned.buckets[..] == buckets[..];
    }

    /** Finds the first sample to keep, scanning from the oldest. */
    method FirstKept(cutoff: int) returns (start: nat)
      ensures start <= |samples| && samples[start..] == Prune(samples, cutoff)
    {
      PruneIsSuffix(samples, cutoff);
      start := 0;
      while start < |samples| && samples[start].timestamp < cutoff
        invariant start <= |samples| - |Prune(samples, cutoff)|
      {
        start := start + 1;
      }
    }

    method AddSample(sample: Sample)
      requires Valid()
      modifies this, buckets
      ensures Valid() && log == old(log) + [sample]
    {
      sampleCount := sampleCount + 1;
      var start := FirstKept(sample.timestamp - RAW_RETENTION);
      samples := samples[start..] + [sample];
      var slot := SlotOf(sample);
      buckets[slot] := BucketAdd(buckets[slot], sample);
      log := log + [sample];
      assert log[..|log| - 1] == old(log);
    }

    method AggregateSamplesSince(cutoff: int) returns (agg: Aggregate)
      ensures agg == Fold(Since(samples, cutoff))
    {
      agg := EMPTY;
      var i := 0;
      while i < |samples|
        invariant 0 <= i <= |samples|
        invariant agg == Fold(Since(samples[..i], cutoff))
      {
        assert samples[..i + 1][..i] == samples[..i];
        if samples[i].timestamp >= cutoff {
          FoldSnoc(Since(samples[..i], cutoff), samples[i]);
          agg := AddResponse(agg, samples[i].responseUs);
        } else {
          assert Since(samples[..i + 1], cutoff) == Since(samples[..i], cutoff);
        }
        i := i + 1;
      }
      assert samples[..i] == samples;
    }

    method AggregateBucketsSince(cutoff: int, now: Instant) returns (agg: Aggregate)
      ensures agg == AggregateBuckets(buckets[..], MinuteOf(cutoff), MinuteOf(now))
    {
      agg := EMPTY;
      var startMinute, endMinute := MinuteOf(cutoff), MinuteOf(now);
      var i := 0;
      while i < buckets.Length
        invariant 0 <= i <= buckets.Length
        invariant agg == AggregateBuckets(buckets[..i], startMinute, endMinute)
      {
        var bucket := buckets[i];
        assert buckets[..i + 1][..i] == buckets[..i];
        if bucket.filled && bucket.minute >= startMinute && bucket.minute <= endMinute {
          agg := AddAggregate(agg, bucket.stats);
        }
        i := i + 1;
      }
      assert buckets[..i] == buckets[..];
    }

    method AggregateWindow(duration: int, now: Instant) returns (agg: Aggregate)
      ensures agg == AggregateOver(samples, buckets[..], duration, now)
    {
      if duration <= RAW_RETENTION {
        agg := AggregateSamplesSince(now - duration);
      } else {
        agg := AggregateBucketsSince(now - duration, now);
      }
    }

    method ComputeResult(duration: int, now: Instant) returns (r: Option<Result>)
      ensures r == ResultOver(samples, buckets[..], sampleCount, duration, now)
    {
      var agg := AggregateWindow(duration, now);
      if agg.totalCount <= 0 {
        agg := EMPTY;
        if |samples| > 0 {
          agg := AddResponse(EMPTY, samples[|samples| - 1].responseUs);
        }
      }
      var hour := AggregateWindow(HOUR, now);
      if agg.totalCount <= 0 {
        return None;
      }
      return Some(MakeResult(agg, hour,
                             if |samples| > 0 then samples[|samples| - 1].timestamp / 1_000_000 else 0,
                             sampleCount));
    }

    /** Reports a window; with an ordinary clock, what the full log says about it. */
    method Result(duration: int, now: Instant) returns (r: Option<Result>)
      requires Valid()
      ensures r == ResultOver(KeptOf(log), RingOf(log), |log|, duration, now)
      ensures Monotone(log) && UpTo(log, now) && duration <= HOUR ==> r == Reported(log, duration, now)
    {
      r := ComputeResult(duration, now);
      if Monotone(log) && UpTo(log, now) && duration <= HOUR {
        ResultMatchesLog(log, duration, now);
      }
    }

    /** Stores a sample and reports the minute ending with it. */
    method Record(sample: Sample) returns (r: Option<Result>)
      requires Valid()
      modifies this, buckets
      ensures Valid() && log == old(log) + [sample]
      ensures r == ResultOver(KeptOf(log), RingOf(log), |log|, MINUTE, sample.timestamp)
      ensures r.Some? && (Monotone(log) ==> r == Reported(log, MINUTE, sample.timestamp))
    {
      AddSample(sample);
      SomethingReported(log, MINUTE, sample.timestamp);
      if Monotone(log) {
        LastIsLatest(log);
      }
      r := Result(MINUTE, sample.timestamp);
    }
  }
}
