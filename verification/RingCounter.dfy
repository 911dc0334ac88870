/** The rolling counter itself: a fixed array of buckets, updated in place, with the log it stands for. */
module RingCounter {
  import opened UsageLog
  import opened RollingWindow
  import opened QuotaVerdict

  class RingBuffer {
    const durationMs: nat
    const buckets: array<Bucket>
    ghost var log: seq<Event>

    ghost predicate Valid()
      reads this, buckets
    {
      && buckets.Length == BucketCount(durationMs)
      && buckets[..] == Slots(log, buckets.Length)
    }

    /** The log is one the ring answers for at `now`: slots never go back, nothing lies in the future. */
    ghost predicate Timely(now: nat)
      reads this
    {
      SlotOrdered(log, BucketCount(durationMs)) && UpTo(log, now)
    }

    constructor (durationMs: nat)
      ensures Valid() && fresh(buckets)
      ensures this.durationMs == durationMs && log == []
    {
      var n := BucketCount(durationMs);
      this.durationMs := durationMs;
      buckets := new Bucket[n](_ => EmptyBucket());
      log := [];
      new;
      assert buckets[..] == Slots([], n);
    }

    method Add(nowMs: nat, requests: nat, inputTokens: nat, outputTokens: nat)
      requires Valid()
      modifies this`log, buckets
      ensures Valid()
      ensures log == old(log) + [Event(nowMs, Totals(requests, inputTokens, outputTokens))]
    {
      var bidx := nowMs / GRANULARITY_MS * GRANULARITY_MS;
      var slot := nowMs / GRANULARITY_MS % buckets.Length;
      SlotIsRemainder(MinuteOf(nowMs), buckets.Length);
      ghost var e := Event(nowMs, Totals(requests, inputTokens, outputTokens));
      ghost var before := buckets[slot];
      if !buckets[slot].initialized || buckets[slot].startMs != bidx {
        buckets[slot] := Bucket(bidx, Zero(), true);
      }
      var b := buckets[slot];
      buckets[slot] := b.(usage := b.usage.Plus(Totals(requests, inputTokens, outputTokens)));
      assert buckets[..] == old(buckets[..])[slot := Recorded(before, e)];
      SlotsAfter(log, e, buckets.Length);
      log := log + [e];
    }

    /** Over a timely log the answer is the log's own total over the window. */
    method TotalsAt(nowMs: nat) returns (t: Totals)
      requires Valid()
      ensures t == RingTotals(buckets[..], durationMs, nowMs)
      ensures Timely(nowMs) ==> t == WindowTotals(log, durationMs, nowMs)
    {
      var cutoffMs := SatSub(nowMs, durationMs);
      t := Zero();
      var i := 0;
      while i < buckets.Length
        invariant 0 <= i <= buckets.Length
        invariant t == RingTotals(buckets[..i], durationMs, nowMs)
      {
        var b := buckets[i];
        RingTotalsStep(buckets[..], i, durationMs, nowMs);
        assert buckets[..][..i] == buckets[..i] && buckets[..][..i + 1] == buckets[..i + 1];
        i := i + 1;
        if !b.initialized {
          continue;
        }
        if b.startMs + GRANULARITY_MS <= cutoffMs {
          continue;
        }
        t := t.Plus(b.usage);
      }
      assert buckets[..i] == buckets[..];
      if Timely(nowMs) {
        RingRefinesLog(log, durationMs, nowMs);
      }
    }

    /**
     For adds in any order the answer is when the oldest counted bucket leaves; over a timely log in
     clock range, that is when the oldest minute of the window does.
     */
    method NextBoundaryMs(nowMs: nat) returns (ms: nat)
      requires Valid()
      ensures ms == BucketBoundary(buckets[..], durationMs, nowMs)
      ensures Timely(nowMs) && InRange(log, durationMs) ==> ms == NextBoundary(log, durationMs, nowMs)
    {
      var cutoffMs := SatSub(nowMs, durationMs);
      var oldest := U64_MAX;
      var i := 0;
      while i < buckets.Length
        invariant 0 <= i <= buckets.Length
        invariant oldest == OldestCounted(buckets[..i], durationMs, nowMs)
      {
        var b := buckets[i];
        assert buckets[..i + 1][..i] == buckets[..i];
        i := i + 1;
        if !b.initialized {
          continue;
        }
        if b.startMs + GRANULARITY_MS <= cutoffMs {
          continue;
        }
        if b.startMs < oldest {
          oldest := b.startMs;
        }
      }
      assert buckets[..i] == buckets[..];
      if Timely(nowMs) && InRange(log, durationMs) {
        OldestCountedIsLeastLive(log, durationMs, nowMs);
      }
      if oldest == U64_MAX {
        return 0;
      }
      return SatSub(SatAdd(SatAdd(oldest, GRANULARITY_MS), durationMs), nowMs);
    }
  }

  lemma RingTotalsStep(buckets: seq<Bucket>, i: nat, durationMs: nat, now: nat)
    requires i < |buckets|
    ensures var sum := RingTotals(buckets[..i], durationMs, now);
            RingTotals(buckets[..i + 1], durationMs, now)
            == if Counted(buckets[i], durationMs, now) then sum.Plus(buckets[i].usage) else sum
  {
    assert buckets[..i + 1] == buckets[..i] + [buckets[i]];
    RingTotalsExtend(buckets[..i], buckets[i], durationMs, now);
  }

  /** The start of the oldest counted bucket, or the end of the clock when none is counted. */
  ghost function OldestCounted(buckets: seq<Bucket>, durationMs: nat, now: nat): nat {
    if buckets == [] then U64_MAX
    else
      var oldest, b := OldestCounted(buckets[..|buckets| - 1], durationMs, now), buckets[|buckets| - 1];
      if Counted(b, durationMs, now) && b.startMs < oldest then b.startMs else oldest
  }

  ghost function BucketBoundary(buckets: seq<Bucket>, durationMs: nat, now: nat): nat {
    var oldest := OldestCounted(buckets, durationMs, now);
    if oldest == U64_MAX then 0 else SatSub(SatAdd(SatAdd(oldest, GRANULARITY_MS), durationMs), now)
  }

  /** No bucket in use leaves the window beyond the end of the clock. */
  ghost predicate OnClock(buckets: seq<Bucket>, durationMs: nat) {
    forall b | b in buckets && b.initialized :: b.startMs + GRANULARITY_MS + durationMs <= U64_MAX
  }

  /**
   Whatever the buckets hold: with no further adds the totals stay put until the boundary, and from
   then on some bucket that was counted no longer is.
   */
  lemma BoundaryOfAnyBuckets(buckets: seq<Bucket>, durationMs: nat, now: nat, later: nat)
    requires OnClock(buckets, durationMs)
    requires BucketBoundary(buckets, durationMs, now) > 0 && now <= later
    ensures var boundary := now + BucketBoundary(buckets, durationMs, now);
            && (later < boundary ==> RingTotals(buckets, durationMs, later) == RingTotals(buckets, durationMs, now))
            && (boundary <= later ==>
                  exists b | b in buckets :: Counted(b, durationMs, now) && !Counted(b, durationMs, later))
  {
    var oldest := OldestCounted(buckets, durationMs, now);
    OldestCountedIsLeast(buckets, durationMs, now);
    var b :| b in buckets && Counted(b, durationMs, now) && b.startMs == oldest;
    assert BucketBoundary(buckets, durationMs, now) == oldest + GRANULARITY_MS + durationMs - now;
    if later < now + BucketBoundary(buckets, durationMs, now) {
      SameBucketsCount(buckets, durationMs, now, later);
    }
  }

  lemma {:induction false} SameBucketsCount(buckets: seq<Bucket>, durationMs: nat, now: nat, later: nat)
    requires forall b | b in buckets :: Counted(b, durationMs, now) <==> Counted(b, durationMs, later)
    ensures RingTotals(buckets, durationMs, now) == RingTotals(buckets, durationMs, later)
  {
    if buckets != [] {
      SameBucketsCount(buckets[..|buckets| - 1], durationMs, now, later);
      assert buckets[|buckets| - 1] in buckets;
    }
  }

  lemma {:induction false} OldestCountedIsLeast(buckets: seq<Bucket>, durationMs: nat, now: nat)
    ensures var oldest := OldestCounted(buckets, durationMs, now);
            && (forall b | b in buckets && Counted(b, durationMs, now) :: oldest <= b.startMs)
            && (oldest == U64_MAX || exists b | b in buckets :: Counted(b, durationMs, now) && b.startMs == oldest)
  {
    if buckets == [] {
    } else {
      OldestCountedIsLeast(buckets[..|buckets| - 1], durationMs, now);
      assert buckets == buckets[..|buckets| - 1] + [buckets[|buckets| - 1]];
    }
  }

  lemma CountedBucketsAreLiveMinutes(log: seq<Event>, durationMs: nat, now: nat, b: Bucket)
    requires SlotOrdered(log, BucketCount(durationMs))
    requires b in Slots(log, BucketCount(durationMs)) && Counted(b, durationMs, now)
    ensures exists m: nat :: m in LiveMinutes(log, durationMs, now) && b.startMs == m * GRANULARITY_MS
  {
    var n := BucketCount(durationMs);
    var s :| 0 <= s < n && SlotBucket(log, n, s) == b;
    BucketHoldsNewestMinute(log, n, s);
    var m: nat :| HoldsMinute(log, n, s, b, m);
    assert m in LiveMinutes(log, durationMs, now);
  }

  lemma LiveMinuteHasCountedBucket(log: seq<Event>, durationMs: nat, now: nat, m: nat)
    requires SlotOrdered(log, BucketCount(durationMs)) && m in LiveMinutes(log, durationMs, now)
    ensures exists b :: b in Slots(log, BucketCount(durationMs)) && Counted(b, durationMs, now)
                        && b.startMs == m * GRANULARITY_MS
  {
    var n := BucketCount(durationMs);
    var s := Slot(m, n);
    var b := SlotBucket(log, n, s);
    BucketHoldsNewestMinute(log, n, s);
    var k: nat :| HoldsMinute(log, n, s, b, k);
    assert k == m;
    assert Slots(log, n)[s] == b;
  }

  lemma OldestCountedIsLeastLive(log: seq<Event>, durationMs: nat, now: nat)
    requires SlotOrdered(log, BucketCount(durationMs)) && InRange(log, durationMs)
    ensures var live := LiveMinutes(log, durationMs, now);
            OldestCounted(Slots(log, BucketCount(durationMs)), durationMs, now)
            == if live == {} then U64_MAX else Least(live) * GRANULARITY_MS
    ensures forall m | m in LiveMinutes(log, durationMs, now) :: m * GRANULARITY_MS < U64_MAX
  {
    var buckets, live := Slots(log, BucketCount(durationMs)), LiveMinutes(log, durationMs, now);
    var oldest := OldestCounted(buckets, durationMs, now);
    OldestCountedIsLeast(buckets, durationMs, now);
    forall m | m in live ensures m * GRANULARITY_MS < U64_MAX && oldest <= m * GRANULARITY_MS {
      LiveMinuteHasCountedBucket(log, durationMs, now, m);
      var e :| e in log && MinuteOf(e.at) == m;
      MinuteBounds(e.at);
    }
    if oldest != U64_MAX {
      var b :| b in buckets && Counted(b, durationMs, now) && b.startMs == oldest;
      CountedBucketsAreLiveMinutes(log, durationMs, now, b);
    }
  }
}
