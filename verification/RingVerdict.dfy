/**
 The decision over what the rolling counter itself answers. A rejected caller can count on the retry
 time whatever order the counter was fed in, and over a timely log the decision is the window's own.
 */
module RingVerdict {
  import opened UsageLog
  import opened RollingWindow
  import opened QuotaVerdict
  import opened RingCounter

  ghost function BucketVerdict(cfg: QuotaConfig, buckets: seq<Bucket>, durationMs: nat, now: nat): QuotaCheck {
    Evaluate(cfg, RingTotals(buckets, durationMs, now), BucketBoundary(buckets, durationMs, now))
  }

  /** One quota check: totals and boundary are read off the same ring at the same moment. */
  method Check(cfg: QuotaConfig, ring: RingBuffer, nowMs: nat) returns (v: QuotaCheck)
    requires ring.Valid()
    ensures v == BucketVerdict(cfg, ring.buckets[..], ring.durationMs, nowMs)
    ensures ring.Timely(nowMs) && InRange(ring.log, ring.durationMs) ==>
              v == Verdict(cfg, ring.log, ring.durationMs, nowMs)
  {
    var totals := ring.TotalsAt(nowMs);
    var boundary := ring.NextBoundaryMs(nowMs);
    v := Evaluate(cfg, totals, boundary);
  }

  /** The positions whose bucket counts. */
  ghost function CountedAt(buckets: seq<Bucket>, durationMs: nat, now: nat): set<nat> {
    set i: nat | i < |buckets| && Counted(buckets[i], durationMs, now)
  }

  lemma {:induction false} NothingCountedNothingUsed(buckets: seq<Bucket>, durationMs: nat, now: nat)
    requires forall b | b in buckets :: !Counted(b, durationMs, now)
    ensures RingTotals(buckets, durationMs, now) == Zero()
  {
    if buckets != [] {
      assert buckets[|buckets| - 1] in buckets;
      NothingCountedNothingUsed(buckets[..|buckets| - 1], durationMs, now);
    }
  }

  /** A boundary of zero means that nothing counts. */
  lemma BoundaryIsAhead(buckets: seq<Bucket>, durationMs: nat, now: nat)
    requires OnClock(buckets, durationMs)
    ensures BucketBoundary(buckets, durationMs, now) > 0 || RingTotals(buckets, durationMs, now) == Zero()
  {
    var oldest := OldestCounted(buckets, durationMs, now);
    OldestCountedIsLeast(buckets, durationMs, now);
    if oldest == U64_MAX {
      forall b | b in buckets ensures !Counted(b, durationMs, now) {
        assert Counted(b, durationMs, now) ==> oldest <= b.startMs;
      }
      NothingCountedNothingUsed(buckets, durationMs, now);
    }
  }

  lemma CountedOnlyShrinks(buckets: seq<Bucket>, durationMs: nat, now: nat, later: nat)
    requires now <= later
    ensures CountedAt(buckets, durationMs, later) <= CountedAt(buckets, durationMs, now)
    ensures (exists b | b in buckets :: Counted(b, durationMs, now) && !Counted(b, durationMs, later)) ==>
              CountedAt(buckets, durationMs, later) < CountedAt(buckets, durationMs, now)
  {
    if b :| b in buckets && Counted(b, durationMs, now) && !Counted(b, durationMs, later) {
      var i: nat :| i < |buckets| && buckets[i] == b;
      assert i in CountedAt(buckets, durationMs, now) && i !in CountedAt(buckets, durationMs, later);
    }
  }

  /** What a reject says depends on the totals alone, its retry time on the boundary alone. */
  lemma RejectOf(cfg: QuotaConfig, totals: Totals, b: nat, c: nat)
    requires Evaluate(cfg, totals, b).Reject?
    ensures Evaluate(cfg, totals, c).Reject? && Evaluate(cfg, totals, c).metric == Evaluate(cfg, totals, b).metric
    ensures b > 0 ==> Evaluate(cfg, totals, b).retryAfterMs == b
  {
  }

  /**
   With no further adds, a reject keeps rejecting on the same metric until the returned time is over,
   and from then on strictly fewer buckets count. Nothing is asked of the order of the adds.
   */
  lemma BucketRetryIsExact(cfg: QuotaConfig, buckets: seq<Bucket>, durationMs: nat, now: nat, later: nat)
    requires OnClock(buckets, durationMs) && now <= later
    requires BucketVerdict(cfg, buckets, durationMs, now).Reject?
    ensures var v, w := BucketVerdict(cfg, buckets, durationMs, now), BucketVerdict(cfg, buckets, durationMs, later);
            && v.retryAfterMs == BucketBoundary(buckets, durationMs, now) > 0
            && (later < now + v.retryAfterMs ==> w.Reject? && w.metric == v.metric)
            && (now + v.retryAfterMs <= later ==>
                  CountedAt(buckets, durationMs, later) < CountedAt(buckets, durationMs, now))
  {
    var totals, boundary := RingTotals(buckets, durationMs, now), BucketBoundary(buckets, durationMs, now);
    BoundaryIsAhead(buckets, durationMs, now);
    if boundary == 0 {
      NothingUsedIsNotRejected(cfg, boundary);
    } else {
      BoundaryOfAnyBuckets(buckets, durationMs, now, later);
      CountedOnlyShrinks(buckets, durationMs, now, later);
      RejectOf(cfg, totals, boundary, BucketBoundary(buckets, durationMs, later));
    }
  }

  ghost function BucketVerdictOverTime(cfg: QuotaConfig, buckets: seq<Bucket>, durationMs: nat): nat -> QuotaCheck {
    (t: nat) => BucketVerdict(cfg, buckets, durationMs, t)
  }

  ghost function BucketsOverTime(buckets: seq<Bucket>, durationMs: nat): nat -> nat {
    (t: nat) => |CountedAt(buckets, durationMs, t)|
  }

  /** At most one wait per counted bucket, so never more than the ring has buckets. */
  lemma BucketWaitingConverges(cfg: QuotaConfig, buckets: seq<Bucket>, durationMs: nat, now: nat, waits: nat)
    requires OnClock(buckets, durationMs) && waits >= |CountedAt(buckets, durationMs, now)|
    ensures var verdictAt := BucketVerdictOverTime(cfg, buckets, durationMs);
            !verdictAt(AfterWaits(verdictAt, now, waits)).Reject?
    ensures |CountedAt(buckets, durationMs, now)| <= |buckets|
  {
    var verdictAt := BucketVerdictOverTime(cfg, buckets, durationMs);
    var counted := BucketsOverTime(buckets, durationMs);
    forall t: nat | now <= t ensures EachWaitShrinks(verdictAt, counted, t) {
      BucketWaitShrinks(cfg, buckets, durationMs, t);
    }
    ShrinkingRejectionsEnd(verdictAt, counted, now, waits);
    FewPositions(CountedAt(buckets, durationMs, now), |buckets|);
  }

  lemma BucketWaitShrinks(cfg: QuotaConfig, buckets: seq<Bucket>, durationMs: nat, now: nat)
    requires OnClock(buckets, durationMs)
    ensures EachWaitShrinks(BucketVerdictOverTime(cfg, buckets, durationMs), BucketsOverTime(buckets, durationMs), now)
  {
    var v := BucketVerdict(cfg, buckets, durationMs, now);
    if v.Reject? {
      var later := now + v.retryAfterMs;
      BucketRetryIsExact(cfg, buckets, durationMs, now, later);
      SmallerSet(CountedAt(buckets, durationMs, later), CountedAt(buckets, durationMs, now));
    }
  }

  lemma {:induction false} FewPositions(s: set<nat>, n: nat)
    requires forall i | i in s :: i < n
    ensures |s| <= n
  {
    if n > 0 {
      FewPositions(s - {n - 1}, n - 1);
      assert s <= s - {n - 1} + {n - 1};
    }
  }

  // ---- From any log ----

  /** A log in clock range keeps every bucket on the clock, in whatever order it was added. */
  lemma {:induction false} BucketStaysOnClock(log: seq<Event>, durationMs: nat, n: nat, s: nat)
    requires n > 0 && InRange(log, durationMs)
    ensures var b := SlotBucket(log, n, s);
            b.initialized ==> b.startMs + GRANULARITY_MS + durationMs <= U64_MAX
  {
    if log != [] {
      var front, e := log[..|log| - 1], log[|log| - 1];
      assert e in log && forall x | x in front :: x in log;
      BucketStaysOnClock(front, durationMs, n, s);
      MinuteBounds(e.at);
    }
  }

  /** Fed in any order, a rejecting ring gives way after at most one wait for each of its buckets. */
  lemma RingWaitingConverges(cfg: QuotaConfig, log: seq<Event>, durationMs: nat, now: nat)
    requires InRange(log, durationMs)
    ensures var n := BucketCount(durationMs);
            var verdictAt := BucketVerdictOverTime(cfg, Slots(log, n), durationMs);
            !verdictAt(AfterWaits(verdictAt, now, n)).Reject?
  {
    var n := BucketCount(durationMs);
    var buckets := Slots(log, n);
    forall b | b in buckets && b.initialized ensures b.startMs + GRANULARITY_MS + durationMs <= U64_MAX {
      var s :| 0 <= s < n && buckets[s] == b;
      BucketStaysOnClock(log, durationMs, n, s);
    }
    FewPositions(CountedAt(buckets, durationMs, now), n);
    BucketWaitingConverges(cfg, buckets, durationMs, now, n);
  }
}
