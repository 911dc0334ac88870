/**
 When the ring may be trusted on a log that is not in time order, such as one replayed from a
 database: exactly when no add ever displaced a newer minute of its slot that is still in the window.
 Every recorded event counts at least one request.
 */
module RingExactness {
  import opened UsageLog
  import opened RollingWindow

  ghost predicate EveryEventCounts(log: seq<Event>) {
    forall e | e in log :: e.usage.requests >= 1
  }

  /** Event `j` came after event `i` in the same slot, from another minute. */
  ghost predicate Displaces(log: seq<Event>, n: nat, s: nat, i: nat, j: nat)
    requires n > 0
  {
    && i < j < |log|
    && Slot(MinuteOf(log[i].at), n) == s == Slot(MinuteOf(log[j].at), n)
    && MinuteOf(log[i].at) != MinuteOf(log[j].at)
  }

  /** Some event of minute `m` was displaced from slot `s`. */
  ghost predicate Displaced(log: seq<Event>, n: nat, s: nat, m: nat)
    requires n > 0
  {
    exists i: nat, j: nat :: Displaces(log, n, s, i, j) && MinuteOf(log[i].at) == m
  }

  /** No displaced newest minute is still in the window at `from`. */
  ghost predicate NoLiveDisplacement(log: seq<Event>, durationMs: nat, from: nat) {
    var n := BucketCount(durationMs);
    forall s: nat, m: nat | Displaced(log, n, s, m) && Newest(log, n, m) :: Expired(m, durationMs, from)
  }

  ghost predicate RingAgreesFrom(log: seq<Event>, durationMs: nat, from: nat) {
    forall now: nat | from <= now ::
      RingTotals(Slots(log, BucketCount(durationMs)), durationMs, now) == WindowTotals(log, durationMs, now)
  }

  // ---- What a bucket holds after any log ----

  /** A bucket holds one of its slot's minutes, and no more than that minute's usage. */
  ghost predicate HoldsAtMost(log: seq<Event>, n: nat, s: nat, b: Bucket, m: nat)
    requires n > 0
  {
    && b.initialized && b.startMs == m * GRANULARITY_MS
    && m in Minutes(log) && Slot(m, n) == s
    && b.usage.requests <= SumIn(log, Minute, {m}).requests
    && (EveryEventCounts(log) && Displaced(log, n, s, m) ==>
          b.usage.requests < SumIn(log, Minute, {m}).requests)
  }

  lemma {:induction false} MinuteIsWorthARequest(log: seq<Event>, m: nat)
    requires EveryEventCounts(log) && m in Minutes(log)
    ensures SumIn(log, Minute, {m}).requests >= 1
  {
    var front, e := log[..|log| - 1], log[|log| - 1];
    assert log == front + [e];
    CellsOfExtension(front, e, Minute);
    if MinuteOf(e.at) != m {
      MinuteIsWorthARequest(front, m);
    }
  }

  /** An event of another slot changes nothing the bucket is held to. */
  lemma OtherSlotKeepsHolding(front: seq<Event>, e: Event, n: nat, s: nat, b: Bucket, m: nat)
    requires n > 0 && HoldsAtMost(front, n, s, b, m) && Slot(MinuteOf(e.at), n) != s
    ensures HoldsAtMost(front + [e], n, s, b, m)
  {
    CellsOfExtension(front, e, Minute);
    assert Share(e, Minute, {m}) == Zero();
    var log := front + [e];
    if Displaced(log, n, s, m) {
      var i: nat, j: nat :| Displaces(log, n, s, i, j) && MinuteOf(log[i].at) == m;
      assert Displaces(front, n, s, i, j) && front[i] == log[i];
    }
    assert EveryEventCounts(log) ==> EveryEventCounts(front) by {
      assert forall x | x in front :: x in log;
    }
  }

  /** Recording into the slot keeps the bucket within the usage of the event's minute. */
  lemma RecordingHolds(front: seq<Event>, e: Event, n: nat, s: nat, b: Bucket, k: nat)
    requires n > 0 && Slot(MinuteOf(e.at), n) == s
    requires if b.initialized then HoldsAtMost(front, n, s, b, k) else s !in SlotsOf(front, n)
    ensures HoldsAtMost(front + [e], n, s, Recorded(b, e), MinuteOf(e.at))
  {
    var m, log := MinuteOf(e.at), front + [e];
    CellsOfExtension(front, e, Minute);
    assert Share(e, Minute, {m}) == e.usage;
    if EveryEventCounts(log) && Displaced(log, n, s, m) {
      var i: nat, j: nat :| Displaces(log, n, s, i, j) && MinuteOf(log[i].at) == m;
      assert j < |front|;
      assert Displaces(front, n, s, i, j) && front[i] == log[i];
      assert front[i] in front;
      assert forall x | x in front :: x in log;
      MinuteIsWorthARequest(front, m);
    }
  }

  ghost function SlotsOf(log: seq<Event>, n: nat): set<nat>
    requires n > 0
  {
    set m | m in Minutes(log) :: Slot(m, n)
  }

  lemma {:induction false} BucketHoldsAMinute(log: seq<Event>, n: nat, s: nat)
    requires n > 0
    ensures var b := SlotBucket(log, n, s);
            if b.initialized then exists m: nat :: HoldsAtMost(log, n, s, b, m) else s !in SlotsOf(log, n)
  {
    if log == [] {
    } else {
      var front, e := log[..|log| - 1], log[|log| - 1];
      assert log == front + [e];
      BucketHoldsAMinute(front, n, s);
      var b := SlotBucket(front, n, s);
      var k: nat := 0;
      if b.initialized {
        k :| HoldsAtMost(front, n, s, b, k);
      }
      if Slot(MinuteOf(e.at), n) == s {
        RecordingHolds(front, e, n, s, b, k);
      } else {
        CellsOfExtension(front, e, Minute);
        if b.initialized {
          OtherSlotKeepsHolding(front, e, n, s, b, k);
        }
      }
    }
  }

  lemma DisplacementsRemain(front: seq<Event>, e: Event, n: nat, s: nat, m: nat)
    requires n > 0
    ensures Displaced(front, n, s, m) ==> Displaced(front + [e], n, s, m)
  {
    if Displaced(front, n, s, m) {
      var i: nat, j: nat :| Displaces(front, n, s, i, j) && MinuteOf(front[i].at) == m;
      assert Displaces(front + [e], n, s, i, j) && (front + [e])[i] == front[i];
    }
  }

  /** A newest minute that nothing displaced is held in full. */
  lemma {:induction false} UndisplacedIsHeld(log: seq<Event>, n: nat, s: nat, m: nat)
    requires n > 0 && Newest(log, n, m) && Slot(m, n) == s
    requires !Displaced(log, n, s, m)
    ensures HoldsMinute(log, n, s, SlotBucket(log, n, s), m)
  {
    var front, e := log[..|log| - 1], log[|log| - 1];
    assert log == front + [e];
    CellsOfExtension(front, e, Minute);
    if m in Minutes(front) {
      var x :| x in front && MinuteOf(x.at) == m;
      var i :| 0 <= i < |front| && front[i] == x;
      assert Slot(MinuteOf(e.at), n) == s ==> MinuteOf(e.at) == m by {
        assert log[i] == x && !Displaces(log, n, s, i, |front|);
      }
      DisplacementsRemain(front, e, n, s, m);
      UndisplacedIsHeld(front, n, s, m);
      assert Share(e, Minute, {m}) == if MinuteOf(e.at) == m then e.usage else Zero();
    } else {
      FirstOfItsMinute(front, e, n, s);
    }
  }

  lemma FirstOfItsMinute(front: seq<Event>, e: Event, n: nat, s: nat)
    requires n > 0 && Slot(MinuteOf(e.at), n) == s && MinuteOf(e.at) !in Minutes(front)
    ensures Recorded(SlotBucket(front, n, s), e) == Bucket(MinuteOf(e.at) * GRANULARITY_MS, e.usage, true)
    ensures SumIn(front + [e], Minute, {MinuteOf(e.at)}) == e.usage
  {
    BucketHoldsAMinute(front, n, s);
    CellsOfExtension(front, e, Minute);
    SumOfUntouchedCells(front, Minute, {MinuteOf(e.at)});
  }

  // ---- Undisplaced logs agree ----

  lemma UndisplacedSlotAgrees(log: seq<Event>, durationMs: nat, from: nat, now: nat, s: nat)
    requires NoLiveDisplacement(log, durationMs, from) && from <= now
    ensures SlotAgrees(log, durationMs, now, s)
  {
    var n := BucketCount(durationMs);
    BucketHoldsAMinute(log, n, s);
    if s in SlotsOf(log, n) {
      var m := NewestInSlot(log, n, s);
      if Expired(m, durationMs, now) {
        assert LiveAt(log, durationMs, now, s) == {} by {
          assert forall k | k in LiveAt(log, durationMs, now, s) :: k == m;
        }
        SumOfNoCells(log, Minute);
      } else {
        assert !Displaced(log, n, s, m);
        UndisplacedIsHeld(log, n, s, m);
        SoundBucketAgrees(log, durationMs, now, s);
      }
    } else {
      SoundBucketAgrees(log, durationMs, now, s);
    }
  }

  lemma NewestInSlot(log: seq<Event>, n: nat, s: nat) returns (m: nat)
    requires n > 0 && s in SlotsOf(log, n)
    ensures Newest(log, n, m) && Slot(m, n) == s
  {
    var mine := set k | k in Minutes(log) && Slot(k, n) == s;
    var k :| k in Minutes(log) && Slot(k, n) == s;
    assert k in mine;
    m := Greatest(mine);
    assert forall x | x in Minutes(log) && Slot(x, n) == s :: x in mine;
  }

  lemma {:induction false} Greatest(s: set<nat>) returns (m: nat)
    requires s != {}
    ensures m in s && forall x | x in s :: x <= m
  {
    m :| m in s;
    if s != {m} {
      assert s == s - {m} + {m};
      var rest := Greatest(s - {m});
      m := if m < rest then rest else m;
    }
  }

  // ---- Displaced logs do not ----

  /** The bucket of slot `s` does not claim more requests than its live minute is worth. */
  ghost predicate SlotWithin(log: seq<Event>, durationMs: nat, now: nat, s: nat) {
    CountedUsage(SlotBucket(log, BucketCount(durationMs), s), durationMs, now).requests
    <= SumIn(log, Minute, LiveAt(log, durationMs, now, s)).requests
  }

  ghost predicate SlotShort(log: seq<Event>, durationMs: nat, now: nat, s: nat) {
    CountedUsage(SlotBucket(log, BucketCount(durationMs), s), durationMs, now).requests
    < SumIn(log, Minute, LiveAt(log, durationMs, now, s)).requests
  }

  lemma {:induction false} ShortSlotShowsInTotal(log: seq<Event>, durationMs: nat, now: nat, k: nat, short: nat)
    requires k <= BucketCount(durationMs)
    requires forall s: nat | s < k :: SlotWithin(log, durationMs, now, s)
    requires SlotShort(log, durationMs, now, short)
    ensures RingRequests(log, durationMs, now, k) <= TrueRequests(log, durationMs, now, k)
    ensures short < k ==> RingRequests(log, durationMs, now, k) < TrueRequests(log, durationMs, now, k)
  {
    if k == 0 {
      LiveSplitsAtSlot(log, durationMs, now, 0);
      SumOfNoCells(log, Minute);
    } else {
      ShortSlotShowsInTotal(log, durationMs, now, k - 1, short);
      assert SlotWithin(log, durationMs, now, k - 1);
      ShortfallStep(log, durationMs, now, k - 1);
    }
  }

  /** What the first `k` slots of the ring report, and what they should. */
  ghost function RingRequests(log: seq<Event>, durationMs: nat, now: nat, k: nat): nat
    requires k <= BucketCount(durationMs)
  {
    RingTotals(Slots(log, BucketCount(durationMs))[..k], durationMs, now).requests
  }

  ghost function TrueRequests(log: seq<Event>, durationMs: nat, now: nat, k: nat): nat {
    SumIn(log, Minute, LiveBelow(log, durationMs, now, k)).requests
  }

  lemma RequestsStep(log: seq<Event>, durationMs: nat, now: nat, s: nat)
    requires s < BucketCount(durationMs)
    ensures RingRequests(log, durationMs, now, s + 1)
            == RingRequests(log, durationMs, now, s)
               + CountedUsage(SlotBucket(log, BucketCount(durationMs), s), durationMs, now).requests
    ensures TrueRequests(log, durationMs, now, s + 1)
            == TrueRequests(log, durationMs, now, s)
               + SumIn(log, Minute, LiveAt(log, durationMs, now, s)).requests
  {
    var buckets := Slots(log, BucketCount(durationMs));
    assert buckets[..s + 1] == buckets[..s] + [buckets[s]];
    RingTotalsExtend(buckets[..s], buckets[s], durationMs, now);
    LiveSplitsAtSlot(log, durationMs, now, s);
    SumOfDisjointCells(log, Minute, LiveBelow(log, durationMs, now, s), LiveAt(log, durationMs, now, s));
  }

  /** A slot never makes up for an earlier shortfall, and a short one adds to it. */
  lemma ShortfallStep(log: seq<Event>, durationMs: nat, now: nat, s: nat)
    requires s < BucketCount(durationMs) && SlotWithin(log, durationMs, now, s)
    ensures RingRequests(log, durationMs, now, s + 1) - RingRequests(log, durationMs, now, s)
            <= TrueRequests(log, durationMs, now, s + 1) - TrueRequests(log, durationMs, now, s)
    ensures SlotShort(log, durationMs, now, s) ==>
              RingRequests(log, durationMs, now, s + 1) - RingRequests(log, durationMs, now, s)
              < TrueRequests(log, durationMs, now, s + 1) - TrueRequests(log, durationMs, now, s)
  {
    RequestsStep(log, durationMs, now, s);
  }

  lemma ShortSlotBreaksAgreement(log: seq<Event>, durationMs: nat, now: nat, short: nat)
    requires UpTo(log, now) && short < BucketCount(durationMs)
    requires forall s: nat | s < BucketCount(durationMs) :: SlotWithin(log, durationMs, now, s)
    requires SlotShort(log, durationMs, now, short)
    ensures RingTotals(Slots(log, BucketCount(durationMs)), durationMs, now) != WindowTotals(log, durationMs, now)
  {
    ShortSlotShowsInTotal(log, durationMs, now, BucketCount(durationMs), short);
    WholeRing(log, durationMs, now);
  }

  /** The bucket of slot `s` holds a minute that is neither the newest of the slot nor expired. */
  ghost predicate Overcounts(log: seq<Event>, durationMs: nat, now: nat, s: nat, m: nat) {
    var n := BucketCount(durationMs);
    HoldsAtMost(log, n, s, SlotBucket(log, n, s), m) && !Newest(log, n, m) && !Expired(m, durationMs, now)
  }

  lemma SlotIsWithin(log: seq<Event>, durationMs: nat, now: nat, s: nat)
    requires forall m: nat :: !Overcounts(log, durationMs, now, s, m)
    ensures SlotWithin(log, durationMs, now, s)
  {
    var n := BucketCount(durationMs);
    BucketHoldsAMinute(log, n, s);
    var b := SlotBucket(log, n, s);
    if Counted(b, durationMs, now) {
      var m: nat :| HoldsAtMost(log, n, s, b, m);
      assert !Overcounts(log, durationMs, now, s, m);
      assert LiveAt(log, durationMs, now, s) == {m};
    }
  }

  /** A live newest minute that was displaced, or whose bucket counts for nothing, comes up short. */
  lemma SlotIsShort(log: seq<Event>, durationMs: nat, now: nat, s: nat, newest: nat)
    requires EveryEventCounts(log) && Newest(log, BucketCount(durationMs), newest)
    requires Slot(newest, BucketCount(durationMs)) == s && !Expired(newest, durationMs, now)
    requires forall m: nat :: !Overcounts(log, durationMs, now, s, m)
    requires Displaced(log, BucketCount(durationMs), s, newest)
             || !Counted(SlotBucket(log, BucketCount(durationMs), s), durationMs, now)
    ensures SlotShort(log, durationMs, now, s)
  {
    var n := BucketCount(durationMs);
    BucketHoldsAMinute(log, n, s);
    var b := SlotBucket(log, n, s);
    OnlyNewestIsLive(log, durationMs, now, s, newest);
    MinuteIsWorthARequest(log, newest);
    if Counted(b, durationMs, now) {
      var m: nat :| HoldsAtMost(log, n, s, b, m);
      assert !Overcounts(log, durationMs, now, s, m);
      TwoNewestAreOne(log, n, m, newest);
    }
  }

  lemma OnlyNewestIsLive(log: seq<Event>, durationMs: nat, now: nat, s: nat, newest: nat)
    requires Newest(log, BucketCount(durationMs), newest)
    requires Slot(newest, BucketCount(durationMs)) == s && !Expired(newest, durationMs, now)
    ensures LiveAt(log, durationMs, now, s) == {newest}
  {
  }

  lemma TwoNewestAreOne(log: seq<Event>, n: nat, a: nat, b: nat)
    requires n > 0 && Newest(log, n, a) && Newest(log, n, b) && Slot(a, n) == Slot(b, n)
    ensures a == b
  {
  }

  /** An overcounted minute lies a whole lap behind some event, so no later than a window ago. */
  lemma OvercountLiesBack(log: seq<Event>, durationMs: nat, from: nat, t: nat, s: nat, m: nat)
    requires UpTo(log, from) && Overcounts(log, durationMs, t, s, m)
    ensures m * GRANULARITY_MS + durationMs <= from
  {
    var n := BucketCount(durationMs);
    var k :| k in Minutes(log) && Slot(k, n) == Slot(m, n) && k > m;
    SameSlotIsALapApart(m, k, n);
    var e :| e in log && MinuteOf(e.at) == k;
    MinuteBounds(e.at);
  }

  /** When one overcounted minute expires, no slot overcounts any more. */
  lemma NoOvercountAfter(log: seq<Event>, durationMs: nat, from: nat, t: nat, stale: nat, s: nat, m: nat)
    requires UpTo(log, from) && Overcounts(log, durationMs, from, t, stale)
    ensures var now := stale * GRANULARITY_MS + GRANULARITY_MS + durationMs;
            from < now && Expired(stale, durationMs, now) && !Overcounts(log, durationMs, now, s, m)
  {
    var now := stale * GRANULARITY_MS + GRANULARITY_MS + durationMs;
    if Overcounts(log, durationMs, now, s, m) {
      OvercountLiesBack(log, durationMs, from, now, s, m);
    }
  }

  lemma DisplacementBreaksAgreement(log: seq<Event>, durationMs: nat, from: nat, s: nat, newest: nat)
    requires EveryEventCounts(log) && UpTo(log, from)
    requires Displaced(log, BucketCount(durationMs), s, newest)
    requires Newest(log, BucketCount(durationMs), newest) && !Expired(newest, durationMs, from)
    ensures !RingAgreesFrom(log, durationMs, from)
  {
    var n := BucketCount(durationMs);
    if t: nat, m: nat :| t < n && Overcounts(log, durationMs, from, t, m) {
      OvercountBreaksAgreement(log, durationMs, from, t, m);
    } else {
      forall r: nat | r < n ensures SlotWithin(log, durationMs, from, r) {
        SlotIsWithin(log, durationMs, from, r);
      }
      SlotIsShort(log, durationMs, from, s, newest);
      ShortSlotBreaksAgreement(log, durationMs, from, s);
    }
  }

  lemma OvercountBreaksAgreement(log: seq<Event>, durationMs: nat, from: nat, t: nat, m: nat)
    requires EveryEventCounts(log) && UpTo(log, from)
    requires t < BucketCount(durationMs) && Overcounts(log, durationMs, from, t, m)
    ensures !RingAgreesFrom(log, durationMs, from)
  {
    var n, now := BucketCount(durationMs), m * GRANULARITY_MS + GRANULARITY_MS + durationMs;
    forall s: nat, k: nat ensures !Overcounts(log, durationMs, now, s, k) {
      NoOvercountAfter(log, durationMs, from, t, m, s, k);
    }
    NoOvercountAfter(log, durationMs, from, t, m, t, m);
    forall s: nat | s < n ensures SlotWithin(log, durationMs, now, s) {
      SlotIsWithin(log, durationMs, now, s);
    }
    assert t in SlotsOf(log, n);
    var newest := NewestInSlot(log, n, t);
    assert newest > m;
    SlotIsShort(log, durationMs, now, t, newest);
    ShortSlotBreaksAgreement(log, durationMs, now, t);
  }

  /**
   The exact condition under which the ring answers for a log in any order, from some moment on:
   no newest minute that is then still in the window was ever displaced.
   */
  lemma RingAgreesIff(log: seq<Event>, durationMs: nat, from: nat)
    requires EveryEventCounts(log) && UpTo(log, from)
    ensures RingAgreesFrom(log, durationMs, from) <==> NoLiveDisplacement(log, durationMs, from)
  {
    var n := BucketCount(durationMs);
    if NoLiveDisplacement(log, durationMs, from) {
      forall now: nat | from <= now
        ensures RingTotals(Slots(log, n), durationMs, now) == WindowTotals(log, durationMs, now)
      {
        forall s: nat | s < n ensures SlotAgrees(log, durationMs, now, s) {
          UndisplacedSlotAgrees(log, durationMs, from, now, s);
        }
        AgreeingSlotsAddUp(log, durationMs, now);
      }
    } else {
      var s: nat, m: nat :| Displaced(log, n, s, m) && Newest(log, n, m) && !Expired(m, durationMs, from);
      DisplacementBreaksAgreement(log, durationMs, from, s, m);
    }
  }

  /**
   Two rows of one request each, replayed newest first into a one-minute window: at two minutes past,
   the newer row is still in the window, but the older one has taken its bucket and has expired.
   */
  lemma OutOfOrderReplayLosesUsage()
    ensures var log := [Event(60_000, Totals(1, 0, 0)), Event(30_000, Totals(1, 0, 0))];
            && RingTotals(Slots(log, BucketCount(60_000)), 60_000, 120_000) == Zero()
            && WindowTotals(log, 60_000, 120_000) == Totals(1, 0, 0)
  {
    var a, b := Event(60_000, Totals(1, 0, 0)), Event(30_000, Totals(1, 0, 0));
    var log := [a, b];
    assert MinuteOf(a.at) == 1 && MinuteOf(b.at) == 0 && MinuteOf(120_000) == 2 && BucketCount(60_000) == 1;
    assert [a] == [] + [a] && log == [a] + [b];
    LastTakesTheBucket(a, b);
    CellsOfExtension([], a, Minute);
    CellsOfExtension([a], b, Minute);
    OneMinuteWindow(log, 120_000);
  }

  /** A ring of one bucket, after two events of different minutes, holds the second alone. */
  lemma LastTakesTheBucket(a: Event, b: Event)
    requires MinuteOf(a.at) != MinuteOf(b.at)
    ensures Slots([a, b], 1) == [Bucket(MinuteOf(b.at) * GRANULARITY_MS, b.usage, true)]
  {
    assert [a] == [] + [a] && [a, b] == [a] + [b];
    SlotsAfter([], a, 1);
    SlotsAfter([a], b, 1);
  }

  lemma OneMinuteWindow(log: seq<Event>, now: nat)
    requires BucketCount(60_000) == 1 && Minutes(log) == {0, 1} && MinuteOf(now) == 2 && now == 120_000
    ensures WindowMinutes(log, 60_000, now) == {1}
  {
  }
}
