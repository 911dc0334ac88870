/**
 The rolling quota window: a ring of minute buckets that stands in for the event log.
 `SlotBucket` says what each bucket holds after any log; `WindowMinutes` says which minutes a
 rolling window is meant to cover; the lemmas between them say that the ring answers for the log.
 */
module RollingWindow {
  import opened UsageLog

  const GRANULARITY_MS: nat := 60_000

  datatype Bucket = Bucket(startMs: nat, usage: Totals, initialized: bool)

  function EmptyBucket(): Bucket {
    Bucket(0, Zero(), false)
  }

  function MinuteOf(at: nat): nat {
    Cell(at, Minute)
  }

  lemma MinuteBounds(at: nat)
    ensures MinuteOf(at) * GRANULARITY_MS <= at < MinuteOf(at) * GRANULARITY_MS + GRANULARITY_MS
  {
  }

  /** One bucket a minute, rounded up, and never none. */
  function BucketCount(durationMs: nat): (n: nat)
    ensures n > 0
    ensures durationMs <= n * GRANULARITY_MS
    ensures n > 1 ==> (n - 1) * GRANULARITY_MS < durationMs
  {
    var n := (durationMs + GRANULARITY_MS - 1) / GRANULARITY_MS;
    if n == 0 then 1 else n
  }

  /** The remainder of `minute` by `n`, by repeated subtraction. */
  ghost function Slot(minute: nat, n: nat): (s: nat)
    requires n > 0
    ensures s < n
  {
    if minute < n then minute else Slot(minute - n, n)
  }

  lemma SlotIsRemainder(minute: nat, n: nat)
    requires n > 0
    ensures Slot(minute, n) == minute % n
  {
    var q := WholeLaps(minute, n);
    RemainderIsUnique(minute, n, q, Slot(minute, n));
  }

  lemma {:induction false} WholeLaps(minute: nat, n: nat) returns (q: nat)
    requires n > 0
    ensures minute == n * q + Slot(minute, n)
  {
    if minute < n {
      q := 0;
    } else {
      var p := WholeLaps(minute - n, n);
      q := p + 1;
      assert n * q == n * p + n;
    }
  }

  lemma RemainderIsUnique(x: nat, n: nat, q: nat, r: nat)
    requires r < n && x == n * q + r
    ensures x % n == r
  {
    var d := x / n - q;
    assert n * d == r - x % n;
    assert d >= 1 ==> n * d >= n;
    assert d <= -1 ==> n * d + n <= 0;
  }

  lemma {:induction false} SameSlotIsALapApart(a: nat, b: nat, n: nat)
    requires n > 0 && a < b && Slot(a, n) == Slot(b, n)
    ensures a + n <= b
  {
    if b < n {
    } else if a < n {
      assert Slot(b, n) == Slot(b - n, n);
      if b - n < n {
      } else {
        SameSlotIsALapApart(a, b - n, n);
      }
    } else {
      SameSlotIsALapApart(a - n, b - n, n);
    }
  }

  // ---- What the ring holds ----

  /** A bucket after one more event in its slot: reset when its minute changes, else accumulated. */
  function Recorded(b: Bucket, e: Event): Bucket {
    var start := MinuteOf(e.at) * GRANULARITY_MS;
    if b.initialized && b.startMs == start then b.(usage := b.usage.Plus(e.usage))
    else Bucket(start, e.usage, true)
  }

  ghost function SlotBucket(log: seq<Event>, n: nat, s: nat): Bucket
    requires n > 0
  {
    if log == [] then EmptyBucket()
    else
      var before := SlotBucket(log[..|log| - 1], n, s);
      var e := log[|log| - 1];
      if Slot(MinuteOf(e.at), n) == s then Recorded(before, e) else before
  }

  ghost function Slots(log: seq<Event>, n: nat): seq<Bucket>
    requires n > 0
  {
    seq(n, s requires 0 <= s => SlotBucket(log, n, s))
  }

  /** Within each slot, minutes never go back. Non-decreasing timestamps are a special case. */
  ghost predicate SlotOrdered(log: seq<Event>, n: nat)
    requires n > 0
  {
    forall i, j | 0 <= i < j < |log| && Slot(MinuteOf(log[i].at), n) == Slot(MinuteOf(log[j].at), n) ::
      MinuteOf(log[i].at) <= MinuteOf(log[j].at)
  }

  lemma OrderedIsSlotOrdered(log: seq<Event>, n: nat)
    requires n > 0 && Ordered(log)
    ensures SlotOrdered(log, n)
  {
    forall i, j | 0 <= i < j < |log| ensures MinuteOf(log[i].at) <= MinuteOf(log[j].at) {
      assert log[i].at <= log[j].at;
    }
  }

  ghost function Minutes(log: seq<Event>): set<nat> {
    Cells(log, Minute)
  }

  /** `m` is the newest minute of the log in its slot. */
  ghost predicate Newest(log: seq<Event>, n: nat, m: nat)
    requires n > 0
  {
    m in Minutes(log) && forall k | k in Minutes(log) && Slot(k, n) == Slot(m, n) :: k <= m
  }

  /** The bucket holds the newest minute of its slot, summed in full. */
  ghost predicate HoldsMinute(log: seq<Event>, n: nat, s: nat, b: Bucket, m: nat)
    requires n > 0
  {
    && Newest(log, n, m) && Slot(m, n) == s
    && b == Bucket(m * GRANULARITY_MS, SumIn(log, Minute, {m}), true)
  }

  /** The bucket of slot `s` holds the slot's newest minute, or is empty because nothing fell there. */
  ghost predicate BucketSound(log: seq<Event>, n: nat, s: nat, b: Bucket)
    requires n > 0
  {
    if b.initialized then exists m: nat :: HoldsMinute(log, n, s, b, m)
    else forall m | m in Minutes(log) :: Slot(m, n) != s
  }

  lemma EarlierMinutesInSlot(front: seq<Event>, e: Event, n: nat, k: nat)
    requires n > 0 && SlotOrdered(front + [e], n)
    requires k in Minutes(front) && Slot(k, n) == Slot(MinuteOf(e.at), n)
    ensures k <= MinuteOf(e.at)
  {
    var x :| x in front && MinuteOf(x.at) == k;
    var i :| 0 <= i < |front| && front[i] == x;
    var log := front + [e];
    assert log[i] == x && log[|front|] == e;
  }

  lemma RecordedHoldsMinute(front: seq<Event>, e: Event, n: nat, s: nat, b: Bucket)
    requires n > 0 && SlotOrdered(front + [e], n) && s == Slot(MinuteOf(e.at), n)
    requires BucketSound(front, n, s, b)
    ensures HoldsMinute(front + [e], n, s, Recorded(b, e), MinuteOf(e.at))
  {
    var m := MinuteOf(e.at);
    CellsOfExtension(front, e, Minute);
    forall k | k in Minutes(front) && Slot(k, n) == Slot(m, n) ensures k <= m {
      EarlierMinutesInSlot(front, e, n, k);
    }
    assert Share(e, Minute, {m}) == e.usage;
    if b.initialized && b.startMs == m * GRANULARITY_MS {
    } else {
      assert m !in Minutes(front);
      SumOfUntouchedCells(front, Minute, {m});
    }
  }

  lemma OtherSlotStaysSound(front: seq<Event>, e: Event, n: nat, s: nat, b: Bucket)
    requires n > 0 && BucketSound(front, n, s, b) && Slot(MinuteOf(e.at), n) != s
    ensures BucketSound(front + [e], n, s, b)
  {
    CellsOfExtension(front, e, Minute);
    if b.initialized {
      var k: nat :| HoldsMinute(front, n, s, b, k);
      assert Share(e, Minute, {k}) == Zero();
      assert HoldsMinute(front + [e], n, s, b, k);
    }
  }

  lemma {:induction false} BucketHoldsNewestMinute(log: seq<Event>, n: nat, s: nat)
    requires n > 0 && SlotOrdered(log, n)
    ensures BucketSound(log, n, s, SlotBucket(log, n, s))
  {
    if log == [] {
    } else {
      var front, e := log[..|log| - 1], log[|log| - 1];
      assert log == front + [e];
      BucketHoldsNewestMinute(front, n, s);
      var before := SlotBucket(front, n, s);
      if Slot(MinuteOf(e.at), n) == s {
        RecordedHoldsMinute(front, e, n, s, before);
      } else {
        OtherSlotStaysSound(front, e, n, s, before);
      }
    }
  }

  /** One more event changes one slot of the ring. */
  lemma SlotsAfter(log: seq<Event>, e: Event, n: nat)
    requires n > 0
    ensures var s := Slot(MinuteOf(e.at), n);
            Slots(log + [e], n) == Slots(log, n)[s := Recorded(Slots(log, n)[s], e)]
  {
    assert (log + [e])[..|log|] == log;
  }

  // ---- What a rolling window covers ----

  /** The minute `m` ended at or before the start of the window. */
  predicate Expired(m: nat, durationMs: nat, now: nat) {
    m * GRANULARITY_MS + GRANULARITY_MS <= SatSub(now, durationMs)
  }

  /**
   The minutes a window of n buckets counts at `now`: the last n minutes, plus the minute n
   minutes back exactly when nothing was recorded in the current minute and it has not expired.
   */
  ghost function WindowMinutes(log: seq<Event>, durationMs: nat, now: nat): set<nat> {
    var n, current := BucketCount(durationMs), MinuteOf(now);
    set m | m in Minutes(log) &&
            (m + n > current
             || (m + n == current && current !in Minutes(log) && !Expired(m, durationMs, now)))
  }

  /** The minutes whose buckets the ring still counts: newest in their slot and not expired. */
  ghost function LiveMinutes(log: seq<Event>, durationMs: nat, now: nat): set<nat> {
    set m | m in Minutes(log) && Newest(log, BucketCount(durationMs), m) && !Expired(m, durationMs, now)
  }

  ghost function WindowTotals(log: seq<Event>, durationMs: nat, now: nat): Totals {
    SumIn(log, Minute, WindowMinutes(log, durationMs, now))
  }

  /** The live buckets are exactly the buckets of the window, whatever the order of the log. */
  lemma LiveMinutesAreTheWindow(log: seq<Event>, durationMs: nat, now: nat)
    requires UpTo(log, now)
    ensures LiveMinutes(log, durationMs, now) == WindowMinutes(log, durationMs, now)
  {
    forall m ensures m in LiveMinutes(log, durationMs, now) <==> m in WindowMinutes(log, durationMs, now) {
      if m in Minutes(log) {
        MinuteIsLiveIffInWindow(log, durationMs, now, m);
      }
    }
  }

  lemma MinuteIsLiveIffInWindow(log: seq<Event>, durationMs: nat, now: nat, m: nat)
    requires UpTo(log, now) && m in Minutes(log)
    ensures m in LiveMinutes(log, durationMs, now) <==> m in WindowMinutes(log, durationMs, now)
  {
    var n, current := BucketCount(durationMs), MinuteOf(now);
    assert forall k | k in Minutes(log) :: k <= current;
    if m + n > current {
      forall k | k in Minutes(log) && Slot(k, n) == Slot(m, n) ensures k <= m {
        if m < k {
          SameSlotIsALapApart(m, k, n);
        }
      }
      assert !Expired(m, durationMs, now);
    } else if m + n == current {
      assert Slot(current, n) == Slot(m, n);
      forall k | k in Minutes(log) && Slot(k, n) == Slot(m, n) && k != current ensures k <= m {
        if m < k {
          SameSlotIsALapApart(m, k, n);
        }
      }
    } else {
      assert Expired(m, durationMs, now);
    }
  }

  // ---- The ring answers for the log ----

  predicate Counted(b: Bucket, durationMs: nat, now: nat) {
    b.initialized && SatSub(now, durationMs) < b.startMs + GRANULARITY_MS
  }

  function CountedUsage(b: Bucket, durationMs: nat, now: nat): Totals {
    if Counted(b, durationMs, now) then b.usage else Zero()
  }

  function RingTotals(buckets: seq<Bucket>, durationMs: nat, now: nat): Totals {
    if buckets == [] then Zero()
    else RingTotals(buckets[..|buckets| - 1], durationMs, now)
         .Plus(CountedUsage(buckets[|buckets| - 1], durationMs, now))
  }

  /** The live minutes kept in the first `k` slots. */
  ghost function LiveBelow(log: seq<Event>, durationMs: nat, now: nat, k: nat): set<nat> {
    set m | m in LiveMinutes(log, durationMs, now) && Slot(m, BucketCount(durationMs)) < k
  }

  ghost function LiveAt(log: seq<Event>, durationMs: nat, now: nat, s: nat): set<nat> {
    set m | m in LiveMinutes(log, durationMs, now) && Slot(m, BucketCount(durationMs)) == s
  }

  lemma LiveMinuteOfSlot(log: seq<Event>, durationMs: nat, now: nat, s: nat, b: Bucket)
    requires BucketSound(log, BucketCount(durationMs), s, b)
    ensures if Counted(b, durationMs, now) then
              exists m: nat :: LiveAt(log, durationMs, now, s) == {m} && b.usage == SumIn(log, Minute, {m})
            else
              LiveAt(log, durationMs, now, s) == {}
  {
    if b.initialized {
      var n := BucketCount(durationMs);
      var m: nat :| HoldsMinute(log, n, s, b, m);
      forall k | k in LiveAt(log, durationMs, now, s) ensures k == m {
        assert Newest(log, n, k) && Newest(log, n, m);
      }
    }
  }

  /** The bucket of slot `s` contributes what the log says its live minute is worth. */
  ghost predicate SlotAgrees(log: seq<Event>, durationMs: nat, now: nat, s: nat) {
    CountedUsage(SlotBucket(log, BucketCount(durationMs), s), durationMs, now)
    == SumIn(log, Minute, LiveAt(log, durationMs, now, s))
  }

  lemma SoundBucketAgrees(log: seq<Event>, durationMs: nat, now: nat, s: nat)
    requires BucketSound(log, BucketCount(durationMs), s, SlotBucket(log, BucketCount(durationMs), s))
    ensures SlotAgrees(log, durationMs, now, s)
  {
    LiveMinuteOfSlot(log, durationMs, now, s, SlotBucket(log, BucketCount(durationMs), s));
    SumOfNoCells(log, Minute);
  }

  lemma LiveSplitsAtSlot(log: seq<Event>, durationMs: nat, now: nat, k: nat)
    ensures LiveBelow(log, durationMs, now, 0) == {}
    ensures LiveBelow(log, durationMs, now, k) !! LiveAt(log, durationMs, now, k)
    ensures LiveBelow(log, durationMs, now, k + 1)
            == LiveBelow(log, durationMs, now, k) + LiveAt(log, durationMs, now, k)
  {
  }

  lemma RingTotalsExtend(buckets: seq<Bucket>, b: Bucket, durationMs: nat, now: nat)
    ensures RingTotals(buckets + [b], durationMs, now)
            == RingTotals(buckets, durationMs, now).Plus(CountedUsage(b, durationMs, now))
  {
    assert (buckets + [b])[..|buckets|] == buckets;
  }

  lemma {:induction false} RingPrefixSum(log: seq<Event>, durationMs: nat, now: nat, k: nat)
    requires k <= BucketCount(durationMs) && forall s: nat | s < k :: SlotAgrees(log, durationMs, now, s)
    ensures RingTotals(Slots(log, BucketCount(durationMs))[..k], durationMs, now)
            == SumIn(log, Minute, LiveBelow(log, durationMs, now, k))
  {
    var buckets := Slots(log, BucketCount(durationMs));
    if k == 0 {
      LiveSplitsAtSlot(log, durationMs, now, 0);
      SumOfNoCells(log, Minute);
    } else {
      RingPrefixSum(log, durationMs, now, k - 1);
      assert buckets[..k] == buckets[..k - 1] + [buckets[k - 1]];
      RingTotalsExtend(buckets[..k - 1], buckets[k - 1], durationMs, now);
      assert SlotAgrees(log, durationMs, now, k - 1);
      LiveSplitsAtSlot(log, durationMs, now, k - 1);
      SumOfDisjointCells(log, Minute, LiveBelow(log, durationMs, now, k - 1), LiveAt(log, durationMs, now, k - 1));
    }
  }

  /**
   The ring's total is the log's total over the window, for every log whose slots never go back
   in time and every later moment.
   */
  lemma RingRefinesLog(log: seq<Event>, durationMs: nat, now: nat)
    requires SlotOrdered(log, BucketCount(durationMs)) && UpTo(log, now)
    ensures RingTotals(Slots(log, BucketCount(durationMs)), durationMs, now) == WindowTotals(log, durationMs, now)
  {
    forall s: nat ensures SlotAgrees(log, durationMs, now, s) {
      BucketHoldsNewestMinute(log, BucketCount(durationMs), s);
      SoundBucketAgrees(log, durationMs, now, s);
    }
    AgreeingSlotsAddUp(log, durationMs, now);
  }

  lemma AgreeingSlotsAddUp(log: seq<Event>, durationMs: nat, now: nat)
    requires UpTo(log, now) && forall s: nat | s < BucketCount(durationMs) :: SlotAgrees(log, durationMs, now, s)
    ensures RingTotals(Slots(log, BucketCount(durationMs)), durationMs, now) == WindowTotals(log, durationMs, now)
  {
    RingPrefixSum(log, durationMs, now, BucketCount(durationMs));
    WholeRing(log, durationMs, now);
  }

  /** All slots together hold exactly the window. */
  lemma WholeRing(log: seq<Event>, durationMs: nat, now: nat)
    requires UpTo(log, now)
    ensures var n := BucketCount(durationMs);
            Slots(log, n)[..n] == Slots(log, n)
            && LiveBelow(log, durationMs, now, n) == WindowMinutes(log, durationMs, now)
  {
    LiveMinutesAreTheWindow(log, durationMs, now);
    assert LiveBelow(log, durationMs, now, BucketCount(durationMs)) == LiveMinutes(log, durationMs, now);
  }

  lemma MinutesApart(at: nat, now: nat, k: nat)
    requires now < at + k * GRANULARITY_MS
    ensures MinuteOf(now) <= MinuteOf(at) + k
  {
  }

  /** Every event of the last n - 1 minutes is counted; none older than the window plus a minute is. */
  lemma WindowErrorIsAtMostOneMinute(log: seq<Event>, durationMs: nat, now: nat, e: Event)
    requires UpTo(log, now) && e in log
    ensures now < e.at + (BucketCount(durationMs) - 1) * GRANULARITY_MS ==>
              MinuteOf(e.at) in WindowMinutes(log, durationMs, now)
    ensures e.at + durationMs + GRANULARITY_MS <= now ==>
              MinuteOf(e.at) !in WindowMinutes(log, durationMs, now)
  {
    var n, m := BucketCount(durationMs), MinuteOf(e.at);
    assert m in Minutes(log);
    if now < e.at + (n - 1) * GRANULARITY_MS {
      MinutesApart(e.at, now, n - 1);
    }
    if e.at + durationMs + GRANULARITY_MS <= now {
      assert Expired(m, durationMs, now);
      MinuteIsLiveIffInWindow(log, durationMs, now, m);
    }
  }
}
