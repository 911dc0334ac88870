/**
 The warn/reject decision over a totals snapshot, and what a rejected caller can count on:
 the verdict is monotone in usage, the retry time is exact, and waiting it out converges.
 */
module QuotaVerdict {
  import opened UsageLog
  import opened RollingWindow

  datatype Limit = Unlimited | AtMost(max: nat)

  datatype QuotaConfig = QuotaConfig(maxRequests: Limit, maxInputTokens: Limit, maxOutputTokens: Limit, warnPct: nat)

  datatype Metric = Metric(name: string, used: nat, limit: Limit) {
    /** A limit of zero is no limit. */
    predicate Limited() {
      limit.AtMost? && limit.max > 0
    }

    predicate Exhausted() {
      Limited() && used >= limit.max
    }

    function UsedPct(): nat
      requires Limited()
    {
      var pct := used * 100 / limit.max;
      if pct > 100 then 100 else pct
    }

    predicate Warns(warnPct: nat) {
      Limited() && UsedPct() >= warnPct
    }
  }

  datatype QuotaCheck =
    | Ok
    | Warn(metric: string, usedPct: nat)
    | Reject(metric: string, retryAfterMs: nat)
  {
    function Severity(): nat {
      if Reject? then 2 else if Warn? then 1 else 0
    }
  }

  function Metrics(cfg: QuotaConfig, t: Totals): seq<Metric> {
    [Metric("requests", t.requests, cfg.maxRequests),
     Metric("input_tokens", t.inputTokens, cfg.maxInputTokens),
     Metric("output_tokens", t.outputTokens, cfg.maxOutputTokens)]
  }

  /** The first metric that satisfies `p`, if any. */
  function First(metrics: seq<Metric>, p: Metric -> bool): (i: nat)
    ensures i <= |metrics|
    ensures i < |metrics| ==> p(metrics[i])
    ensures forall j | 0 <= j < i :: !p(metrics[j])
  {
    if metrics == [] || p(metrics[0]) then 0 else 1 + First(metrics[1..], p)
  }

  function Exhausts(): Metric -> bool {
    (m: Metric) => m.Exhausted()
  }

  function WarnsAt(warnPct: nat): Metric -> bool {
    (m: Metric) => m.Warns(warnPct)
  }

  function Evaluate(cfg: QuotaConfig, totals: Totals, nextBoundaryMs: nat): QuotaCheck {
    var metrics := Metrics(cfg, totals);
    var rejected := First(metrics, Exhausts());
    if rejected < |metrics| then
      Reject(metrics[rejected].name, if nextBoundaryMs > 1 then nextBoundaryMs else 1)
    else
      var warned := First(metrics, WarnsAt(cfg.warnPct));
      if warned < |metrics| then Warn(metrics[warned].name, metrics[warned].UsedPct()) else Ok
  }

  predicate Reached(used: nat, limit: Limit) {
    limit.AtMost? && 0 < limit.max <= used
  }

  predicate AtShare(used: nat, limit: Limit, pct: nat) {
    limit.AtMost? && limit.max > 0 && used * 100 / limit.max >= pct
  }

  /** A warning names the metric, and the share of its limit that is used. */
  predicate WarnsOf(v: QuotaCheck, metric: string, used: nat, limit: Limit) {
    v.Warn? && v.metric == metric && limit.AtMost? && limit.max > 0 && v.usedPct == used * 100 / limit.max
  }

  /**
   The decision, metric by metric. Reject comes exactly when some limit is reached, and names the first
   of requests, input and output tokens to be there; a warning comes exactly when none is but some metric
   is at its share, names the first such one with that share, and the share is below 100.
   */
  lemma VerdictMeaning(cfg: QuotaConfig, t: Totals, nextBoundaryMs: nat)
    ensures var v := Evaluate(cfg, t, nextBoundaryMs);
            var q, i, o := Reached(t.requests, cfg.maxRequests), Reached(t.inputTokens, cfg.maxInputTokens),
                           Reached(t.outputTokens, cfg.maxOutputTokens);
            && (v.Reject? <==> q || i || o)
            && (v.Reject? ==>
                  && v.metric == (if q then "requests" else if i then "input_tokens" else "output_tokens")
                  && v.retryAfterMs == if nextBoundaryMs == 0 then 1 else nextBoundaryMs)
    ensures var v, pct := Evaluate(cfg, t, nextBoundaryMs), cfg.warnPct;
            var q, i, o := AtShare(t.requests, cfg.maxRequests, pct), AtShare(t.inputTokens, cfg.maxInputTokens, pct),
                           AtShare(t.outputTokens, cfg.maxOutputTokens, pct);
            && (v.Warn? <==> !v.Reject? && (q || i || o))
            && (v.Warn? ==> pct <= v.usedPct <= 99)
            && (v.Warn? && q ==> WarnsOf(v, "requests", t.requests, cfg.maxRequests))
            && (v.Warn? && !q && i ==> WarnsOf(v, "input_tokens", t.inputTokens, cfg.maxInputTokens))
            && (v.Warn? && !q && !i ==> WarnsOf(v, "output_tokens", t.outputTokens, cfg.maxOutputTokens))
  {
    var v, ms := Evaluate(cfg, t, nextBoundaryMs), Metrics(cfg, t);
    forall k | 0 <= k < 3
      ensures ms[k].Exhausted() <==> Reached(ms[k].used, ms[k].limit)
      ensures !ms[k].Exhausted() && ms[k].Limited() ==> ms[k].UsedPct() == ms[k].used * 100 / ms[k].limit.max <= 99
    {
      if !ms[k].Exhausted() && ms[k].Limited() {
        ShareBelowLimit(ms[k].used, ms[k].limit.max);
      }
    }
    FirstOfThree(ms, Exhausts());
    FirstOfThree(ms, WarnsAt(cfg.warnPct));
  }

  lemma FirstOfThree(ms: seq<Metric>, p: Metric -> bool)
    requires |ms| == 3
    ensures First(ms, p) == if p(ms[0]) then 0 else if p(ms[1]) then 1 else if p(ms[2]) then 2 else 3
  {
  }

  /** The same over the list of metrics. */
  lemma MetricsDecide(cfg: QuotaConfig, totals: Totals, nextBoundaryMs: nat)
    ensures var v, metrics := Evaluate(cfg, totals, nextBoundaryMs), Metrics(cfg, totals);
            && (v.Reject? <==> exists m | m in metrics :: m.Exhausted())
            && (v.Ok? <==> forall m | m in metrics :: !m.Exhausted() && !m.Warns(cfg.warnPct))
  {
    var metrics := Metrics(cfg, totals);
    var r, w := First(metrics, Exhausts()), First(metrics, WarnsAt(cfg.warnPct));
    assert forall i | 0 <= i < |metrics| :: metrics[i] in metrics;
    assert r == |metrics| ==> forall m | m in metrics :: !m.Exhausted();
    assert w == |metrics| ==> forall m | m in metrics :: !m.Warns(cfg.warnPct);
  }

  lemma ShareBelowLimit(used: nat, max: nat)
    requires used < max
    ensures used * 100 / max <= 99
  {
    var q := used * 100 / max;
    assert q * max <= used * 100;
    assert q >= 100 ==> q * max >= 100 * max;
  }

  /** More usage in any metric never softens the verdict. */
  lemma VerdictIsMonotone(cfg: QuotaConfig, less: Totals, more: Totals, b: nat, c: nat)
    requires less.AtMost(more)
    ensures Evaluate(cfg, less, b).Severity() <= Evaluate(cfg, more, c).Severity()
  {
    MetricsDecide(cfg, less, b);
    MetricsDecide(cfg, more, c);
    var ms, ns := Metrics(cfg, less), Metrics(cfg, more);
    forall i | 0 <= i < 3
      ensures ns[i] in ns && ms[i] in ms
      ensures ms[i].Exhausted() ==> ns[i].Exhausted()
      ensures ms[i].Warns(cfg.warnPct) ==> ns[i].Warns(cfg.warnPct)
    {
      if ms[i].Limited() {
        QuotientIsMonotone(ms[i].used * 100, ns[i].used * 100, ms[i].limit.max);
      }
    }
  }

  lemma QuotientIsMonotone(x: nat, y: nat, d: nat)
    requires x <= y && d > 0
    ensures x / d <= y / d
  {
    var p, q := x / d, y / d;
    if p > q {
      ProductIsMonotone(q + 1, p, d);
      DivisionBounds(x, d);
      DivisionBounds(y, d);
    }
  }

  lemma DivisionBounds(x: nat, d: nat)
    requires d > 0
    ensures x / d * d <= x < (x / d + 1) * d
  {
    assert x == x / d * d + x % d;
  }

  lemma ProductIsMonotone(a: nat, b: nat, d: nat)
    requires a <= b
    ensures a * d <= b * d
  {
  }

  // ---- Waiting out a rejection ----

  /** Milliseconds until the oldest counted bucket leaves the window; 0 when nothing is counted. */
  ghost function NextBoundary(log: seq<Event>, durationMs: nat, now: nat): nat {
    var live := LiveMinutes(log, durationMs, now);
    if live == {} then 0
    else SatSub(SatAdd(SatAdd(Least(live) * GRANULARITY_MS, GRANULARITY_MS), durationMs), now)
  }

  ghost function Verdict(cfg: QuotaConfig, log: seq<Event>, durationMs: nat, now: nat): QuotaCheck {
    Evaluate(cfg, WindowTotals(log, durationMs, now), NextBoundary(log, durationMs, now))
  }

  /** No boundary the log can produce reaches the end of the clock. */
  ghost predicate InRange(log: seq<Event>, durationMs: nat) {
    forall e | e in log :: e.at + GRANULARITY_MS + durationMs <= U64_MAX
  }

  /** Nothing leaves the window before the boundary, and the oldest counted minute leaves at it. */
  lemma BoundaryIsExact(log: seq<Event>, durationMs: nat, now: nat, later: nat)
    requires UpTo(log, now) && InRange(log, durationMs) && now <= later
    requires LiveMinutes(log, durationMs, now) != {}
    ensures var live, boundary := LiveMinutes(log, durationMs, now), now + NextBoundary(log, durationMs, now);
            && NextBoundary(log, durationMs, now) > 0
            && LiveMinutes(log, durationMs, later) <= live
            && (later < boundary ==> LiveMinutes(log, durationMs, later) == live)
            && (boundary <= later ==> Least(live) !in LiveMinutes(log, durationMs, later))
  {
    var live := LiveMinutes(log, durationMs, now);
    var oldest := Least(live);
    var x :| x in log && MinuteOf(x.at) == oldest;
    MinuteBounds(x.at);
    assert NextBoundary(log, durationMs, now) == oldest * GRANULARITY_MS + GRANULARITY_MS + durationMs - now;
    assert forall m | m in live && Expired(m, durationMs, later) :: Expired(oldest, durationMs, later);
    assert LiveMinutes(log, durationMs, later) <= live by {
      assert forall m | m in Minutes(log) && Expired(m, durationMs, now) :: Expired(m, durationMs, later);
    }
    if later < now + NextBoundary(log, durationMs, now) {
      assert live <= LiveMinutes(log, durationMs, later);
    }
  }

  lemma NothingLiveNothingUsed(log: seq<Event>, durationMs: nat, now: nat)
    requires UpTo(log, now) && LiveMinutes(log, durationMs, now) == {}
    ensures WindowTotals(log, durationMs, now) == Zero()
  {
    LiveMinutesAreTheWindow(log, durationMs, now);
    SumOfNoCells(log, Minute);
  }

  lemma NothingUsedIsNotRejected(cfg: QuotaConfig, nextBoundaryMs: nat)
    ensures !Evaluate(cfg, Zero(), nextBoundaryMs).Reject?
  {
    MetricsDecide(cfg, Zero(), nextBoundaryMs);
  }

  /**
   With no further usage, the totals stay put until the boundary, a reject keeps rejecting on the
   same metric until the returned retry time is over, and by then at least one minute is gone.
   */
  lemma RetryTimeIsExact(cfg: QuotaConfig, log: seq<Event>, durationMs: nat, now: nat, later: nat)
    requires UpTo(log, now) && InRange(log, durationMs)
    requires Verdict(cfg, log, durationMs, now).Reject?
    requires now <= later
    ensures var v := Verdict(cfg, log, durationMs, now);
            && v.retryAfterMs == NextBoundary(log, durationMs, now)
            && (later < now + v.retryAfterMs ==>
                  && WindowTotals(log, durationMs, later) == WindowTotals(log, durationMs, now)
                  && Verdict(cfg, log, durationMs, later).Reject?
                  && Verdict(cfg, log, durationMs, later).metric == v.metric)
            && (now + v.retryAfterMs <= later ==>
                  LiveMinutes(log, durationMs, later) < LiveMinutes(log, durationMs, now))
  {
    if LiveMinutes(log, durationMs, now) == {} {
      NothingLiveNothingUsed(log, durationMs, now);
      NothingUsedIsNotRejected(cfg, NextBoundary(log, durationMs, now));
    } else {
      BoundaryIsExact(log, durationMs, now, later);
      LiveMinutesAreTheWindow(log, durationMs, now);
      LiveMinutesAreTheWindow(log, durationMs, later);
    }
  }

  /** Where a caller stands after up to `waits` rejections, each waited out as told. */
  ghost function AfterWaits(verdictAt: nat -> QuotaCheck, now: nat, waits: nat): (t: nat)
    ensures now <= t
    decreases waits
  {
    var v := verdictAt(now);
    if waits == 0 || !v.Reject? then now
    else AfterWaits(verdictAt, now + v.retryAfterMs, waits - 1)
  }

  ghost function VerdictOverTime(cfg: QuotaConfig, log: seq<Event>, durationMs: nat): nat -> QuotaCheck {
    (t: nat) => Verdict(cfg, log, durationMs, t)
  }

  ghost function CountedOverTime(log: seq<Event>, durationMs: nat): nat -> nat {
    (t: nat) => |LiveMinutes(log, durationMs, t)|
  }

  /** At most one wait per counted bucket, and a ring of n buckets never counts more than n. */
  lemma WaitingConverges(cfg: QuotaConfig, log: seq<Event>, durationMs: nat, now: nat, waits: nat)
    requires UpTo(log, now) && InRange(log, durationMs)
    requires waits >= |LiveMinutes(log, durationMs, now)|
    ensures var verdictAt := VerdictOverTime(cfg, log, durationMs);
            !verdictAt(AfterWaits(verdictAt, now, waits)).Reject?
    ensures |LiveMinutes(log, durationMs, now)| <= BucketCount(durationMs)
  {
    AtMostOneLivePerSlot(log, durationMs, now);
    var verdictAt := VerdictOverTime(cfg, log, durationMs);
    var counted := CountedOverTime(log, durationMs);
    forall t: nat | now <= t ensures EachWaitShrinks(verdictAt, counted, t) {
      EachWaitDropsAMinute(cfg, log, durationMs, t);
    }
    ShrinkingRejectionsEnd(verdictAt, counted, now, waits);
  }

  ghost predicate EachWaitShrinks(verdictAt: nat -> QuotaCheck, counted: nat -> nat, t: nat) {
    var v := verdictAt(t);
    v.Reject? ==> counted(t + v.retryAfterMs) < counted(t)
  }

  lemma {:induction false} ShrinkingRejectionsEnd(
    verdictAt: nat -> QuotaCheck, counted: nat -> nat, now: nat, waits: nat)
    requires forall t: nat | now <= t :: EachWaitShrinks(verdictAt, counted, t)
    requires waits >= counted(now)
    ensures !verdictAt(AfterWaits(verdictAt, now, waits)).Reject?
    decreases waits
  {
    var v := verdictAt(now);
    if v.Reject? {
      assert EachWaitShrinks(verdictAt, counted, now);
      ShrinkingRejectionsEnd(verdictAt, counted, now + v.retryAfterMs, waits - 1);
    }
  }

  lemma EachWaitDropsAMinute(cfg: QuotaConfig, log: seq<Event>, durationMs: nat, now: nat)
    requires UpTo(log, now) && InRange(log, durationMs)
    ensures EachWaitShrinks(VerdictOverTime(cfg, log, durationMs), CountedOverTime(log, durationMs), now)
  {
    var v := VerdictOverTime(cfg, log, durationMs)(now);
    if v.Reject? {
      LaterIsSmaller(cfg, log, durationMs, now, v, now + v.retryAfterMs);
    }
  }

  lemma LaterIsSmaller(cfg: QuotaConfig, log: seq<Event>, durationMs: nat, now: nat, v: QuotaCheck, later: nat)
    requires UpTo(log, now) && InRange(log, durationMs)
    requires v == Verdict(cfg, log, durationMs, now) && v.Reject? && later == now + v.retryAfterMs
    ensures |LiveMinutes(log, durationMs, later)| < |LiveMinutes(log, durationMs, now)|
  {
    RetryTimeIsExact(cfg, log, durationMs, now, later);
    SmallerSet(LiveMinutes(log, durationMs, later), LiveMinutes(log, durationMs, now));
  }

  lemma SmallerSet(a: set<nat>, b: set<nat>)
    requires a < b
    ensures |a| < |b|
  {
    var c := b - a;
    assert b == a + c;
    assert c != {};
  }

  lemma AtMostOneLivePerSlot(log: seq<Event>, durationMs: nat, now: nat)
    ensures |LiveMinutes(log, durationMs, now)| <= BucketCount(durationMs)
  {
    LiveBelowIsSmall(log, durationMs, now, BucketCount(durationMs));
    assert LiveBelow(log, durationMs, now, BucketCount(durationMs)) == LiveMinutes(log, durationMs, now);
  }

  lemma {:induction false} LiveBelowIsSmall(log: seq<Event>, durationMs: nat, now: nat, k: nat)
    ensures |LiveBelow(log, durationMs, now, k)| <= k
  {
    if k == 0 {
      LiveSplitsAtSlot(log, durationMs, now, 0);
    } else {
      LiveBelowIsSmall(log, durationMs, now, k - 1);
      OneMoreSlot(log, durationMs, now, k - 1);
    }
  }

  lemma OneMoreSlot(log: seq<Event>, durationMs: nat, now: nat, s: nat)
    ensures |LiveBelow(log, durationMs, now, s + 1)| <= |LiveBelow(log, durationMs, now, s)| + 1
  {
    LiveSplitsAtSlot(log, durationMs, now, s);
    OneLiveMinuteAt(log, durationMs, now, s);
  }

  lemma OneLiveMinuteAt(log: seq<Event>, durationMs: nat, now: nat, s: nat)
    ensures |LiveAt(log, durationMs, now, s)| <= 1
  {
    var at := LiveAt(log, durationMs, now, s);
    if at != {} {
      var m :| m in at;
      assert at == {m};
    }
  }
}
