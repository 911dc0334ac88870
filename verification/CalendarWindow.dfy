/**
 The calendar quota window: one running total, dropped at every unit boundary. Adds may come in any
 order, as they do when rows are replayed from a database or when two requests race for the counter.
 */
module CalendarWindow {
  import opened UsageLog
  import opened QuotaVerdict

  /** The first moment after the given cell. */
  function CellEnd(cell: nat, unit: CalendarUnit): nat {
    match unit
    case Minute => (cell + 1) * Minute.DurationMs()
    case Hour => (cell + 1) * Hour.DurationMs()
    case Day => (cell + 1) * Day.DurationMs()
  }

  function NextCalendarBoundary(unit: CalendarUnit, now: nat): nat {
    CellEnd(Cell(now, unit), unit)
  }

  lemma CellEndIsExact(cell: nat, unit: CalendarUnit, t: nat)
    ensures t < CellEnd(cell, unit) <==> Cell(t, unit) <= cell
  {
    match unit
    case Minute =>
    case Hour =>
    case Day =>
  }

  /** A minute has 60,000 milliseconds, an hour 60 minutes and a day 24 hours. */
  lemma UnitsNest(at: nat)
    ensures Cell(at, Minute) == at / 60_000
    ensures Cell(at, Hour) == Cell(at, Minute) / 60
    ensures Cell(at, Day) == Cell(at, Hour) / 24
  {
  }

  lemma CellsStayOrdered(unit: CalendarUnit, a: nat, b: nat)
    requires a <= b
    ensures Cell(a, unit) <= Cell(b, unit)
  {
  }

  /** The cell the counter is running in: the latest one it was created in or fed from. */
  ghost function OpenCell(unit: CalendarUnit, openedAt: nat, log: seq<Event>): nat {
    if log == [] then Cell(openedAt, unit)
    else
      var open, c := OpenCell(unit, openedAt, log[..|log| - 1]), Cell(log[|log| - 1].at, unit);
      if c > open then c else open
  }

  /** What was added from an earlier cell while the open cell was already open. */
  ghost function Stragglers(unit: CalendarUnit, openedAt: nat, log: seq<Event>): Totals {
    if log == [] then Zero()
    else
      var front, e := log[..|log| - 1], log[|log| - 1];
      var open, c := OpenCell(unit, openedAt, front), Cell(e.at, unit);
      if c > open then Zero()
      else if c == open then Stragglers(unit, openedAt, front)
      else Stragglers(unit, openedAt, front).Plus(e.usage)
  }

  /** Event `i` was added behind the cell that is open now, and was already open then. */
  ghost predicate Straggles(unit: CalendarUnit, openedAt: nat, log: seq<Event>, i: nat)
    requires i < |log|
  {
    Cell(log[i].at, unit) < OpenCell(unit, openedAt, log[..i]) == OpenCell(unit, openedAt, log)
  }

  /** The running total: all of the open cell, and whatever straggled in since it opened. */
  ghost function Held(unit: CalendarUnit, openedAt: nat, log: seq<Event>): Totals {
    SumIn(log, unit, {OpenCell(unit, openedAt, log)}).Plus(Stragglers(unit, openedAt, log))
  }

  /** What a counter reads at `now`. */
  ghost function ReadAt(unit: CalendarUnit, openedAt: nat, log: seq<Event>, now: nat): Totals {
    if now >= CellEnd(OpenCell(unit, openedAt, log), unit) then Zero() else Held(unit, openedAt, log)
  }

  /** A running total and its reset time stand for the log. */
  ghost predicate Follows(totals: Totals, resetAtMs: nat, unit: CalendarUnit, openedAt: nat, log: seq<Event>) {
    resetAtMs == CellEnd(OpenCell(unit, openedAt, log), unit) && totals == Held(unit, openedAt, log)
  }

  class CalendarCounter {
    var totals: Totals
    var resetAtMs: nat
    ghost const unit: CalendarUnit
    ghost const openedAt: nat
    ghost var log: seq<Event>

    ghost predicate Valid()
      reads this
    {
      Follows(totals, resetAtMs, unit, openedAt, log)
    }

    constructor (unit: CalendarUnit, nowMs: nat)
      ensures Valid() && this.unit == unit && openedAt == nowMs && log == []
    {
      totals := Zero();
      resetAtMs := NextCalendarBoundary(unit, nowMs);
      this.unit, openedAt, log := unit, nowMs, [];
      new;
      FollowsAtFirst(totals, resetAtMs, unit, nowMs, log);
    }

    method Add(nowMs: nat, unit: CalendarUnit, requests: nat, inputTokens: nat, outputTokens: nat)
      requires Valid() && unit == this.unit
      modifies this
      ensures Valid()
      ensures log == old(log) + [Event(nowMs, Totals(requests, inputTokens, outputTokens))]
    {
      ghost var e := Event(nowMs, Totals(requests, inputTokens, outputTokens));
      CellEndIsExact(OpenCell(unit, openedAt, log), unit, nowMs);
      HeldAfter(unit, openedAt, log, e);
      if nowMs >= resetAtMs {
        totals := Zero();
        resetAtMs := NextCalendarBoundary(unit, nowMs);
      }
      totals := totals.Plus(Totals(requests, inputTokens, outputTokens));
      log := log + [e];
    }

    /** The sum of the current unit, exactly when that unit is new to the counter or nothing straggled in. */
    method TotalsAt(nowMs: nat) returns (t: Totals)
      requires Valid()
      ensures t == ReadAt(unit, openedAt, log, nowMs)
      ensures UpTo(log, nowMs) && openedAt <= nowMs ==>
                (t == SumIn(log, unit, {Cell(nowMs, unit)})
                 <==> OpenCell(unit, openedAt, log) < Cell(nowMs, unit)
                      || Stragglers(unit, openedAt, log) == Zero())
    {
      t := if nowMs >= resetAtMs then Zero() else totals;
      if UpTo(log, nowMs) && openedAt <= nowMs {
        ReadIsExactIff(unit, openedAt, log, nowMs);
      }
    }

    method NextBoundaryMs(nowMs: nat) returns (ms: nat)
      requires Valid()
      ensures var open := OpenCell(unit, openedAt, log);
              && ms == SatSub(CellEnd(open, unit), nowMs)
              && (open == Cell(nowMs, unit) ==> nowMs + ms == NextCalendarBoundary(unit, nowMs))
              && (open < Cell(nowMs, unit) ==> ms == 0)
    {
      ms := SatSub(resetAtMs, nowMs);
      CellEndIsExact(OpenCell(unit, openedAt, log), unit, nowMs);
    }
  }

  /** The open cell is the latest of all cells seen. */
  lemma {:induction false} OpenCellIsLatest(unit: CalendarUnit, openedAt: nat, log: seq<Event>)
    ensures var open := OpenCell(unit, openedAt, log);
            && Cell(openedAt, unit) <= open && (forall c | c in Cells(log, unit) :: c <= open)
            && (open == Cell(openedAt, unit) || open in Cells(log, unit))
  {
    if log != [] {
      var front, e := log[..|log| - 1], log[|log| - 1];
      assert log == front + [e];
      OpenCellIsLatest(unit, openedAt, front);
      CellsOfExtension(front, e, unit);
    }
  }

  lemma OpenCellIsReached(unit: CalendarUnit, openedAt: nat, log: seq<Event>, now: nat)
    requires UpTo(log, now) && openedAt <= now
    ensures OpenCell(unit, openedAt, log) <= Cell(now, unit)
  {
    OpenCellIsLatest(unit, openedAt, log);
    CellsStayOrdered(unit, openedAt, now);
    forall c | c in Cells(log, unit) ensures c <= Cell(now, unit) {
      var e :| e in log && Cell(e.at, unit) == c;
      CellsStayOrdered(unit, e.at, now);
    }
  }

  lemma FollowsAtFirst(totals: Totals, resetAtMs: nat, unit: CalendarUnit, openedAt: nat, log: seq<Event>)
    requires totals == Zero() && resetAtMs == NextCalendarBoundary(unit, openedAt) && log == []
    ensures Follows(totals, resetAtMs, unit, openedAt, log)
  {
    var open := OpenCell(unit, openedAt, log);
    assert open == Cell(openedAt, unit);
    NothingSummed(log, unit, open);
    NothingStraggled(unit, openedAt, log);
  }

  lemma NothingSummed(log: seq<Event>, unit: CalendarUnit, cell: nat)
    requires log == []
    ensures SumIn(log, unit, {cell}) == Zero()
  {
  }

  lemma NothingStraggled(unit: CalendarUnit, openedAt: nat, log: seq<Event>)
    requires log == []
    ensures Stragglers(unit, openedAt, log) == Zero()
  {
  }

  /** An event beyond the open cell starts the total over; any other adds to it, wherever it belongs. */
  lemma HeldAfter(unit: CalendarUnit, openedAt: nat, log: seq<Event>, e: Event)
    ensures var open, c := OpenCell(unit, openedAt, log), Cell(e.at, unit);
            && OpenCell(unit, openedAt, log + [e]) == (if c > open then c else open)
            && Held(unit, openedAt, log + [e])
               == (if c > open then Zero() else Held(unit, openedAt, log)).Plus(e.usage)
  {
    var open, c := OpenCell(unit, openedAt, log), Cell(e.at, unit);
    var sum, late := SumIn(log, unit, {open}), Stragglers(unit, openedAt, log);
    assert (log + [e])[..|log|] == log;
    CellsOfExtension(log, e, unit);
    if c > open {
      OpenCellIsLatest(unit, openedAt, log);
      SumOfUntouchedCells(log, unit, {c});
      AddUp(Zero(), Zero(), e.usage);
    } else {
      AddUp(sum, late, e.usage);
    }
  }

  /** Whichever part of a total an event is added to, the total grows by it. */
  lemma AddUp(a: Totals, b: Totals, u: Totals)
    ensures a.Plus(u).Plus(b) == a.Plus(b).Plus(u)
    ensures a.Plus(Zero()).Plus(b.Plus(u)) == a.Plus(b).Plus(u)
    ensures Zero().Plus(u).Plus(Zero()) == Zero().Plus(u)
  {
  }

  /**
   Whatever the order of the adds, the counter reads the sum of the current calendar unit exactly when
   it was not fed in this unit yet, or nothing used straggled in from an earlier one.
   */
  lemma ReadIsExactIff(unit: CalendarUnit, openedAt: nat, log: seq<Event>, now: nat)
    requires UpTo(log, now) && openedAt <= now
    ensures ReadAt(unit, openedAt, log, now) == SumIn(log, unit, {Cell(now, unit)})
            <==> OpenCell(unit, openedAt, log) < Cell(now, unit) || Stragglers(unit, openedAt, log) == Zero()
  {
    var open, current := OpenCell(unit, openedAt, log), Cell(now, unit);
    OpenCellIsReached(unit, openedAt, log, now);
    if open < current {
      ReadOfNewUnit(unit, openedAt, log, now);
    } else {
      ReadOfOpenUnit(unit, openedAt, log, now);
      PlusNothingIff(SumIn(log, unit, {current}), Stragglers(unit, openedAt, log));
    }
  }

  lemma ReadOfNewUnit(unit: CalendarUnit, openedAt: nat, log: seq<Event>, now: nat)
    requires OpenCell(unit, openedAt, log) < Cell(now, unit)
    ensures ReadAt(unit, openedAt, log, now) == Zero() == SumIn(log, unit, {Cell(now, unit)})
  {
    CellEndIsExact(OpenCell(unit, openedAt, log), unit, now);
    OpenCellIsLatest(unit, openedAt, log);
    SumOfUntouchedCells(log, unit, {Cell(now, unit)});
  }

  lemma ReadOfOpenUnit(unit: CalendarUnit, openedAt: nat, log: seq<Event>, now: nat)
    requires OpenCell(unit, openedAt, log) == Cell(now, unit)
    ensures ReadAt(unit, openedAt, log, now)
            == SumIn(log, unit, {Cell(now, unit)}).Plus(Stragglers(unit, openedAt, log))
  {
    CellEndIsExact(OpenCell(unit, openedAt, log), unit, now);
  }

  lemma PlusNothingIff(a: Totals, b: Totals)
    ensures a.Plus(b) == a <==> b == Zero()
  {
  }

  /** Nothing straggled in exactly when every event added behind the open cell used nothing. */
  lemma {:induction false} NoStragglersIff(unit: CalendarUnit, openedAt: nat, log: seq<Event>)
    ensures Stragglers(unit, openedAt, log) == Zero()
            <==> forall i | 0 <= i < |log| && Straggles(unit, openedAt, log, i) :: log[i].usage == Zero()
  {
    if log != [] {
      var front, e := log[..|log| - 1], log[|log| - 1];
      NoStragglersIff(unit, openedAt, front);
      forall i | 0 <= i < |front|
        ensures Straggles(unit, openedAt, log, i)
                <==> Straggles(unit, openedAt, front, i)
                     && OpenCell(unit, openedAt, front) == OpenCell(unit, openedAt, log)
      {
        assert log[..i] == front[..i];
        OpenCellGrows(unit, openedAt, front, i);
      }
    }
  }

  lemma {:induction false} OpenCellGrows(unit: CalendarUnit, openedAt: nat, log: seq<Event>, i: nat)
    requires i <= |log|
    ensures OpenCell(unit, openedAt, log[..i]) <= OpenCell(unit, openedAt, log)
  {
    if i < |log| {
      assert log[..|log| - 1][..i] == log[..i];
      OpenCellGrows(unit, openedAt, log[..|log| - 1], i);
    } else {
      assert log[..i] == log;
    }
  }

  /** The touched cells that ended before the counter was created. */
  ghost function CellsBefore(unit: CalendarUnit, openedAt: nat, log: seq<Event>): set<nat> {
    set c | c in Cells(log, unit) && c < Cell(openedAt, unit)
  }

  /** The stragglers are the rows older than the counter's first unit, while that one is open. */
  ghost predicate StragglersAreOldRows(unit: CalendarUnit, openedAt: nat, log: seq<Event>) {
    Stragglers(unit, openedAt, log)
    == if OpenCell(unit, openedAt, log) > Cell(openedAt, unit) then Zero()
       else SumIn(log, unit, CellsBefore(unit, openedAt, log))
  }

  /** So they are in time order. */
  lemma {:induction false} StragglersInOrder(unit: CalendarUnit, openedAt: nat, log: seq<Event>)
    requires Ordered(log)
    ensures StragglersAreOldRows(unit, openedAt, log)
  {
    if log != [] {
      var front, e := log[..|log| - 1], log[|log| - 1];
      assert log == front + [e];
      LastCellIsLatest(unit, front, e);
      StragglersInOrder(unit, openedAt, front);
      StragglersInOrderStep(unit, openedAt, front, e);
    }
  }

  lemma LastCellIsLatest(unit: CalendarUnit, front: seq<Event>, e: Event)
    requires Ordered(front + [e])
    ensures Ordered(front) && forall c | c in Cells(front, unit) :: c <= Cell(e.at, unit)
  {
    var log := front + [e];
    forall i, j | 0 <= i < j < |front| ensures front[i].at <= front[j].at {
      assert log[i].at <= log[j].at;
    }
    forall c | c in Cells(front, unit) ensures c <= Cell(e.at, unit) {
      var x :| x in front && Cell(x.at, unit) == c;
      var i :| 0 <= i < |front| && front[i] == x;
      assert log[i].at <= log[|front|].at;
      CellsStayOrdered(unit, x.at, e.at);
    }
  }

  lemma StragglersInOrderStep(unit: CalendarUnit, openedAt: nat, front: seq<Event>, e: Event)
    requires forall c | c in Cells(front, unit) :: c <= Cell(e.at, unit)
    requires StragglersAreOldRows(unit, openedAt, front)
    ensures StragglersAreOldRows(unit, openedAt, front + [e])
  {
    assert (front + [e])[..|front|] == front;
    OpenCellIsLatest(unit, openedAt, front);
    OldRowsStep(unit, openedAt, front, e);
  }

  lemma OldRowsStep(unit: CalendarUnit, openedAt: nat, front: seq<Event>, e: Event)
    ensures var before := SumIn(front, unit, CellsBefore(unit, openedAt, front));
            SumIn(front + [e], unit, CellsBefore(unit, openedAt, front + [e]))
            == if Cell(e.at, unit) < Cell(openedAt, unit) then before.Plus(e.usage) else before
  {
    var was, now := CellsBefore(unit, openedAt, front), CellsBefore(unit, openedAt, front + [e]);
    CellsOfExtension(front, e, unit);
    assert was * Cells(front, unit) == now * Cells(front, unit);
    SumDependsOnTouchedCells(front, unit, was, now);
  }

  /** A restart at one o'clock replays the last hour: a row of the hour before counts in the new one. */
  lemma SeededCounterOverReports()
    ensures var log := [Event(3_599_999, Totals(1, 0, 0))];
            && ReadAt(Hour, 3_600_000, log, 3_600_000) == Totals(1, 0, 0)
            && SumIn(log, Hour, {Cell(3_600_000, Hour)}) == Zero()
  {
    var e := Event(3_599_999, Totals(1, 0, 0));
    assert Cell(3_599_999, Hour) == 0 && Cell(3_600_000, Hour) == 1;
    FirstAdd(Hour, 3_600_000, e);
  }

  /** What a fresh counter makes of one event. */
  lemma FirstAdd(unit: CalendarUnit, openedAt: nat, e: Event)
    ensures var created, c := Cell(openedAt, unit), Cell(e.at, unit);
            && OpenCell(unit, openedAt, [e]) == (if c > created then c else created)
            && Held(unit, openedAt, [e]) == e.usage
            && forall k :: SumIn([e], unit, {k}) == if k == c then e.usage else Zero()
  {
    assert [e] == [] + [e];
    HeldAfter(unit, openedAt, [], e);
    CellsOfExtension([], e, unit);
  }

  /** Long after its creation, a counter that is fed late over-reports as well. */
  lemma LateAddOverReports()
    ensures var log := [Event(3_600_000, Totals(1, 0, 0)), Event(3_599_999, Totals(1, 0, 0))];
            && ReadAt(Hour, 0, log, 3_600_001) == Totals(2, 0, 0)
            && SumIn(log, Hour, {Cell(3_600_001, Hour)}) == Totals(1, 0, 0)
  {
    var a, b := Event(3_600_000, Totals(1, 0, 0)), Event(3_599_999, Totals(1, 0, 0));
    assert Cell(0, Hour) == 0 && Cell(3_600_000, Hour) == 1 && Cell(3_599_999, Hour) == 0 && Cell(3_600_001, Hour) == 1;
    SecondAddBehind(Hour, 0, a, b);
  }

  /** A second event, from an earlier unit than the first one opened. */
  lemma SecondAddBehind(unit: CalendarUnit, openedAt: nat, a: Event, b: Event)
    requires Cell(b.at, unit) < Cell(a.at, unit) && Cell(openedAt, unit) < Cell(a.at, unit)
    ensures OpenCell(unit, openedAt, [a, b]) == Cell(a.at, unit)
    ensures Held(unit, openedAt, [a, b]) == a.usage.Plus(b.usage)
    ensures SumIn([a, b], unit, {Cell(a.at, unit)}) == a.usage
  {
    assert [a, b] == [a] + [b];
    FirstAdd(unit, openedAt, a);
    HeldAfter(unit, openedAt, [a], b);
    CellsOfExtension([a], b, unit);
  }

  // ---- Waiting out a rejection ----

  ghost function CalendarVerdict(
    cfg: QuotaConfig, unit: CalendarUnit, openedAt: nat, log: seq<Event>, now: nat): QuotaCheck
  {
    Evaluate(cfg, ReadAt(unit, openedAt, log, now), SatSub(CellEnd(OpenCell(unit, openedAt, log), unit), now))
  }

  /**
   With no further usage, a calendar reject keeps rejecting on the same metric until the returned time
   is over, and is over then: one wait always ends it, whatever order the counter was fed in.
   */
  lemma CalendarRetryIsExact(
    cfg: QuotaConfig, unit: CalendarUnit, openedAt: nat, log: seq<Event>, now: nat, later: nat)
    requires CalendarVerdict(cfg, unit, openedAt, log, now).Reject? && now <= later
    ensures var v := CalendarVerdict(cfg, unit, openedAt, log, now);
            var w := CalendarVerdict(cfg, unit, openedAt, log, later);
            && now + v.retryAfterMs == CellEnd(OpenCell(unit, openedAt, log), unit)
            && (later < now + v.retryAfterMs ==> w.Reject? && w.metric == v.metric)
            && (now + v.retryAfterMs <= later ==> !w.Reject?)
  {
    var end := CellEnd(OpenCell(unit, openedAt, log), unit);
    if now >= end {
      NothingUsedIsNotRejected(cfg, SatSub(end, now));
    } else if later >= end {
      NothingUsedIsNotRejected(cfg, SatSub(end, later));
    }
  }
}
