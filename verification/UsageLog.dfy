/**
 The unbounded event log that every quota counter stands in for: what was used, when, and
 how much of it falls into a given set of time cells.
 */
module UsageLog {

  const U64_MAX: nat := 0xFFFF_FFFF_FFFF_FFFF

  datatype Totals = Totals(requests: nat, inputTokens: nat, outputTokens: nat) {
    function Plus(t: Totals): Totals {
      Totals(requests + t.requests, inputTokens + t.inputTokens, outputTokens + t.outputTokens)
    }

    predicate AtMost(t: Totals) {
      requests <= t.requests && inputTokens <= t.inputTokens && outputTokens <= t.outputTokens
    }
  }

  function Zero(): Totals {
    Totals(0, 0, 0)
  }

  datatype Event = Event(at: nat, usage: Totals)

  /** Every timestamp in the log is at most `now`. */
  ghost predicate UpTo(log: seq<Event>, now: nat) {
    forall e | e in log :: e.at <= now
  }

  ghost predicate Ordered(log: seq<Event>) {
    forall i, j | 0 <= i < j < |log| :: log[i].at <= log[j].at
  }

  datatype CalendarUnit = Minute | Hour | Day {
    function DurationMs(): nat {
      match this
      case Minute => 60 * 1_000
      case Hour => 60 * 60 * 1_000
      case Day => 24 * 60 * 60 * 1_000
    }
  }

  /** The unit-aligned cell that holds the timestamp `at`. */
  function Cell(at: nat, unit: CalendarUnit): nat {
    at / unit.DurationMs()
  }

  ghost function Cells(log: seq<Event>, unit: CalendarUnit): set<nat>
  {
    set e | e in log :: Cell(e.at, unit)
  }

  /** Everything used by events that fall into one of `cells`. */
  ghost function SumIn(log: seq<Event>, unit: CalendarUnit, cells: set<nat>): Totals
  {
    if log == [] then Zero()
    else
      SumIn(log[..|log| - 1], unit, cells).Plus(Share(log[|log| - 1], unit, cells))
  }

  ghost function Share(e: Event, unit: CalendarUnit, cells: set<nat>): Totals
  {
    if Cell(e.at, unit) in cells then e.usage else Zero()
  }

  lemma CellsOfExtension(log: seq<Event>, e: Event, unit: CalendarUnit)
    ensures Cells(log + [e], unit) == Cells(log, unit) + {Cell(e.at, unit)}
    ensures forall cells :: SumIn(log + [e], unit, cells)
                            == SumIn(log, unit, cells).Plus(Share(e, unit, cells))
  {
    assert (log + [e])[..|log|] == log;
    assert forall x :: x in log + [e] <==> x in log || x == e;
    forall c | c in Cells(log, unit) + {Cell(e.at, unit)} ensures c in Cells(log + [e], unit) {
      if c == Cell(e.at, unit) {
        assert e in log + [e];
      } else {
        var x :| x in log && Cell(x.at, unit) == c;
        assert x in log + [e];
      }
    }
  }

  /** Only the cells the log actually touches matter. */
  lemma {:induction false} SumDependsOnTouchedCells(log: seq<Event>, unit: CalendarUnit, a: set<nat>, b: set<nat>)
    requires a * Cells(log, unit) == b * Cells(log, unit)
    ensures SumIn(log, unit, a) == SumIn(log, unit, b)
  {
    if log == [] {
    } else {
      var front, e := log[..|log| - 1], log[|log| - 1];
      assert log == front + [e];
      CellsOfExtension(front, e, unit);
      var c := Cell(e.at, unit);
      assert c in a <==> c in b by {
        assert c in a <==> c in a * Cells(log, unit);
      }
      assert a * Cells(front, unit) == b * Cells(front, unit) by {
        forall x ensures x in a * Cells(front, unit) <==> x in b * Cells(front, unit) {
          assert x in Cells(front, unit) ==> (x in a <==> x in a * Cells(log, unit));
        }
      }
      SumDependsOnTouchedCells(front, unit, a, b);
    }
  }

  lemma PlusInterchange(w: Totals, x: Totals, y: Totals, z: Totals)
    ensures w.Plus(x).Plus(y.Plus(z)) == w.Plus(y).Plus(x.Plus(z))
  {
  }

  lemma ShareOfDisjointCells(e: Event, unit: CalendarUnit, a: set<nat>, b: set<nat>)
    requires a !! b
    ensures Share(e, unit, a + b) == Share(e, unit, a).Plus(Share(e, unit, b))
  {
  }

  lemma {:induction false} SumOfDisjointCells(log: seq<Event>, unit: CalendarUnit, a: set<nat>, b: set<nat>)
    requires a !! b
    ensures SumIn(log, unit, a + b) == SumIn(log, unit, a).Plus(SumIn(log, unit, b))
  {
    if log == [] {
    } else {
      var front, e := log[..|log| - 1], log[|log| - 1];
      SumOfDisjointCells(front, unit, a, b);
      ShareOfDisjointCells(e, unit, a, b);
      PlusInterchange(SumIn(front, unit, a), SumIn(front, unit, b), Share(e, unit, a), Share(e, unit, b));
    }
  }

  lemma {:induction false} SumOfUntouchedCells(log: seq<Event>, unit: CalendarUnit, cells: set<nat>)
    requires cells !! Cells(log, unit)
    ensures SumIn(log, unit, cells) == Zero()
  {
    SumDependsOnTouchedCells(log, unit, cells, {});
    SumOfNoCells(log, unit);
  }

  lemma {:induction false} SumOfNoCells(log: seq<Event>, unit: CalendarUnit)
    ensures SumIn(log, unit, {}) == Zero()
  {
    if log == [] {
    } else {
      SumOfNoCells(log[..|log| - 1], unit);
      assert Share(log[|log| - 1], unit, {}) == Zero();
    }
  }

  // Saturating u64 arithmetic, as the counters use it.

  function SatAdd(a: nat, b: nat): nat {
    if a + b > U64_MAX then U64_MAX else a + b
  }

  function SatSub(a: nat, b: nat): nat {
    if a < b then 0 else a - b
  }

  ghost function Least(s: set<nat>): (m: nat)
    requires s != {}
    ensures m in s && forall x | x in s :: m <= x
  {
    var x :| x in s;
    if s == {x} then x
    else
      var m := Least(s - {x});
      assert s == s - {x} + {x};
      if x < m then x else m
  }
}
