/** Token usage by day and model: sums over sets of (day, model) keys, one category at a time. */
module UsageRows {

  datatype Category = Input | Output | Reasoning | CacheRead | CacheWrite

  datatype Tokens = Tokens(input: nat, output: nat, reasoning: nat, cacheRead: nat, cacheWrite: nat) {
    function In(c: Category): nat {
      match c
      case Input => input
      case Output => output
      case Reasoning => reasoning
      case CacheRead => cacheRead
      case CacheWrite => cacheWrite
    }

    function Plus(t: Tokens): (r: Tokens)
      ensures forall c :: r.In(c) == In(c) + t.In(c)
    {
      Tokens(input + t.input, output + t.output, reasoning + t.reasoning,
             cacheRead + t.cacheRead, cacheWrite + t.cacheWrite)
    }

    function Total(): nat {
      input + output + reasoning + cacheRead + cacheWrite
    }
  }

  function NoTokens(): (r: Tokens)
    ensures forall c :: r.In(c) == 0
  {
    Tokens(0, 0, 0, 0, 0)
  }

  /** A day, counted from any fixed one, and a model. */
  datatype Key = Key(date: int, model: string)

  datatype Row = Row(key: Key, tokens: Tokens)

  ghost function Keys(rows: seq<Row>): set<Key> {
    set r | r in rows :: r.key
  }

  /** Tokens of category `c` in rows whose key is in `keys`. */
  ghost function SumIn(rows: seq<Row>, keys: set<Key>, c: Category): nat {
    if rows == [] then 0
    else
      var r := rows[|rows| - 1];
      SumIn(rows[..|rows| - 1], keys, c) + if r.key in keys then r.tokens.In(c) else 0
  }

  ghost function SumAll(rows: seq<Row>, c: Category): nat {
    SumIn(rows, Keys(rows), c)
  }

  lemma SumExtends(rows: seq<Row>, r: Row, keys: set<Key>, c: Category)
    ensures SumIn(rows + [r], keys, c) == SumIn(rows, keys, c) + if r.key in keys then r.tokens.In(c) else 0
    ensures Keys(rows + [r]) == Keys(rows) + {r.key}
  {
    assert (rows + [r])[..|rows|] == rows;
    assert forall x :: x in rows + [r] <==> x in rows || x == r;
    forall k | k in Keys(rows) + {r.key} ensures k in Keys(rows + [r]) {
      if k != r.key {
        var x :| x in rows && x.key == k;
        assert x in rows + [r];
      } else {
        assert r in rows + [r];
      }
    }
  }

  lemma {:induction false} SumOfDisjointKeys(rows: seq<Row>, a: set<Key>, b: set<Key>, c: Category)
    requires a !! b
    ensures SumIn(rows, a + b, c) == SumIn(rows, a, c) + SumIn(rows, b, c)
  {
    if rows != [] {
      SumOfDisjointKeys(rows[..|rows| - 1], a, b, c);
    }
  }

  /** Only keys that occur matter. */
  lemma {:induction false} SumDependsOnOccurringKeys(rows: seq<Row>, a: set<Key>, b: set<Key>, c: Category)
    requires a * Keys(rows) == b * Keys(rows)
    ensures SumIn(rows, a, c) == SumIn(rows, b, c)
  {
    if rows != [] {
      var front, r := rows[..|rows| - 1], rows[|rows| - 1];
      assert rows == front + [r];
      SumExtends(front, r, a, c);
      SumExtends(front, r, b, c);
      assert r.key in a <==> r.key in a * Keys(rows);
      assert a * Keys(front) == a * Keys(rows) * Keys(front) == b * Keys(rows) * Keys(front) == b * Keys(front);
      SumDependsOnOccurringKeys(front, a, b, c);
    }
  }

  /** Two breakdowns that agree in every category are the same. */
  lemma SameTokens(a: Tokens, b: Tokens)
    requires forall c :: a.In(c) == b.In(c)
    ensures a == b
  {
    assert a.In(Input) == b.In(Input) && a.In(Output) == b.In(Output) && a.In(Reasoning) == b.In(Reasoning);
    assert a.In(CacheRead) == b.In(CacheRead) && a.In(CacheWrite) == b.In(CacheWrite);
  }

  ghost predicate IsSum(t: Tokens, rows: seq<Row>, keys: set<Key>) {
    forall c :: t.In(c) == SumIn(rows, keys, c)
  }

  lemma GroupStep(groups: map<Key, Tokens>, rows: seq<Row>, r: Row)
    requires groups.Keys == Keys(rows) && forall k | k in groups :: IsSum(groups[k], rows, {k})
    ensures var entry := if r.key in groups then groups[r.key] else NoTokens();
            var after := groups[r.key := entry.Plus(r.tokens)];
            after.Keys == Keys(rows + [r]) && forall k | k in after :: IsSum(after[k], rows + [r], {k})
  {
    var entry := if r.key in groups then groups[r.key] else NoTokens();
    var after := groups[r.key := entry.Plus(r.tokens)];
    SumExtends(rows, r, {}, Input);
    forall k, c | k in after ensures after[k].In(c) == SumIn(rows + [r], {k}, c) {
      SumExtends(rows, r, {k}, c);
      if k == r.key && k !in groups {
        SumDependsOnOccurringKeys(rows, {k}, {}, c);
        SumOverNothing(rows, c);
      }
    }
  }

  lemma {:induction false} SumOverNothing(rows: seq<Row>, c: Category)
    ensures SumIn(rows, {}, c) == 0
  {
    if rows != [] {
      SumOverNothing(rows[..|rows| - 1], c);
    }
  }

  lemma AddRow(t: Tokens, rows: seq<Row>, r: Row)
    requires IsSum(t, rows, Keys(rows))
    ensures IsSum(t.Plus(r.tokens), rows + [r], Keys(rows + [r]))
  {
    forall c ensures t.Plus(r.tokens).In(c) == SumIn(rows + [r], Keys(rows + [r]), c) {
      SumExtends(rows, r, Keys(rows + [r]), c);
      SumDependsOnOccurringKeys(rows, Keys(rows), Keys(rows + [r]), c);
    }
  }

  // ---- Name order ----

  /** Strings in code point order. */
  predicate Less(a: string, b: string) {
    b != [] && (a == [] || a[0] < b[0] || (a[0] == b[0] && Less(a[1..], b[1..])))
  }

  lemma {:induction false} LessIsTotal(a: string, b: string)
    ensures a == b || Less(a, b) || Less(b, a)
    ensures !(Less(a, b) && Less(b, a)) && !(a == b && Less(a, b))
  {
    if a != [] && b != [] {
      LessIsTotal(a[1..], b[1..]);
      assert a == [a[0]] + a[1..] && b == [b[0]] + b[1..];
    }
  }

  lemma {:induction false} LessIsTransitive(a: string, b: string, d: string)
    requires Less(a, b) && Less(b, d)
    ensures Less(a, d)
  {
    if a != [] && a[0] == b[0] && b[0] == d[0] {
      LessIsTransitive(a[1..], b[1..], d[1..]);
    }
  }

  /** The first difference decides, and a prefix comes before what it begins. */
  lemma {:induction false} LessInPlain(a: string, b: string)
    ensures Less(a, b) <==> exists k: nat :: ComesFirst(a, b, k)
  {
    if a != [] && b != [] && a[0] == b[0] {
      LessInPlain(a[1..], b[1..]);
      if k: nat :| ComesFirst(a[1..], b[1..], k) {
        assert a[..k + 1] == [a[0]] + a[1..][..k] && b[..k + 1] == [b[0]] + b[1..][..k];
        assert ComesFirst(a, b, k + 1);
      }
      if k: nat :| ComesFirst(a, b, k) {
        assert k > 0 && a[1..][..k - 1] == a[..k][1..] && b[1..][..k - 1] == b[..k][1..];
        assert ComesFirst(a[1..], b[1..], k - 1);
      }
    } else if b != [] && (a == [] || a[0] < b[0]) {
      assert ComesFirst(a, b, 0);
    } else {
      forall k: nat ensures !ComesFirst(a, b, k) {
        assert k > 0 && k <= |a| && k <= |b| ==> a[..k][0] == a[0] && b[..k][0] == b[0];
      }
    }
  }

  /** The strings agree up to `k`, where `a` ends or has the smaller character. */
  ghost predicate ComesFirst(a: string, b: string, k: nat) {
    k <= |a| && k < |b| && a[..k] == b[..k] && (k == |a| || a[k] < b[k])
  }
}
