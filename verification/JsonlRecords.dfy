/** Filtering and grouping usage records held in memory: the overview and the per-day, per-model rows. */
module JsonlRecords {
  import opened Json
  import opened UsageRows
  import opened Sorting

  datatype Record = Record(date: int, model: string, project: string, session: string, tokens: Tokens)

  datatype DateRange = DateRange(from: Option<int>, to: Option<int>)

  datatype Filter = Filter(
    dateRange: Option<DateRange>, project: Option<string>, model: Option<string>,
    provider: Option<string>, session: Option<string>)

  predicate InRange(date: int, range: Option<DateRange>) {
    range.Some? ==>
      (range.value.from.Some? ==> date >= range.value.from.value)
      && (range.value.to.Some? ==> date <= range.value.to.value)
  }

  /** The provider filter has no counterpart in a record and always passes. */
  predicate Matches(r: Record, f: Filter) {
    && InRange(r.date, f.dateRange)
    && (f.project.Some? ==> r.project == f.project.value)
    && (f.model.Some? ==> r.model == f.model.value)
    && (f.session.Some? ==> r.session == f.session.value)
  }

  /** The matching records as (key, tokens) rows. */
  ghost function Selected(records: seq<Record>, f: Filter): seq<Row> {
    if records == [] then []
    else
      var r := records[|records| - 1];
      Selected(records[..|records| - 1], f)
      + if Matches(r, f) then [Row(Key(r.date, r.model), r.tokens)] else []
  }

  lemma SelectedStep(records: seq<Record>, k: nat, f: Filter)
    requires k < |records|
    ensures var r := records[k];
            Selected(records[..k + 1], f)
            == if Matches(r, f) then Selected(records[..k], f) + [Row(Key(r.date, r.model), r.tokens)]
               else Selected(records[..k], f)
  {
    assert records[..k + 1][..k] == records[..k];
  }

  datatype Overview = Overview(sessions: nat, messages: nat, tokens: Tokens)

  method OverviewFrom(records: seq<Record>, f: Filter) returns (o: Overview)
    ensures IsSum(o.tokens, Selected(records, f), Keys(Selected(records, f)))
    ensures o.messages == |Selected(records, f)|
    ensures o.sessions == |set r | r in records && Matches(r, f) && r.session != [] :: r.session|
  {
    var tokens, messages, sessions: set<string> := NoTokens(), 0, {};
    for k := 0 to |records|
      invariant IsSum(tokens, Selected(records[..k], f), Keys(Selected(records[..k], f)))
      invariant messages == |Selected(records[..k], f)|
      invariant sessions == set r | r in records[..k] && Matches(r, f) && r.session != [] :: r.session
    {
      var r := records[k];
      assert records[..k + 1] == records[..k] + [r];
      SelectedStep(records, k, f);
      if Matches(r, f) {
        AddRow(tokens, Selected(records[..k], f), Row(Key(r.date, r.model), r.tokens));
        tokens := tokens.Plus(r.tokens);
        messages := messages + 1;
        if r.session != [] {
          sessions := sessions + {r.session};
        }
      }
    }
    assert records[..|records|] == records;
    return Overview(|sessions|, messages, tokens);
  }

  // ---- Grouping ----

  /** Newest day first, models in name order within a day. */
  predicate Before(a: Key, b: Key) {
    a.date > b.date || (a.date == b.date && Less(a.model, b.model))
  }

  function ByKey(): (Row, Row) -> bool {
    (a: Row, b: Row) => Before(a.key, b.key)
  }

  ghost predicate DistinctKeys(rows: seq<Row>) {
    forall i, j | 0 <= i < j < |rows| :: rows[i].key != rows[j].key
  }

  lemma KeyOrderIsStrict(a: Key, b: Key, d: Key)
    ensures a == b || Before(a, b) || Before(b, a)
    ensures !Before(a, a)
    ensures Before(a, b) && Before(b, d) ==> Before(a, d)
  {
    LessIsTotal(a.model, b.model);
    LessIsTotal(a.model, a.model);
    if Less(a.model, b.model) && Less(b.model, d.model) {
      LessIsTransitive(a.model, b.model, d.model);
    }
  }

  lemma RowsAreOrdered(rows: seq<Row>)
    requires DistinctKeys(rows)
    ensures Orders(ByKey(), iset r | r in rows)
  {
    forall a, b, d | a in rows && b in rows && d in rows
      ensures !ByKey()(a, a) && (a == b || ByKey()(a, b) || ByKey()(b, a))
      ensures ByKey()(a, b) && ByKey()(b, d) ==> ByKey()(a, d)
    {
      KeyOrderIsStrict(a.key, b.key, d.key);
    }
  }

  /** One row per key that occurs, holding all its tokens. */
  ghost predicate Groups(rows: seq<Row>, selected: seq<Row>) {
    && (forall r | r in rows :: r.key in Keys(selected) && IsSum(r.tokens, selected, {r.key}))
    && Keys(selected) <= Keys(rows)
  }

  method GroupByKey(records: seq<Record>, f: Filter) returns (groups: map<Key, Tokens>)
    ensures groups.Keys == Keys(Selected(records, f))
    ensures forall k | k in groups :: IsSum(groups[k], Selected(records, f), {k})
  {
    groups := map[];
    for i := 0 to |records|
      invariant groups.Keys == Keys(Selected(records[..i], f))
      invariant forall k | k in groups :: IsSum(groups[k], Selected(records[..i], f), {k})
    {
      var r := records[i];
      ghost var before := Selected(records[..i], f);
      SelectedStep(records, i, f);
      if Matches(r, f) {
        var key := Key(r.date, r.model);
        var entry := if key in groups then groups[key] else NoTokens();
        GroupStep(groups, before, Row(key, r.tokens));
        groups := groups[key := entry.Plus(r.tokens)];
      }
    }
    assert records[..|records|] == records;
  }

  /** One row per day and model, strictly sorted, each with all the tokens of its records. */
  method DailyByModelFrom(records: seq<Record>, f: Filter) returns (rows: seq<Row>)
    ensures StrictlySorted(rows, ByKey()) && Groups(rows, Selected(records, f))
  {
    var groups := GroupByKey(records, f);
    var out: seq<Row> := [];
    var pending := groups.Keys;
    while pending != {}
      invariant pending <= groups.Keys
      invariant DistinctKeys(out)
      invariant forall r | r in out :: r.key in groups && r.key !in pending && r.tokens == groups[r.key]
      invariant forall k | k in groups && k !in pending :: Row(k, groups[k]) in out
      decreases |pending|
    {
      var k :| k in pending;
      pending := pending - {k};
      out := out + [Row(k, groups[k])];
    }
    RowsAreOrdered(out);
    SortBySorts(out, ByKey(), iset r | r in out);
    rows := SortBy(out, ByKey());
    assert forall r :: r in rows <==> r in out;
    forall k | k in groups ensures k in Keys(rows) {
      assert Row(k, groups[k]) in rows;
    }
  }

  lemma LastKeyIsNew(front: seq<Row>, r: Row)
    requires StrictlySorted(front + [r], ByKey())
    ensures r.key !in Keys(front)
  {
    var rows := front + [r];
    forall x | x in front ensures x.key != r.key {
      var i :| 0 <= i < |front| && front[i] == x;
      assert ByKey()(rows[i], rows[|front|]);
      LessIsTotal(x.key.model, r.key.model);
    }
  }

  /** Grouping loses nothing: the rows hold exactly the overview's tokens, in every category. */
  lemma {:induction false} RowsAddUp(rows: seq<Row>, selected: seq<Row>, c: Category)
    requires StrictlySorted(rows, ByKey()) && forall r | r in rows :: IsSum(r.tokens, selected, {r.key})
    ensures SumAll(rows, c) == SumIn(selected, Keys(rows), c)
  {
    if rows == [] {
      assert Keys(rows) == {};
      SumOverNothing(selected, c);
    } else {
      var front, r := rows[..|rows| - 1], rows[|rows| - 1];
      assert rows == front + [r];
      RowsAddUp(front, selected, c);
      SumExtends(front, r, Keys(rows), c);
      LastKeyIsNew(front, r);
      SumDependsOnOccurringKeys(front, Keys(front), Keys(rows), c);
      SumOfDisjointKeys(selected, Keys(front), {r.key}, c);
    }
  }

  lemma DailyRowsMatchOverview(rows: seq<Row>, selected: seq<Row>, overview: Tokens)
    requires StrictlySorted(rows, ByKey()) && Groups(rows, selected)
    requires IsSum(overview, selected, Keys(selected))
    ensures IsSum(overview, rows, Keys(rows))
  {
    forall c ensures overview.In(c) == SumAll(rows, c) {
      RowsAddUp(rows, selected, c);
      assert Keys(rows) == Keys(selected);
    }
  }

  // ---- What the rows and filters say in plain terms ----

  /** Later days come first, and within a day models by name; no two rows share day and model. */
  lemma RowOrderInPlain(rows: seq<Row>, i: nat, j: nat)
    requires StrictlySorted(rows, ByKey()) && i < j < |rows|
    ensures var a, b := rows[i].key, rows[j].key;
            a.date > b.date || (a.date == b.date && Less(a.model, b.model))
  {
    assert ByKey()(rows[i], rows[j]);
  }

  function AnyRecord(): Filter {
    Filter(None, None, None, None, None)
  }

  /** Each field of a filter narrows it by its own comparison; the provider's narrows nothing. */
  lemma FiltersNarrow(r: Record, f: Filter, text: string, from: Option<int>, to: Option<int>)
    ensures Matches(r, AnyRecord()) && Matches(r, f.(provider := Some(text))) == Matches(r, f.(provider := None))
    ensures Matches(r, f.(project := Some(text))) <==> Matches(r, f.(project := None)) && r.project == text
    ensures Matches(r, f.(model := Some(text))) <==> Matches(r, f.(model := None)) && r.model == text
    ensures Matches(r, f.(session := Some(text))) <==> Matches(r, f.(session := None)) && r.session == text
    ensures Matches(r, f.(dateRange := Some(DateRange(from, to)))) <==>
            Matches(r, f.(dateRange := None))
            && (from == None || from.value <= r.date) && (to == None || r.date <= to.value)
  {
  }

  /** Cutting a date range in two loses no message and no token. */
  lemma {:induction false} DateRangesAddUp(
    records: seq<Record>, f: Filter, from: Option<int>, mid: int, to: Option<int>, c: Category)
    requires (from.Some? ==> from.value <= mid + 1) && (to.Some? ==> mid <= to.value)
    ensures var whole := Selected(records, f.(dateRange := Some(DateRange(from, to))));
            var early := Selected(records, f.(dateRange := Some(DateRange(from, Some(mid)))));
            var late := Selected(records, f.(dateRange := Some(DateRange(Some(mid + 1), to))));
            |whole| == |early| + |late| && SumAll(whole, c) == SumAll(early, c) + SumAll(late, c)
  {
    var w, e, l := f.(dateRange := Some(DateRange(from, to))), f.(dateRange := Some(DateRange(from, Some(mid)))),
                   f.(dateRange := Some(DateRange(Some(mid + 1), to)));
    if records != [] {
      var front, r := records[..|records| - 1], records[|records| - 1];
      DateRangesAddUp(front, f, from, mid, to, c);
      assert Matches(r, w) <==> Matches(r, e) || Matches(r, l);
      assert !(Matches(r, e) && Matches(r, l));
      var row := Row(Key(r.date, r.model), r.tokens);
      AllGrows(Selected(front, w), row, c);
      AllGrows(Selected(front, e), row, c);
      AllGrows(Selected(front, l), row, c);
    }
  }

  lemma AllGrows(rows: seq<Row>, r: Row, c: Category)
    ensures SumAll(rows + [r], c) == SumAll(rows, c) + r.tokens.In(c)
    ensures SumAll(rows + [], c) == SumAll(rows, c)
  {
    assert rows + [] == rows;
    SumExtends(rows, r, Keys(rows) + {r.key}, c);
    SumDependsOnOccurringKeys(rows, Keys(rows), Keys(rows) + {r.key}, c);
  }
}
