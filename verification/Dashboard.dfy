/** The dashboard's pivot: days down, models across, with row, column and grand totals of tokens. */
module Dashboard {
  import opened UsageRows
  import opened Sorting
  import JsonlRecords
  import Json

  datatype Pivot = Pivot(
    columns: seq<string>, days: seq<int>, cells: seq<seq<Tokens>>,
    rowTotals: seq<Tokens>, columnTotals: seq<Tokens>, grand: Tokens)

  // ---- What the table shows ----

  ghost function Models(rows: seq<Row>): set<string> {
    set k | k in Keys(rows) :: k.model
  }

  ghost function Days(rows: seq<Row>): set<int> {
    set k | k in Keys(rows) :: k.date
  }

  /** All tokens of one model, categories added together. */
  function ModelTotal(rows: seq<Row>, model: string): nat {
    if rows == [] then 0
    else
      var r := rows[|rows| - 1];
      ModelTotal(rows[..|rows| - 1], model) + if r.key.model == model then r.tokens.Total() else 0
  }

  /** Busier models first, equal ones in name order. */
  function ByTotal(rows: seq<Row>): (string, string) -> bool {
    (a: string, b: string) =>
      ModelTotal(rows, a) > ModelTotal(rows, b) || (ModelTotal(rows, a) == ModelTotal(rows, b) && Less(a, b))
  }

  function NewestFirst(): (int, int) -> bool {
    (a: int, b: int) => a > b
  }

  ghost function OnDay(rows: seq<Row>, day: int): set<Key> {
    set k | k in Keys(rows) && k.date == day
  }

  ghost function OfModel(rows: seq<Row>, model: string): set<Key> {
    set k | k in Keys(rows) && k.model == model
  }

  /** Every number of the table is the sum of the rows it stands for. */
  ghost predicate Shows(p: Pivot, rows: seq<Row>) {
    && StrictlySorted(p.columns, ByTotal(rows)) && (forall m :: m in p.columns <==> m in Models(rows))
    && StrictlySorted(p.days, NewestFirst()) && (forall d :: d in p.days <==> d in Days(rows))
    && |p.cells| == |p.rowTotals| == |p.days| && |p.columnTotals| == |p.columns|
    && (forall i | 0 <= i < |p.days| :: ShowsDay(p.cells[i], p.rowTotals[i], p.columns, p.days[i], rows))
    && (forall j | 0 <= j < |p.columns| :: IsSum(p.columnTotals[j], rows, OfModel(rows, p.columns[j])))
    && IsSum(p.grand, rows, Keys(rows))
  }

  ghost predicate ShowsDay(cells: seq<Tokens>, total: Tokens, columns: seq<string>, day: int, rows: seq<Row>) {
    && |cells| == |columns|
    && (forall j | 0 <= j < |columns| :: IsSum(cells[j], rows, {Key(day, columns[j])}))
    && IsSum(total, rows, OnDay(rows, day))
  }

  // ---- Building it ----

  method CellIndex(rows: seq<Row>) returns (index: map<Key, Tokens>)
    ensures index.Keys == Keys(rows) && forall k | k in index :: IsSum(index[k], rows, {k})
  {
    index := map[];
    for i := 0 to |rows|
      invariant index.Keys == Keys(rows[..i]) && forall k | k in index :: IsSum(index[k], rows[..i], {k})
    {
      var r := rows[i];
      assert rows[..i + 1] == rows[..i] + [r];
      GroupStep(index, rows[..i], r);
      var entry := if r.key in index then index[r.key] else NoTokens();
      index := index[r.key := entry.Plus(r.tokens)];
    }
    assert rows[..|rows|] == rows;
  }

  function CellOf(index: map<Key, Tokens>, k: Key): Tokens {
    if k in index then index[k] else NoTokens()
  }

  lemma CellIsSum(index: map<Key, Tokens>, rows: seq<Row>, k: Key)
    requires index.Keys == Keys(rows) && forall x | x in index :: IsSum(index[x], rows, {x})
    ensures IsSum(CellOf(index, k), rows, {k})
  {
    if k !in index {
      forall c ensures SumIn(rows, {k}, c) == 0 {
        SumDependsOnOccurringKeys(rows, {k}, {}, c);
        SumOverNothing(rows, c);
      }
    }
  }

  /** Adding a cell of a new key extends a running total. */
  lemma AddCell(t: Tokens, cell: Tokens, rows: seq<Row>, keys: set<Key>, k: Key)
    requires IsSum(t, rows, keys) && IsSum(cell, rows, {k}) && k !in keys
    ensures IsSum(t.Plus(cell), rows, keys + {k})
  {
    forall c ensures t.Plus(cell).In(c) == SumIn(rows, keys + {k}, c) {
      SumOfDisjointKeys(rows, keys, {k}, c);
    }
  }

  lemma NothingIsSum(rows: seq<Row>)
    ensures IsSum(NoTokens(), rows, {})
  {
    forall c ensures SumIn(rows, {}, c) == 0 {
      SumOverNothing(rows, c);
    }
  }

  lemma SameOccurringKeys(t: Tokens, rows: seq<Row>, a: set<Key>, b: set<Key>)
    requires IsSum(t, rows, a) && a * Keys(rows) == b * Keys(rows)
    ensures IsSum(t, rows, b)
  {
    forall c ensures t.In(c) == SumIn(rows, b, c) {
      SumDependsOnOccurringKeys(rows, a, b, c);
    }
  }

  ghost function Across(day: int, models: seq<string>): set<Key> {
    set m | m in models :: Key(day, m)
  }

  ghost function Down(days: seq<int>, model: string): set<Key> {
    set d | d in days :: Key(d, model)
  }

  method DayRow(index: map<Key, Tokens>, ghost rows: seq<Row>, columns: seq<string>, day: int)
    returns (cells: seq<Tokens>, total: Tokens)
    requires index.Keys == Keys(rows) && forall k | k in index :: IsSum(index[k], rows, {k})
    requires Distinct(columns) && forall m :: m in columns <==> m in Models(rows)
    ensures ShowsDay(cells, total, columns, day, rows)
  {
    cells, total := [], NoTokens();
    NothingIsSum(rows);
    assert Across(day, columns[..0]) == {};
    for j := 0 to |columns|
      invariant |cells| == j && forall i | 0 <= i < j :: IsSum(cells[i], rows, {Key(day, columns[i])})
      invariant IsSum(total, rows, Across(day, columns[..j]))
    {
      var k := Key(day, columns[j]);
      var cell := CellOf(index, k);
      CellIsSum(index, rows, k);
      assert columns[..j + 1] == columns[..j] + [columns[j]];
      assert Across(day, columns[..j + 1]) == Across(day, columns[..j]) + {k};
      AddCell(total, cell, rows, Across(day, columns[..j]), k);
      total := total.Plus(cell);
      cells := cells + [cell];
    }
    assert columns[..|columns|] == columns;
    assert Across(day, columns) * Keys(rows) == OnDay(rows, day) * Keys(rows);
    SameOccurringKeys(total, rows, Across(day, columns), OnDay(rows, day));
  }

  method ColumnTotal(index: map<Key, Tokens>, ghost rows: seq<Row>, days: seq<int>, model: string)
    returns (total: Tokens)
    requires index.Keys == Keys(rows) && forall k | k in index :: IsSum(index[k], rows, {k})
    requires Distinct(days) && forall d :: d in days <==> d in Days(rows)
    ensures IsSum(total, rows, OfModel(rows, model))
  {
    total := NoTokens();
    NothingIsSum(rows);
    assert Down(days[..0], model) == {};
    for i := 0 to |days|
      invariant IsSum(total, rows, Down(days[..i], model))
    {
      var k := Key(days[i], model);
      CellIsSum(index, rows, k);
      assert days[..i + 1] == days[..i] + [days[i]];
      assert Down(days[..i + 1], model) == Down(days[..i], model) + {k};
      AddCell(total, CellOf(index, k), rows, Down(days[..i], model), k);
      if k in index {
        total := total.Plus(index[k]);
      } else {
        SameTokens(total.Plus(NoTokens()), total);
      }
    }
    assert days[..|days|] == days;
    assert Down(days, model) * Keys(rows) == OfModel(rows, model) * Keys(rows);
    SameOccurringKeys(total, rows, Down(days, model), OfModel(rows, model));
  }

  method GrandTotal(rows: seq<Row>) returns (total: Tokens)
    ensures IsSum(total, rows, Keys(rows))
  {
    total := NoTokens();
    for i := 0 to |rows|
      invariant IsSum(total, rows[..i], Keys(rows[..i]))
    {
      assert rows[..i + 1] == rows[..i] + [rows[i]];
      AddRow(total, rows[..i], rows[i]);
      total := total.Plus(rows[i].tokens);
    }
    assert rows[..|rows|] == rows;
  }

  lemma TotalOrder(rows: seq<Row>, members: iset<string>)
    ensures Orders(ByTotal(rows), members)
  {
    forall a, b, d
      ensures !ByTotal(rows)(a, a) && (a == b || ByTotal(rows)(a, b) || ByTotal(rows)(b, a))
      ensures ByTotal(rows)(a, b) && ByTotal(rows)(b, d) ==> ByTotal(rows)(a, d)
    {
      LessIsTotal(a, b);
      LessIsTotal(a, a);
      if Less(a, b) && Less(b, d) {
        LessIsTransitive(a, b, d);
      }
    }
  }

  lemma SortedIsDistinct<T(!new)>(s: seq<T>, before: (T, T) -> bool)
    requires StrictlySorted(s, before) && forall x | x in s :: !before(x, x)
    ensures Distinct(s)
  {
  }

  method Columns(rows: seq<Row>) returns (columns: seq<string>)
    ensures StrictlySorted(columns, ByTotal(rows)) && Distinct(columns)
    ensures forall m :: m in columns <==> m in Models(rows)
  {
    var names := set r | r in rows :: r.key.model;
    forall m ensures m in names <==> m in Models(rows) {
      if m in names {
        var r :| r in rows && r.key.model == m;
        assert r.key in Keys(rows);
      }
    }
    var found := Elements(names);
    var members := iset m | m in found;
    TotalOrder(rows, members);
    SortBySorts(found, ByTotal(rows), members);
    columns := SortBy(found, ByTotal(rows));
    assert forall m :: m in columns <==> m in found;
    SortedIsDistinct(columns, ByTotal(rows));
  }

  method DaysDescending(rows: seq<Row>) returns (days: seq<int>)
    ensures StrictlySorted(days, NewestFirst()) && Distinct(days)
    ensures forall d :: d in days <==> d in Days(rows)
  {
    var dates := set r | r in rows :: r.key.date;
    forall d ensures d in dates <==> d in Days(rows) {
      if d in dates {
        var r :| r in rows && r.key.date == d;
        assert r.key in Keys(rows);
      }
    }
    var found := Elements(dates);
    SortBySorts(found, NewestFirst(), iset d | d in found);
    days := SortBy(found, NewestFirst());
    assert forall d :: d in days <==> d in found;
  }

  method PresentDashboard(rows: seq<Row>) returns (p: Pivot)
    ensures Shows(p, rows)
  {
    var columns := Columns(rows);
    var index := CellIndex(rows);
    var days := DaysDescending(rows);
    var cells, rowTotals, columnTotals: seq<Tokens> := [], [], [];
    for i := 0 to |days|
      invariant |cells| == |rowTotals| == i
      invariant forall a | 0 <= a < i :: ShowsDay(cells[a], rowTotals[a], columns, days[a], rows)
    {
      var row, total := DayRow(index, rows, columns, days[i]);
      cells, rowTotals := cells + [row], rowTotals + [total];
    }
    for j := 0 to |columns|
      invariant |columnTotals| == j
      invariant forall b | 0 <= b < j :: IsSum(columnTotals[b], rows, OfModel(rows, columns[b]))
    {
      var total := ColumnTotal(index, rows, days, columns[j]);
      columnTotals := columnTotals + [total];
    }
    var grand := GrandTotal(rows);
    p := Pivot(columns, days, cells, rowTotals, columnTotals, grand);
  }

  // ---- The margins agree ----

  function Added(ts: seq<Tokens>, c: Category): nat {
    if ts == [] then 0 else Added(ts[..|ts| - 1], c) + ts[|ts| - 1].In(c)
  }

  ghost function OnDays(rows: seq<Row>, days: seq<int>): set<Key> {
    set k | k in Keys(rows) && k.date in days
  }

  lemma {:induction false} DayTotalsAdd(ts: seq<Tokens>, days: seq<int>, rows: seq<Row>, c: Category)
    requires |ts| == |days| && Distinct(days)
    requires forall i | 0 <= i < |days| :: IsSum(ts[i], rows, OnDay(rows, days[i]))
    ensures Added(ts, c) == SumIn(rows, OnDays(rows, days), c)
  {
    if days == [] {
      assert OnDays(rows, days) == {};
      SumOverNothing(rows, c);
    } else {
      var front, last := days[..|days| - 1], days[|days| - 1];
      assert days == front + [last];
      DayTotalsAdd(ts[..|ts| - 1], front, rows, c);
      assert OnDays(rows, days) == OnDays(rows, front) + OnDay(rows, last);
      SumOfDisjointKeys(rows, OnDays(rows, front), OnDay(rows, last), c);
    }
  }

  ghost function OfModels(rows: seq<Row>, models: seq<string>): set<Key> {
    set k | k in Keys(rows) && k.model in models
  }

  lemma {:induction false} ModelTotalsAdd(ts: seq<Tokens>, models: seq<string>, rows: seq<Row>, c: Category)
    requires |ts| == |models| && Distinct(models)
    requires forall i | 0 <= i < |models| :: IsSum(ts[i], rows, OfModel(rows, models[i]))
    ensures Added(ts, c) == SumIn(rows, OfModels(rows, models), c)
  {
    if models == [] {
      assert OfModels(rows, models) == {};
      SumOverNothing(rows, c);
    } else {
      var front, last := models[..|models| - 1], models[|models| - 1];
      assert models == front + [last];
      ModelTotalsAdd(ts[..|ts| - 1], front, rows, c);
      assert OfModels(rows, models) == OfModels(rows, front) + OfModel(rows, last);
      SumOfDisjointKeys(rows, OfModels(rows, front), OfModel(rows, last), c);
    }
  }

  /** Row totals, column totals and the grand total agree in every token category. */
  lemma MarginsAgree(p: Pivot, rows: seq<Row>, c: Category)
    requires Shows(p, rows)
    ensures Added(p.rowTotals, c) == p.grand.In(c) == Added(p.columnTotals, c)
  {
    TotalOrder(rows, iset m | m in p.columns);
    SortedIsDistinct(p.columns, ByTotal(rows));
    DayTotalsAdd(p.rowTotals, p.days, rows, c);
    ModelTotalsAdd(p.columnTotals, p.columns, rows, c);
    assert OnDays(rows, p.days) == Keys(rows);
    assert OfModels(rows, p.columns) == Keys(rows);
  }

  /** From records through both groupings: the table's grand total is the overview's total. */
  lemma GrandTotalIsOverview(
    records: seq<JsonlRecords.Record>, f: JsonlRecords.Filter, rows: seq<Row>, p: Pivot, overview: Tokens)
    requires StrictlySorted(rows, JsonlRecords.ByKey())
    requires JsonlRecords.Groups(rows, JsonlRecords.Selected(records, f))
    requires IsSum(overview, JsonlRecords.Selected(records, f), Keys(JsonlRecords.Selected(records, f)))
    requires Shows(p, rows)
    ensures p.grand == overview
  {
    JsonlRecords.DailyRowsMatchOverview(rows, JsonlRecords.Selected(records, f), overview);
    SameTokens(p.grand, overview);
  }

  /** A table has no freedom left: two tables showing the same rows are the same table. */
  lemma TableIsDetermined(p: Pivot, q: Pivot, rows: seq<Row>)
    requires Shows(p, rows) && Shows(q, rows)
    ensures p.columns == q.columns && p.days == q.days && p.grand == q.grand
    ensures p.cells == q.cells && p.rowTotals == q.rowTotals && p.columnTotals == q.columnTotals
  {
    var members := iset m | m in p.columns;
    TotalOrder(rows, members);
    assert forall i | 0 <= i < |q.columns| :: q.columns[i] in q.columns;
    SortedIsUnique(p.columns, q.columns, ByTotal(rows), members);
    assert forall i | 0 <= i < |q.days| :: q.days[i] in q.days;
    SortedIsUnique(p.days, q.days, NewestFirst(), iset d | d in p.days);
    SameTokens(p.grand, q.grand);
    forall i | 0 <= i < |p.days| ensures p.rowTotals[i] == q.rowTotals[i] && p.cells[i] == q.cells[i] {
      assert ShowsDay(p.cells[i], p.rowTotals[i], p.columns, p.days[i], rows);
      assert ShowsDay(q.cells[i], q.rowTotals[i], p.columns, p.days[i], rows);
      SameTokens(p.rowTotals[i], q.rowTotals[i]);
      forall j | 0 <= j < |p.columns| ensures p.cells[i][j] == q.cells[i][j] {
        SameTokens(p.cells[i][j], q.cells[i][j]);
      }
    }
    forall j | 0 <= j < |p.columns| ensures p.columnTotals[j] == q.columnTotals[j] {
      SameTokens(p.columnTotals[j], q.columnTotals[j]);
    }
  }

  // ---- Order and filters in plain terms ----

  ghost function AllTokens(t: Tokens): nat {
    t.input + t.output + t.reasoning + t.cacheRead + t.cacheWrite
  }

  lemma {:induction false} ModelTotalIsSum(rows: seq<Row>, model: string)
    ensures ModelTotal(rows, model)
            == SumIn(rows, OfModel(rows, model), Input) + SumIn(rows, OfModel(rows, model), Output)
               + SumIn(rows, OfModel(rows, model), Reasoning) + SumIn(rows, OfModel(rows, model), CacheRead)
               + SumIn(rows, OfModel(rows, model), CacheWrite)
  {
    if rows != [] {
      var front, r := rows[..|rows| - 1], rows[|rows| - 1];
      assert rows == front + [r];
      ModelTotalIsSum(front, model);
      forall c ensures SumIn(rows, OfModel(rows, model), c)
                       == SumIn(front, OfModel(front, model), c) + if r.key.model == model then r.tokens.In(c) else 0
      {
        SumExtends(front, r, OfModel(rows, model), c);
        SumDependsOnOccurringKeys(front, OfModel(front, model), OfModel(rows, model), c);
      }
    }
  }

  /** Columns stand in order of the totals they show, the larger first, equal ones by name; days newest first. */
  lemma TableOrder(p: Pivot, rows: seq<Row>, i: nat, j: nat)
    requires Shows(p, rows) && i < j
    ensures j < |p.columns| ==>
              var a, b := AllTokens(p.columnTotals[i]), AllTokens(p.columnTotals[j]);
              a > b || (a == b && Less(p.columns[i], p.columns[j]))
    ensures j < |p.days| ==> p.days[i] > p.days[j]
  {
    if j < |p.columns| {
      assert ByTotal(rows)(p.columns[i], p.columns[j]);
      ShownTotal(p.columnTotals[i], rows, p.columns[i]);
      ShownTotal(p.columnTotals[j], rows, p.columns[j]);
    }
    if j < |p.days| {
      assert NewestFirst()(p.days[i], p.days[j]);
    }
  }

  lemma ShownTotal(t: Tokens, rows: seq<Row>, model: string)
    requires IsSum(t, rows, OfModel(rows, model))
    ensures AllTokens(t) == ModelTotal(rows, model)
  {
    ModelTotalIsSum(rows, model);
    assert t.In(Input) == t.input && t.In(Output) == t.output && t.In(Reasoning) == t.reasoning;
    assert t.In(CacheRead) == t.cacheRead && t.In(CacheWrite) == t.cacheWrite;
  }

  ghost function Kept(rows: seq<Row>, keep: Key -> bool): set<Key> {
    set k | k in Keys(rows) && keep(k)
  }

  ghost predicate Narrows(narrow: JsonlRecords.Filter, wide: JsonlRecords.Filter, keep: Key -> bool) {
    forall r :: JsonlRecords.Matches(r, narrow) <==> JsonlRecords.Matches(r, wide) && keep(Key(r.date, r.model))
  }

  lemma {:induction false} NarrowedSum(
    records: seq<JsonlRecords.Record>, wide: JsonlRecords.Filter, narrow: JsonlRecords.Filter, keep: Key -> bool,
    c: Category)
    requires Narrows(narrow, wide, keep)
    ensures var rows := JsonlRecords.Selected(records, wide);
            SumAll(JsonlRecords.Selected(records, narrow), c) == SumIn(rows, Kept(rows, keep), c)
  {
    if records != [] {
      var front, r := records[..|records| - 1], records[|records| - 1];
      NarrowedSum(front, wide, narrow, keep, c);
      var row := Row(Key(r.date, r.model), r.tokens);
      assert JsonlRecords.Matches(r, narrow) <==> JsonlRecords.Matches(r, wide) && keep(row.key);
      JsonlRecords.AllGrows(JsonlRecords.Selected(front, narrow), row, c);
      KeptGrows(JsonlRecords.Selected(front, wide), row, keep, c);
    }
  }

  lemma KeptGrows(rows: seq<Row>, r: Row, keep: Key -> bool, c: Category)
    ensures rows + [] == rows
    ensures SumIn(rows + [r], Kept(rows + [r], keep), c)
            == SumIn(rows, Kept(rows, keep), c) + if keep(r.key) then r.tokens.In(c) else 0
  {
    SumExtends(rows, r, Kept(rows + [r], keep), c);
    SumDependsOnOccurringKeys(rows, Kept(rows, keep), Kept(rows + [r], keep), c);
  }

  /** Filtering records by a model gives the tokens of its column, and by a single day those of its row. */
  lemma FiltersAreMargins(
    records: seq<JsonlRecords.Record>, f: JsonlRecords.Filter, model: string, day: int, c: Category)
    requires f.model == Json.None && f.dateRange == Json.None
    ensures var rows := JsonlRecords.Selected(records, f);
            && SumAll(JsonlRecords.Selected(records, OnlyModel(f, model)), c) == SumIn(rows, OfModel(rows, model), c)
            && SumAll(JsonlRecords.Selected(records, OnlyDay(f, day)), c) == SumIn(rows, OnDay(rows, day), c)
  {
    var rows := JsonlRecords.Selected(records, f);
    NarrowedSum(records, f, OnlyModel(f, model), (k: Key) => k.model == model, c);
    assert Kept(rows, (k: Key) => k.model == model) == OfModel(rows, model);
    NarrowedSum(records, f, OnlyDay(f, day), (k: Key) => k.date == day, c);
    assert Kept(rows, (k: Key) => k.date == day) == OnDay(rows, day);
  }

  function OnlyModel(f: JsonlRecords.Filter, model: string): JsonlRecords.Filter {
    f.(model := Json.Some(model))
  }

  function OnlyDay(f: JsonlRecords.Filter, day: int): JsonlRecords.Filter {
    f.(dateRange := Json.Some(JsonlRecords.DateRange(Json.Some(day), Json.Some(day))))
  }
}
