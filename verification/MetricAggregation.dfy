/** `decision_agent/evaluation/retrieval_metrics.py`: `aggregate_metrics`, over exact reals. */
module MetricAggregation {
  import opened Texts
  import opened Listings
  import opened RetrievalMetrics

  /** One entry of a metric mapping; a mapping lists its entries in insertion order. */
  datatype Entry = Entry(name: string, value: real)

  datatype ScoredQuery = ScoredQuery(category: string, metrics: seq<Entry>) {
    /** Keys of a mapping are distinct. */
    predicate IsMapping() { forall i, j :: 0 <= i < j < |metrics| ==> metrics[i].name != metrics[j].name }
  }

  datatype AggregateError = NoRows | NoMetrics | CategoryBlank | KeysDiffer | OutOfRange

  datatype Averages = Averages(overall: map<string, real>, perCategory: map<string, map<string, real>>)

  function Names(entries: seq<Entry>): seq<string>
  {
    seq(|entries|, i requires 0 <= i < |entries| => entries[i].name)
  }

  predicate InRange(entries: seq<Entry>) { forall i :: 0 <= i < |entries| ==> 0.0 <= entries[i].value <= 1.0 }

  /** The value of a metric in one row. */
  function ValueOf(entries: seq<Entry>, name: string): real
  {
    if entries == [] then 0.0
    else if entries[|entries| - 1].name == name then entries[|entries| - 1].value
    else ValueOf(entries[..|entries| - 1], name)
  }

  /** The first check that a row fails. */
  function RowError(row: ScoredQuery, names: seq<string>): Option<AggregateError>
  {
    if Blank(row.category) then Some(CategoryBlank)
    else if Names(row.metrics) != names then Some(KeysDiffer)
    else if !InRange(row.metrics) then Some(OutOfRange)
    else None
  }

  predicate Aggregable(rows: seq<ScoredQuery>)
  {
    && rows != [] && rows[0].metrics != []
    && FirstError(rows, |rows|, Names(rows[0].metrics)).None?
  }

  /** The error of the first of the first `n` rows that fails a check. */
  function FirstError(rows: seq<ScoredQuery>, n: nat, names: seq<string>): Option<AggregateError>
    requires n <= |rows|
  {
    if n == 0 then None
    else if FirstError(rows, n - 1, names).Some? then FirstError(rows, n - 1, names)
    else RowError(rows[n - 1], names)
  }

  lemma {:induction false} FirstErrorIsFirst(rows: seq<ScoredQuery>, n: nat, names: seq<string>)
    requires n <= |rows|
    ensures FirstError(rows, n, names).None? <==> forall i :: 0 <= i < n ==> RowError(rows[i], names).None?
    ensures FirstError(rows, n, names).Some? ==>
              exists i :: 0 <= i < n && RowError(rows[i], names) == FirstError(rows, n, names)
                          && forall k :: 0 <= k < i ==> RowError(rows[k], names).None?
  {
    if n > 0 { FirstErrorIsFirst(rows, n - 1, names); }
  }

  lemma {:induction false} ErrorStays(rows: seq<ScoredQuery>, n: nat, m: nat, names: seq<string>)
    requires n <= m <= |rows| && FirstError(rows, n, names).Some?
    ensures FirstError(rows, m, names) == FirstError(rows, n, names)
  {
    if n < m { ErrorStays(rows, n, m - 1, names); }
  }

  // ---------------------------------------------------------------- sums, stated over the rows

  function Total(rows: seq<ScoredQuery>, name: string): real
  {
    if rows == [] then 0.0
    else Total(rows[..|rows| - 1], name) + ValueOf(rows[|rows| - 1].metrics, name)
  }

  function CategoryTotal(rows: seq<ScoredQuery>, category: string, name: string): real
  {
    if rows == [] then 0.0
    else
      CategoryTotal(rows[..|rows| - 1], category, name)
      + (if rows[|rows| - 1].category == category then ValueOf(rows[|rows| - 1].metrics, name) else 0.0)
  }

  function Count(rows: seq<ScoredQuery>, category: string): nat
  {
    if rows == [] then 0
    else Count(rows[..|rows| - 1], category) + (if rows[|rows| - 1].category == category then 1 else 0)
  }

  function Categories(rows: seq<ScoredQuery>): set<string> { set i | 0 <= i < |rows| :: rows[i].category }

  lemma {:induction false} CountIsPositive(rows: seq<ScoredQuery>, category: string)
    ensures Count(rows, category) > 0 <==> category in Categories(rows)
  {
    if rows != [] {
      var n := |rows| - 1;
      CountIsPositive(rows[..n], category);
      assert Categories(rows) == Categories(rows[..n]) + {rows[n].category} by { CategoriesStep(rows, n); }
    }
  }

  lemma {:induction false} CategoriesStep(rows: seq<ScoredQuery>, n: nat)
    requires |rows| == n + 1
    ensures Categories(rows) == Categories(rows[..n]) + {rows[n].category}
  {
    forall c | c in Categories(rows) ensures c in Categories(rows[..n]) + {rows[n].category} {
      var i :| 0 <= i < |rows| && rows[i].category == c;
      if i < n { assert rows[..n][i].category == c; }
    }
    forall c | c in Categories(rows[..n]) ensures c in Categories(rows) {
      var i :| 0 <= i < n && rows[..n][i].category == c;
      assert rows[i].category == c;
    }
  }

  // ---------------------------------------------------------------- the accumulation

  /** A table holds the totals of some rows. */
  ghost predicate HoldsTotals(table: map<string, real>, rows: seq<ScoredQuery>, names: seq<string>)
  {
    && (forall name :: name in table <==> name in names)
    && (forall name :: name in table ==> table[name] == Total(rows, name))
  }

  ghost predicate HoldsCategory(table: map<string, real>, rows: seq<ScoredQuery>, names: seq<string>, category: string)
  {
    && (forall name :: name in table <==> name in names)
    && (forall name :: name in table ==> table[name] == CategoryTotal(rows, category, name))
  }

  /** The inner loop: add every entry of a row to a table that has its keys. */
  method AddEntries(table: map<string, real>, entries: seq<Entry>) returns (r: map<string, real>)
    requires ScoredQuery("", entries).IsMapping()
    requires forall i :: 0 <= i < |entries| ==> entries[i].name in table
    ensures r.Keys == table.Keys
    ensures forall name :: name in r ==> r[name] == table[name] + ValueOf(entries, name)
  {
    r := table;
    for i := 0 to |entries|
      invariant r.Keys == table.Keys
      invariant forall name :: name in table ==> r[name] == table[name] + ValueOf(entries[..i], name)
    {
      var e := entries[i];
      assert entries[..i + 1][..i] == entries[..i];
      NotYetThere(entries, i);
      r := r[e.name := r[e.name] + e.value];
    }
    assert entries[..|entries|] == entries;
  }

  lemma {:induction false} NotYetThere(entries: seq<Entry>, i: nat)
    requires ScoredQuery("", entries).IsMapping() && i < |entries|
    ensures ValueOf(entries[..i], entries[i].name) == 0.0
  {
    AbsentIsZero(entries[..i], entries[i].name);
  }

  lemma {:induction false} AbsentIsZero(entries: seq<Entry>, name: string)
    requires forall i :: 0 <= i < |entries| ==> entries[i].name != name
    ensures ValueOf(entries, name) == 0.0
  {
    if entries != [] { AbsentIsZero(entries[..|entries| - 1], name); }
  }

  method ValidateRow(row: ScoredQuery, names: seq<string>) returns (e: Option<AggregateError>)
    ensures e == RowError(row, names)
  {
    if Blank(row.category) { return Some(CategoryBlank); }
    if Names(row.metrics) != names { return Some(KeysDiffer); }
    for i := 0 to |row.metrics|
      invariant forall k :: 0 <= k < i ==> 0.0 <= row.metrics[k].value <= 1.0
    {
      if !(0.0 <= row.metrics[i].value <= 1.0) { return Some(OutOfRange); }
    }
    return None;
  }

  /** The tables that one pass over the rows builds. */
  datatype Tables = Tables(
    totals: map<string, real>, categories: map<string, map<string, real>>, counts: map<string, nat>)

  ghost predicate Summed(t: Tables, rows: seq<ScoredQuery>, names: seq<string>)
  {
    && HoldsTotals(t.totals, rows, names)
    && t.categories.Keys == Categories(rows) && t.counts.Keys == Categories(rows)
    && (forall c :: c in t.categories ==> HoldsCategory(t.categories[c], rows, names, c))
    && (forall c :: c in t.counts ==> t.counts[c] == Count(rows, c))
  }

  lemma {:induction false} NewCategory(rows: seq<ScoredQuery>, category: string, name: string)
    requires category !in Categories(rows)
    ensures CategoryTotal(rows, category, name) == 0.0
  {
    if rows != [] {
      var n := |rows| - 1;
      CategoriesStep(rows, n);
      assert rows[n].category in Categories(rows);
      NewCategory(rows[..n], category, name);
    }
  }

  lemma {:induction false} SameNames(entries: seq<Entry>, names: seq<string>)
    requires Names(entries) == names
    ensures forall i :: 0 <= i < |entries| ==> entries[i].name in names
  {
    forall i | 0 <= i < |entries| ensures entries[i].name in names { assert names[i] == entries[i].name; }
  }

  lemma {:induction false} TotalsStep(
    rows: seq<ScoredQuery>, row: ScoredQuery, names: seq<string>, before: map<string, real>,
    after: map<string, real>)
    requires HoldsTotals(before, rows, names) && after.Keys == before.Keys
    requires forall name :: name in after ==> after[name] == before[name] + ValueOf(row.metrics, name)
    ensures HoldsTotals(after, rows + [row], names)
  {
    assert (rows + [row])[..|rows|] == rows;
  }

  lemma {:induction false} CategoryStep(
    rows: seq<ScoredQuery>, row: ScoredQuery, names: seq<string>, before: map<string, real>,
    after: map<string, real>)
    requires HoldsCategory(before, rows, names, row.category) && after.Keys == before.Keys
    requires forall name :: name in after ==> after[name] == before[name] + ValueOf(row.metrics, name)
    ensures HoldsCategory(after, rows + [row], names, row.category)
  {
    assert (rows + [row])[..|rows|] == rows;
  }

  lemma {:induction false} OtherCategory(
    rows: seq<ScoredQuery>, row: ScoredQuery, names: seq<string>, c: string, table: map<string, real>)
    requires HoldsCategory(table, rows, names, c) && c != row.category
    ensures HoldsCategory(table, rows + [row], names, c)
  {
    assert (rows + [row])[..|rows|] == rows;
  }

  lemma {:induction false} CountStep(rows: seq<ScoredQuery>, row: ScoredQuery, c: string)
    ensures Count(rows + [row], c) == Count(rows, c) + (if row.category == c then 1 else 0)
  {
    assert (rows + [row])[..|rows|] == rows;
  }

  /** The body of the loop for a row that passed its checks. */
  method AddRow(t: Tables, ghost rows: seq<ScoredQuery>, row: ScoredQuery, names: seq<string>) returns (r: Tables)
    requires Summed(t, rows, names) && row.IsMapping() && Names(row.metrics) == names
    ensures Summed(r, rows + [row], names)
  {
    SameNames(row.metrics, names);
    var prior := PriorTotals(t, rows, row.category, names);
    var totals := AddEntries(t.totals, row.metrics);
    var mine := AddEntries(prior, row.metrics);
    var count := (if row.category in t.counts then t.counts[row.category] else 0) + 1;
    r := Tables(totals, t.categories[row.category := mine], t.counts[row.category := count]);
    TotalsStep(rows, row, names, t.totals, totals);
    CategoryStep(rows, row, names, prior, mine);
    SummedStep(t, rows, row, names, totals, mine, count);
  }

  /** What the default of the per-category table supplies. */
  method PriorTotals(
    t: Tables, ghost rows: seq<ScoredQuery>, category: string, names: seq<string>)
    returns (r: map<string, real>)
    requires Summed(t, rows, names)
    ensures HoldsCategory(r, rows, names, category)
  {
    if category in t.categories { return t.categories[category]; }
    forall name { NewCategory(rows, category, name); }
    r := map name | name in names :: 0.0;
  }

  lemma {:induction false} SummedStep(
    t: Tables, rows: seq<ScoredQuery>, row: ScoredQuery, names: seq<string>, totals: map<string, real>,
    mine: map<string, real>, count: nat)
    requires Summed(t, rows, names)
    requires HoldsTotals(totals, rows + [row], names) && HoldsCategory(mine, rows + [row], names, row.category)
    requires count == (if row.category in t.counts then t.counts[row.category] else 0) + 1
    ensures Summed(Tables(totals, t.categories[row.category := mine], t.counts[row.category := count]),
                   rows + [row], names)
  {
    var after := rows + [row];
    assert after[..|rows|] == rows;
    CategoriesStep(after, |rows|);
    CountIsPositive(rows, row.category);
    forall c | c in t.categories && c != row.category ensures HoldsCategory(t.categories[c], after, names, c) {
      OtherCategory(rows, row, names, c, t.categories[c]);
    }
    forall c { CountStep(rows, row, c); }
  }

  /** `q` is `total` divided by `n`. */
  predicate IsAverage(q: real, total: real, n: nat) { n > 0 && Times(q, n) == total }

  lemma {:induction false} QuotientIsAverage(total: real, n: nat)
    requires n > 0
    ensures IsAverage(total / n as real, total, n)
  {
  }

  /** Every entry of a table divided by `n`. */
  function Divided(table: map<string, real>, n: nat): map<string, real>
    requires n > 0
  {
    map name | name in table :: table[name] / n as real
  }

  lemma {:induction false} DividedIsAverage(table: map<string, real>, n: nat)
    requires n > 0
    ensures Divided(table, n).Keys == table.Keys
    ensures forall name :: name in Divided(table, n) ==> IsAverage(Divided(table, n)[name], table[name], n)
  {
    forall name | name in table { QuotientIsAverage(table[name], n); }
  }

  lemma {:induction false} PrefixStep(rows: seq<ScoredQuery>, i: nat)
    requires i < |rows|
    ensures rows[..i] + [rows[i]] == rows[..i + 1]
  {
  }

  /** The loop over the rows. */
  method SumRows(rows: seq<ScoredQuery>, names: seq<string>) returns (r: Result<Tables, AggregateError>)
    requires forall i :: 0 <= i < |rows| ==> rows[i].IsMapping()
    ensures r.Ok? <==> FirstError(rows, |rows|, names).None?
    ensures r.Ok? ==> Summed(r.value, rows, names)
    ensures r.Err? ==> FirstError(rows, |rows|, names) == Some(r.error)
  {
    var t := Tables(map name | name in names :: 0.0, map[], map[]);
    for i := 0 to |rows|
      invariant Summed(t, rows[..i], names)
      invariant FirstError(rows, i, names).None?
    {
      var e := ValidateRow(rows[i], names);
      if e.Some? {
        ErrorStays(rows, i + 1, |rows|, names);
        return Err(e.value);
      }
      PrefixStep(rows, i);
      t := AddRow(t, rows[..i], rows[i], names);
    }
    assert rows[..|rows|] == rows;
    return Ok(t);
  }

  /** The averages overall and in each category, or the first failing check. */
  method AggregateMetrics(rows: seq<ScoredQuery>) returns (r: Result<Averages, AggregateError>)
    requires forall i :: 0 <= i < |rows| ==> rows[i].IsMapping()
    ensures r.Ok? <==> Aggregable(rows)
    ensures r.Ok? ==> Averaged(r.value, rows)
    ensures r.Err? ==> RejectedFor(r.error, rows)
  {
    if rows == [] { return Err(NoRows); }
    var names := Names(rows[0].metrics);
    if names == [] { return Err(NoMetrics); }
    var summed := SumRows(rows, names);
    var t;
    match summed { case Err(e) => return Err(e); case Ok(tables) => t := tables; }
    var overall := Divided(t.totals, |rows|);
    DividedIsAverage(t.totals, |rows|);
    var perCategory := DivideCategories(t, rows, names);
    return Ok(Averages(overall, perCategory));
  }

  /** The comprehension over the categories. */
  method DivideCategories(
    t: Tables, ghost rows: seq<ScoredQuery>, names: seq<string>) returns (r: map<string, map<string, real>>)
    requires Summed(t, rows, names)
    ensures r.Keys == Categories(rows)
    ensures forall c :: c in r ==> CategoryAveraged(r[c], rows, c, names)
  {
    forall c | c in t.categories
      ensures t.counts[c] > 0 && CategoryAveraged(Divided(t.categories[c], t.counts[c]), rows, c, names)
    {
      CategoryIsAveraged(t, rows, names, c);
    }
    return map c | c in t.categories :: Divided(t.categories[c], t.counts[c]);
  }

  lemma {:induction false} CategoryIsAveraged(t: Tables, rows: seq<ScoredQuery>, names: seq<string>, c: string)
    requires Summed(t, rows, names) && c in t.categories
    ensures t.counts[c] > 0 && CategoryAveraged(Divided(t.categories[c], t.counts[c]), rows, c, names)
  {
    CountIsPositive(rows, c);
    DividedIsAverage(t.categories[c], t.counts[c]);
    assert HoldsCategory(t.categories[c], rows, names, c);
  }

  ghost predicate Averaged(a: Averages, rows: seq<ScoredQuery>)
    requires rows != []
  {
    var names := Names(rows[0].metrics);
    && a.perCategory.Keys == Categories(rows)
    && (forall name :: name in a.overall <==> name in names)
    && (forall name :: name in a.overall ==> IsAverage(a.overall[name], Total(rows, name), |rows|))
    && (forall c :: c in a.perCategory ==> CategoryAveraged(a.perCategory[c], rows, c, names))
  }

  ghost predicate CategoryAveraged(
    averages: map<string, real>, rows: seq<ScoredQuery>, category: string, names: seq<string>)
  {
    && (forall name :: name in averages <==> name in names)
    && (forall name :: name in averages ==>
          IsAverage(averages[name], CategoryTotal(rows, category, name), Count(rows, category)))
  }

  ghost predicate RejectedFor(e: AggregateError, rows: seq<ScoredQuery>)
  {
    if rows == [] then e == NoRows
    else if rows[0].metrics == [] then e == NoMetrics
    else FirstError(rows, |rows|, Names(rows[0].metrics)) == Some(e)
  }

  // ---------------------------------------------------------------- conservation

  function SumOver(categories: seq<string>, f: string -> real): real
  {
    if categories == [] then 0.0 else SumOver(categories[..|categories| - 1], f) + f(categories[|categories| - 1])
  }

  /** What a category contributes: its count times its average. */
  function Share(a: Averages, rows: seq<ScoredQuery>, name: string, category: string): real
  {
    if category in a.perCategory && name in a.perCategory[category] then
      Times(a.perCategory[category][name], Count(rows, category))
    else 0.0
  }

  lemma {:induction false} ShareIsTotal(a: Averages, rows: seq<ScoredQuery>, name: string, category: string)
    requires rows != [] && Averaged(a, rows) && name in a.overall && category in Categories(rows)
    ensures Share(a, rows, name, category) == CategoryTotal(rows, category, name)
  {
    assert CategoryAveraged(a.perCategory[category], rows, category, Names(rows[0].metrics));
    assert IsAverage(a.perCategory[category][name], CategoryTotal(rows, category, name), Count(rows, category));
  }

  lemma {:induction false} SameSum(categories: seq<string>, f: string -> real, g: string -> real)
    requires forall i :: 0 <= i < |categories| ==> f(categories[i]) == g(categories[i])
    ensures SumOver(categories, f) == SumOver(categories, g)
  {
    if categories != [] { SameSum(categories[..|categories| - 1], f, g); }
  }

  function SumOfTotals(rows: seq<ScoredQuery>, categories: seq<string>, name: string): real
  {
    SumOver(categories, category => CategoryTotal(rows, category, name))
  }

  /** A new row adds its value to exactly one category. */
  lemma {:induction false} SumGrows(
    categories: seq<string>, f: string -> real, g: string -> real, category: string, value: real)
    requires Distinct(categories)
    requires forall c :: g(c) == f(c) + (if c == category then value else 0.0)
    ensures SumOver(categories, g) == SumOver(categories, f) + (if category in categories then value else 0.0)
  {
    if categories != [] {
      var m := |categories| - 1;
      SumGrows(categories[..m], f, g, category, value);
      assert categories == categories[..m] + [categories[m]];
    }
  }

  lemma {:induction false} SumOfZeros(categories: seq<string>, f: string -> real)
    requires forall c :: f(c) == 0.0
    ensures SumOver(categories, f) == 0.0
  {
    if categories != [] { SumOfZeros(categories[..|categories| - 1], f); }
  }

  lemma {:induction false} TotalsAddUp(rows: seq<ScoredQuery>, categories: seq<string>, name: string)
    requires Distinct(categories)
    requires forall i :: 0 <= i < |rows| ==> rows[i].category in categories
    ensures SumOfTotals(rows, categories, name) == Total(rows, name)
  {
    if rows == [] {
      SumOfZeros(categories, category => CategoryTotal(rows, category, name));
    } else {
      var last := rows[|rows| - 1];
      TotalsAddUp(rows[..|rows| - 1], categories, name);
      SumGrows(categories, category => CategoryTotal(rows[..|rows| - 1], category, name),
               category => CategoryTotal(rows, category, name), last.category, ValueOf(last.metrics, name));
    }
  }

  /** Averages are conserved: over the categories, listed once each in any order, count times average adds
      up to the number of rows times the overall average. */
  lemma {:induction false} AveragesAreConserved(
    a: Averages, rows: seq<ScoredQuery>, categories: seq<string>, name: string)
    requires Aggregable(rows) && Averaged(a, rows) && name in a.overall
    requires Distinct(categories) && forall c :: c in categories <==> c in Categories(rows)
    ensures SumOver(categories, category => Share(a, rows, name, category)) == Times(a.overall[name], |rows|)
  {
    forall i | 0 <= i < |categories|
      ensures Share(a, rows, name, categories[i]) == CategoryTotal(rows, categories[i], name)
    {
      assert categories[i] in categories;
      ShareIsTotal(a, rows, name, categories[i]);
    }
    forall i | 0 <= i < |rows| ensures rows[i].category in categories { assert rows[i].category in Categories(rows); }
    SameSum(categories, category => Share(a, rows, name, category), category => CategoryTotal(rows, category, name));
    TotalsAddUp(rows, categories, name);
    assert IsAverage(a.overall[name], Total(rows, name), |rows|);
  }

  lemma {:induction false} ValueInRange(entries: seq<Entry>, name: string)
    requires InRange(entries)
    ensures 0.0 <= ValueOf(entries, name) <= 1.0
  {
    if entries != [] { ValueInRange(entries[..|entries| - 1], name); }
  }

  lemma {:induction false} CategoryTotalInRange(rows: seq<ScoredQuery>, category: string, name: string)
    requires forall i :: 0 <= i < |rows| ==> InRange(rows[i].metrics)
    ensures 0.0 <= CategoryTotal(rows, category, name) <= Count(rows, category) as real
  {
    if rows != [] {
      CategoryTotalInRange(rows[..|rows| - 1], category, name);
      ValueInRange(rows[|rows| - 1].metrics, name);
    }
  }

  lemma {:induction false} TotalInRange(rows: seq<ScoredQuery>, name: string)
    requires forall i :: 0 <= i < |rows| ==> InRange(rows[i].metrics)
    ensures 0.0 <= Total(rows, name) <= |rows| as real
  {
    if rows != [] {
      TotalInRange(rows[..|rows| - 1], name);
      ValueInRange(rows[|rows| - 1].metrics, name);
    }
  }

  lemma {:induction false} AverageInRange(q: real, total: real, n: nat)
    requires 0.0 <= total <= n as real && IsAverage(q, total, n)
    ensures 0.0 <= q <= 1.0
  {
    CancelFactor(0.0, q, n as real);
    CancelFactor(q, 1.0, n as real);
  }

  /** Averages of values in [0, 1] stay there, overall and in every category. */
  lemma {:induction false} AveragesStayInRange(a: Averages, rows: seq<ScoredQuery>, category: string, name: string)
    requires Aggregable(rows) && Averaged(a, rows) && name in a.overall && category in a.perCategory
    ensures 0.0 <= a.overall[name] <= 1.0
    ensures name in a.perCategory[category] && 0.0 <= a.perCategory[category][name] <= 1.0
  {
    FirstErrorIsFirst(rows, |rows|, Names(rows[0].metrics));
    forall i | 0 <= i < |rows| ensures InRange(rows[i].metrics) {
      assert RowError(rows[i], Names(rows[0].metrics)).None?;
    }
    TotalInRange(rows, name);
    AverageInRange(a.overall[name], Total(rows, name), |rows|);
    CategoryTotalInRange(rows, category, name);
    assert CategoryAveraged(a.perCategory[category], rows, category, Names(rows[0].metrics));
    AverageInRange(a.perCategory[category][name], CategoryTotal(rows, category, name), Count(rows, category));
  }

  // ---------------------------------------------------------------- averages of columns

  /** Every row has a non-blank category and the same metric names as the first, with values in [0, 1]. */
  predicate WellFormed(row: ScoredQuery, first: ScoredQuery)
  {
    && !Blank(row.category) && |row.metrics| == |first.metrics|
    && (forall p :: 0 <= p < |row.metrics| ==> row.metrics[p].name == first.metrics[p].name)
    && (forall p :: 0 <= p < |row.metrics| ==> 0.0 <= row.metrics[p].value <= 1.0)
  }

  lemma {:induction false} SameNamesAsFirst(row: ScoredQuery, first: ScoredQuery)
    ensures Names(row.metrics) == Names(first.metrics)
       <==> |row.metrics| == |first.metrics|
            && forall p :: 0 <= p < |row.metrics| ==> row.metrics[p].name == first.metrics[p].name
  {
    if Names(row.metrics) == Names(first.metrics) {
      assert |Names(row.metrics)| == |Names(first.metrics)|;
      forall p | 0 <= p < |row.metrics| ensures row.metrics[p].name == first.metrics[p].name {
        assert Names(row.metrics)[p] == Names(first.metrics)[p];
      }
    }
  }

  lemma {:induction false} NoErrorMeansWellFormed(row: ScoredQuery, first: ScoredQuery)
    ensures RowError(row, Names(first.metrics)).None? <==> WellFormed(row, first)
  {
    SameNamesAsFirst(row, first);
  }

  /** Averages are computed exactly for rows that all are well formed, and have a metric. */
  lemma {:induction false} AggregableIff(rows: seq<ScoredQuery>)
    ensures Aggregable(rows)
       <==> rows != [] && rows[0].metrics != [] && forall i :: 0 <= i < |rows| ==> WellFormed(rows[i], rows[0])
  {
    if rows != [] {
      FirstErrorIsFirst(rows, |rows|, Names(rows[0].metrics));
      forall i | 0 <= i < |rows|
        ensures RowError(rows[i], Names(rows[0].metrics)).None? <==> WellFormed(rows[i], rows[0])
      {
        NoErrorMeansWellFormed(rows[i], rows[0]);
      }
    }
  }

  /** The error is about the first row that is not well formed: its category, else its names, else its values. */
  lemma {:induction false} ErrorOfFirstBadRow(rows: seq<ScoredQuery>, e: AggregateError) returns (i: nat)
    requires rows != [] && rows[0].metrics != [] && RejectedFor(e, rows)
    ensures i < |rows| && !WellFormed(rows[i], rows[0])
    ensures forall k :: 0 <= k < i ==> WellFormed(rows[k], rows[0])
    ensures e == CategoryBlank <==> Blank(rows[i].category)
    ensures e == KeysDiffer <==> !Blank(rows[i].category) && Names(rows[i].metrics) != Names(rows[0].metrics)
    ensures e == OutOfRange <==> !Blank(rows[i].category) && Names(rows[i].metrics) == Names(rows[0].metrics)
  {
    var names := Names(rows[0].metrics);
    FirstErrorIsFirst(rows, |rows|, names);
    i :| 0 <= i < |rows| && RowError(rows[i], names) == FirstError(rows, |rows|, names)
         && forall k :: 0 <= k < i ==> RowError(rows[k], names).None?;
    NoErrorMeansWellFormed(rows[i], rows[0]);
    forall k | 0 <= k < i ensures WellFormed(rows[k], rows[0]) { NoErrorMeansWellFormed(rows[k], rows[0]); }
  }

  /** The values of column `p` added up, over all rows or over those of one category. */
  function ColumnSum(rows: seq<ScoredQuery>, p: nat, category: Option<string>): real
    requires forall i :: 0 <= i < |rows| ==> p < |rows[i].metrics|
  {
    if rows == [] then 0.0
    else (if category.None? || rows[0].category == category.value then rows[0].metrics[p].value else 0.0)
         + ColumnSum(rows[1..], p, category)
  }

  lemma {:induction false} ColumnSumAppend(
    rows: seq<ScoredQuery>, p: nat, category: Option<string>, row: ScoredQuery)
    requires forall i :: 0 <= i < |rows| ==> p < |rows[i].metrics|
    requires p < |row.metrics|
    ensures ColumnSum(rows + [row], p, category)
         == ColumnSum(rows, p, category)
            + (if category.None? || row.category == category.value then row.metrics[p].value else 0.0)
  {
    if rows == [] {
      assert [] + [row] == [row];
      assert ColumnSum([row][1..], p, category) == 0.0;
    } else {
      assert (rows + [row])[1..] == rows[1..] + [row];
      ColumnSumAppend(rows[1..], p, category, row);
    }
  }

  lemma {:induction false} ValueAtPlace(row: ScoredQuery, p: nat)
    requires row.IsMapping() && p < |row.metrics|
    ensures ValueOf(row.metrics, row.metrics[p].name) == row.metrics[p].value
  {
    ValueInPrefix(row, p, |row.metrics|);
    assert row.metrics[..|row.metrics|] == row.metrics;
  }

  lemma {:induction false} ValueInPrefix(row: ScoredQuery, p: nat, n: nat)
    requires row.IsMapping() && p < n <= |row.metrics|
    ensures ValueOf(row.metrics[..n], row.metrics[p].name) == row.metrics[p].value
  {
    if p < n - 1 {
      ValueInPrefix(row, p, n - 1);
      assert row.metrics[..n][..n - 1] == row.metrics[..n - 1];
    }
  }

  lemma {:induction false} TotalsAreColumns(rows: seq<ScoredQuery>, p: nat, name: string, category: string)
    requires forall i :: 0 <= i < |rows| ==>
               rows[i].IsMapping() && p < |rows[i].metrics| && rows[i].metrics[p].name == name
    ensures Total(rows, name) == ColumnSum(rows, p, None)
    ensures CategoryTotal(rows, category, name) == ColumnSum(rows, p, Some(category))
  {
    if rows != [] {
      var n := |rows| - 1;
      TotalsAreColumns(rows[..n], p, name, category);
      assert rows == rows[..n] + [rows[n]];
      ColumnSumAppend(rows[..n], p, None, rows[n]);
      ColumnSumAppend(rows[..n], p, Some(category), rows[n]);
      ValueAtPlace(rows[n], p);
    }
  }

  lemma {:induction false} CountIsCardinality(rows: seq<ScoredQuery>, category: string, n: nat)
    requires n <= |rows|
    ensures Count(rows[..n], category) == |set i: nat | i < n && rows[i].category == category|
  {
    if n > 0 {
      CountIsCardinality(rows, category, n - 1);
      assert rows[..n][..n - 1] == rows[..n - 1];
      var before := set i: nat | i < n - 1 && rows[i].category == category;
      var all := set i: nat | i < n && rows[i].category == category;
      OneMore(before, all, n - 1, rows[n - 1].category == category);
    }
  }

  /** The average of a metric times the number of rows is the sum of its column, overall and within each
      category. */
  lemma {:induction false} AveragesAreColumnMeans(a: Averages, rows: seq<ScoredQuery>, p: nat, category: string)
    requires Aggregable(rows) && Averaged(a, rows) && forall i :: 0 <= i < |rows| ==> rows[i].IsMapping()
    requires p < |rows[0].metrics| && category in a.perCategory
    ensures forall i :: 0 <= i < |rows| ==> p < |rows[i].metrics|
    ensures var name := rows[0].metrics[p].name;
            && name in a.overall && Times(a.overall[name], |rows|) == ColumnSum(rows, p, None)
            && name in a.perCategory[category]
            && Times(a.perCategory[category][name], |set i: nat | i < |rows| && rows[i].category == category|)
               == ColumnSum(rows, p, Some(category))
  {
    var name := rows[0].metrics[p].name;
    AggregableIff(rows);
    forall i | 0 <= i < |rows| ensures p < |rows[i].metrics| && rows[i].metrics[p].name == name {
      assert WellFormed(rows[i], rows[0]);
    }
    TotalsAreColumns(rows, p, name, category);
    CountIsCardinality(rows, category, |rows|);
    assert rows[..|rows|] == rows;
    AveragesOf(a, rows, p, category);
  }

  lemma {:induction false} AveragesOf(a: Averages, rows: seq<ScoredQuery>, p: nat, category: string)
    requires rows != [] && Averaged(a, rows) && p < |rows[0].metrics| && category in a.perCategory
    ensures var name := rows[0].metrics[p].name;
            && name in a.overall && Times(a.overall[name], |rows|) == Total(rows, name)
            && name in a.perCategory[category]
            && Times(a.perCategory[category][name], Count(rows, category)) == CategoryTotal(rows, category, name)
  {
    hide Times, Total, CategoryTotal, Count;
    var names := Names(rows[0].metrics);
    assert names[p] in names;
    assert CategoryAveraged(a.perCategory[category], rows, category, names);
  }
}
