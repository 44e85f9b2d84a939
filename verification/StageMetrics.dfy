/** `decision_agent/evaluation/enterprise_retrieval_baseline.py`: the metrics of one stage, summed over the
    answerable queries. */
module StageMetrics {
  import opened Texts
  import opened Labels
  import opened RetrievalMetrics
  import opened Scoring
  import opened MetricAggregation

  function Ks(stage: Stage): seq<int> { if stage.Cut() == 10 then [1, 3, 5, 10] else [1, 3, 5] }

  /** The metrics that a stage reports. */
  predicate Reports(stage: Stage, name: Metric)
  {
    match name
    case HitRate(k) => k == 1 || k == 3 || k == 5 || k == stage.Cut()
    case Recall(k) => k == 1 || k == 3 || k == 5 || k == stage.Cut()
    case Mrr(k) => k == 5 || k == stage.Cut()
  }

  function Measure(name: Metric, ranked: seq<string>, relevant: set<string>): real
    requires relevant != {} && name.k > 0
  {
    match name
    case HitRate(k) => HitRateAt(ranked, relevant, k)
    case Recall(k) => RecallAt(ranked, relevant, k)
    case Mrr(k) => MrrAt(ranked, relevant, k)
  }

  /** Can the metrics of the ranking be computed? */
  predicate Scorable(
    ranked: seq<string>, relevant: seq<string>) { ValidIds(ranked) && relevant != [] && ValidIds(relevant) }

  /** The table of one query holds exactly the metrics of the stage. */
  ghost predicate Tabulates(m: map<Metric, real>, ranked: seq<string>, relevant: set<string>, stage: Stage)
    requires relevant != {}
  {
    && (forall name :: name in m <==> Reports(stage, name))
    && (forall name :: name in m ==> name.k > 0 && m[name] == Measure(name, ranked, relevant))
  }

  lemma {:induction false} KsOf(stage: Stage)
    ensures forall k :: k in Ks(stage) <==> k == 1 || k == 3 || k == 5 || k == stage.Cut()
  {
    assert [1, 3, 5, 10][0] == 1 && [1, 3, 5, 10][1] == 3 && [1, 3, 5, 10][2] == 5 && [1, 3, 5, 10][3] == 10;
    assert [1, 3, 5][0] == 1 && [1, 3, 5][1] == 3 && [1, 3, 5][2] == 5;
  }

  lemma {:induction false} MeasuresAreTabulated(
    m: map<Metric, real>, ranked: seq<string>, relevant: set<string>, stage: Stage, extra: real)
    requires relevant != {} && Measures(m, ranked, relevant, Ks(stage), stage.Cut())
    requires extra == MrrAt(ranked, relevant, 5)
    ensures Tabulates(if stage.Cut() == 10 then m[Mrr(5) := extra] else m, ranked, relevant, stage)
  {
    KsOf(stage);
    var table := if stage.Cut() == 10 then m[Mrr(5) := extra] else m;
    forall name: Metric
      ensures name in table <==> Reports(stage, name)
      ensures name in table ==> name.k > 0 && table[name] == Measure(name, ranked, relevant)
    {
      match name
      case HitRate(k) =>
      case Recall(k) =>
      case Mrr(k) =>
    }
  }

  /** The body of the loop: the metrics of one answerable row. */
  method RowMetrics(
    ranked: seq<string>, relevant: seq<string>, stage: Stage)
    returns (r: Result<map<Metric, real>, MetricError>)
    ensures r.Ok? <==> Scorable(ranked, relevant)
    ensures r.Ok? ==> Elements(relevant) != {} && Tabulates(r.value, ranked, Elements(relevant), stage)
  {
    KsOf(stage);
    r := ComputeQueryMetrics(ranked, relevant, Ks(stage), stage.Cut());
    match r {
      case Err(e) => return Err(e);
      case Ok(m) =>
        MeasuresAreTabulated(m, ranked, Elements(relevant), stage, MrrAt(ranked, Elements(relevant), 5));
        if stage.Cut() == 10 {
          var shallow := ComputeQueryMetrics(ranked, relevant, [5], 5);
          match shallow {
            case Err(e) => return Err(e);
            case Ok(five) => r := Ok(m[Mrr(5) := five[Mrr(5)]]);
          }
        }
    }
  }

  // ---------------------------------------------------------------- summing over the queries

  predicate AllScorable(rows: seq<Row>, truths: map<string, Truth>, stage: Stage)
    requires Known(rows, truths)
  {
    forall i :: 0 <= i < |rows| ==>
      var truth := truths[rows[i].queryId];
      truth.answerable ==> Scorable(Ids(rows[i], stage), TruthAt(truth, stage).relevant)
  }

  /** The sum of a metric over the answerable rows. */
  function Numerator(rows: seq<Row>, truths: map<string, Truth>, stage: Stage, name: Metric): real
    requires Known(rows, truths) && name.k > 0
  {
    if rows == [] then 0.0
    else Numerator(rows[..|rows| - 1], truths, stage, name)
         + ValueFor(rows[|rows| - 1], truths[rows[|rows| - 1].queryId], stage, name)
  }

  function ValueFor(row: Row, truth: Truth, stage: Stage, name: Metric): real
    requires name.k > 0
  {
    if truth.answerable && Relevant(truth, stage) != {}
    then Measure(name, Ids(row, stage), Relevant(truth, stage))
    else 0.0
  }

  /** Each table of `perQuery` belongs to one answerable row, in order. */
  function SumOf(perQuery: seq<map<Metric, real>>, name: Metric): real
  {
    if perQuery == [] then 0.0
    else
      var last := perQuery[|perQuery| - 1];
      SumOf(perQuery[..|perQuery| - 1], name) + (if name in last then last[name] else 0.0)
  }

  lemma {:induction false} SumAppends(perQuery: seq<map<Metric, real>>, m: map<Metric, real>, name: Metric)
    ensures SumOf(perQuery + [m], name) == SumOf(perQuery, name) + (if name in m then m[name] else 0.0)
  {
    assert (perQuery + [m])[..|perQuery|] == perQuery;
  }

  lemma {:induction false} NumeratorNext(
    rows: seq<Row>, truths: map<string, Truth>, stage: Stage, row: Row, name: Metric)
    requires Known(rows, truths) && row.queryId in truths && name.k > 0
    ensures Known(rows + [row], truths)
    ensures Numerator(rows + [row], truths, stage, name)
         == Numerator(rows, truths, stage, name) + ValueFor(row, truths[row.queryId], stage, name)
  {
    assert (rows + [row])[..|rows|] == rows;
  }

  lemma {:induction false} AnswerableNext(rows: seq<Row>, truths: map<string, Truth>, row: Row)
    requires Known(rows, truths) && row.queryId in truths
    ensures Known(rows + [row], truths)
    ensures AnswerableCount(rows + [row], truths)
         == AnswerableCount(rows, truths) + (if truths[row.queryId].answerable then 1 else 0)
  {
    assert (rows + [row])[..|rows|] == rows;
  }

  /** The tables collected so far sum to the numerators of the rows so far. */
  ghost predicate Collected(perQuery: seq<map<Metric, real>>, rows: seq<Row>, truths: map<string, Truth>, stage: Stage)
    requires Known(rows, truths)
  {
    && |perQuery| == AnswerableCount(rows, truths)
    && (forall i, name :: 0 <= i < |perQuery| ==> (name in perQuery[i] <==> Reports(stage, name)))
    && (forall name :: Reports(stage, name) ==> SumOf(perQuery, name) == Numerator(rows, truths, stage, name))
  }

  lemma {:induction false} CollectedNext(
    perQuery: seq<map<Metric, real>>, rows: seq<Row>, truths: map<string, Truth>, stage: Stage, row: Row,
    m: map<Metric, real>)
    requires Known(rows, truths) && row.queryId in truths && Collected(perQuery, rows, truths, stage)
    requires truths[row.queryId].answerable && Relevant(truths[row.queryId], stage) != {}
    requires Tabulates(m, Ids(row, stage), Relevant(truths[row.queryId], stage), stage)
    ensures Known(rows + [row], truths) && Collected(perQuery + [m], rows + [row], truths, stage)
  {
    AnswerableNext(rows, truths, row);
    forall name | Reports(stage, name)
      ensures SumOf(perQuery + [m], name) == Numerator(rows + [row], truths, stage, name)
    {
      assert name in m;
      SumAppends(perQuery, m, name);
      NumeratorNext(rows, truths, stage, row, name);
    }
  }

  lemma {:induction false} CollectedSkip(
    perQuery: seq<map<Metric, real>>, rows: seq<Row>, truths: map<string, Truth>, stage: Stage, row: Row)
    requires Known(rows, truths) && row.queryId in truths && Collected(perQuery, rows, truths, stage)
    requires !truths[row.queryId].answerable
    ensures Known(rows + [row], truths) && Collected(perQuery, rows + [row], truths, stage)
  {
    AnswerableNext(rows, truths, row);
    forall name | Reports(stage, name)
      ensures SumOf(perQuery, name) == Numerator(rows + [row], truths, stage, name)
    {
      NumeratorNext(rows, truths, stage, row, name);
    }
  }

  datatype Aggregate = Aggregate(numerator: real, denominator: nat, value: real)

  lemma {:induction false} ScorableNext(rows: seq<Row>, truths: map<string, Truth>, stage: Stage, i: nat)
    requires Known(rows, truths) && i < |rows|
    ensures var truth := truths[rows[i].queryId];
            && (AllScorable(rows[..i + 1], truths, stage) <==>
                  AllScorable(rows[..i], truths, stage)
                  && (truth.answerable ==> Scorable(Ids(rows[i], stage), TruthAt(truth, stage).relevant)))
            && (AllScorable(rows, truths, stage) ==> AllScorable(rows[..i + 1], truths, stage))
  {
    assert forall k :: 0 <= k < i ==> rows[..i][k] == rows[k] == rows[..i + 1][k];
    assert rows[..i + 1][i] == rows[i];
  }

  /** The three child rankings before the reranker are also measured at ten. */
  function TableKeys(stage: Stage): set<Metric>
  {
    var shallow := {HitRate(1), HitRate(3), HitRate(5), Recall(1), Recall(3), Recall(5), Mrr(5)};
    if stage == Dense || stage == Bm25 || stage == Rrf then shallow + {HitRate(10), Recall(10), Mrr(10)} else shallow
  }

  lemma {:induction false} ReportedAreTableKeys(stage: Stage, name: Metric)
    ensures Reports(stage, name) <==> name in TableKeys(stage)
  {
  }

  /** `_stage_metrics` for one stage. */
  method StageMetricsOf(rows: seq<Row>, truths: map<string, Truth>, stage: Stage)
    returns (r: Result<map<Metric, Aggregate>, ScoreError>)
    requires Known(rows, truths)
    ensures r.Ok? <==> AnswerableCount(rows, truths) > 0 && AllScorable(rows, truths, stage)
    ensures r.Ok? ==> Aggregated(r.value, rows, truths, stage) && r.value.Keys == TableKeys(stage)
  {
    hide TableKeys, Aggregated;
    var perQuery: seq<map<Metric, real>> := [];
    for i := 0 to |rows|
      invariant Collected(perQuery, rows[..i], truths, stage)
      invariant AllScorable(rows[..i], truths, stage)
    {
      var truth := truths[rows[i].queryId];
      PrefixNext(rows, i);
      ScorableNext(rows, truths, stage, i);
      if truth.answerable {
        var m := RowMetrics(Ids(rows[i], stage), TruthAt(truth, stage).relevant, stage);
        match m {
          case Err(e) => return Err(MetricRejected(e));
          case Ok(table) =>
            CollectedNext(perQuery, rows[..i], truths, stage, rows[i], table);
            perQuery := perQuery + [table];
        }
      } else {
        CollectedSkip(perQuery, rows[..i], truths, stage, rows[i]);
      }
    }
    assert rows[..|rows|] == rows;
    if perQuery == [] { return Err(NoAnswerableRow); }
    var aggregates := AggregateTables(perQuery);
    TablesAggregate(aggregates, perQuery, rows, truths, stage);
    return Ok(aggregates);
  }

  ghost predicate Aggregated(a: map<Metric, Aggregate>, rows: seq<Row>, truths: map<string, Truth>, stage: Stage)
    requires Known(rows, truths)
  {
    && (forall name :: name in a <==> Reports(stage, name))
    && (forall name :: name in a ==>
          name.k > 0 && a[name].numerator == Numerator(rows, truths, stage, name)
          && a[name].denominator == AnswerableCount(rows, truths) > 0
          && IsAverage(a[name].value, a[name].numerator, a[name].denominator))
  }

  lemma {:induction false} TablesAggregate(
    a: map<Metric, Aggregate>, perQuery: seq<map<Metric, real>>, rows: seq<Row>, truths: map<string, Truth>,
    stage: Stage)
    requires Known(rows, truths) && Collected(perQuery, rows, truths, stage) && perQuery != []
    requires a.Keys == perQuery[0].Keys
    requires forall name :: name in a ==>
               a[name].numerator == SumOf(perQuery, name) && a[name].denominator == |perQuery|
               && IsAverage(a[name].value, a[name].numerator, a[name].denominator)
    ensures Aggregated(a, rows, truths, stage) && a.Keys == TableKeys(stage)
  {
    hide TableKeys, IsAverage, SumOf, Numerator;
    forall name: Metric
      ensures name in a <==> Reports(stage, name)
      ensures name in a <==> name in TableKeys(stage)
    {
      ReportedAreTableKeys(stage, name);
      assert name in perQuery[0] <==> Reports(stage, name);
    }
  }

  /** `_metric_aggregate` */
  method AggregateTables(perQuery: seq<map<Metric, real>>) returns (r: map<Metric, Aggregate>)
    requires perQuery != []
    ensures r.Keys == perQuery[0].Keys
    ensures forall name :: name in r ==>
              r[name].numerator == SumOf(perQuery, name) && r[name].denominator == |perQuery|
              && IsAverage(r[name].value, r[name].numerator, r[name].denominator)
  {
    forall name | name in perQuery[0] { QuotientIsAverage(SumOf(perQuery, name), |perQuery|); }
    r := map name | name in perQuery[0] ::
      Aggregate(SumOf(perQuery, name), |perQuery|, SumOf(perQuery, name) / |perQuery| as real);
  }

  // ---------------------------------------------------------------- every aggregate is a valid ratio

  lemma {:induction false} MeasureInRange(name: Metric, ranked: seq<string>, relevant: set<string>)
    requires relevant != {} && name.k > 0
    ensures 0.0 <= Measure(name, ranked, relevant) <= 1.0
  {
    match name
    case HitRate(k) =>
    case Recall(k) => RecallIsMonotone(ranked, relevant, k, k);
    case Mrr(k) => MrrLiesBetweenHitRates(ranked, relevant, k, k);
  }

  lemma {:induction false} NumeratorInRange(rows: seq<Row>, truths: map<string, Truth>, stage: Stage, name: Metric)
    requires Known(rows, truths) && name.k > 0
    ensures 0.0 <= Numerator(rows, truths, stage, name) <= AnswerableCount(rows, truths) as real
  {
    if rows != [] {
      var last := rows[|rows| - 1];
      NumeratorInRange(rows[..|rows| - 1], truths, stage, name);
      if truths[last.queryId].answerable && Relevant(truths[last.queryId], stage) != {} {
        MeasureInRange(name, Ids(last, stage), Relevant(truths[last.queryId], stage));
      }
    }
  }

  /** The bounds that the aggregate's own validator asks for always hold. */
  lemma {:induction false} AggregatesAreValid(
    a: map<Metric, Aggregate>, rows: seq<Row>, truths: map<string, Truth>, stage: Stage, name: Metric)
    requires Known(rows, truths) && Aggregated(a, rows, truths, stage) && name in a
    ensures a[name].numerator >= 0.0 && a[name].denominator > 0 && 0.0 <= a[name].value <= 1.0
  {
    NumeratorInRange(rows, truths, stage, name);
    AverageInRange(a[name].value, a[name].numerator, a[name].denominator);
  }
}
