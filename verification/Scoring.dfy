/** `decision_agent/evaluation/enterprise_retrieval_baseline.py`: the scorers over ranked candidates. */
module Scoring {
  import opened Texts
  import opened Listings
  import opened Labels
  import opened RetrievalMetrics

  datatype Stage = Dense | Bm25 | Rrf | Reranker | ParentStage | Evidence {
    predicate IsChild() { Dense? || Bm25? || Rrf? || Reranker? }
    /** How deep the stage's stored first relevant rank looks. */
    function Cut(): nat { if Dense? || Bm25? || Rrf? then 10 else 5 }
  }

  const STAGES := [Dense, Bm25, Rrf, Reranker, ParentStage, Evidence]
  const CHILD_STAGES := [Dense, Bm25, Rrf, Reranker]

  datatype PerStage<T> = PerStage(dense: T, bm25: T, rrf: T, reranker: T, parent: T, evidence: T) {
    function At(stage: Stage): T
    {
      match stage
      case Dense => dense
      case Bm25 => bm25
      case Rrf => rrf
      case Reranker => reranker
      case ParentStage => parent
      case Evidence => evidence
    }
  }

  datatype Candidate = Candidate(id: string, tag: RelevanceLabel)

  datatype Row = Row(queryId: string, answerable: bool, candidates: PerStage<seq<Candidate>>,
      firstRanks: PerStage<Option<nat>>)

  function IdsIn(candidates: seq<Candidate>): seq<string>
  {
    seq(|candidates|, i requires 0 <= i < |candidates| => candidates[i].id)
  }

  /** `_ranked_ids` */
  function Ids(row: Row, stage: Stage): seq<string> { IdsIn(row.candidates.At(stage)) }

  function TruthAt(truth: Truth, stage: Stage): LevelTruth { if stage.IsChild() then truth.children else truth.parents }

  function Relevant(truth: Truth, stage: Stage): set<string> { Elements(TruthAt(truth, stage).relevant) }

  // ---------------------------------------------------------------- building a row

  function Tagged(ids: seq<string>, t: LevelTruth): seq<Candidate>
  {
    seq(|ids|, i requires 0 <= i < |ids| => Candidate(ids[i], Label(ids[i], t)))
  }

  function StoredRank(ranked: seq<string>, truth: Truth, stage: Stage): Option<nat>
  {
    if truth.answerable then FirstRank(ranked, Relevant(truth, stage), stage.Cut()) else None
  }

  /** What `evaluate_retrieval_results` stores for one query, given the identities each stage returned. */
  function RowOf(rankings: PerStage<seq<string>>, truth: Truth): Row
  {
    Row(truth.queryId, truth.answerable,
        PerStage(Tagged(rankings.dense, truth.children), Tagged(rankings.bm25, truth.children),
                 Tagged(rankings.rrf, truth.children), Tagged(rankings.reranker, truth.children),
                 Tagged(rankings.parent, truth.parents), Tagged(rankings.evidence, truth.parents)),
        PerStage(StoredRank(rankings.dense, truth, Dense), StoredRank(rankings.bm25, truth, Bm25),
                 StoredRank(rankings.rrf, truth, Rrf), StoredRank(rankings.reranker, truth, Reranker),
                 StoredRank(rankings.parent, truth, ParentStage), StoredRank(rankings.evidence, truth, Evidence)))
  }

  /** The checks that `analyze_saved_query_results` makes of a stored row. */
  predicate Checked(row: Row, truth: Truth)
  {
    && row.queryId == truth.queryId && row.answerable == truth.answerable
    && forall stage: Stage :: row.firstRanks.At(stage) == StoredRank(Ids(row, stage), truth, stage)
  }

  /** The tags of a stored row, which those checks do not look at. */
  predicate WellTagged(row: Row, truth: Truth)
  {
    forall stage: Stage :: row.candidates.At(stage) == Tagged(Ids(row, stage), TruthAt(truth, stage))
  }

  /** Rows, each with the ground truth of its query. */
  predicate Known(rows: seq<Row>, truths: map<string, Truth>)
  {
    forall i :: 0 <= i < |rows| ==> rows[i].queryId in truths
  }

  // ---------------------------------------------------------------- failures

  datatype FailureType =
    | Top1Miss(stage: Stage) | NoRelevantAt5(stage: Stage)
    | RerankerRegressed | RrfRegressedVsDense | RrfRegressedVsBm25
    | HardBeforeRelevant(stage: Stage) | OverlapBeforeRelevant(stage: Stage) | UnanswerableReturnsEvidence

  datatype Failure = Failure(queryId: string, types: set<FailureType>)

  function RankOr(rank: Option<nat>, other: nat): nat { if rank.Some? then rank.value else other }

  function Before(row: Row, stage: Stage): seq<Candidate>
  {
    var c := row.candidates.At(stage);
    c[..Min(|c|, Max(0, RankOr(row.firstRanks.At(stage), 6) - 1))]
  }

  predicate HasTag(candidates: seq<Candidate>, tag: RelevanceLabel)
  {
    exists i :: 0 <= i < |candidates| && candidates[i].tag == tag
  }

  /** Is a failure type recorded for the row? */
  predicate Fails(row: Row, answerable: bool, t: FailureType)
  {
    if !answerable then t == UnanswerableReturnsEvidence && row.candidates.evidence != []
    else
      match t
      case Top1Miss(s) => s.IsChild() && row.firstRanks.At(s) != Some(1)
      case NoRelevantAt5(s) => !s.Evidence? && RankOr(row.firstRanks.At(s), 6) > 5
      case RerankerRegressed => RankOr(row.firstRanks.reranker, 6) > RankOr(row.firstRanks.rrf, 6)
      case RrfRegressedVsDense => RankOr(row.firstRanks.rrf, 6) > RankOr(row.firstRanks.dense, 11)
      case RrfRegressedVsBm25 => RankOr(row.firstRanks.rrf, 6) > RankOr(row.firstRanks.bm25, 11)
      case HardBeforeRelevant(s) => HasTag(Before(row, s), HardNegativeLabel)
      case OverlapBeforeRelevant(s) => HasTag(Before(row, s), OverlappingLabel)
      case UnanswerableReturnsEvidence => false
  }

  lemma {:induction false} StagesAreListed(stage: Stage)
    ensures stage in STAGES && (stage in CHILD_STAGES <==> stage.IsChild())
  {
    assert STAGES[0] == Dense && STAGES[1] == Bm25 && STAGES[2] == Rrf && STAGES[3] == Reranker;
    assert STAGES[4] == ParentStage && STAGES[5] == Evidence;
    assert CHILD_STAGES[0] == Dense && CHILD_STAGES[1] == Bm25 && CHILD_STAGES[2] == Rrf && CHILD_STAGES[3] == Reranker;
  }

  /** The loop over the child stages. */
  method ChildFailures(row: Row) returns (types: set<FailureType>)
    ensures forall t :: t in types <==> (t.Top1Miss? || t.NoRelevantAt5?) && t.stage.IsChild() && Fails(row, true, t)
  {
    types := {};
    for i := 0 to |CHILD_STAGES|
      invariant forall t :: t in types <==>
                  (t.Top1Miss? || t.NoRelevantAt5?) && t.stage in CHILD_STAGES[..i] && Fails(row, true, t)
    {
      var stage := CHILD_STAGES[i];
      StagesAreListed(stage);
      var rank := row.firstRanks.At(stage);
      if rank != Some(1) { types := types + {Top1Miss(stage)}; }
      if rank.None? || rank.value > 5 { types := types + {NoRelevantAt5(stage)}; }
      assert CHILD_STAGES[..i + 1] == CHILD_STAGES[..i] + [stage];
    }
    assert CHILD_STAGES[..|CHILD_STAGES|] == CHILD_STAGES;
    forall stage: Stage { StagesAreListed(stage); }
  }

  /** The loop over all stages. */
  method BeforeFailures(row: Row) returns (types: set<FailureType>)
    ensures forall t :: t in types <==> (t.HardBeforeRelevant? || t.OverlapBeforeRelevant?) && Fails(row, true, t)
  {
    types := {};
    for i := 0 to |STAGES|
      invariant forall t :: t in types <==>
                  (t.HardBeforeRelevant? || t.OverlapBeforeRelevant?) && t.stage in STAGES[..i] && Fails(row, true, t)
    {
      var stage := STAGES[i];
      var head := Before(row, stage);
      if HasTag(head, HardNegativeLabel) { types := types + {HardBeforeRelevant(stage)}; }
      if HasTag(head, OverlappingLabel) { types := types + {OverlapBeforeRelevant(stage)}; }
      assert STAGES[..i + 1] == STAGES[..i] + [stage];
    }
    assert STAGES[..|STAGES|] == STAGES;
    forall stage: Stage { StagesAreListed(stage); }
  }

  method FailureTypes(row: Row, answerable: bool) returns (types: set<FailureType>)
    ensures forall t :: t in types <==> Fails(row, answerable, t)
  {
    if !answerable {
      return if row.candidates.evidence != [] then {UnanswerableReturnsEvidence} else {};
    }
    var child := ChildFailures(row);
    var others: set<FailureType> := {};
    var parentRank := row.firstRanks.parent;
    if parentRank.None? || parentRank.value > 5 { others := others + {NoRelevantAt5(ParentStage)}; }
    var rrf := RankOr(row.firstRanks.rrf, 6);
    if RankOr(row.firstRanks.reranker, 6) > rrf { others := others + {RerankerRegressed}; }
    if rrf > RankOr(row.firstRanks.dense, 11) { others := others + {RrfRegressedVsDense}; }
    if rrf > RankOr(row.firstRanks.bm25, 11) { others := others + {RrfRegressedVsBm25}; }
    var before := BeforeFailures(row);
    types := child + others + before;
  }

  /** The identities of the rows with a failure type, in order. */
  function FailingIds(rows: seq<Row>, truths: map<string, Truth>, t: FailureType): seq<string>
    requires Known(rows, truths)
  {
    if rows == [] then []
    else
      var last := rows[|rows| - 1];
      FailingIds(rows[..|rows| - 1], truths, t)
      + (if Fails(last, truths[last.queryId].answerable, t) then [last.queryId] else [])
  }

  function IdsWith(failures: seq<Failure>, t: FailureType): seq<string>
  {
    if failures == [] then []
    else
      IdsWith(failures[..|failures| - 1], t)
      + (if t in failures[|failures| - 1].types then [failures[|failures| - 1].queryId] else [])
  }

  /** `_failures`: a record for every row with at least one failure type. */
  method Failures(rows: seq<Row>, truths: map<string, Truth>) returns (failures: seq<Failure>)
    requires Known(rows, truths)
    ensures forall t :: IdsWith(failures, t) == FailingIds(rows, truths, t)
    ensures forall i :: 0 <= i < |failures| ==> failures[i].types != {}
  {
    failures := [];
    for i := 0 to |rows|
      invariant forall t :: IdsWith(failures, t) == FailingIds(rows[..i], truths, t)
      invariant forall k :: 0 <= k < |failures| ==> failures[k].types != {}
    {
      var row := rows[i];
      var types := FailureTypes(row, truths[row.queryId].answerable);
      assert rows[..i + 1][..i] == rows[..i];
      if types != {} {
        AppendFailure(failures, Failure(row.queryId, types));
        failures := failures + [Failure(row.queryId, types)];
      }
    }
    assert rows[..|rows|] == rows;
  }

  lemma {:induction false} AppendFailure(failures: seq<Failure>, f: Failure)
    ensures forall t :: IdsWith(failures + [f], t) == IdsWith(failures, t) + (if t in f.types then [f.queryId] else [])
  {
    assert (failures + [f])[..|failures|] == failures;
  }

  // ---------------------------------------------------------------- exposure

  datatype Stat =
    | PureTop1 | PureTop3 | PureTop5 | OverlapTop1 | OverlapTop5 | FirstIsOverlap | OnlyViaOverlap | WithPure
    | PureBefore | NoRelevant5

  predicate AnyIn(xs: seq<string>, ys: seq<string>) { exists i :: 0 <= i < |xs| && xs[i] in ys }

  /** Does a ranking count towards a statistic? */
  predicate Shows(stat: Stat, ranked: seq<string>, t: LevelTruth)
  {
    var first := FirstRank(ranked, Elements(t.relevant), |ranked|);
    match stat
    case PureTop1 => AnyIn(Top(ranked, 1), t.hard)
    case PureTop3 => AnyIn(Top(ranked, 3), t.hard)
    case PureTop5 => AnyIn(Top(ranked, 5), t.hard)
    case OverlapTop1 => AnyIn(Top(ranked, 1), t.overlap)
    case OverlapTop5 => AnyIn(Top(ranked, 5), t.overlap)
    case FirstIsOverlap => first.Some? && ranked[first.value - 1] in t.overlap
    case OnlyViaOverlap =>
      AnyIn(Top(ranked, 5), t.relevant) && forall x :: x in Top(ranked, 5) && x in t.relevant ==> x in t.overlap
    case WithPure => exists i :: 0 <= i < |Top(ranked, 5)| && ranked[i] in t.relevant && ranked[i] !in t.overlap
    case PureBefore => (first.None? || AnyIn(ranked[..first.value - 1], t.hard)) && AnyIn(Top(ranked, 5), t.hard)
    case NoRelevant5 => FirstRank(ranked, Elements(t.relevant), 5).None?
  }

  /** The members of `xs` that are in `ys`. */
  function Kept(xs: seq<string>, ys: seq<string>): seq<string>
  {
    if xs == [] then []
    else Kept(xs[..|xs| - 1], ys) + (if xs[|xs| - 1] in ys then [xs[|xs| - 1]] else [])
  }

  lemma {:induction false} KeptMembers(xs: seq<string>, ys: seq<string>)
    ensures |Kept(xs, ys)| <= |xs|
    ensures forall x :: x in Kept(xs, ys) <==> x in xs && x in ys
    ensures |Kept(xs, ys)| == |xs| <==> forall i :: 0 <= i < |xs| ==> xs[i] in ys
  {
    if xs != [] {
      var n := |xs| - 1;
      KeptMembers(xs[..n], ys);
      assert xs == xs[..n] + [xs[n]];
    }
  }

  method Keep(xs: seq<string>, ys: seq<string>) returns (r: seq<string>)
    ensures r == Kept(xs, ys)
  {
    r := [];
    for i := 0 to |xs|
      invariant r == Kept(xs[..i], ys)
    {
      assert xs[..i + 1][..i] == xs[..i];
      if xs[i] in ys { r := r + [xs[i]]; }
    }
    assert xs[..|xs|] == xs;
  }

  lemma {:induction false} KeptIsAny(xs: seq<string>, ys: seq<string>)
    ensures Kept(xs, ys) != [] <==> AnyIn(xs, ys)
  {
    KeptMembers(xs, ys);
    if Kept(xs, ys) != [] {
      assert Kept(xs, ys)[0] in Kept(xs, ys);
      assert Kept(xs, ys)[0] in xs;
    } else {
      forall i | 0 <= i < |xs| ensures xs[i] !in ys { assert xs[i] !in Kept(xs, ys); }
    }
  }

  /** The relevant hits among the first five, and how many of them overlap. */
  method CountHits(ranked: seq<string>, t: LevelTruth) returns (hits: seq<string>, overlapping: seq<string>)
    ensures hits == Kept(Top(ranked, 5), t.relevant) && overlapping == Kept(hits, t.overlap)
    ensures hits != [] && |hits| == |overlapping| <==> Shows(OnlyViaOverlap, ranked, t)
    ensures (exists i :: 0 <= i < |hits| && hits[i] !in t.overlap) <==> Shows(WithPure, ranked, t)
  {
    hits := Keep(Top(ranked, 5), t.relevant);
    overlapping := Keep(hits, t.overlap);
    KeptMembers(Top(ranked, 5), t.relevant);
    KeptIsAny(Top(ranked, 5), t.relevant);
    KeptMembers(hits, t.overlap);
    PureHit(ranked, t);
    forall x | x in Top(ranked, 5) && x in t.relevant && |hits| == |overlapping| ensures x in t.overlap {
      assert x in hits;
    }
    if Shows(OnlyViaOverlap, ranked, t) {
      forall i | 0 <= i < |hits| ensures hits[i] in t.overlap { assert hits[i] in hits; }
    }
  }

  lemma {:induction false} PureHit(ranked: seq<string>, t: LevelTruth)
    ensures (exists i :: 0 <= i < |Kept(Top(ranked, 5), t.relevant)|
              && Kept(Top(ranked, 5), t.relevant)[i] !in t.overlap)
       <==> Shows(WithPure, ranked, t)
  {
    var hits := Kept(Top(ranked, 5), t.relevant);
    KeptMembers(Top(ranked, 5), t.relevant);
    if i :| 0 <= i < |hits| && hits[i] !in t.overlap {
      assert hits[i] in hits;
      var j :| 0 <= j < |Top(ranked, 5)| && Top(ranked, 5)[j] == hits[i];
      assert ranked[j] in t.relevant && ranked[j] !in t.overlap;
    }
    if j :| 0 <= j < |Top(ranked, 5)| && ranked[j] in t.relevant && ranked[j] !in t.overlap {
      assert Top(ranked, 5)[j] in hits;
    }
  }

  /** The body of the loop over the rows: which statistics the ranking counts towards. */
  method Observe(ranked: seq<string>, t: LevelTruth) returns (seen: set<Stat>, hits: nat, overlapHits: nat)
    ensures forall stat :: stat in seen <==> Shows(stat, ranked, t)
    ensures hits == |Kept(Top(ranked, 5), t.relevant)|
              && overlapHits == |Kept(Kept(Top(ranked, 5), t.relevant), t.overlap)|
  {
    var relevant := Elements(t.relevant);
    var tops := ObserveTops(ranked, t);
    var found, overlapping := CountHits(ranked, t);
    hits, overlapHits := |found|, |overlapping|;
    var viaOverlap: set<Stat> := if found != [] && |found| == |overlapping| then {OnlyViaOverlap} else {};
    var withPure: set<Stat> := if exists i :: 0 <= i < |found| && found[i] !in t.overlap then {WithPure} else {};
    var orders := ObserveOrder(ranked, t);
    seen := tops + viaOverlap + withPure + orders;
  }

  method ObserveOrder(ranked: seq<string>, t: LevelTruth) returns (seen: set<Stat>)
    ensures forall stat :: stat in seen <==>
              (stat.FirstIsOverlap? || stat.NoRelevant5? || stat.PureBefore?) && Shows(stat, ranked, t)
  {
    seen := {};
    var relevant := Elements(t.relevant);
    var first := FindFirstRank(ranked, relevant, |ranked|);
    if first.Some? && ranked[first.value - 1] in t.overlap { seen := seen + {FirstIsOverlap}; }
    var near := FindFirstRank(ranked, relevant, 5);
    if near.None? { seen := seen + {NoRelevant5}; }
    if (first.None? || AnyIn(ranked[..first.value - 1], t.hard)) && AnyIn(Top(ranked, 5), t.hard) {
      seen := seen + {PureBefore};
    }
  }

  method ObserveTops(ranked: seq<string>, t: LevelTruth) returns (seen: set<Stat>)
    ensures forall stat :: stat in seen <==>
              (stat.PureTop1? || stat.PureTop3? || stat.PureTop5? || stat.OverlapTop1? || stat.OverlapTop5?)
              && Shows(stat, ranked, t)
  {
    seen := {};
    if ranked != [] && ranked[0] in t.hard { seen := seen + {PureTop1}; }
    if AnyIn(Top(ranked, 3), t.hard) { seen := seen + {PureTop3}; }
    if AnyIn(Top(ranked, 5), t.hard) { seen := seen + {PureTop5}; }
    if ranked != [] && ranked[0] in t.overlap { seen := seen + {OverlapTop1}; }
    if AnyIn(Top(ranked, 5), t.overlap) { seen := seen + {OverlapTop5}; }
  }

  /** The identities of the answerable rows that count towards a statistic, in order. */
  function ShowingIds(rows: seq<Row>, truths: map<string, Truth>, stage: Stage, stat: Stat): seq<string>
    requires Known(rows, truths)
  {
    if rows == [] then []
    else
      var last := rows[|rows| - 1];
      var truth := truths[last.queryId];
      ShowingIds(rows[..|rows| - 1], truths, stage, stat)
      + (if truth.answerable && Shows(stat, Ids(last, stage), TruthAt(truth, stage)) then [last.queryId] else [])
  }

  function AnswerableCount(rows: seq<Row>, truths: map<string, Truth>): nat
    requires Known(rows, truths)
  {
    if rows == [] then 0
    else AnswerableCount(rows[..|rows| - 1], truths) + (if truths[rows[|rows| - 1].queryId].answerable then 1 else 0)
  }

  datatype ScoreError = NoAnswerableRow | MetricRejected(error: MetricError)

  /** The lists of one stage; `ids` has an entry for every statistic. */
  datatype Exposure = Exposure(denominator: nat, ids: Stat -> seq<string>, relevantHits: nat, overlapHits: nat)

  /** How many of the first five places hold a relevant result, or one that overlaps too. */
  function PlaceCount(ranked: seq<string>, t: LevelTruth, overlapping: bool): nat
  {
    if overlapping then |set j: nat | j < 5 && j < |ranked| && ranked[j] in t.relevant && ranked[j] in t.overlap|
    else |set j: nat | j < 5 && j < |ranked| && ranked[j] in t.relevant|
  }

  /** The sum of these counts over the answerable rows. */
  function HitTotal(rows: seq<Row>, truths: map<string, Truth>, stage: Stage, overlapping: bool): nat
    requires Known(rows, truths)
  {
    if rows == [] then 0
    else
      var last := rows[|rows| - 1];
      var truth := truths[last.queryId];
      HitTotal(rows[..|rows| - 1], truths, stage, overlapping)
      + (if truth.answerable then PlaceCount(Ids(last, stage), TruthAt(truth, stage), overlapping) else 0)
  }

  lemma {:induction false} KeptPlaces(xs: seq<string>, ys: seq<string>, n: nat)
    requires n <= |xs|
    ensures |Kept(xs[..n], ys)| == |set j: nat | j < n && xs[j] in ys|
  {
    if n > 0 {
      KeptPlaces(xs, ys, n - 1);
      assert xs[..n][..n - 1] == xs[..n - 1];
      var before, all := set j: nat | j < n - 1 && xs[j] in ys, set j: nat | j < n && xs[j] in ys;
      OneMore(before, all, n - 1, xs[n - 1] in ys);
    }
  }

  lemma {:induction false} KeptTwicePlaces(xs: seq<string>, ys: seq<string>, zs: seq<string>, n: nat)
    requires n <= |xs|
    ensures |Kept(Kept(xs[..n], ys), zs)| == |set j: nat | j < n && xs[j] in ys && xs[j] in zs|
  {
    if n > 0 {
      KeptTwicePlaces(xs, ys, zs, n - 1);
      assert xs[..n][..n - 1] == xs[..n - 1];
      var rest, x := Kept(xs[..n - 1], ys), xs[n - 1];
      assert (rest + [x])[..|rest|] == rest;
      assert rest + [] == rest;
      var before := set j: nat | j < n - 1 && xs[j] in ys && xs[j] in zs;
      var all := set j: nat | j < n && xs[j] in ys && xs[j] in zs;
      OneMore(before, all, n - 1, x in ys && x in zs);
    }
  }

  lemma {:induction false} HitsAreCounted(ranked: seq<string>, t: LevelTruth)
    ensures |Kept(Top(ranked, 5), t.relevant)| == PlaceCount(ranked, t, false)
    ensures |Kept(Kept(Top(ranked, 5), t.relevant), t.overlap)| == PlaceCount(ranked, t, true)
  {
    var top := Top(ranked, 5);
    KeptPlaces(top, t.relevant, |top|);
    KeptTwicePlaces(top, t.relevant, t.overlap, |top|);
    assert top[..|top|] == top;
    assert (set j: nat | j < |top| && top[j] in t.relevant)
        == (set j: nat | j < 5 && j < |ranked| && ranked[j] in t.relevant);
    assert (set j: nat | j < |top| && top[j] in t.relevant && top[j] in t.overlap)
        == (set j: nat | j < 5 && j < |ranked| && ranked[j] in t.relevant && ranked[j] in t.overlap);
  }

  /** `_exposure_statistics` for one stage.  The rates divide by the number of answerable rows. */
  method ExposureStatistics(
    rows: seq<Row>, truths: map<string, Truth>, stage: Stage) returns (r: Result<Exposure, ScoreError>)
    requires Known(rows, truths)
    ensures r.Ok? <==> AnswerableCount(rows, truths) > 0
    ensures r.Err? ==> r.error == NoAnswerableRow
    ensures r.Ok? ==> && r.value.denominator == AnswerableCount(rows, truths)
                      && r.value.relevantHits == HitTotal(rows, truths, stage, false)
                      && r.value.overlapHits == HitTotal(rows, truths, stage, true)
                      && r.value.overlapHits <= r.value.relevantHits <= 5 * r.value.denominator
                      && forall stat :: r.value.ids(stat) == ShowingIds(rows, truths, stage, stat)
  {
    var e := Exposure(0, stat => [], 0, 0);
    for i := 0 to |rows|
      invariant e.denominator == AnswerableCount(rows[..i], truths)
      invariant e.relevantHits == HitTotal(rows[..i], truths, stage, false)
      invariant e.overlapHits == HitTotal(rows[..i], truths, stage, true)
      invariant e.overlapHits <= e.relevantHits <= 5 * e.denominator
      invariant forall stat :: e.ids(stat) == ShowingIds(rows[..i], truths, stage, stat)
    {
      var row := rows[i];
      var truth := truths[row.queryId];
      assert rows[..i + 1][..i] == rows[..i];
      if truth.answerable {
        var seen, hits, overlapHits := Observe(Ids(row, stage), TruthAt(truth, stage));
        HitBounds(Ids(row, stage), TruthAt(truth, stage));
        HitsAreCounted(Ids(row, stage), TruthAt(truth, stage));
        var before := e.ids;
        e := Exposure(e.denominator + 1, stat => if stat in seen then before(stat) + [row.queryId] else before(stat),
                      e.relevantHits + hits, e.overlapHits + overlapHits);
      }
    }
    assert rows[..|rows|] == rows;
    if e.denominator == 0 { return Err(NoAnswerableRow); }
    return Ok(e);
  }

  lemma {:induction false} HitBounds(ranked: seq<string>, t: LevelTruth)
    ensures |Kept(Kept(Top(ranked, 5), t.relevant), t.overlap)| <= |Kept(Top(ranked, 5), t.relevant)| <= 5
  {
    KeptMembers(Top(ranked, 5), t.relevant);
    KeptMembers(Kept(Top(ranked, 5), t.relevant), t.overlap);
  }

  // ---------------------------------------------------------------- comparing two stages

  datatype Change = Improved | Regressed | Unchanged

  datatype Comparison = Comparison(hit: Change -> seq<string>, reciprocal: Change -> seq<string>, rankGain: int,
      count: nat)

  function Rank5(
    row: Row, truth: Truth, stage: Stage): Option<nat> { FirstRank(Ids(row, stage), Relevant(truth, stage), 5) }

  function HitChange(before: Option<nat>, after: Option<nat>): Change
  {
    if after == Some(1) && before != Some(1) then Improved
    else if before == Some(1) && after != Some(1) then Regressed
    else Unchanged
  }

  function Reciprocal(rank: Option<nat>): real
  {
    if rank.None? || rank.value == 0 then 0.0 else 1.0 / rank.value as real
  }

  function ReciprocalChange(before: Option<nat>, after: Option<nat>): Change
  {
    if Reciprocal(after) > Reciprocal(before) then Improved
    else if Reciprocal(after) < Reciprocal(before) then Regressed
    else Unchanged
  }

  /** How the first relevant rank moved, where a missing rank counts as the sixth. */
  function RankChange(before: Option<nat>, after: Option<nat>): Change
  {
    if RankOr(after, 6) < RankOr(before, 6) then Improved
    else if RankOr(after, 6) > RankOr(before, 6) then Regressed
    else Unchanged
  }

  /** Comparing reciprocals of ranks up to five is comparing the ranks. */
  lemma {:induction false} ReciprocalChangeIsRankChange(before: Option<nat>, after: Option<nat>)
    requires before.Some? ==> 1 <= before.value <= 5
    requires after.Some? ==> 1 <= after.value <= 5
    ensures ReciprocalChange(before, after) == RankChange(before, after)
  {
    if before.Some? { ReciprocalFalls(before.value, 6); }
    if after.Some? { ReciprocalFalls(after.value, 6); }
    if before.Some? && after.Some? {
      if before.value < after.value { ReciprocalFalls(before.value, after.value); }
      if after.value < before.value { ReciprocalFalls(after.value, before.value); }
    }
  }

  /** The identities of the answerable rows whose change is `c`, by hit or by reciprocal rank. */
  function ChangedIds(
    rows: seq<Row>, truths: map<string, Truth>, before: Stage, after: Stage, c: Change, hit: bool): seq<string>
    requires Known(rows, truths)
  {
    if rows == [] then []
    else
      var last := rows[|rows| - 1];
      var truth := truths[last.queryId];
      var b, a := Rank5(last, truth, before), Rank5(last, truth, after);
      ChangedIds(rows[..|rows| - 1], truths, before, after, c, hit)
      + (if truth.answerable && c == (if hit then HitChange(b, a) else RankChange(b, a)) then [last.queryId] else [])
  }

  function RankGain(rows: seq<Row>, truths: map<string, Truth>, before: Stage, after: Stage): int
    requires Known(rows, truths)
  {
    if rows == [] then 0
    else
      var last := rows[|rows| - 1];
      var truth := truths[last.queryId];
      RankGain(rows[..|rows| - 1], truths, before, after)
      + (if truth.answerable then RankOr(Rank5(last, truth, before), 6) - RankOr(Rank5(last, truth, after), 6) else 0)
  }

  /** `r` is `k` with one more row, whose ranks are `b` before and `a` after. */
  ghost predicate Extends(k: Comparison, r: Comparison, row: Row, b: Option<nat>, a: Option<nat>)
  {
    && r.count == k.count + 1
    && r.rankGain == k.rankGain + RankOr(b, 6) - RankOr(a, 6)
    && (forall c :: r.hit(c) == k.hit(c) + (if c == HitChange(b, a) then [row.queryId] else []))
    && (forall c :: r.reciprocal(c) == k.reciprocal(c) + (if c == RankChange(b, a) then [row.queryId] else []))
  }

  /** The body of the loop for an answerable row. */
  method CompareRow(k: Comparison, row: Row, truth: Truth, before: Stage, after: Stage) returns (r: Comparison)
    ensures Extends(k, r, row, Rank5(row, truth, before), Rank5(row, truth, after))
  {
    var b := FindFirstRank(Ids(row, before), Relevant(truth, before), 5);
    var a := FindFirstRank(Ids(row, after), Relevant(truth, after), 5);
    var hitChange, reciprocalChange := HitChange(b, a), ReciprocalChange(b, a);
    ReciprocalChangeIsRankChange(b, a);
    var hits, reciprocals := k.hit, k.reciprocal;
    r := Comparison(c => if c == hitChange then hits(c) + [row.queryId] else hits(c),
                    c => if c == reciprocalChange then reciprocals(c) + [row.queryId] else reciprocals(c),
                    k.rankGain + (RankOr(b, 6) - RankOr(a, 6)), k.count + 1);
  }

  /** A comparison covers exactly some rows. */
  ghost predicate Covers(k: Comparison, rows: seq<Row>, truths: map<string, Truth>, before: Stage, after: Stage)
    requires Known(rows, truths)
  {
    && k.count == AnswerableCount(rows, truths)
    && k.rankGain == RankGain(rows, truths, before, after)
    && (forall c :: k.hit(c) == ChangedIds(rows, truths, before, after, c, true))
    && (forall c :: k.reciprocal(c) == ChangedIds(rows, truths, before, after, c, false))
  }

  lemma {:induction false} ChangedNext(
    rows: seq<Row>, truths: map<string, Truth>, before: Stage, after: Stage, row: Row, c: Change, hit: bool)
    requires Known(rows, truths) && row.queryId in truths
    ensures Known(rows + [row], truths)
    ensures var truth := truths[row.queryId];
            var b, a := Rank5(row, truth, before), Rank5(row, truth, after);
            && ChangedIds(rows + [row], truths, before, after, c, hit)
               == ChangedIds(rows, truths, before, after, c, hit)
                  + (if truth.answerable && c == (if hit then HitChange(b, a) else RankChange(b, a)) then [row.queryId]
                      else [])
  {
    assert (rows + [row])[..|rows|] == rows;
  }

  lemma {:induction false} CountsNext(rows: seq<Row>, truths: map<string, Truth>, before: Stage, after: Stage, row: Row)
    requires Known(rows, truths) && row.queryId in truths
    ensures Known(rows + [row], truths)
    ensures AnswerableCount(rows + [row], truths)
         == AnswerableCount(rows, truths) + (if truths[row.queryId].answerable then 1 else 0)
    ensures RankGain(rows + [row], truths, before, after)
         == RankGain(rows, truths, before, after)
            + (if truths[row.queryId].answerable then
                 RankOr(Rank5(row, truths[row.queryId], before), 6) - RankOr(Rank5(row, truths[row.queryId], after), 6)
               else 0)
  {
    assert (rows + [row])[..|rows|] == rows;
  }

  lemma {:induction false} CoversSkip(
    k: Comparison, rows: seq<Row>, truths: map<string, Truth>, before: Stage, after: Stage, row: Row)
    requires Known(rows, truths) && Covers(k, rows, truths, before, after)
    requires row.queryId in truths && !truths[row.queryId].answerable
    ensures Known(rows + [row], truths) && Covers(k, rows + [row], truths, before, after)
  {
    CountsNext(rows, truths, before, after, row);
    forall c: Change, hit: bool { ChangedNext(rows, truths, before, after, row, c, hit); }
  }

  lemma {:induction false} CoversOne(
    k: Comparison, r: Comparison, rows: seq<Row>, truths: map<string, Truth>, before: Stage, after: Stage, row: Row)
    requires Known(rows, truths) && Covers(k, rows, truths, before, after)
    requires row.queryId in truths && truths[row.queryId].answerable
    requires Extends(k, r, row, Rank5(row, truths[row.queryId], before), Rank5(row, truths[row.queryId], after))
    ensures Known(rows + [row], truths) && Covers(r, rows + [row], truths, before, after)
  {
    CountsNext(rows, truths, before, after, row);
    forall c: Change, hit: bool { ChangedNext(rows, truths, before, after, row, c, hit); }
  }

  lemma {:induction false} PrefixNext(rows: seq<Row>, i: nat)
    requires i < |rows|
    ensures rows[..i] + [rows[i]] == rows[..i + 1]
  {
  }

  /** `_compare_stage`.  The average gain divides by the number of answerable rows. */
  method CompareStage(rows: seq<Row>, truths: map<string, Truth>, before: Stage, after: Stage)
    returns (r: Result<Comparison, ScoreError>)
    requires Known(rows, truths)
    ensures r.Ok? <==> AnswerableCount(rows, truths) > 0
    ensures r.Err? ==> r.error == NoAnswerableRow
    ensures r.Ok? ==> Covers(r.value, rows, truths, before, after)
  {
    var k := Comparison(c => [], c => [], 0, 0);
    for i := 0 to |rows|
      invariant Covers(k, rows[..i], truths, before, after)
    {
      var row := rows[i];
      var truth := truths[row.queryId];
      PrefixNext(rows, i);
      if truth.answerable {
        var next := CompareRow(k, row, truth, before, after);
        CoversOne(k, next, rows[..i], truths, before, after, row);
        k := next;
      } else {
        CoversSkip(k, rows[..i], truths, before, after, row);
      }
    }
    assert rows[..|rows|] == rows;
    if k.count == 0 { return Err(NoAnswerableRow); }
    return Ok(k);
  }
}
