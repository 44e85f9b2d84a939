/** What the flags, statistics and comparisons of the scorers say, told by the places of relevant results
    in the rankings. */
module ScoringMeaning {
  import opened Texts
  import opened Listings
  import opened Labels
  import opened RetrievalMetrics
  import opened Scoring
  import ScoringTheorems

  /** The first four stages rank children, the last two parents. */
  function LabelsOf(truth: Truth, stage: Stage): LevelTruth
  {
    if stage == ParentStage || stage == Evidence then truth.parents else truth.children
  }

  /** Is there a relevant result at place `j` of the stage's ranking? */
  predicate Hit(row: Row, truth: Truth, stage: Stage, j: nat)
  {
    j < |row.candidates.At(stage)| && row.candidates.At(stage)[j].id in LabelsOf(truth, stage).relevant
  }

  predicate NoHitUpTo(row: Row, truth: Truth, stage: Stage, n: nat)
  {
    forall j: nat :: j < n ==> !Hit(row, truth, stage, j)
  }

  predicate FirstHit(row: Row, truth: Truth, stage: Stage, j: nat)
  {
    Hit(row, truth, stage, j) && NoHitUpTo(row, truth, stage, j)
  }

  // ---------------------------------------------------------------- failures

  /** A candidate counts as before the first relevant result: none up to it is relevant if there is a
      relevant one within the depth of the stage, and it is one of the first five otherwise. */
  predicate ComesBefore(row: Row, truth: Truth, stage: Stage, j: nat)
  {
    var depth := if stage == Dense || stage == Bm25 || stage == Rrf then 10 else 5;
    if NoHitUpTo(row, truth, stage, depth) then j < 5 else NoHitUpTo(row, truth, stage, j + 1)
  }

  predicate TaggedBefore(row: Row, truth: Truth, stage: Stage, tag: RelevanceLabel)
  {
    exists j: nat :: j < |row.candidates.At(stage)| && row.candidates.At(stage)[j].tag == tag
                     && ComesBefore(row, truth, stage, j)
  }

  /** The fused ranking finds its first relevant result later than the other one finds its own, or not
      within ten although the other one does within five. */
  ghost predicate FusedLater(row: Row, truth: Truth, other: Stage)
  {
    exists d: nat :: d < 10 && FirstHit(row, truth, other, d) && NoHitUpTo(row, truth, Rrf, d + 1)
                     && (d < 5 || !NoHitUpTo(row, truth, Rrf, 10))
  }

  /** What each failure type means. */
  ghost predicate MeansFailure(row: Row, truth: Truth, t: FailureType)
  {
    if !truth.answerable then t == UnanswerableReturnsEvidence && |row.candidates.evidence| > 0
    else
      match t
      case Top1Miss(s) => s != ParentStage && s != Evidence && !Hit(row, truth, s, 0)
      case NoRelevantAt5(s) => s != Evidence && NoHitUpTo(row, truth, s, 5)
      case RerankerRegressed =>
        exists d: nat :: d < 5 && FirstHit(row, truth, Rrf, d) && NoHitUpTo(row, truth, Reranker, d + 1)
      case RrfRegressedVsDense => FusedLater(row, truth, Dense)
      case RrfRegressedVsBm25 => FusedLater(row, truth, Bm25)
      case HardBeforeRelevant(s) => TaggedBefore(row, truth, s, HardNegativeLabel)
      case OverlapBeforeRelevant(s) => TaggedBefore(row, truth, s, OverlappingLabel)
      case UnanswerableReturnsEvidence => false
  }

  /** The stored rank of a checked row: the place of the first relevant result, if it is deep enough. */
  lemma {:induction false} StoredRankIsFirstHit(row: Row, truth: Truth, stage: Stage)
    requires Checked(row, truth) && truth.answerable
    ensures var rank := row.firstRanks.At(stage);
            var depth := if stage == Dense || stage == Bm25 || stage == Rrf then 10 else 5;
            && (rank.None? <==> NoHitUpTo(row, truth, stage, depth))
            && (rank.Some? ==> 1 <= rank.value <= depth && FirstHit(row, truth, stage, rank.value - 1))
  {
    var ids, relevant := Ids(row, stage), Relevant(truth, stage);
    assert row.firstRanks.At(stage) == StoredRank(ids, truth, stage);
    forall j: nat ensures Hit(row, truth, stage, j) <==> j < |ids| && ids[j] in relevant {
    }
    var rank := FirstRank(ids, relevant, stage.Cut());
    if rank.Some? { assert Hit(row, truth, stage, rank.value - 1); }
  }

  lemma {:induction false} FirstHitIsUnique(row: Row, truth: Truth, stage: Stage, d: nat, e: nat)
    requires FirstHit(row, truth, stage, d) && FirstHit(row, truth, stage, e)
    ensures d == e
  {
    hide Hit;
  }

  lemma {:induction false} NoHitUpToFirst(row: Row, truth: Truth, stage: Stage, d: nat, n: nat)
    requires FirstHit(row, truth, stage, d)
    ensures NoHitUpTo(row, truth, stage, n) <==> n <= d
  {
    hide Hit;
  }

  lemma {:induction false} BeforeMeansBefore(row: Row, truth: Truth, stage: Stage, tag: RelevanceLabel)
    requires Checked(row, truth) && truth.answerable
    ensures HasTag(Before(row, stage), tag) <==> TaggedBefore(row, truth, stage, tag)
  {
    hide Checked, Hit, NoHitUpTo, FirstHit;
    StoredRankIsFirstHit(row, truth, stage);
    var c, rank, n := row.candidates.At(stage), row.firstRanks.At(stage), |Before(row, stage)|;
    forall j: nat | j < |c| ensures j < n <==> ComesBefore(row, truth, stage, j) {
      if rank.Some? {
        NoHitUpToFirst(row, truth, stage, rank.value - 1, j + 1);
        NoHitUpToFirst(row, truth, stage, rank.value - 1, stage.Cut());
      }
    }
    if i :| 0 <= i < n && Before(row, stage)[i].tag == tag { assert c[i].tag == tag; }
    if j: nat :| j < |c| && c[j].tag == tag && ComesBefore(row, truth, stage, j) {
      assert Before(row, stage)[j].tag == tag;
    }
  }

  lemma {:induction false} FusedRegressedMeansLater(row: Row, truth: Truth, other: Stage)
    requires Checked(row, truth) && truth.answerable && (other == Dense || other == Bm25)
    ensures RankOr(row.firstRanks.At(Rrf), 6) > RankOr(row.firstRanks.At(other), 11) <==> FusedLater(row, truth, other)
  {
    hide Checked, Hit, NoHitUpTo, FirstHit;
    StoredRankIsFirstHit(row, truth, Rrf);
    StoredRankIsFirstHit(row, truth, other);
    var r, o := row.firstRanks.At(Rrf), row.firstRanks.At(other);
    if o.Some? {
      if r.Some? {
        NoHitUpToFirst(row, truth, Rrf, r.value - 1, o.value);
        NoHitUpToFirst(row, truth, Rrf, r.value - 1, 10);
      } else if o.value <= 10 {
        NoHitPrefix(row, truth, Rrf, o.value, 10);
      }
    }
    if d: nat :| d < 10 && FirstHit(row, truth, other, d) && NoHitUpTo(row, truth, Rrf, d + 1)
                 && (d < 5 || !NoHitUpTo(row, truth, Rrf, 10)) {
      if o.None? {
        NoHitUpToFirst(row, truth, other, d, 10);
      } else {
        FirstHitIsUnique(row, truth, other, d, o.value - 1);
      }
    }
  }

  lemma {:induction false} NoHitPrefix(row: Row, truth: Truth, stage: Stage, m: nat, n: nat)
    requires m <= n && NoHitUpTo(row, truth, stage, n)
    ensures NoHitUpTo(row, truth, stage, m)
  {
    hide Hit;
  }

  lemma {:induction false} RerankerRegressedMeansLater(row: Row, truth: Truth)
    requires Checked(row, truth) && truth.answerable
    ensures RankOr(row.firstRanks.reranker, 6) > RankOr(row.firstRanks.rrf, 6)
       <==> exists d: nat :: d < 5 && FirstHit(row, truth, Rrf, d) && NoHitUpTo(row, truth, Reranker, d + 1)
  {
    hide Checked, Hit, NoHitUpTo, FirstHit;
    StoredRankIsFirstHit(row, truth, Rrf);
    StoredRankIsFirstHit(row, truth, Reranker);
    var r, o := row.firstRanks.At(Reranker), row.firstRanks.At(Rrf);
    if o.Some? && o.value <= 5 {
      if r.Some? {
        NoHitUpToFirst(row, truth, Reranker, r.value - 1, o.value);
      } else {
        NoHitPrefix(row, truth, Reranker, o.value, 5);
      }
    }
    if d: nat :| d < 5 && FirstHit(row, truth, Rrf, d) && NoHitUpTo(row, truth, Reranker, d + 1) {
      if o.None? {
        NoHitUpToFirst(row, truth, Rrf, d, 10);
      } else {
        FirstHitIsUnique(row, truth, Rrf, d, o.value - 1);
      }
    }
  }

  lemma {:induction false} RankTests(row: Row, truth: Truth, stage: Stage)
    requires Checked(row, truth) && truth.answerable
    ensures row.firstRanks.At(stage) == Some(1) <==> Hit(row, truth, stage, 0)
    ensures RankOr(row.firstRanks.At(stage), 6) > 5 <==> NoHitUpTo(row, truth, stage, 5)
  {
    hide Checked, Hit;
    StoredRankIsFirstHit(row, truth, stage);
    var r := row.firstRanks.At(stage);
    if r.Some? { NoHitUpToFirst(row, truth, stage, r.value - 1, 5); } else { NoHitPrefix(row, truth, stage, 5, 5); }
  }

  /** A failure type is recorded of a checked row exactly when the rankings say so. */
  lemma {:induction false} FailuresAreToldByRankings(row: Row, truth: Truth, t: FailureType)
    requires Checked(row, truth)
    ensures Fails(row, truth.answerable, t) <==> MeansFailure(row, truth, t)
  {
    hide Checked, Hit, NoHitUpTo, FirstHit, FusedLater, TaggedBefore, HasTag, Before;
    if truth.answerable {
      match t
      case Top1Miss(s) => RankTests(row, truth, s);
      case NoRelevantAt5(s) => RankTests(row, truth, s);
      case RerankerRegressed => RerankerRegressedMeansLater(row, truth);
      case RrfRegressedVsDense => FusedRegressedMeansLater(row, truth, Dense);
      case RrfRegressedVsBm25 => FusedRegressedMeansLater(row, truth, Bm25);
      case HardBeforeRelevant(s) => BeforeMeansBefore(row, truth, s, HardNegativeLabel);
      case OverlapBeforeRelevant(s) => BeforeMeansBefore(row, truth, s, OverlappingLabel);
      case UnanswerableReturnsEvidence =>
    }
  }

  /** A child stage misses at the top exactly when its hit rate at 1 is zero. */
  lemma {:induction false} Top1MissIsZeroHitRate(row: Row, truth: Truth, stage: Stage)
    requires Checked(row, truth) && truth.answerable
    ensures Fails(row, true, Top1Miss(stage))
       <==> stage != ParentStage && stage != Evidence && HitRateAt(Ids(row, stage), Relevant(truth, stage), 1) == 0.0
  {
    assert row.firstRanks.At(stage) == StoredRank(Ids(row, stage), truth, stage);
    CutFirstRank(Ids(row, stage), Relevant(truth, stage), 1, stage.Cut());
  }

  // ---------------------------------------------------------------- exposure

  predicate AmongFirst(ranked: seq<string>, n: nat, ys: seq<string>)
  {
    exists j: nat :: j < n && j < |ranked| && ranked[j] in ys
  }

  /** What each statistic means. */
  predicate MeansStat(stat: Stat, ranked: seq<string>, t: LevelTruth)
  {
    match stat
    case PureTop1 => AmongFirst(ranked, 1, t.hard)
    case PureTop3 => AmongFirst(ranked, 3, t.hard)
    case PureTop5 => AmongFirst(ranked, 5, t.hard)
    case OverlapTop1 => AmongFirst(ranked, 1, t.overlap)
    case OverlapTop5 => AmongFirst(ranked, 5, t.overlap)
    case FirstIsOverlap =>
      exists j: nat :: j < |ranked| && ranked[j] in t.relevant && ranked[j] in t.overlap
                       && !AmongFirst(ranked, j, t.relevant)
    case OnlyViaOverlap =>
      && AmongFirst(ranked, 5, t.relevant)
      && forall j: nat :: j < 5 && j < |ranked| && ranked[j] in t.relevant ==> ranked[j] in t.overlap
    case WithPure => exists j: nat :: j < 5 && j < |ranked| && ranked[j] in t.relevant && ranked[j] !in t.overlap
    case PureBefore =>
      && AmongFirst(ranked, 5, t.hard)
      && exists j: nat :: j < |ranked| && ranked[j] in t.hard && !AmongFirst(ranked, j + 1, t.relevant)
    case NoRelevant5 => !AmongFirst(ranked, 5, t.relevant)
  }

  lemma {:induction false} AnyInTop(ranked: seq<string>, n: nat, ys: seq<string>)
    ensures AnyIn(Top(ranked, n), ys) <==> AmongFirst(ranked, n, ys)
    ensures n <= |ranked| ==> (AnyIn(ranked[..n], ys) <==> AmongFirst(ranked, n, ys))
  {
    if i :| 0 <= i < |Top(ranked, n)| && Top(ranked, n)[i] in ys { assert ranked[i] in ys; }
    if j: nat :| j < n && j < |ranked| && ranked[j] in ys {
      assert Top(ranked, n)[j] in ys;
      if n <= |ranked| { assert ranked[..n][j] in ys; }
    }
  }

  lemma {:induction false} IsAmong(ranked: seq<string>, j: nat, n: nat, ys: seq<string>)
    requires j < |ranked| && ranked[j] in ys
    ensures j < n ==> AmongFirst(ranked, n, ys)
  {
  }

  lemma {:induction false} FirstAmong(ranked: seq<string>, relevant: seq<string>, k: nat)
    ensures var first := FirstRank(ranked, Elements(relevant), k);
            && (first.None? <==> !AmongFirst(ranked, k, relevant))
            && (first.Some? ==> ranked[first.value - 1] in relevant && !AmongFirst(ranked, first.value - 1, relevant))
  {
    var first := FirstRank(ranked, Elements(relevant), k);
    forall j: nat | j < |ranked| ensures ranked[j] in Elements(relevant) <==> ranked[j] in relevant {
    }
    if first.Some? { assert ranked[first.value - 1] in relevant; }
  }

  lemma {:induction false} FirstIsOverlapMeans(ranked: seq<string>, t: LevelTruth)
    ensures Shows(FirstIsOverlap, ranked, t) <==> MeansStat(FirstIsOverlap, ranked, t)
  {
    FirstAmong(ranked, t.relevant, |ranked|);
    var first := FirstRank(ranked, Elements(t.relevant), |ranked|);
    if j: nat :| j < |ranked| && ranked[j] in t.relevant && ranked[j] in t.overlap
                 && !AmongFirst(ranked, j, t.relevant) {
      assert AmongFirst(ranked, |ranked|, t.relevant);
      IsAmong(ranked, first.value - 1, j, t.relevant);
      IsAmong(ranked, j, first.value - 1, t.relevant);
    }
  }

  lemma {:induction false} PureBeforeMeans(ranked: seq<string>, t: LevelTruth)
    ensures Shows(PureBefore, ranked, t) <==> MeansStat(PureBefore, ranked, t)
  {
    FirstAmong(ranked, t.relevant, |ranked|);
    AnyInTop(ranked, 5, t.hard);
    var first := FirstRank(ranked, Elements(t.relevant), |ranked|);
    if first.None? {
      if j: nat :| j < 5 && j < |ranked| && ranked[j] in t.hard {
        assert !AmongFirst(ranked, j + 1, t.relevant);
      }
    } else {
      AnyInTop(ranked, first.value - 1, t.hard);
      PureBeforeFirst(ranked, t, first.value - 1);
    }
  }

  lemma {:induction false} PureBeforeFirst(ranked: seq<string>, t: LevelTruth, n: nat)
    requires n < |ranked| && ranked[n] in t.relevant && !AmongFirst(ranked, n, t.relevant)
    ensures AmongFirst(ranked, n, t.hard)
       <==> exists j: nat :: j < |ranked| && ranked[j] in t.hard && !AmongFirst(ranked, j + 1, t.relevant)
  {
    if j: nat :| j < n && j < |ranked| && ranked[j] in t.hard {
      assert !AmongFirst(ranked, j + 1, t.relevant);
    }
    if j: nat :| j < |ranked| && ranked[j] in t.hard && !AmongFirst(ranked, j + 1, t.relevant) {
      IsAmong(ranked, n, j + 1, t.relevant);
    }
  }

  lemma {:induction false} ViaOverlapMeans(ranked: seq<string>, t: LevelTruth)
    ensures Shows(OnlyViaOverlap, ranked, t) <==> MeansStat(OnlyViaOverlap, ranked, t)
    ensures Shows(WithPure, ranked, t) <==> MeansStat(WithPure, ranked, t)
  {
    AnyInTop(ranked, 5, t.relevant);
    var top := Top(ranked, 5);
    forall j: nat | j < 5 && j < |ranked| ensures ranked[j] in top { assert top[j] == ranked[j]; }
    forall x | x in top ensures exists j: nat :: j < 5 && j < |ranked| && ranked[j] == x {
      var j :| 0 <= j < |top| && top[j] == x;
      assert ranked[j] == x;
    }
  }

  /** A ranking counts towards a statistic exactly when its places say so. */
  lemma {:induction false} StatisticsAreToldByPlaces(stat: Stat, ranked: seq<string>, t: LevelTruth)
    ensures Shows(stat, ranked, t) <==> MeansStat(stat, ranked, t)
  {
    hide AmongFirst, AnyIn, FirstRank;
    match stat
    case PureTop1 => AnyInTop(ranked, 1, t.hard);
    case PureTop3 => AnyInTop(ranked, 3, t.hard);
    case PureTop5 => AnyInTop(ranked, 5, t.hard);
    case OverlapTop1 => AnyInTop(ranked, 1, t.overlap);
    case OverlapTop5 => AnyInTop(ranked, 5, t.overlap);
    case FirstIsOverlap => FirstIsOverlapMeans(ranked, t);
    case OnlyViaOverlap => ViaOverlapMeans(ranked, t);
    case WithPure => ViaOverlapMeans(ranked, t);
    case PureBefore => PureBeforeMeans(ranked, t);
    case NoRelevant5 => FirstAmong(ranked, t.relevant, 5);
  }

  // ---------------------------------------------------------------- changes

  /** Place `j` comes before the first relevant result. */
  predicate IsBefore(row: Row, truth: Truth, stage: Stage, j: nat) { NoHitUpTo(row, truth, stage, j + 1) }

  /** How many of the first five places come before the first relevant result. */
  function PlacesBefore(row: Row, truth: Truth, stage: Stage): nat
  {
    |set j: nat | j < 5 && IsBefore(row, truth, stage, j)|
  }

  lemma {:induction false} CountBelow(s: set<nat>, n: nat)
    requires forall j: nat :: j in s <==> j < n
    ensures |s| == n
  {
    if n > 0 {
      var rest := s - {n - 1};
      CountBelow(rest, n - 1);
      OneMore(rest, s, n - 1, true);
    }
  }

  lemma {:induction false} RankIsPlacesBefore(row: Row, truth: Truth, stage: Stage)
    ensures var rank := Rank5(row, truth, stage);
            && RankOr(rank, 6) == PlacesBefore(row, truth, stage) + 1
            && (rank == Some(1) <==> Hit(row, truth, stage, 0))
            && (rank.Some? ==> 1 <= rank.value <= 5)
  {
    var ids, relevant := Ids(row, stage), Relevant(truth, stage);
    forall j: nat ensures Hit(row, truth, stage, j) <==> j < |ids| && ids[j] in relevant {
    }
    var rank := Rank5(row, truth, stage);
    if rank.Some? { assert Hit(row, truth, stage, rank.value - 1); }
    var before := set j: nat | j < 5 && IsBefore(row, truth, stage, j);
    CountBelow(before, RankOr(rank, 6) - 1);
  }

  /** A row is in a list of top hits by whether a relevant result comes first, and in a list of reciprocal
      ranks by how many places come before the first relevant one. */
  ghost predicate MeansChange(row: Row, truth: Truth, before: Stage, after: Stage, c: Change, hit: bool)
  {
    if hit then
      var b, a := Hit(row, truth, before, 0), Hit(row, truth, after, 0);
      match c case Improved => a && !b case Regressed => b && !a case Unchanged => a == b
    else
      var b, a := PlacesBefore(row, truth, before), PlacesBefore(row, truth, after);
      match c case Improved => a < b case Regressed => a > b case Unchanged => a == b
  }

  lemma {:induction false} ChangesAreToldByPlaces(
    row: Row, truth: Truth, before: Stage, after: Stage, c: Change, hit: bool)
    ensures var b, a := Rank5(row, truth, before), Rank5(row, truth, after);
            var change := if hit then HitChange(b, a) else RankChange(b, a);
            c == change <==> MeansChange(row, truth, before, after, c, hit)
  {
    hide Hit, PlacesBefore, FirstRank;
    RankIsPlacesBefore(row, truth, before);
    RankIsPlacesBefore(row, truth, after);
  }

  /** The sum over the answerable rows of the places before the first relevant result. */
  function AllPlacesBefore(rows: seq<Row>, truths: map<string, Truth>, stage: Stage): nat
    requires Known(rows, truths)
  {
    if rows == [] then 0
    else
      var truth := truths[rows[0].queryId];
      (if truth.answerable then PlacesBefore(rows[0], truth, stage) else 0) + AllPlacesBefore(rows[1..], truths, stage)
  }

  lemma {:induction false} PlacesBeforeAppend(rows: seq<Row>, truths: map<string, Truth>, stage: Stage, row: Row)
    requires Known(rows, truths) && row.queryId in truths
    ensures Known(rows + [row], truths)
    ensures AllPlacesBefore(rows + [row], truths, stage)
         == AllPlacesBefore(rows, truths, stage)
            + (if truths[row.queryId].answerable then PlacesBefore(row, truths[row.queryId], stage) else 0)
  {
    hide PlacesBefore;
    if rows == [] {
      assert [] + [row] == [row];
      assert AllPlacesBefore([row][1..], truths, stage) == 0;
    } else {
      assert (rows + [row])[1..] == rows[1..] + [row];
      PlacesBeforeAppend(rows[1..], truths, stage, row);
    }
  }

  /** The rank gain is what all places before first relevant results sum up to under the one stage, less
      what they sum up to under the other. */
  lemma {:induction false} RankGainIsPlaces(rows: seq<Row>, truths: map<string, Truth>, before: Stage, after: Stage)
    requires Known(rows, truths)
    ensures RankGain(rows, truths, before, after)
         == AllPlacesBefore(rows, truths, before) - AllPlacesBefore(rows, truths, after)
  {
    hide PlacesBefore, FirstRank;
    if rows != [] {
      var n := |rows| - 1;
      var row := rows[n];
      RankGainIsPlaces(rows[..n], truths, before, after);
      assert rows == rows[..n] + [row];
      PlacesBeforeAppend(rows[..n], truths, before, row);
      PlacesBeforeAppend(rows[..n], truths, after, row);
      RankIsPlacesBefore(row, truths[row.queryId], before);
      RankIsPlacesBefore(row, truths[row.queryId], after);
    }
  }

  // ---------------------------------------------------------------- lists over the rows

  function QueryIds(rows: seq<Row>): seq<string>
  {
    seq(|rows|, i requires 0 <= i < |rows| => rows[i].queryId)
  }

  /** The rows with a failure type: exactly those whose rankings say so, at these places, in order. */
  lemma {:induction false} FailingRows(rows: seq<Row>, truths: map<string, Truth>, t: FailureType)
    returns (at: seq<nat>, marked: seq<bool>)
    requires ScoringTheorems.AllChecked(rows, truths)
    ensures ListsMarked(FailingIds(rows, truths, t), at, QueryIds(rows), marked)
    ensures |marked| == |rows|
    ensures forall k :: 0 <= k < |rows| ==> (marked[k] <==> MeansFailure(rows[k], truths[rows[k].queryId], t))
  {
    hide ListsMarked, MeansFailure, Fails, Checked;
    if rows == [] {
      at, marked := [], [];
      NothingMarked();
    } else {
      var n := |rows| - 1;
      var row, truth := rows[n], truths[rows[n].queryId];
      at, marked := FailingRows(rows[..n], truths, t);
      FailuresAreToldByRankings(row, truth, t);
      var hit := Fails(row, truth.answerable, t);
      NextMarked(FailingIds(rows[..n], truths, t), at, QueryIds(rows[..n]), marked, row.queryId, hit);
      at, marked := if hit then at + [n] else at, marked + [hit];
      assert QueryIds(rows) == QueryIds(rows[..n]) + [row.queryId];
      assert forall k :: 0 <= k < n ==> rows[..n][k] == rows[k];
    }
  }

  /** The failure records with a type, in order. */
  lemma {:induction false} RecordsWithType(failures: seq<Failure>, t: FailureType)
    returns (at: seq<nat>, marked: seq<bool>)
    ensures ListsMarked(IdsWith(failures, t), at, RecordIds(failures), marked)
    ensures |marked| == |failures| && forall k :: 0 <= k < |failures| ==> (marked[k] <==> t in failures[k].types)
  {
    hide ListsMarked;
    if failures == [] {
      at, marked := [], [];
      NothingMarked();
    } else {
      var n := |failures| - 1;
      var f, hit := failures[n], t in failures[n].types;
      at, marked := RecordsWithType(failures[..n], t);
      NextMarked(IdsWith(failures[..n], t), at, RecordIds(failures[..n]), marked, f.queryId, hit);
      at, marked := if hit then at + [n] else at, marked + [hit];
      assert RecordIds(failures) == RecordIds(failures[..n]) + [f.queryId];
      assert forall k :: 0 <= k < n ==> failures[..n][k] == failures[k];
    }
  }

  function RecordIds(failures: seq<Failure>): seq<string>
  {
    seq(|failures|, i requires 0 <= i < |failures| => failures[i].queryId)
  }

  /** The list of a statistic: exactly the answerable rows whose rankings it is about, in order. */
  lemma {:induction false} ShowingRows(rows: seq<Row>, truths: map<string, Truth>, stage: Stage, stat: Stat)
    returns (at: seq<nat>, marked: seq<bool>)
    requires Known(rows, truths)
    ensures ListsMarked(ShowingIds(rows, truths, stage, stat), at, QueryIds(rows), marked)
    ensures |marked| == |rows|
    ensures forall k :: 0 <= k < |rows| ==>
              var truth := truths[rows[k].queryId];
              (marked[k] <==> truth.answerable && MeansStat(stat, Ids(rows[k], stage), LabelsOf(truth, stage)))
  {
    hide ListsMarked, MeansStat, Shows;
    if rows == [] {
      at, marked := [], [];
      NothingMarked();
    } else {
      var n := |rows| - 1;
      var row, truth := rows[n], truths[rows[n].queryId];
      at, marked := ShowingRows(rows[..n], truths, stage, stat);
      StatisticsAreToldByPlaces(stat, Ids(row, stage), LabelsOf(truth, stage));
      var hit := truth.answerable && Shows(stat, Ids(row, stage), TruthAt(truth, stage));
      NextMarked(ShowingIds(rows[..n], truths, stage, stat), at, QueryIds(rows[..n]), marked, row.queryId, hit);
      at, marked := if hit then at + [n] else at, marked + [hit];
      assert QueryIds(rows) == QueryIds(rows[..n]) + [row.queryId];
      assert forall k :: 0 <= k < n ==> rows[..n][k] == rows[k];
    }
  }

  /** A list of a comparison: exactly the answerable rows with that change, in order. */
  lemma {:induction false} ChangedRows(
    rows: seq<Row>, truths: map<string, Truth>, before: Stage, after: Stage, c: Change, hit: bool)
    returns (at: seq<nat>, marked: seq<bool>)
    requires Known(rows, truths)
    ensures ListsMarked(ChangedIds(rows, truths, before, after, c, hit), at, QueryIds(rows), marked)
    ensures |marked| == |rows|
    ensures forall k :: 0 <= k < |rows| ==>
              var truth := truths[rows[k].queryId];
              (marked[k] <==> truth.answerable && MeansChange(rows[k], truth, before, after, c, hit))
  {
    hide ListsMarked, MeansChange, HitChange, RankChange, Rank5;
    if rows == [] {
      at, marked := [], [];
      NothingMarked();
    } else {
      var n := |rows| - 1;
      var row, truth := rows[n], truths[rows[n].queryId];
      at, marked := ChangedRows(rows[..n], truths, before, after, c, hit);
      ChangesAreToldByPlaces(row, truth, before, after, c, hit);
      var yes := truth.answerable && MeansChange(row, truth, before, after, c, hit);
      NextMarked(ChangedIds(rows[..n], truths, before, after, c, hit), at, QueryIds(rows[..n]), marked,
                 row.queryId, yes);
      at, marked := if yes then at + [n] else at, marked + [yes];
      assert QueryIds(rows) == QueryIds(rows[..n]) + [row.queryId];
      assert forall k :: 0 <= k < n ==> rows[..n][k] == rows[k];
    }
  }

  /** The denominators count the answerable rows. */
  lemma {:induction false} AnswerableRowsAreCounted(rows: seq<Row>, truths: map<string, Truth>, n: nat)
    requires Known(rows, truths) && n <= |rows|
    ensures AnswerableCount(rows[..n], truths) == |set i: nat | i < n && truths[rows[i].queryId].answerable|
  {
    if n > 0 {
      AnswerableRowsAreCounted(rows, truths, n - 1);
      assert rows[..n][..n - 1] == rows[..n - 1];
      var before := set i: nat | i < n - 1 && truths[rows[i].queryId].answerable;
      var all := set i: nat | i < n && truths[rows[i].queryId].answerable;
      OneMore(before, all, n - 1, truths[rows[n - 1].queryId].answerable);
    }
  }
}
