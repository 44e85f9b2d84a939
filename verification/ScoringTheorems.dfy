/** The scorers of `enterprise_retrieval_baseline.py` read the same rankings independently; where they
    must agree, and exactly where they do not. */
module ScoringTheorems {
  import opened Texts
  import ClauseMapping
  import opened Labels
  import opened RetrievalMetrics
  import opened Scoring
  import opened StageMetrics

  /** Stored rows, each checked against the ground truth of its query. */
  predicate AllChecked(rows: seq<Row>, truths: map<string, Truth>)
  {
    && Known(rows, truths)
    && forall i :: 0 <= i < |rows| ==> Checked(rows[i], truths[rows[i].queryId])
  }

  lemma {:induction false} IdsOfTagged(ids: seq<string>, t: LevelTruth)
    ensures IdsIn(Tagged(ids, t)) == ids
  {
    assert |IdsIn(Tagged(ids, t))| == |ids|;
    assert forall i :: 0 <= i < |ids| ==> IdsIn(Tagged(ids, t))[i] == ids[i];
  }

  /** Rows that were just evaluated pass the checks of the saved ones, and carry the right tags. */
  lemma {:induction false} BuiltRowsAreChecked(rankings: PerStage<seq<string>>, truth: Truth)
    ensures Checked(RowOf(rankings, truth), truth) && WellTagged(RowOf(rankings, truth), truth)
    ensures forall stage: Stage :: Ids(RowOf(rankings, truth), stage) == rankings.At(stage)
    ensures forall stage: Stage, j :: 0 <= j < |rankings.At(stage)| ==>
              RowOf(rankings, truth).candidates.At(stage)[j].tag
              == Label(rankings.At(stage)[j],
                       if stage == ParentStage || stage == Evidence then truth.parents else truth.children)
  {
    forall stage: Stage { IdsOfTagged(rankings.At(stage), TruthAt(truth, stage)); }
  }

  // ---------------------------------------------------------------- "no relevant at 5"

  /** The failure flag, the exposure list and a hit rate of zero name the same queries. */
  lemma {:induction false} NoRelevantAgrees(row: Row, truth: Truth, stage: Stage)
    requires Checked(row, truth) && truth.answerable && !stage.Evidence?
    ensures Fails(row, true, NoRelevantAt5(stage)) <==> Shows(NoRelevant5, Ids(row, stage), TruthAt(truth, stage))
    ensures Shows(NoRelevant5, Ids(row, stage), TruthAt(truth, stage))
       <==> HitRateAt(Ids(row, stage), Relevant(truth, stage), 5) == 0.0
  {
    CutFirstRank(Ids(row, stage), Relevant(truth, stage), 5, stage.Cut());
  }

  lemma {:induction false} NoRelevantListsAgree(rows: seq<Row>, truths: map<string, Truth>, stage: Stage)
    requires AllChecked(rows, truths) && !stage.Evidence?
    ensures FailingIds(rows, truths, NoRelevantAt5(stage)) == ShowingIds(rows, truths, stage, NoRelevant5)
  {
    if rows != [] {
      var last := rows[|rows| - 1];
      NoRelevantListsAgree(rows[..|rows| - 1], truths, stage);
      assert Checked(last, truths[last.queryId]);
      if truths[last.queryId].answerable { NoRelevantAgrees(last, truths[last.queryId], stage); }
    }
  }

  /** The numerator of the hit rate at 5 counts exactly the queries that are not in that list. */
  lemma {:induction false} HitRateCountsTheRest(rows: seq<Row>, truths: map<string, Truth>, stage: Stage)
    requires Known(rows, truths) && AllScorable(rows, truths, stage)
    ensures Numerator(rows, truths, stage, HitRate(5))
         == (AnswerableCount(rows, truths) - |ShowingIds(rows, truths, stage, NoRelevant5)|) as real
  {
    if rows != [] {
      var last := rows[|rows| - 1];
      HitRateCountsTheRest(rows[..|rows| - 1], truths, stage);
      if truths[last.queryId].answerable { RelevantIsNotEmpty(last, truths[last.queryId], stage); }
    }
  }

  lemma {:induction false} RelevantIsNotEmpty(row: Row, truth: Truth, stage: Stage)
    requires Scorable(Ids(row, stage), TruthAt(truth, stage).relevant)
    ensures Relevant(truth, stage) != {}
  {
    assert TruthAt(truth, stage).relevant[0] in Relevant(truth, stage);
  }

  // ---------------------------------------------------------------- the reranker against the fused ranking

  /** The flag compares a rank cut at 5 with one cut at 10; the comparison cuts both at 5.  They agree. */
  lemma {:induction false} RerankerRegressionAgrees(row: Row, truth: Truth)
    requires Checked(row, truth) && truth.answerable
    ensures Fails(row, true, RerankerRegressed)
       <==> RankChange(Rank5(row, truth, Rrf), Rank5(row, truth, Reranker)) == Regressed
  {
    CutFirstRank(Ids(row, Rrf), Relevant(truth, Rrf), 5, 10);
    assert row.firstRanks.At(Rrf) == StoredRank(Ids(row, Rrf), truth, Rrf);
    assert row.firstRanks.At(Reranker) == StoredRank(Ids(row, Reranker), truth, Reranker);
  }

  lemma {:induction false} RerankerRegressionListsAgree(rows: seq<Row>, truths: map<string, Truth>)
    requires AllChecked(rows, truths)
    ensures FailingIds(rows, truths, RerankerRegressed) == ChangedIds(rows, truths, Rrf, Reranker, Regressed, false)
  {
    if rows != [] {
      var last := rows[|rows| - 1];
      RerankerRegressionListsAgree(rows[..|rows| - 1], truths);
      assert Checked(last, truths[last.queryId]);
      if truths[last.queryId].answerable { RerankerRegressionAgrees(last, truths[last.queryId]); }
    }
  }

  // ---------------------------------------------------------------- comparisons and numerators

  /** For any two stages, the queries whose top hit improved minus those that regressed are the change of
      the numerator of the hit rate at 1. */
  lemma {:induction false} HitChangesAreTheNumeratorChange(
    rows: seq<Row>, truths: map<string, Truth>, before: Stage, after: Stage)
    requires Known(rows, truths) && AllScorable(rows, truths, before) && AllScorable(rows, truths, after)
    ensures (|ChangedIds(rows, truths, before, after, Improved, true)|
             - |ChangedIds(rows, truths, before, after, Regressed, true)|) as real
         == Numerator(rows, truths, after, HitRate(1)) - Numerator(rows, truths, before, HitRate(1))
  {
    if rows != [] {
      var last := rows[|rows| - 1];
      var truth := truths[last.queryId];
      HitChangesAreTheNumeratorChange(rows[..|rows| - 1], truths, before, after);
      HitChangeOfRow(last, truth, before, after);
    }
  }

  lemma {:induction false} HitChangeOfRow(row: Row, truth: Truth, before: Stage, after: Stage)
    requires truth.answerable ==> Scorable(Ids(row, before), TruthAt(truth, before).relevant)
    requires truth.answerable ==> Scorable(Ids(row, after), TruthAt(truth, after).relevant)
    ensures var change := HitChange(Rank5(row, truth, before), Rank5(row, truth, after));
            && ValueFor(row, truth, after, HitRate(1)) - ValueFor(row, truth, before, HitRate(1))
               == if !truth.answerable || change == Unchanged then 0.0 else if change == Improved then 1.0 else -1.0
  {
    HitOfRow(row, truth, before);
    HitOfRow(row, truth, after);
  }

  lemma {:induction false} HitOfRow(row: Row, truth: Truth, stage: Stage)
    requires truth.answerable ==> Scorable(Ids(row, stage), TruthAt(truth, stage).relevant)
    ensures ValueFor(row, truth, stage, HitRate(1))
         == if truth.answerable && Rank5(row, truth, stage) == Some(1) then 1.0 else 0.0
  {
    if truth.answerable { RelevantIsNotEmpty(row, truth, stage); }
    CutFirstRank(Ids(row, stage), Relevant(truth, stage), 1, 5);
  }

  /** Every answerable query is in exactly one of the three lists of a comparison. */
  lemma {:induction false} ChangesPartition(
    rows: seq<Row>, truths: map<string, Truth>, before: Stage, after: Stage, hit: bool)
    requires Known(rows, truths)
    ensures |ChangedIds(rows, truths, before, after, Improved, hit)|
              + |ChangedIds(rows, truths, before, after, Regressed, hit)|
            + |ChangedIds(rows, truths, before, after, Unchanged, hit)| == AnswerableCount(rows, truths)
  {
    if rows != [] { ChangesPartition(rows[..|rows| - 1], truths, before, after, hit); }
  }

  // ---------------------------------------------------------------- overlap never comes first

  lemma {:induction false} NothingRelevantBefore(row: Row, truth: Truth, stage: Stage, i: nat)
    requires Checked(row, truth) && WellTagged(row, truth) && truth.answerable && i < |Before(row, stage)|
    ensures i < |Ids(row, stage)| && Ids(row, stage)[i] !in TruthAt(truth, stage).relevant
    ensures Before(row, stage)[i].tag == Label(Ids(row, stage)[i], TruthAt(truth, stage))
  {
    assert row.firstRanks.At(stage) == StoredRank(Ids(row, stage), truth, stage);
    assert row.candidates.At(stage) == Tagged(Ids(row, stage), TruthAt(truth, stage));
    assert Ids(row, stage)[i] !in Relevant(truth, stage);
  }

  /** Overlap is part of relevant, so no evaluated row ever has an overlap-before-relevant failure. */
  lemma {:induction false} OverlapNeverComesFirst(row: Row, truth: Truth, stage: Stage)
    requires Checked(row, truth) && WellTagged(row, truth) && TruthAt(truth, stage).Coherent()
    ensures !Fails(row, truth.answerable, OverlapBeforeRelevant(stage))
  {
    if truth.answerable {
      forall i | 0 <= i < |Before(row, stage)| ensures Before(row, stage)[i].tag != OverlappingLabel {
        NothingRelevantBefore(row, truth, stage, i);
      }
    }
  }

  /** In particular for rows evaluated against ground truth that was built from clauses. */
  lemma {:induction false} OverlapNeverComesFirstInBuiltRows(
    rankings: PerStage<seq<string>>, query: Query, records: map<string, ClauseMapping.ClauseRecord>,
    parentOrder: seq<string>, childOrder: seq<string>, stage: Stage)
    ensures var truth := TruthOf(query, records, parentOrder, childOrder);
            !Fails(RowOf(rankings, truth), truth.answerable, OverlapBeforeRelevant(stage))
  {
    var truth := TruthOf(query, records, parentOrder, childOrder);
    LoaderNeverRejects(query, records, parentOrder, childOrder);
    BuiltRowsAreChecked(rankings, truth);
    OverlapNeverComesFirst(RowOf(rankings, truth), truth, stage);
  }

  /** How many candidates the ranking puts before the first relevant one: the first five, if none is. */
  function HeadLength(row: Row, truth: Truth, stage: Stage): nat
  {
    Min(|Ids(row, stage)|, Max(0, RankOr(StoredRank(Ids(row, stage), truth, stage), 6) - 1))
  }

  /** A candidate of that head is saved as overlapping although its label says otherwise. */
  predicate WronglyOverlapping(row: Row, truth: Truth, stage: Stage, i: nat)
  {
    && i < HeadLength(row, truth, stage)
    && row.candidates.At(stage)[i].tag == OverlappingLabel
    && Label(Ids(row, stage)[i], TruthAt(truth, stage)) != OverlappingLabel
  }

  /** The checks of a saved row do not look at its tags.  A row that passes them has the failure at a
      stage exactly when a candidate before the first relevant one carries a wrong overlap tag. */
  lemma {:induction false} OverlapFailsOnlyOnWrongTags(row: Row, truth: Truth, stage: Stage)
    requires Checked(row, truth) && TruthAt(truth, stage).Coherent()
    ensures Fails(row, truth.answerable, OverlapBeforeRelevant(stage))
       <==> truth.answerable && exists i: nat :: WronglyOverlapping(row, truth, stage, i)
  {
    assert row.firstRanks.At(stage) == StoredRank(Ids(row, stage), truth, stage);
    assert |Before(row, stage)| == HeadLength(row, truth, stage);
    if truth.answerable {
      forall i: nat | i < |Before(row, stage)|
        ensures Before(row, stage)[i].tag == OverlappingLabel <==> WronglyOverlapping(row, truth, stage, i)
      {
        assert Ids(row, stage)[i] !in Relevant(truth, stage);
      }
      if HasTag(Before(row, stage), OverlappingLabel) {
        var i :| 0 <= i < |Before(row, stage)| && Before(row, stage)[i].tag == OverlappingLabel;
        assert WronglyOverlapping(row, truth, stage, i);
      }
      if i: nat :| WronglyOverlapping(row, truth, stage, i) {
        assert Before(row, stage)[i].tag == OverlappingLabel;
      }
    }
  }

  function Retag(candidates: seq<Candidate>, i: nat): seq<Candidate>
    requires i < |candidates|
  {
    candidates[i := Candidate(candidates[i].id, OverlappingLabel)]
  }

  /** The row with one dense candidate saved as overlapping. */
  function RetagDense(row: Row, i: nat): Row
    requires i < |row.candidates.dense|
  {
    row.(candidates := row.candidates.(dense := Retag(row.candidates.dense, i)))
  }

  lemma {:induction false} RetagKeepsIds(candidates: seq<Candidate>, i: nat)
    requires i < |candidates|
    ensures IdsIn(Retag(candidates, i)) == IdsIn(candidates)
  {
    forall k | 0 <= k < |candidates| ensures Retag(candidates, i)[k].id == candidates[k].id {}
    assert |IdsIn(Retag(candidates, i))| == |IdsIn(candidates)|;
    assert forall k :: 0 <= k < |candidates| ==> IdsIn(Retag(candidates, i))[k] == IdsIn(candidates)[k];
  }

  /** Any answerable query whose first dense candidate is not relevant has such a row: it passes every
      check and has the failure that no evaluated row has. */
  lemma {:induction false} WrongTagsAreAccepted(rankings: PerStage<seq<string>>, truth: Truth) returns (saved: Row)
    requires truth.answerable && truth.children.Coherent()
    requires |rankings.dense| > 0 && rankings.dense[0] !in truth.children.relevant
    ensures Checked(saved, truth) && forall stage: Stage :: Ids(saved, stage) == rankings.At(stage)
    ensures WronglyOverlapping(saved, truth, Dense, 0) && Fails(saved, true, OverlapBeforeRelevant(Dense))
  {
    var row := RowOf(rankings, truth);
    BuiltRowsAreChecked(rankings, truth);
    saved := RetagDense(row, 0);
    RetagKeepsIds(row.candidates.dense, 0);
    forall stage: Stage ensures Ids(saved, stage) == Ids(row, stage) {}
    assert forall stage: Stage :: saved.firstRanks.At(stage) == row.firstRanks.At(stage);
    assert Ids(saved, Dense)[0] == rankings.dense[0];
    assert WronglyOverlapping(saved, truth, Dense, 0);
    OverlapFailsOnlyOnWrongTags(saved, truth, Dense);
  }

  /** One such row: "x" comes before the only relevant candidate "r" and is saved as overlapping. */
  lemma {:induction false} ASavedRowWithAWrongTag() returns (saved: Row, truth: Truth)
    ensures LoaderAccepts(truth) && Checked(saved, truth) && Ids(saved, Dense) == ["x", "r"]
    ensures Fails(saved, true, OverlapBeforeRelevant(Dense))
  {
    var level := LevelTruth(["r"], [], []);
    var ranked := ["x", "r"];
    truth := Truth("q", true, ["c"], [], level, level);
    assert ranked[0] !in level.relevant;
    saved := WrongTagsAreAccepted(PerStage(ranked, ranked, ranked, ranked, ranked, ranked), truth);
    assert Ids(saved, Dense) == PerStage(ranked, ranked, ranked, ranked, ranked, ranked).At(Dense);
  }

  // ---------------------------------------------------------------- how a query is hit

  /** Only through overlap, with a purely relevant hit, or not at all: exactly one of the three. */
  lemma {:induction false} HitKindsPartition(ranked: seq<string>, t: LevelTruth)
    ensures Shows(OnlyViaOverlap, ranked, t) || Shows(WithPure, ranked, t) || Shows(NoRelevant5, ranked, t)
    ensures !(Shows(OnlyViaOverlap, ranked, t) && Shows(WithPure, ranked, t))
    ensures !(Shows(OnlyViaOverlap, ranked, t) && Shows(NoRelevant5, ranked, t))
    ensures !(Shows(WithPure, ranked, t) && Shows(NoRelevant5, ranked, t))
  {
    var top := Top(ranked, 5);
    assert forall i :: 0 <= i < |top| ==> top[i] == ranked[i] && top[i] in top;
    var first := FirstRank(ranked, Elements(t.relevant), 5);
    if first.Some? {
      assert top[first.value - 1] in t.relevant;
      if !Shows(OnlyViaOverlap, ranked, t) {
        var x :| x in top && x in t.relevant && x !in t.overlap;
        var i :| 0 <= i < |top| && top[i] == x;
        assert ranked[i] in t.relevant && ranked[i] !in t.overlap;
      }
    } else {
      forall i | 0 <= i < |top| ensures top[i] !in t.relevant { assert ranked[i] !in Elements(t.relevant); }
    }
  }

  lemma {:induction false} HitKindCountsAddUp(rows: seq<Row>, truths: map<string, Truth>, stage: Stage)
    requires Known(rows, truths)
    ensures |ShowingIds(rows, truths, stage, OnlyViaOverlap)| + |ShowingIds(rows, truths, stage, WithPure)|
            + |ShowingIds(rows, truths, stage, NoRelevant5)| == AnswerableCount(rows, truths)
  {
    if rows != [] {
      var last := rows[|rows| - 1];
      HitKindCountsAddUp(rows[..|rows| - 1], truths, stage);
      HitKindsPartition(Ids(last, stage), TruthAt(truths[last.queryId], stage));
    }
  }

  // ---------------------------------------------------------------- hard negatives before the first relevant

  predicate HardAt(row: Row, truth: Truth, stage: Stage, low: nat, high: nat)
  {
    exists i :: low <= i < high && i < |Ids(row, stage)| && Ids(row, stage)[i] in TruthAt(truth, stage).hard
  }

  lemma {:induction false} FlagMeansHardBefore(row: Row, truth: Truth, stage: Stage)
    requires Checked(row, truth) && WellTagged(row, truth) && truth.answerable && TruthAt(truth, stage).Coherent()
    ensures Fails(row, true, HardBeforeRelevant(stage))
       <==> HardAt(row, truth, stage, 0, RankOr(row.firstRanks.At(stage), 6) - 1)
  {
    RankIsPositive(row, truth, stage);
    if Fails(row, true, HardBeforeRelevant(stage)) {
      var i :| 0 <= i < |Before(row, stage)| && Before(row, stage)[i].tag == HardNegativeLabel;
      BeforeTagMeansHard(row, truth, stage, i);
    }
    if HardAt(row, truth, stage, 0, RankOr(row.firstRanks.At(stage), 6) - 1) {
      var i :| 0 <= i < RankOr(row.firstRanks.At(stage), 6) - 1 && i < |Ids(row, stage)|
               && Ids(row, stage)[i] in TruthAt(truth, stage).hard;
      BeforeTagMeansHard(row, truth, stage, i);
    }
  }

  lemma {:induction false} RankIsPositive(row: Row, truth: Truth, stage: Stage)
    requires Checked(row, truth)
    ensures RankOr(row.firstRanks.At(stage), 6) >= 1
  {
    assert row.firstRanks.At(stage) == StoredRank(Ids(row, stage), truth, stage);
  }

  lemma {:induction false} BeforeTagMeansHard(row: Row, truth: Truth, stage: Stage, i: nat)
    requires Checked(row, truth) && WellTagged(row, truth) && truth.answerable && TruthAt(truth, stage).Coherent()
    requires i < |Before(row, stage)|
    ensures Before(row, stage)[i].tag == HardNegativeLabel <==> Ids(row, stage)[i] in TruthAt(truth, stage).hard
  {
    NothingRelevantBefore(row, truth, stage, i);
  }

  lemma {:induction false} AnyInMeansHardAt(row: Row, truth: Truth, stage: Stage, n: nat)
    requires n <= |Ids(row, stage)|
    ensures AnyIn(Ids(row, stage)[..n], TruthAt(truth, stage).hard) <==> HardAt(row, truth, stage, 0, n)
  {
    if AnyIn(Ids(row, stage)[..n], TruthAt(truth, stage).hard) {
      var i :| 0 <= i < n && Ids(row, stage)[..n][i] in TruthAt(truth, stage).hard;
      assert Ids(row, stage)[i] in TruthAt(truth, stage).hard;
    }
    if HardAt(row, truth, stage, 0, n) {
      var i :| 0 <= i < n && Ids(row, stage)[i] in TruthAt(truth, stage).hard;
      assert Ids(row, stage)[..n][i] in TruthAt(truth, stage).hard;
    }
  }

  lemma {:induction false} ExposureMeansHardBefore(row: Row, truth: Truth, stage: Stage)
    ensures var first := FirstRank(Ids(row, stage), Relevant(truth, stage), |Ids(row, stage)|);
            (Shows(PureBefore, Ids(row, stage), TruthAt(truth, stage))
             <==> HardAt(row, truth, stage, 0, 5) && (first.None? || HardAt(row, truth, stage, 0, first.value - 1)))
  {
    var ids := Ids(row, stage);
    var first := FirstRank(ids, Relevant(truth, stage), |ids|);
    AnyInMeansHardAt(row, truth, stage, Min(5, |ids|));
    if first.Some? { AnyInMeansHardAt(row, truth, stage, first.value - 1); }
  }

  /** The flag and the exposure list agree except in one situation: the first relevant candidate has a
      rank beyond 6 that the stage still stores, all hard negatives before it come after the top five,
      and there is one.  Then only the flag is raised. */
  predicate LateHardNegative(row: Row, truth: Truth, stage: Stage)
  {
    var rank := row.firstRanks.At(stage);
    rank.Some? && rank.value >= 7 && !HardAt(row, truth, stage, 0, 5) && HardAt(row, truth, stage, 5, rank.value - 1)
  }

  lemma {:induction false} HardBeforeAgreesUnlessLate(row: Row, truth: Truth, stage: Stage)
    requires Checked(row, truth) && WellTagged(row, truth) && truth.answerable && TruthAt(truth, stage).Coherent()
    ensures (Fails(row, true, HardBeforeRelevant(stage)) <==> Shows(PureBefore, Ids(row, stage), TruthAt(truth, stage)))
       <==> !LateHardNegative(row, truth, stage)
    ensures LateHardNegative(row, truth, stage) ==> Fails(row, true, HardBeforeRelevant(stage)) && stage.Cut() == 10
  {
    var ids := Ids(row, stage);
    FlagMeansHardBefore(row, truth, stage);
    ExposureMeansHardBefore(row, truth, stage);
    assert row.firstRanks.At(stage) == StoredRank(ids, truth, stage);
    StoredRankIsCut(ids, Relevant(truth, stage), stage.Cut());
    OnlyLateOnesDisagree(row, truth, stage, FirstRank(ids, Relevant(truth, stage), |ids|));
  }

  lemma {:induction false} OnlyLateOnesDisagree(row: Row, truth: Truth, stage: Stage, first: Option<nat>)
    requires row.firstRanks.At(stage) == if first.Some? && first.value <= stage.Cut() then first else None
    requires first.Some? ==> first.value >= 1
    ensures (HardAt(row, truth, stage, 0, RankOr(row.firstRanks.At(stage), 6) - 1)
             <==> HardAt(row, truth, stage, 0, 5) && (first.None? || HardAt(row, truth, stage, 0, first.value - 1)))
       <==> !LateHardNegative(row, truth, stage)
    ensures LateHardNegative(row, truth, stage) ==>
              HardAt(row, truth, stage, 0, RankOr(row.firstRanks.At(stage), 6) - 1) && stage.Cut() == 10
  {
    if first.Some? { SplitHard(row, truth, stage, first.value - 1); }
  }

  lemma {:induction false} StoredRankIsCut(ids: seq<string>, relevant: set<string>, cut: nat)
    ensures var first := FirstRank(ids, relevant, |ids|);
            FirstRank(ids, relevant, cut) == if first.Some? && first.value <= cut then first else None
  {
    if cut <= |ids| {
      CutFirstRank(ids, relevant, cut, |ids|);
    } else {
      CutFirstRank(ids, relevant, |ids|, cut);
    }
  }

  lemma {:induction false} SplitHard(row: Row, truth: Truth, stage: Stage, n: nat)
    ensures n >= 5 ==> (HardAt(row, truth, stage, 0, n)
       <==> HardAt(row, truth, stage, 0, 5) || HardAt(row, truth, stage, 5, n))
    ensures n <= 5 && HardAt(row, truth, stage, 0, n) ==> HardAt(row, truth, stage, 0, 5)
  {
  }

  /** The disagreement does occur: whenever the seventh candidate is the first relevant one and the sixth is
      the first hard negative. */
  lemma {:induction false} LateHardNegativesOccur(rankings: PerStage<seq<string>>, truth: Truth)
    requires truth.answerable && |rankings.dense| >= 7
    requires rankings.dense[6] in truth.children.relevant && rankings.dense[5] in truth.children.hard
    requires forall i :: 0 <= i < 6 ==> rankings.dense[i] !in truth.children.relevant
    requires forall i :: 0 <= i < 5 ==> rankings.dense[i] !in truth.children.hard
    ensures LateHardNegative(RowOf(rankings, truth), truth, Dense)
  {
    var ids, relevant := rankings.dense, Elements(truth.children.relevant);
    BuiltRowsAreChecked(rankings, truth);
    assert Ids(RowOf(rankings, truth), Dense) == rankings.At(Dense);
    assert ids[6] in relevant && forall i :: 0 <= i < 6 ==> ids[i] !in relevant;
    assert FirstRank(ids, relevant, 7) == Some(7);
    CutFirstRank(ids, relevant, 7, 10);
  }
}
