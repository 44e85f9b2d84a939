/** `decision_agent/evaluation/retrieval_metrics.py`: `compute_query_metrics`, over exact reals. */
module RetrievalMetrics {
  import opened Texts
  import opened Listings

  datatype Metric = HitRate(k: int) | Recall(k: int) | Mrr(k: int)

  datatype MetricError = RankedInvalid | RelevantInvalid | NoK | KNotPositive

  // ---------------------------------------------------------------- the first relevant rank

  /** `_first_relevant_rank`: the 1-based position of the first relevant item among the first `k`. */
  function FirstRank(ranked: seq<string>, relevant: set<string>, k: nat): (r: Option<nat>)
    ensures r.Some? ==> 1 <= r.value <= k && r.value <= |ranked| && ranked[r.value - 1] in relevant
    ensures forall j :: 0 <= j < (if r.Some? then r.value - 1 else Min(k, |ranked|)) ==> ranked[j] !in relevant
  {
    if k == 0 then None
    else if FirstRank(ranked, relevant, k - 1).Some? then FirstRank(ranked, relevant, k - 1)
    else if k <= |ranked| && ranked[k - 1] in relevant then Some(k)
    else None
  }

  /** A deeper cut can only add a rank that the shallower one cut off. */
  lemma {:induction false} CutFirstRank(ranked: seq<string>, relevant: set<string>, k: nat, deep: nat)
    requires k <= deep
    ensures var r := FirstRank(ranked, relevant, deep);
            FirstRank(ranked, relevant, k) == if r.Some? && r.value <= k then r else None
  {
    if k < deep { CutFirstRank(ranked, relevant, k, deep - 1); }
  }

  method FindFirstRank(ranked: seq<string>, relevant: set<string>, k: nat) returns (r: Option<nat>)
    ensures r == FirstRank(ranked, relevant, k)
  {
    var n := Min(k, |ranked|);
    for i := 0 to n
      invariant FirstRank(ranked, relevant, i).None?
    {
      if ranked[i] in relevant {
        CutFirstRank(ranked, relevant, i + 1, k);
        return Some(i + 1);
      }
    }
    return None;
  }

  // ---------------------------------------------------------------- the metrics of one query

  function Elements(xs: seq<string>): set<string> { set x | x in xs }

  function Top(ranked: seq<string>, k: nat): seq<string> { ranked[..Min(k, |ranked|)] }

  function HitRateAt(ranked: seq<string>, relevant: set<string>, k: nat): real
  {
    if FirstRank(ranked, relevant, k).Some? then 1.0 else 0.0
  }

  function RecallAt(ranked: seq<string>, relevant: set<string>, k: nat): real
    requires relevant != {}
  {
    |relevant * Elements(Top(ranked, k))| as real / |relevant| as real
  }

  function MrrAt(ranked: seq<string>, relevant: set<string>, k: nat): real
  {
    var r := FirstRank(ranked, relevant, k);
    if r.Some? then 1.0 / r.value as real else 0.0
  }

  predicate Distinct(xs: seq<string>) { forall i, j :: 0 <= i < j < |xs| ==> xs[i] != xs[j] }

  predicate ValidIds(xs: seq<string>) { "" !in xs && Distinct(xs) }

  predicate Computable(ranked: seq<string>, relevant: seq<string>, ks: seq<int>, mrrK: int)
  {
    && ValidIds(ranked) && relevant != [] && ValidIds(relevant)
    && ks != [] && (forall k :: k in ks ==> k > 0) && mrrK > 0
  }

  function ErrorOf(ranked: seq<string>, relevant: seq<string>, ks: seq<int>): MetricError
  {
    if !ValidIds(ranked) then RankedInvalid
    else if relevant == [] || !ValidIds(relevant) then RelevantInvalid
    else if ks == [] then NoK
    else KNotPositive
  }

  /** Exactly one value for each requested metric, and each value is what its name says. */
  ghost predicate Measures(m: map<Metric, real>, ranked: seq<string>, relevant: set<string>, ks: seq<int>, mrrK: int)
    requires relevant != {} && mrrK > 0
  {
    && (forall k :: k in ks ==> HitRate(k) in m && Recall(k) in m)
    && Mrr(mrrK) in m
    && forall name :: name in m ==>
         match name
         case HitRate(k) => k in ks && k > 0 && m[name] == HitRateAt(ranked, relevant, k)
         case Recall(k) => k in ks && k > 0 && m[name] == RecallAt(ranked, relevant, k)
         case Mrr(k) => k == mrrK && m[name] == MrrAt(ranked, relevant, k)
  }

  lemma {:induction false} HitMeansRank(ranked: seq<string>, relevant: set<string>, k: nat)
    ensures relevant * Elements(Top(ranked, k)) != {} <==> FirstRank(ranked, relevant, k).Some?
  {
    var r := FirstRank(ranked, relevant, k);
    if r.Some? {
      assert Top(ranked, k)[r.value - 1] == ranked[r.value - 1];
      assert ranked[r.value - 1] in relevant * Elements(Top(ranked, k));
    } else {
      forall x | x in Top(ranked, k) ensures x !in relevant {
        var j :| 0 <= j < |Top(ranked, k)| && Top(ranked, k)[j] == x;
        assert ranked[j] !in relevant;
      }
    }
  }

  /** The dictionary after the loop over `ks`. */
  function CutMetrics(ranked: seq<string>, relevant: set<string>, ks: seq<int>): map<Metric, real>
    requires relevant != {} && forall i :: 0 <= i < |ks| ==> ks[i] > 0
  {
    if ks == [] then map[]
    else
      var k := ks[|ks| - 1];
      CutMetrics(ranked, relevant, ks[..|ks| - 1])
        [HitRate(k) := HitRateAt(ranked, relevant, k)][Recall(k) := RecallAt(ranked, relevant, k)]
  }

  lemma {:induction false} CutMetricsMeasure(ranked: seq<string>, relevant: set<string>, ks: seq<int>, name: Metric)
    requires relevant != {} && forall i :: 0 <= i < |ks| ==> ks[i] > 0
    ensures name in CutMetrics(ranked, relevant, ks) <==> (name.HitRate? || name.Recall?) && name.k in ks
    ensures name in CutMetrics(ranked, relevant, ks) ==>
              && name.k > 0
              && CutMetrics(ranked, relevant, ks)[name]
                 == if name.HitRate? then HitRateAt(ranked, relevant, name.k) else RecallAt(ranked, relevant, name.k)
  {
    if ks != [] {
      var n := |ks| - 1;
      CutMetricsMeasure(ranked, relevant, ks[..n], name);
      assert ks == ks[..n] + [ks[n]];
    }
  }

  lemma {:induction false} AllMetricsMeasure(ranked: seq<string>, relevant: set<string>, ks: seq<int>, mrrK: int)
    requires relevant != {} && (forall i :: 0 <= i < |ks| ==> ks[i] > 0) && mrrK > 0
    ensures Measures(CutMetrics(ranked, relevant, ks)[Mrr(mrrK) := MrrAt(ranked, relevant, mrrK)],
                     ranked, relevant, ks, mrrK)
  {
    forall name: Metric {
      CutMetricsMeasure(ranked, relevant, ks, name);
    }
  }

  /** The ranks, from 0, of the relevant results among the first `k`. */
  function RelevantRanks(ranked: seq<string>, relevant: seq<string>, k: int): set<nat>
  {
    set j: nat | j < k && j < |ranked| && ranked[j] in relevant
  }

  /** The metrics told by the ranks of relevant results alone: recall is their number over the number of
      relevant documents, the hit rate says whether there is one, and the reciprocal rank goes by the first. */
  ghost predicate CountsRanks(
    m: map<Metric, real>, ranked: seq<string>, relevant: seq<string>, ks: seq<int>, mrrK: int)
  {
    && (forall k :: k in ks ==>
          && Recall(k) in m && Times(m[Recall(k)], |relevant|) == |RelevantRanks(ranked, relevant, k)| as real
          && HitRate(k) in m && m[HitRate(k)] == if RelevantRanks(ranked, relevant, k) != {} then 1.0 else 0.0)
    && Mrr(mrrK) in m
    && (RelevantRanks(ranked, relevant, mrrK) == {} ==> m[Mrr(mrrK)] == 0.0)
    && (forall j: nat :: IsLeast(j, RelevantRanks(ranked, relevant, mrrK)) ==> Times(m[Mrr(mrrK)], j + 1) == 1.0)
  }

  predicate IsLeast(j: nat, s: set<nat>) { j in s && forall i :: i in s ==> j <= i }

  function Times(q: real, n: nat): real { q * n as real }

  lemma {:induction false} NextFound(ranked: seq<string>, relevant: seq<string>, n: nat)
    requires Distinct(ranked) && n < |ranked|
    ensures |Elements(relevant) * Elements(ranked[..n + 1])|
         == |Elements(relevant) * Elements(ranked[..n])| + (if ranked[n] in relevant then 1 else 0)
  {
    assert ranked[..n + 1] == ranked[..n] + [ranked[n]];
    assert ranked[n] !in ranked[..n];
    var wanted := Elements(relevant);
    OneMore(wanted * Elements(ranked[..n]), wanted * Elements(ranked[..n + 1]), ranked[n], ranked[n] in relevant);
  }

  lemma {:induction false} NextRank(ranked: seq<string>, relevant: seq<string>, n: nat)
    requires n < |ranked|
    ensures |RelevantRanks(ranked, relevant, n + 1)|
         == |RelevantRanks(ranked, relevant, n)| + (if ranked[n] in relevant then 1 else 0)
  {
    OneMore(RelevantRanks(ranked, relevant, n), RelevantRanks(ranked, relevant, n + 1), n, ranked[n] in relevant);
  }

  lemma {:induction false} NothingFound(ranked: seq<string>, relevant: seq<string>)
    ensures |Elements(relevant) * Elements(ranked[..0])| == |RelevantRanks(ranked, relevant, 0)| == 0
  {
    assert Elements(relevant) * Elements(ranked[..0]) == {};
    assert RelevantRanks(ranked, relevant, 0) == {};
  }

  lemma {:induction false} FoundAreRanks(ranked: seq<string>, relevant: seq<string>, k: nat)
    requires Distinct(ranked) && k <= |ranked|
    ensures |Elements(relevant) * Elements(ranked[..k])| == |RelevantRanks(ranked, relevant, k)|
  {
    hide RelevantRanks, Elements, Distinct;
    if k == 0 {
      NothingFound(ranked, relevant);
    } else {
      FoundAreRanks(ranked, relevant, k - 1);
      NextFound(ranked, relevant, k - 1);
      NextRank(ranked, relevant, k - 1);
    }
  }

  lemma {:induction false} DistinctElements(xs: seq<string>)
    requires Distinct(xs)
    ensures |Elements(xs)| == |xs|
  {
    if xs != [] {
      var n := |xs| - 1;
      DistinctElements(xs[..n]);
      assert xs == xs[..n] + [xs[n]];
      OneMore(Elements(xs[..n]), Elements(xs), xs[n], true);
    }
  }

  /** What `RecallAt` divides. */
  lemma {:induction false} FoundInTop(ranked: seq<string>, relevant: seq<string>, k: nat)
    requires Distinct(ranked) && Distinct(relevant) && relevant != []
    ensures Elements(relevant) != {} && |Elements(relevant)| == |relevant|
    ensures |Elements(relevant) * Elements(Top(ranked, k))| == |RelevantRanks(ranked, relevant, k)|
  {
    assert relevant[0] in Elements(relevant);
    DistinctElements(relevant);
    FoundAreRanks(ranked, relevant, Min(k, |ranked|));
    assert RelevantRanks(ranked, relevant, k) == RelevantRanks(ranked, relevant, Min(k, |ranked|));
  }

  /** Recall times the number of relevant documents is the number of relevant results. */
  lemma {:induction false} RecallCountsRanks(ranked: seq<string>, relevant: seq<string>, k: nat)
    requires Distinct(ranked) && Distinct(relevant) && relevant != []
    ensures Elements(relevant) != {}
    ensures Times(RecallAt(ranked, Elements(relevant), k), |relevant|)
         == |RelevantRanks(ranked, relevant, k)| as real
  {
    hide RelevantRanks, Elements, Top, Times;
    FoundInTop(ranked, relevant, k);
    QuotientTimesCount(|Elements(relevant) * Elements(Top(ranked, k))|, |relevant|);
  }

  lemma {:induction false} QuotientTimesCount(a: nat, n: nat)
    requires n > 0
    ensures Times(a as real / n as real, n) == a as real
  {
  }

  /** Recall is one exactly when every relevant document is among the first `k`. */
  lemma {:induction false} RecallIsOneIff(ranked: seq<string>, relevant: set<string>, k: nat)
    requires relevant != {}
    ensures RecallAt(ranked, relevant, k) == 1.0
       <==> forall x :: x in relevant ==> exists j :: 0 <= j < k && j < |ranked| && ranked[j] == x
  {
    var top := Top(ranked, k);
    WholeFraction(|relevant * Elements(top)|, |relevant|);
    if |relevant * Elements(top)| == |relevant| {
      SubsetOfSameSize(relevant * Elements(top), relevant);
      forall x | x in relevant ensures exists j :: 0 <= j < k && j < |ranked| && ranked[j] == x {
        var j :| 0 <= j < |top| && top[j] == x;
        assert ranked[j] == x;
      }
    }
    if forall x :: x in relevant ==> exists j :: 0 <= j < k && j < |ranked| && ranked[j] == x {
      forall x | x in relevant ensures x in Elements(top) {
        var j :| 0 <= j < k && j < |ranked| && ranked[j] == x;
        assert top[j] == x;
      }
      assert relevant * Elements(top) == relevant;
    }
  }

  lemma {:induction false} WholeFraction(a: nat, n: nat)
    requires n > 0
    ensures a as real / n as real == 1.0 <==> a == n
  {
    QuotientTimes(a as real, n as real);
    QuotientOfItself(n as real);
  }

  lemma {:induction false} SubsetOfSameSize(a: set<string>, b: set<string>)
    requires a <= b && |a| == |b|
    ensures a == b
  {
    if x :| x in b && x !in a {
      SubsetIsSmaller(a + {x}, b);
    }
  }

  lemma {:induction false} RankIsFirst(ranked: seq<string>, relevant: seq<string>, k: nat)
    ensures var r := FirstRank(ranked, Elements(relevant), k);
            && (r.None? <==> RelevantRanks(ranked, relevant, k) == {})
            && (r.Some? ==> IsLeast(r.value - 1, RelevantRanks(ranked, relevant, k)))
  {
    var r := FirstRank(ranked, Elements(relevant), k);
    if r.Some? { assert r.value - 1 in RelevantRanks(ranked, relevant, k); }
  }

  lemma {:induction false} HitMeansRelevantRank(ranked: seq<string>, relevant: seq<string>, k: nat)
    ensures HitRateAt(ranked, Elements(relevant), k) == if RelevantRanks(ranked, relevant, k) != {} then 1.0 else 0.0
  {
    hide RelevantRanks, FirstRank, Elements;
    RankIsFirst(ranked, relevant, k);
  }

  lemma {:induction false} MrrGoesByFirstRank(ranked: seq<string>, relevant: seq<string>, k: nat)
    ensures RelevantRanks(ranked, relevant, k) == {} ==> MrrAt(ranked, Elements(relevant), k) == 0.0
    ensures forall j: nat :: IsLeast(j, RelevantRanks(ranked, relevant, k)) ==>
              Times(MrrAt(ranked, Elements(relevant), k), j + 1) == 1.0
  {
    hide RelevantRanks, FirstRank, Elements, Times;
    RankIsFirst(ranked, relevant, k);
    var r := FirstRank(ranked, Elements(relevant), k);
    if r.Some? { QuotientTimesCount(1, r.value); }
  }

  lemma {:induction false} CutCountsRanks(
    m: map<Metric, real>, ranked: seq<string>, relevant: seq<string>, ks: seq<int>, mrrK: int, k: int)
    requires Computable(ranked, relevant, ks, mrrK) && k in ks
    requires Elements(relevant) != {} && Measures(m, ranked, Elements(relevant), ks, mrrK)
    ensures Recall(k) in m && Times(m[Recall(k)], |relevant|) == |RelevantRanks(ranked, relevant, k)| as real
    ensures HitRate(k) in m && m[HitRate(k)] == if RelevantRanks(ranked, relevant, k) != {} then 1.0 else 0.0
  {
    hide RelevantRanks, RecallAt, FirstRank, Times, Elements, HitRateAt, MrrAt, Distinct;
    RecallCountsRanks(ranked, relevant, k);
    HitMeansRelevantRank(ranked, relevant, k);
  }

  lemma {:induction false} MeasuresCountRanks(
    m: map<Metric, real>, ranked: seq<string>, relevant: seq<string>, ks: seq<int>, mrrK: int)
    requires Computable(ranked, relevant, ks, mrrK)
    requires Elements(relevant) != {} && Measures(m, ranked, Elements(relevant), ks, mrrK)
    ensures CountsRanks(m, ranked, relevant, ks, mrrK)
  {
    hide RelevantRanks, Times, Elements, Computable, Measures, MrrAt, FirstRank, RecallAt, HitRateAt;
    forall k | k in ks
      ensures Recall(k) in m && Times(m[Recall(k)], |relevant|) == |RelevantRanks(ranked, relevant, k)| as real
      ensures HitRate(k) in m && m[HitRate(k)] == if RelevantRanks(ranked, relevant, k) != {} then 1.0 else 0.0
    {
      CutCountsRanks(m, ranked, relevant, ks, mrrK, k);
    }
    MrrMeasured(m, ranked, relevant, ks, mrrK);
    MrrGoesByFirstRank(ranked, relevant, mrrK);
  }

  lemma {:induction false} MrrMeasured(
    m: map<Metric, real>, ranked: seq<string>, relevant: seq<string>, ks: seq<int>, mrrK: int)
    requires Computable(ranked, relevant, ks, mrrK)
    requires Elements(relevant) != {} && Measures(m, ranked, Elements(relevant), ks, mrrK)
    ensures mrrK > 0 && Mrr(mrrK) in m && m[Mrr(mrrK)] == MrrAt(ranked, Elements(relevant), mrrK)
  {
    hide MrrAt, Elements;
  }

  method ComputeQueryMetrics(ranked: seq<string>, relevant: seq<string>, ks: seq<int>, mrrK: int)
    returns (r: Result<map<Metric, real>, MetricError>)
    ensures r.Ok? <==> Computable(ranked, relevant, ks, mrrK)
    ensures r.Ok? ==> Elements(relevant) != {} && Measures(r.value, ranked, Elements(relevant), ks, mrrK)
    ensures r.Ok? ==> CountsRanks(r.value, ranked, relevant, ks, mrrK)
    ensures r.Err? ==> r.error == ErrorOf(ranked, relevant, ks)
    ensures r.Err? && r.error == RankedInvalid <==> "" in ranked || !Distinct(ranked)
    ensures r.Err? && r.error == RelevantInvalid
       <==> ValidIds(ranked) && (relevant == [] || "" in relevant || !Distinct(relevant))
    ensures r.Err? && r.error == NoK <==> ValidIds(ranked) && relevant != [] && ValidIds(relevant) && ks == []
  {
    if !ValidIds(ranked) { return Err(RankedInvalid); }
    if relevant == [] || !ValidIds(relevant) { return Err(RelevantInvalid); }
    if ks == [] { return Err(NoK); }
    if exists k :: k in ks && k <= 0 { return Err(KNotPositive); }
    if mrrK <= 0 { return Err(KNotPositive); }
    var wanted := Elements(relevant);
    assert relevant[0] in wanted;
    forall i | 0 <= i < |ks| ensures ks[i] > 0 { assert ks[i] in ks; }
    var metrics := MeasureCuts(ranked, wanted, ks);
    var first := FindFirstRank(ranked, wanted, mrrK);
    metrics := metrics[Mrr(mrrK) := if first.Some? then 1.0 / first.value as real else 0.0];
    AllMetricsMeasure(ranked, wanted, ks, mrrK);
    MeasuresCountRanks(metrics, ranked, relevant, ks, mrrK);
    return Ok(metrics);
  }

  /** The loop over `ks`. */
  method MeasureCuts(ranked: seq<string>, relevant: set<string>, ks: seq<int>) returns (metrics: map<Metric, real>)
    requires relevant != {} && forall i :: 0 <= i < |ks| ==> ks[i] > 0
    ensures metrics == CutMetrics(ranked, relevant, ks)
  {
    metrics := map[];
    for i := 0 to |ks|
      invariant metrics == CutMetrics(ranked, relevant, ks[..i])
    {
      assert ks[..i + 1][..i] == ks[..i];
      var k := ks[i];
      var found := relevant * Elements(Top(ranked, k));
      HitMeansRank(ranked, relevant, k);
      metrics := metrics[HitRate(k) := if found != {} then 1.0 else 0.0]
                        [Recall(k) := |found| as real / |relevant| as real];
    }
    assert ks[..|ks|] == ks;
  }

  // ---------------------------------------------------------------- how the metrics are ordered

  lemma {:induction false} SubsetIsSmaller(a: set<string>, b: set<string>)
    requires a <= b
    ensures |a| <= |b|
  {
    if a != {} {
      var x :| x in a;
      SubsetIsSmaller(a - {x}, b - {x});
    }
  }

  lemma {:induction false} ProductIsPositive(x: real, n: real)
    requires n > 0.0
    ensures x >= 0.0 ==> x * n >= 0.0
    ensures x > 0.0 ==> x * n > 0.0
  {
  }

  lemma {:induction false} Distribute(x: real, y: real, n: real)
    ensures (x - y) * n == x * n - y * n
  {
  }

  lemma {:induction false} CancelFactor(x: real, y: real, n: real)
    requires n > 0.0
    ensures x * n <= y * n <==> x <= y
  {
    Distribute(y, x, n);
    Distribute(x, y, n);
    ProductIsPositive(y - x, n);
    ProductIsPositive(x - y, n);
  }

  lemma {:induction false} QuotientTimes(x: real, n: real)
    requires n > 0.0
    ensures x / n * n == x
  {
  }

  lemma {:induction false} QuotientGrows(x: real, y: real, n: real)
    requires x <= y && n > 0.0
    ensures x / n <= y / n
  {
    QuotientTimes(x, n);
    QuotientTimes(y, n);
    CancelFactor(x / n, y / n, n);
  }

  lemma {:induction false} QuotientOfItself(n: real)
    requires n > 0.0
    ensures n / n == 1.0 && 0.0 / n == 0.0
  {
  }

  lemma {:induction false} FractionGrows(a: nat, b: nat, n: nat)
    requires a <= b <= n && n > 0
    ensures 0.0 <= a as real / n as real <= b as real / n as real <= 1.0
  {
    QuotientGrows(0.0, a as real, n as real);
    QuotientGrows(a as real, b as real, n as real);
    QuotientGrows(b as real, n as real, n as real);
    QuotientOfItself(n as real);
  }

  /** Looking at more results never lowers recall or the hit rate. */
  lemma {:induction false} RecallIsMonotone(ranked: seq<string>, relevant: set<string>, k: nat, deep: nat)
    requires relevant != {} && k <= deep
    ensures 0.0 <= RecallAt(ranked, relevant, k) <= RecallAt(ranked, relevant, deep) <= 1.0
    ensures HitRateAt(ranked, relevant, k) <= HitRateAt(ranked, relevant, deep)
  {
    forall x | x in Top(ranked, k) ensures x in Top(ranked, deep) {
      var j :| 0 <= j < |Top(ranked, k)| && Top(ranked, k)[j] == x;
      assert Top(ranked, deep)[j] == x;
    }
    var a, b := relevant * Elements(Top(ranked, k)), relevant * Elements(Top(ranked, deep));
    SubsetIsSmaller(a, b);
    SubsetIsSmaller(b, relevant);
    SubsetIsSmaller({}, relevant);
    FractionGrows(|a|, |b|, |relevant|);
    CutFirstRank(ranked, relevant, k, deep);
  }

  /** Recall is positive exactly when there is a hit, and then at least one part in `|relevant|`. */
  lemma {:induction false} RecallAgreesWithHit(ranked: seq<string>, relevant: set<string>, k: nat)
    requires relevant != {}
    ensures RecallAt(ranked, relevant, k) <= HitRateAt(ranked, relevant, k)
                                          <= |relevant| as real * RecallAt(ranked, relevant, k)
  {
    HitMeansRank(ranked, relevant, k);
    var found := relevant * Elements(Top(ranked, k));
    SubsetIsSmaller(found, relevant);
    SubsetIsSmaller({}, relevant);
    FractionOfSome(|found|, |relevant|);
  }

  /** A proper fraction is zero, or between `1 / n` and one. */
  lemma {:induction false} FractionOfSome(a: nat, n: nat)
    requires a <= n && n > 0
    ensures a as real / n as real <= (if a > 0 then 1.0 else 0.0) <= n as real * (a as real / n as real)
  {
    FractionGrows(a, a, n);
    QuotientTimes(a as real, n as real);
    QuotientOfItself(n as real);
  }

  /** Hit@1 <= MRR@K <= Hit@K <= K * MRR@K, and the reciprocal rank never falls with K. */
  lemma {:induction false} MrrLiesBetweenHitRates(ranked: seq<string>, relevant: set<string>, k: nat, deep: nat)
    requires 1 <= k <= deep
    ensures HitRateAt(ranked, relevant, 1) <= MrrAt(ranked, relevant, k) <= HitRateAt(ranked, relevant, k)
    ensures HitRateAt(ranked, relevant, k) <= k as real * MrrAt(ranked, relevant, k)
    ensures MrrAt(ranked, relevant, k) <= MrrAt(ranked, relevant, deep)
  {
    CutFirstRank(ranked, relevant, 1, k);
    CutFirstRank(ranked, relevant, k, deep);
    var r := FirstRank(ranked, relevant, k);
    if r.Some? { ReciprocalBounds(r.value, k); }
    var d := FirstRank(ranked, relevant, deep);
    if d.Some? { ReciprocalBounds(d.value, deep); }
  }

  lemma {:induction false} ReciprocalBounds(r: nat, k: nat)
    requires 1 <= r <= k
    ensures 0.0 < 1.0 / r as real <= 1.0
    ensures 1.0 <= k as real * (1.0 / r as real)
    ensures r == 1 ==> 1.0 / r as real == 1.0
  {
    var q := 1.0 / r as real;
    assert r as real * q == 1.0;
    assert k as real * q == r as real * q + (k - r) as real * q;
    assert (k - r) as real * q >= 0.0;
  }

  /** A smaller rank has a larger reciprocal. */
  lemma {:induction false} ReciprocalFalls(a: nat, b: nat)
    requires 1 <= a < b
    ensures 1.0 / a as real > 1.0 / b as real > 0.0
  {
    var p, q := 1.0 / a as real, 1.0 / b as real;
    assert a as real * p == 1.0 && b as real * q == 1.0;
    assert p * b as real == a as real * p + (b - a) as real * p;
    CancelFactor(p, q, b as real);
  }
}
