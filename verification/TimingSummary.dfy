/** `decision_agent/evaluation/enterprise_retrieval_baseline.py`: `timing_summary`, over exact reals. */
module TimingSummary {
  import opened Texts
  import RetrievalMetrics

  datatype Summary = Summary(total: real, mean: real, median: real, p95: real, min: real, max: real)

  datatype TimingError = TimingsInvalid

  // ---------------------------------------------------------------- sorting

  predicate Ascending(xs: seq<real>) { forall i, j :: 0 <= i <= j < |xs| ==> xs[i] <= xs[j] }

  function Insert(x: real, xs: seq<real>): (r: seq<real>)
    ensures multiset(r) == multiset(xs) + multiset{x}
  {
    if xs == [] || xs[|xs| - 1] <= x then xs + [x]
    else
      assert xs == xs[..|xs| - 1] + [xs[|xs| - 1]];
      Insert(x, xs[..|xs| - 1]) + [xs[|xs| - 1]]
  }

  function Sorted(xs: seq<real>): (r: seq<real>)
    ensures multiset(r) == multiset(xs) && |r| == |xs|
  {
    if xs == [] then []
    else
      assert xs == xs[..|xs| - 1] + [xs[|xs| - 1]];
      var r := Insert(xs[|xs| - 1], Sorted(xs[..|xs| - 1]));
      assert |multiset(r)| == |multiset(xs)|;
      r
  }

  lemma {:induction false} InsertAscends(x: real, xs: seq<real>)
    requires Ascending(xs)
    ensures Ascending(Insert(x, xs))
  {
    if xs != [] && xs[|xs| - 1] > x {
      var n := |xs| - 1;
      InsertAscends(x, xs[..n]);
      InsertMembers(x, xs[..n]);
      AppendAscends(Insert(x, xs[..n]), xs[n]);
    }
  }

  lemma {:induction false} InsertMembers(x: real, xs: seq<real>)
    ensures forall i :: 0 <= i < |Insert(x, xs)| ==> Insert(x, xs)[i] == x || Insert(x, xs)[i] in xs
  {
    forall i | 0 <= i < |Insert(x, xs)| ensures Insert(x, xs)[i] == x || Insert(x, xs)[i] in xs {
      assert Insert(x, xs)[i] in multiset(Insert(x, xs));
    }
  }

  lemma {:induction false} AppendAscends(xs: seq<real>, y: real)
    requires Ascending(xs) && forall i :: 0 <= i < |xs| ==> xs[i] <= y
    ensures Ascending(xs + [y])
  {
  }

  lemma {:induction false} SortedAscends(xs: seq<real>)
    ensures Ascending(Sorted(xs))
  {
    if xs != [] {
      SortedAscends(xs[..|xs| - 1]);
      InsertAscends(xs[|xs| - 1], Sorted(xs[..|xs| - 1]));
    }
  }

  lemma {:induction false} LastIsGreatest(xs: seq<real>, y: real)
    requires Ascending(xs) && xs != [] && y in multiset(xs)
    ensures y <= xs[|xs| - 1]
  {
    assert y in xs;
  }

  /** An ascending arrangement of a multiset is unique. */
  lemma {:induction false} AscendingIsUnique(xs: seq<real>, ys: seq<real>)
    requires Ascending(xs) && Ascending(ys) && multiset(xs) == multiset(ys)
    ensures xs == ys
  {
    SameLength(xs, ys);
    if xs != [] {
      var n := |xs| - 1;
      SameLast(xs, ys);
      WithoutLast(xs);
      WithoutLast(ys);
      AscendingIsUnique(xs[..n], ys[..n]);
      Rejoin(xs, ys, n);
    }
  }

  lemma {:induction false} SameLength(xs: seq<real>, ys: seq<real>)
    requires multiset(xs) == multiset(ys)
    ensures |xs| == |ys|
  {
    assert |multiset(xs)| == |multiset(ys)|;
  }

  lemma {:induction false} Rejoin(xs: seq<real>, ys: seq<real>, n: nat)
    requires |xs| == |ys| == n + 1 && xs[..n] == ys[..n] && xs[n] == ys[n]
    ensures xs == ys
  {
    assert xs == xs[..n] + [xs[n]] && ys == ys[..n] + [ys[n]];
  }

  lemma {:induction false} SameLast(xs: seq<real>, ys: seq<real>)
    requires Ascending(xs) && Ascending(ys) && multiset(xs) == multiset(ys) && xs != [] && ys != []
    ensures xs[|xs| - 1] == ys[|ys| - 1]
  {
    assert xs[|xs| - 1] in multiset(ys) && ys[|ys| - 1] in multiset(xs);
    LastIsGreatest(xs, ys[|ys| - 1]);
    LastIsGreatest(ys, xs[|xs| - 1]);
  }

  lemma {:induction false} WithoutLast(xs: seq<real>)
    requires xs != []
    ensures multiset(xs[..|xs| - 1]) == multiset(xs) - multiset{xs[|xs| - 1]}
  {
    assert xs == xs[..|xs| - 1] + [xs[|xs| - 1]];
  }

  // ---------------------------------------------------------------- interpolation

  /** The value at the position `p / 20`: between two neighbours, interpolated linearly. */
  function At(xs: seq<real>, p: nat): real
    requires xs != [] && p <= 20 * (|xs| - 1)
  {
    if p % 20 == 0 then xs[p / 20]
    else xs[p / 20] + (xs[p / 20 + 1] - xs[p / 20]) * ((p % 20) as real / 20.0)
  }

  lemma {:induction false} Between(a: real, b: real, s: nat, t: nat)
    requires a <= b && s <= t <= 20
    ensures a <= a + (b - a) * (s as real / 20.0) <= a + (b - a) * (t as real / 20.0) <= b
  {
    BetweenAt(a, b, s as real / 20.0, t as real / 20.0);
  }

  lemma {:induction false} BetweenAt(a: real, b: real, u: real, v: real)
    requires a <= b && 0.0 <= u <= v <= 1.0
    ensures a <= a + (b - a) * u <= a + (b - a) * v <= b
  {
    Scaled(b - a, u, v);
    Shrunk(b - a, v);
  }

  lemma {:induction false} Shrunk(d: real, v: real)
    requires d >= 0.0 && 0.0 <= v <= 1.0
    ensures d * v <= d
  {
    ProductOfPositives(d, 1.0 - v);
    assert d * (1.0 - v) == d - d * v;
  }

  lemma {:induction false} Scaled(d: real, u: real, v: real)
    requires d >= 0.0 && 0.0 <= u <= v
    ensures 0.0 <= d * u <= d * v
  {
    ProductOfPositives(d, u);
    ProductOfPositives(d, v - u);
    assert d * (v - u) == d * v - d * u;
  }

  lemma {:induction false} ProductOfPositives(x: real, y: real)
    requires x >= 0.0 && y >= 0.0
    ensures x * y >= 0.0
  {
  }

  lemma {:induction false} AtStaysBetween(xs: seq<real>, p: nat)
    requires Ascending(xs) && xs != [] && p <= 20 * (|xs| - 1)
    ensures xs[p / 20] <= At(xs, p)
    ensures p % 20 != 0 ==> At(xs, p) <= xs[p / 20 + 1]
    ensures p % 20 == 0 ==> At(xs, p) == xs[p / 20]
  {
    if p % 20 != 0 { Between(xs[p / 20], xs[p / 20 + 1], p % 20, p % 20); }
  }

  /** A later position never holds a smaller value. */
  lemma {:induction false} AtIsMonotone(xs: seq<real>, p: nat, q: nat)
    requires Ascending(xs) && xs != [] && p <= q <= 20 * (|xs| - 1)
    ensures At(xs, p) <= At(xs, q)
  {
    AtStaysBetween(xs, p);
    AtStaysBetween(xs, q);
    if p / 20 == q / 20 {
      if p % 20 != 0 { Between(xs[p / 20], xs[p / 20 + 1], p % 20, q % 20); }
    } else {
      assert p / 20 + 1 <= q / 20;
      assert xs[p / 20] <= xs[p / 20 + 1] <= xs[q / 20];
    }
  }

  lemma {:induction false} AtEnds(xs: seq<real>)
    requires xs != []
    ensures At(xs, 0) == xs[0] && At(xs, 20 * (|xs| - 1)) == xs[|xs| - 1]
  {
    assert 20 * (|xs| - 1) % 20 == 0;
  }

  // ---------------------------------------------------------------- the summary

  function Sum(xs: seq<real>): real { if xs == [] then 0.0 else Sum(xs[..|xs| - 1]) + xs[|xs| - 1] }

  function Mean(xs: seq<real>): real
    requires xs != []
  {
    Sum(xs) / |xs| as real
  }

  function Median(xs: seq<real>): real
    requires xs != []
  {
    if |xs| % 2 == 1 then xs[|xs| / 2] else (xs[|xs| / 2 - 1] + xs[|xs| / 2]) / 2.0
  }

  /** The median is the value half way. */
  lemma {:induction false} MedianIsHalfWay(xs: seq<real>)
    requires xs != []
    ensures Median(xs) == At(xs, 10 * (|xs| - 1))
  {
    var p := 10 * (|xs| - 1);
    if |xs| % 2 == 1 {
      assert p == 20 * (|xs| / 2);
    } else {
      assert p == 20 * (|xs| / 2 - 1) + 10;
      assert p / 20 == |xs| / 2 - 1 && p % 20 == 10;
    }
  }

  predicate Summarizable(values: seq<real>) { values != [] && forall i :: 0 <= i < |values| ==> values[i] >= 0.0 }

  function P95(xs: seq<real>): real
    requires xs != []
  {
    At(xs, 19 * (|xs| - 1))
  }

  /** The position 95% of the way is `19 (n - 1) / 20`; `floor` and `ceil` of it are equal exactly when
      20 divides it. */
  method Summarize(values: seq<real>) returns (r: Result<Summary, TimingError>)
    ensures r.Ok? <==> Summarizable(values)
    ensures r.Ok? ==> r.value == SummaryOf(Sorted(values))
  {
    if values == [] || exists i :: 0 <= i < |values| && values[i] < 0.0 { return Err(TimingsInvalid); }
    var summary := Describe(Sorted(values));
    return Ok(summary);
  }

  method Describe(ordered: seq<real>) returns (r: Summary)
    requires ordered != []
    ensures r == SummaryOf(ordered)
  {
    var p95 := Percentile95(ordered);
    return Summary(Sum(ordered), Mean(ordered), Median(ordered), p95, ordered[0], ordered[|ordered| - 1]);
  }

  method Percentile95(ordered: seq<real>) returns (p95: real)
    requires ordered != []
    ensures p95 == P95(ordered)
  {
    var position := (|ordered| - 1) as real * 0.95;
    var lower := position.Floor;
    var upper := if lower as real == position then lower else lower + 1;
    FloorOfPosition(|ordered|, lower);
    ghost var p := 19 * (|ordered| - 1);
    assert lower == p / 20 && (lower == upper <==> p % 20 == 0);
    if lower == upper { return ordered[lower]; }
    return ordered[lower] + (ordered[upper] - ordered[lower]) * (position - lower as real);
  }

  lemma {:induction false} FloorOfPosition(n: nat, lower: int)
    requires n >= 1 && lower == ((n - 1) as real * 0.95).Floor
    ensures lower == 19 * (n - 1) / 20
    ensures (n - 1) as real * 0.95 - lower as real == (19 * (n - 1) % 20) as real / 20.0
  {
    var m := 19 * (n - 1);
    assert (n - 1) as real * 0.95 == m as real / 20.0;
    assert m == 20 * (m / 20) + m % 20;
    assert m as real / 20.0 == (m / 20) as real + (m % 20) as real / 20.0;
  }

  function SummaryOf(ordered: seq<real>): Summary
    requires ordered != []
  {
    Summary(Sum(ordered), Mean(ordered), Median(ordered), P95(ordered), ordered[0], ordered[|ordered| - 1])
  }

  lemma {:induction false} PositionsAreOrdered(xs: seq<real>)
    requires Ascending(xs) && xs != []
    ensures xs[0] <= Median(xs) <= P95(xs) <= xs[|xs| - 1]
  {
    var n := |xs| - 1;
    MedianIsHalfWay(xs);
    AtEnds(xs);
    AtIsMonotone(xs, 0, 10 * n);
    AtIsMonotone(xs, 10 * n, 19 * n);
    AtIsMonotone(xs, 19 * n, 20 * n);
  }

  lemma {:induction false} SmallestIsValue(values: seq<real>)
    requires values != []
    ensures Sorted(values)[0] in values
  {
    assert Sorted(values)[0] in multiset(Sorted(values));
  }

  /** min <= median <= p95 <= max, and the mean lies between the extremes. */
  lemma {:induction false} SummaryIsOrdered(values: seq<real>)
    requires Summarizable(values)
    ensures var s := SummaryOf(Sorted(values));
            0.0 <= s.min <= s.median <= s.p95 <= s.max && s.min <= s.mean <= s.max
  {
    var xs := Sorted(values);
    SortedAscends(values);
    SmallestIsValue(values);
    PositionsAreOrdered(xs);
    MeanIsBetween(xs);
  }

  lemma {:induction false} MeanIsBetween(xs: seq<real>)
    requires Ascending(xs) && xs != []
    ensures xs[0] <= Mean(xs) <= xs[|xs| - 1]
  {
    SumBounds(xs, xs[0], xs[|xs| - 1]);
    QuotientBetween(Sum(xs), |xs|, xs[0], xs[|xs| - 1]);
  }

  lemma {:induction false} SumBounds(xs: seq<real>, low: real, high: real)
    requires forall i :: 0 <= i < |xs| ==> low <= xs[i] <= high
    ensures low * |xs| as real <= Sum(xs) <= high * |xs| as real
  {
    if xs != [] {
      var n := |xs| - 1;
      SumBounds(xs[..n], low, high);
      assert low * (n + 1) as real == low * n as real + low;
      assert high * (n + 1) as real == high * n as real + high;
    }
  }

  lemma {:induction false} QuotientBetween(sum: real, n: nat, low: real, high: real)
    requires n > 0 && low * n as real <= sum <= high * n as real
    ensures low <= sum / n as real <= high
  {
    var mean := sum / n as real;
    assert mean * n as real == sum;
    RetrievalMetrics.CancelFactor(low, mean, n as real);
    RetrievalMetrics.CancelFactor(mean, high, n as real);
  }

  /** The order in which the timings were taken does not matter. */
  lemma {:induction false} SummaryIgnoresOrder(values: seq<real>, others: seq<real>)
    requires Summarizable(values) && multiset(values) == multiset(others)
    ensures Summarizable(others) && SummaryOf(Sorted(values)) == SummaryOf(Sorted(others))
  {
    forall i | 0 <= i < |others| ensures others[i] >= 0.0 {
      assert others[i] in multiset(values);
    }
    assert values[0] in multiset(others);
    SortedAscends(values);
    SortedAscends(others);
    AscendingIsUnique(Sorted(values), Sorted(others));
  }

  // ---------------------------------------------------------------- every value of the summary

  /** The values added up from the first on. */
  function Added(values: seq<real>): real { if values == [] then 0.0 else values[0] + Added(values[1..]) }

  lemma {:induction false} AddedAppend(values: seq<real>, x: real)
    ensures Added(values + [x]) == Added(values) + x
  {
    if values == [] {
      assert [] + [x] == [x];
      assert Added([x][1..]) == 0.0;
    } else {
      assert (values + [x])[1..] == values[1..] + [x];
      AddedAppend(values[1..], x);
    }
  }

  lemma {:induction false} SumIsAdded(values: seq<real>)
    ensures Sum(values) == Added(values)
  {
    if values != [] {
      var n := |values| - 1;
      SumIsAdded(values[..n]);
      AddedAppend(values[..n], values[n]);
      assert values == values[..n] + [values[n]];
    }
  }

  lemma {:induction false} SumOfInsert(x: real, xs: seq<real>)
    ensures Sum(Insert(x, xs)) == Sum(xs) + x
  {
    if xs == [] || xs[|xs| - 1] <= x {
      assert (xs + [x])[..|xs|] == xs;
    } else {
      var rest, last := xs[..|xs| - 1], xs[|xs| - 1];
      SumOfInsert(x, rest);
      assert (Insert(x, rest) + [last])[..|Insert(x, rest)|] == Insert(x, rest);
    }
  }

  lemma {:induction false} SumOfSorted(values: seq<real>)
    ensures Sum(Sorted(values)) == Sum(values)
  {
    if values != [] {
      SumOfSorted(values[..|values| - 1]);
      SumOfInsert(values[|values| - 1], Sorted(values[..|values| - 1]));
    }
  }

  lemma {:induction false} MedianOfNeighbours(xs: seq<real>)
    requires xs != []
    ensures 2.0 * Median(xs) == xs[(|xs| - 1) / 2] + xs[|xs| / 2]
  {
    if |xs| % 2 == 1 { assert (|xs| - 1) / 2 == |xs| / 2; } else { assert (|xs| - 1) / 2 == |xs| / 2 - 1; }
  }

  lemma {:induction false} Weighted(a: real, b: real, r: nat)
    requires r < 20
    ensures 20.0 * (a + (b - a) * (r as real / 20.0)) == (20 - r) as real * a + r as real * b
  {
    var t := r as real / 20.0;
    assert 20.0 * t == r as real;
    assert (b - a) * t == b * t - a * t;
    assert 20.0 * (b * t) == b * r as real && 20.0 * (a * t) == a * r as real;
    assert (20 - r) as real * a == 20.0 * a - r as real * a;
  }

  /** The 95% position is `q + r / 20`, where `19 (n - 1) == 20 q + r`. */
  lemma {:induction false} P95OfNeighbours(xs: seq<real>, q: nat, r: nat)
    requires xs != [] && 19 * (|xs| - 1) == 20 * q + r && r < 20
    ensures r == 0 ==> q < |xs| && P95(xs) == xs[q]
    ensures r > 0 ==> q + 1 < |xs| && 20.0 * P95(xs) == (20 - r) as real * xs[q] + r as real * xs[q + 1]
  {
    assert 19 * (|xs| - 1) / 20 == q && 19 * (|xs| - 1) % 20 == r;
    if r > 0 { Weighted(xs[q], xs[q + 1], r); }
  }

  lemma {:induction false} MeanTimesCount(xs: seq<real>)
    requires xs != []
    ensures RetrievalMetrics.Times(Mean(xs), |xs|) == Sum(xs)
  {
    RetrievalMetrics.QuotientTimes(Sum(xs), |xs| as real);
  }

  /** A summary, told by the values and by any ascending arrangement of them: their sum; the mean, which
      times their number is the sum; the two ends; the two values in the middle; and for the 95% position,
      `q + r / 20`, its neighbours weighted by how near they are. */
  lemma {:induction false} SummaryIsExact(values: seq<real>, xs: seq<real>, q: nat, r: nat)
    requires Summarizable(values) && Ascending(xs) && multiset(xs) == multiset(values)
    requires 19 * (|values| - 1) == 20 * q + r && r < 20
    ensures |xs| == |values|
    ensures var s, n := SummaryOf(Sorted(values)), |values|;
            && s.total == Added(values) && RetrievalMetrics.Times(s.mean, n) == s.total
            && s.min == xs[0] && s.max == xs[n - 1]
            && 2.0 * s.median == xs[(n - 1) / 2] + xs[n / 2]
            && (r == 0 ==> q < n && s.p95 == xs[q])
            && (r > 0 ==> q + 1 < n && 20.0 * s.p95 == (20 - r) as real * xs[q] + r as real * xs[q + 1])
  {
    hide Sum, Added, Median, Mean, P95, Sorted, Ascending, RetrievalMetrics.Times;
    SameLength(xs, values);
    SortedAscends(values);
    AscendingIsUnique(xs, Sorted(values));
    SumOfSorted(values);
    SumIsAdded(values);
    MeanTimesCount(xs);
    MedianOfNeighbours(xs);
    P95OfNeighbours(xs, q, r);
  }
}
