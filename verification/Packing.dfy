/** `decision_agent/ingestion/clause_aware_chunking.py`: `_parent_ranges`, the greedy packing of a
    section's clauses into parents. */
module Packing {
  import opened Texts
  import opened Sections

  /** One range that `_parent_ranges` yields, with the section it was yielded for. */
  datatype Range = Range(section: Section, start: nat, end: nat, clauseIds: seq<string>)

  function Ids(cs: seq<Clause>): seq<string>
  {
    seq(|cs|, i requires 0 <= i < |cs| => cs[i].clauseId)
  }

  /** Where a parent begins that takes the clauses from index `i` on: the first parent of a section
      also takes whatever stands before its first clause. */
  function StartOf(section: Section, cs: seq<Clause>, i: nat): nat
  {
    if i == 0 || i >= |cs| then section.start else cs[i].start
  }

  /** May one parent hold the clauses `i..j`?  A single clause always may. */
  predicate Admissible(section: Section, cs: seq<Clause>, size: int, i: nat, j: nat)
  {
    && i < j <= |cs|
    && (j == i + 1 || cs[j - 1].end - StartOf(section, cs, i) <= size)
  }

  /** The furthest end a parent starting at clause `i` may have, searching from `j` on. */
  function Furthest(section: Section, cs: seq<Clause>, size: int, i: nat, j: nat): (k: nat)
    requires i < j <= |cs|
    ensures j <= k <= |cs|
    decreases |cs| - j
  {
    if j < |cs| && Admissible(section, cs, size, i, j + 1) then Furthest(section, cs, size, i, j + 1) else j
  }

  function PieceOf(section: Section, cs: seq<Clause>, i: nat, j: nat): Range
    requires i < j <= |cs|
  {
    Range(section, StartOf(section, cs, i), cs[j - 1].end, Ids(cs[i..j]))
  }

  /** Parents of maximal length, one after the other, from clause `i` to the last. */
  function Packed(section: Section, cs: seq<Clause>, size: int, i: nat): seq<Range>
    requires i <= |cs|
    decreases |cs| - i
  {
    if i == |cs| then []
    else
      var j := Furthest(section, cs, size, i, i + 1);
      [PieceOf(section, cs, i, j)] + Packed(section, cs, size, j)
  }

  function RangesOf(section: Section, cs: seq<Clause>, size: int): seq<Range>
  {
    if cs == [] then [Range(section, section.start, section.end, [])] else Packed(section, cs, size, 0)
  }

  /** What is still to come when a parent that began at clause `i` holds the clauses `i..k`. */
  function Remaining(section: Section, cs: seq<Clause>, size: int, i: nat, k: nat): seq<Range>
    requires i < k <= |cs|
  {
    var j := Furthest(section, cs, size, i, k);
    [PieceOf(section, cs, i, j)] + Packed(section, cs, size, j)
  }

  lemma {:induction false} RemainingSteps(section: Section, cs: seq<Clause>, size: int, i: nat, k: nat)
    requires i < k <= |cs|
    ensures k == |cs| ==> Remaining(section, cs, size, i, k) == [PieceOf(section, cs, i, k)]
    ensures k < |cs| && cs[k].end - StartOf(section, cs, i) <= size
        ==> Remaining(section, cs, size, i, k) == Remaining(section, cs, size, i, k + 1)
    ensures k < |cs| && cs[k].end - StartOf(section, cs, i) > size
        ==> Remaining(section, cs, size, i, k) == [PieceOf(section, cs, i, k)] + Remaining(section, cs, size, k, k + 1)
  {}

  /** The loop adds clauses to an open parent until one does not fit.  For a section with clauses
      nothing follows the last parent: the trailing gap is empty. */
  method ParentRanges(section: Section, cs: seq<Clause>, size: int) returns (ranges: seq<Range>)
    requires ClauseRun(section, cs)
    ensures ranges == RangesOf(section, cs, size)
  {
    if cs == [] {
      return [Range(section, section.start, section.end, [])];
    }
    ranges := [];
    var currentStart: nat, currentEnd: nat := section.start, section.start;
    var currentClauseIds: seq<string> := [];
    ghost var first := 0;  // the first clause of the open parent
    ghost var rest := RangesOf(section, cs, size);
    for k := 0 to |cs|
      invariant first < k || first == k == 0
      invariant currentStart == StartOf(section, cs, first)
      invariant currentClauseIds == Ids(cs[first..k])
      invariant currentEnd == if k == 0 then section.start else cs[k - 1].end
      invariant k > 0 ==> currentEnd > currentStart
      invariant rest == if k == 0 then RangesOf(section, cs, size) else Remaining(section, cs, size, first, k)
      invariant RangesOf(section, cs, size) == ranges + rest
    {
      var clause := cs[k];
      var candidateEnd := clause.end;
      if currentEnd > currentStart && candidateEnd - currentStart > size {
        IdsGrow(cs, k, k);
        ghost var next := StepCloses(section, cs, size, first, k, ranges, rest);
        ranges := ranges + [Range(section, currentStart, currentEnd, currentClauseIds)];
        currentStart, currentEnd, currentClauseIds := clause.start, clause.end, [clause.clauseId];
        first, rest := k, next;
        continue;
      }
      StepExtends(section, cs, size, first, k);
      IdsGrow(cs, first, k);
      currentEnd := candidateEnd;
      currentClauseIds := currentClauseIds + [clause.clauseId];
    }
    RemainingSteps(section, cs, size, first, |cs|);
    if currentEnd > currentStart {
      ranges := ranges + [Range(section, currentStart, currentEnd, currentClauseIds)];
    }
    if currentEnd < section.end {
      ranges := ranges + [Range(section, currentEnd, section.end, [])];
    }
  }

  lemma {:induction false} IdsGrow(cs: seq<Clause>, i: nat, k: nat)
    requires i <= k < |cs|
    ensures Ids(cs[i..k + 1]) == Ids(cs[i..k]) + [cs[k].clauseId]
    ensures i == k ==> Ids(cs[i..k + 1]) == [cs[k].clauseId]
  {}

  lemma {:induction false} StepCloses(
    section: Section, cs: seq<Clause>, size: int, i: nat, k: nat, ranges: seq<Range>, rest: seq<Range>)
    returns (next: seq<Range>)
    requires i < k < |cs|
    requires cs[k].end - StartOf(section, cs, i) > size
    requires rest == Remaining(section, cs, size, i, k)
    ensures next == Remaining(section, cs, size, k, k + 1)
    ensures ranges + rest == ranges + [PieceOf(section, cs, i, k)] + next
  {
    next := Remaining(section, cs, size, k, k + 1);
    RemainingSteps(section, cs, size, i, k);
  }

  lemma {:induction false} StepExtends(section: Section, cs: seq<Clause>, size: int, i: nat, k: nat)
    requires ClauseRun(section, cs)
    requires k < |cs| && (i < k || i == k == 0)
    requires k > 0 ==> cs[k].end - StartOf(section, cs, i) <= size
    ensures cs[k].end > StartOf(section, cs, i)
    ensures (if k == 0 then RangesOf(section, cs, size) else Remaining(section, cs, size, i, k))
         == Remaining(section, cs, size, i, k + 1)
  {
    RunAscends(section, cs, i, k);
    if k > 0 { RemainingSteps(section, cs, size, i, k); }
  }

  // ---------------------------------------------------------------- the ranges tile the section

  /** Ranges are non-empty and follow one another from `from` to `to`. */
  predicate Tiles(rs: seq<Range>, from: nat, to: nat)
  {
    && rs != [] && rs[0].start == from && rs[|rs| - 1].end == to
    && (forall i :: 0 <= i < |rs| ==> rs[i].start < rs[i].end)
    && (forall i :: 0 < i < |rs| ==> rs[i - 1].end == rs[i].start)
  }

  lemma {:induction false} TilesJoin(a: seq<Range>, b: seq<Range>, from: nat, mid: nat, to: nat)
    requires Tiles(a, from, mid) && Tiles(b, mid, to)
    ensures Tiles(a + b, from, to)
  {
    var r := a + b;
    forall i | 0 < i < |r| ensures r[i - 1].end == r[i].start {
      if i == |a| { assert r[i - 1] == a[|a| - 1] && r[i] == b[0]; }
    }
  }

  lemma {:induction false} TilesAscend(rs: seq<Range>, from: nat, to: nat, i: nat, j: nat)
    requires Tiles(rs, from, to)
    requires i < j < |rs|
    ensures rs[i].end <= rs[j].start
    decreases j
  {
    assert rs[j - 1].end == rs[j].start;
    if i + 1 < j { TilesAscend(rs, from, to, i, j - 1); }
  }

  function AllIds(rs: seq<Range>): seq<string>
  {
    if rs == [] then [] else rs[0].clauseIds + AllIds(rs[1..])
  }

  lemma {:induction false} PackedTiles(section: Section, cs: seq<Clause>, size: int, i: nat)
    requires ClauseRun(section, cs)
    requires i < |cs|
    ensures Tiles(Packed(section, cs, size, i), StartOf(section, cs, i), section.end)
    decreases |cs| - i
  {
    var j := Furthest(section, cs, size, i, i + 1);
    var piece := PieceOf(section, cs, i, j);
    RunAscends(section, cs, i, j - 1);
    if j < |cs| {
      PackedTiles(section, cs, size, j);
      TilesJoin([piece], Packed(section, cs, size, j), StartOf(section, cs, i), cs[j].start, section.end);
    } else {
      assert Packed(section, cs, size, i) == [piece];
    }
  }

  lemma {:induction false} PackedKeepsIds(section: Section, cs: seq<Clause>, size: int, i: nat)
    requires i <= |cs|
    ensures AllIds(Packed(section, cs, size, i)) == Ids(cs[i..])
    decreases |cs| - i
  {
    if i < |cs| {
      var j := Furthest(section, cs, size, i, i + 1);
      PackedKeepsIds(section, cs, size, j);
      FirstIds(PieceOf(section, cs, i, j), Packed(section, cs, size, j));
      SplitIds(cs, i, j);
    }
  }

  lemma {:induction false} FirstIds(piece: Range, rest: seq<Range>)
    ensures AllIds([piece] + rest) == piece.clauseIds + AllIds(rest)
  {
    assert ([piece] + rest)[1..] == rest;
  }

  lemma {:induction false} SplitIds(cs: seq<Clause>, i: nat, j: nat)
    requires i <= j <= |cs|
    ensures Ids(cs[i..]) == Ids(cs[i..j]) + Ids(cs[j..])
  {
  }

  lemma {:induction false} RunAscends(section: Section, cs: seq<Clause>, i: nat, j: nat)
    requires ClauseRun(section, cs)
    requires i <= j < |cs|
    ensures StartOf(section, cs, i) <= cs[i].start <= cs[j].start
    ensures cs[i].end <= cs[j].end
  {
    if i < j {
      RunAscends(section, cs, i, j - 1);
      assert cs[j - 1].end == cs[j].start;
    }
  }

  /** The ranges tile the section and take its clauses in order, each once. */
  lemma {:induction false} RangesTile(section: Section, cs: seq<Clause>, size: int)
    requires ClauseRun(section, cs)
    ensures Tiles(RangesOf(section, cs, size), section.start, section.end)
    ensures AllIds(RangesOf(section, cs, size)) == Ids(cs)
    ensures forall r :: r in RangesOf(section, cs, size) ==> r.section == section
  {
    if cs != [] {
      PackedTiles(section, cs, size, 0);
      PackedKeepsIds(section, cs, size, 0);
      assert cs[0..] == cs;
      PackedBelongs(section, cs, size, 0);
    }
  }

  lemma {:induction false} PackedBelongs(section: Section, cs: seq<Clause>, size: int, i: nat)
    requires i <= |cs|
    ensures forall r :: r in Packed(section, cs, size, i) ==> r.section == section
    decreases |cs| - i
  {
    if i < |cs| { PackedBelongs(section, cs, size, Furthest(section, cs, size, i, i + 1)); }
  }

  /** Every clause of the section lies inside one of the ranges. */
  lemma {:induction false} PackedHolds(section: Section, cs: seq<Clause>, size: int, i: nat, k: nat) returns (r: Range)
    requires ClauseRun(section, cs)
    requires i <= k < |cs|
    ensures r in Packed(section, cs, size, i) && r.start <= cs[k].start && cs[k].end <= r.end
    ensures cs[k].clauseId in r.clauseIds
    decreases |cs| - i
  {
    var j := Furthest(section, cs, size, i, i + 1);
    if k < j {
      r := PieceOf(section, cs, i, j);
      assert r.clauseIds[k - i] == cs[k].clauseId;
      RunAscends(section, cs, i, k);
      RunAscends(section, cs, k, j - 1);
    } else {
      r := PackedHolds(section, cs, size, j, k);
    }
  }

  // ---------------------------------------------------------------- greedy packing is optimal

  lemma {:induction false} FurthestIsAdmissible(section: Section, cs: seq<Clause>, size: int, i: nat, j: nat)
    requires i < j <= |cs|
    requires Admissible(section, cs, size, i, j)
    ensures Admissible(section, cs, size, i, Furthest(section, cs, size, i, j))
    decreases |cs| - j
  {
    if j < |cs| && Admissible(section, cs, size, i, j + 1) { FurthestIsAdmissible(section, cs, size, i, j + 1); }
  }

  /** A parent fits the size or holds a single clause. */
  lemma {:induction false} ParentsFit(section: Section, cs: seq<Clause>, size: int, i: nat)
    requires i <= |cs|
    ensures forall r :: r in Packed(section, cs, size, i) ==> |r.clauseIds| == 1 || r.end - r.start <= size
    decreases |cs| - i
  {
    if i < |cs| {
      var j := Furthest(section, cs, size, i, i + 1);
      FurthestIsAdmissible(section, cs, size, i, i + 1);
      ParentsFit(section, cs, size, j);
    }
  }

  /** A cut of the clauses `from..`: where each piece ends. */
  predicate IsCut(section: Section, cs: seq<Clause>, size: int, from: nat, ends: seq<nat>)
    requires from <= |cs|
    decreases ends
  {
    if ends == [] then from == |cs|
    else Admissible(section, cs, size, from, ends[0]) && IsCut(section, cs, size, ends[0], ends[1..])
  }

  lemma {:induction false} FurthestReaches(section: Section, cs: seq<Clause>, size: int, i: nat, j: nat, q: nat)
    requires ClauseRun(section, cs)
    requires i < j <= q <= |cs|
    requires q > i + 1 ==> cs[q - 1].end - StartOf(section, cs, i) <= size
    ensures Furthest(section, cs, size, i, j) >= q
    decreases |cs| - j
  {
    if j < q {
      RunAscends(section, cs, j, q - 1);
      FurthestReaches(section, cs, size, i, j + 1, q);
    }
  }

  /** Packing stays ahead: from a later or equal clause it never needs more pieces than any cut. */
  lemma {:induction false} PackingStaysAhead(
    section: Section, cs: seq<Clause>, size: int, i: nat, p: nat, ends: seq<nat>)
    requires ClauseRun(section, cs)
    requires p <= i <= |cs|
    requires IsCut(section, cs, size, p, ends)
    ensures |Packed(section, cs, size, i)| <= |ends|
    decreases ends
  {
    if i < |cs| {
      var q := ends[0];
      if q <= i {
        PackingStaysAhead(section, cs, size, i, q, ends[1..]);
      } else {
        assert StartOf(section, cs, p) <= StartOf(section, cs, i) by { RunAscends(section, cs, p, i); }
        FurthestReaches(section, cs, size, i, i + 1, q);
        PackingStaysAhead(section, cs, size, Furthest(section, cs, size, i, i + 1), q, ends[1..]);
      }
    }
  }

  function EndsOf(section: Section, cs: seq<Clause>, size: int, i: nat): seq<nat>
    requires i <= |cs|
    decreases |cs| - i
  {
    if i == |cs| then []
    else
      var j := Furthest(section, cs, size, i, i + 1);
      [j] + EndsOf(section, cs, size, j)
  }

  lemma {:induction false} PackingIsCut(section: Section, cs: seq<Clause>, size: int, i: nat)
    requires i <= |cs|
    ensures IsCut(section, cs, size, i, EndsOf(section, cs, size, i))
    ensures |EndsOf(section, cs, size, i)| == |Packed(section, cs, size, i)|
    decreases |cs| - i
  {
    if i < |cs| {
      var j := Furthest(section, cs, size, i, i + 1);
      FurthestIsAdmissible(section, cs, size, i, i + 1);
      PackingIsCut(section, cs, size, j);
      assert EndsOf(section, cs, size, i)[1..] == EndsOf(section, cs, size, j);
    }
  }

  /** The ranges of a section are an admissible cut of its clauses, and no admissible cut has fewer
      pieces. */
  lemma {:induction false} GreedyPackingIsOptimal(section: Section, cs: seq<Clause>, size: int, ends: seq<nat>)
    requires ClauseRun(section, cs) && cs != []
    requires IsCut(section, cs, size, 0, ends)
    ensures |RangesOf(section, cs, size)| <= |ends|
    ensures exists best :: IsCut(section, cs, size, 0, best) && |best| == |RangesOf(section, cs, size)|
    ensures forall r :: r in RangesOf(section, cs, size) && |r.clauseIds| > 1 ==> r.end - r.start <= size
  {
    PackingStaysAhead(section, cs, size, 0, 0, ends);
    PackingIsCut(section, cs, size, 0);
    ParentsFit(section, cs, size, 0);
  }

  // ---------------------------------------------------------------- range by range

  /** A range takes the clauses `from..to`, from the section's start if it is the first; it holds one clause
      or fits the size, and the next clause would not fit. */
  predicate IsGreedy(section: Section, cs: seq<Clause>, size: int, r: Range, from: nat, to: nat)
  {
    && from < to <= |cs|
    && r.section == section
    && r.start == (if from == 0 then section.start else cs[from].start) && r.end == cs[to - 1].end
    && |r.clauseIds| == to - from && (forall i :: from <= i < to ==> r.clauseIds[i - from] == cs[i].clauseId)
    && (to == from + 1 || r.end - r.start <= size)
    && (to < |cs| ==> cs[to].end - r.start > size)
  }

  lemma {:induction false} FurthestStops(section: Section, cs: seq<Clause>, size: int, i: nat, j: nat)
    requires i < j <= |cs|
    ensures var k := Furthest(section, cs, size, i, j);
            k < |cs| ==> cs[k].end - StartOf(section, cs, i) > size
    decreases |cs| - j
  {
    if j < |cs| && Admissible(section, cs, size, i, j + 1) { FurthestStops(section, cs, size, i, j + 1); }
  }

  /** Every range is greedy from the end of the one before it. */
  ghost predicate AllGreedy(section: Section, cs: seq<Clause>, size: int, rs: seq<Range>, from: nat, ends: seq<nat>)
  {
    && |rs| == |ends|
    && (forall k :: 0 <= k < |rs| ==> IsGreedy(section, cs, size, rs[k], StartIndex(from, ends, k), ends[k]))
  }

  /** Where range `k` begins, if the ranges end at `ends`. */
  function StartIndex(from: nat, ends: seq<nat>, k: nat): nat
    requires k <= |ends|
  {
    if k == 0 then from else ends[k - 1]
  }

  lemma {:induction false} OneMoreGreedy(
    section: Section, cs: seq<Clause>, size: int, r: Range, rs: seq<Range>, from: nat, to: nat, ends: seq<nat>)
    requires IsGreedy(section, cs, size, r, from, to) && AllGreedy(section, cs, size, rs, to, ends)
    ensures AllGreedy(section, cs, size, [r] + rs, from, [to] + ends)
  {
    hide IsGreedy;
    forall k | 0 <= k < |rs| + 1
      ensures IsGreedy(section, cs, size, ([r] + rs)[k], StartIndex(from, [to] + ends, k), ([to] + ends)[k])
    {
      if k > 0 {
        assert ([r] + rs)[k] == rs[k - 1] && ([to] + ends)[k] == ends[k - 1];
        assert StartIndex(from, [to] + ends, k) == StartIndex(to, ends, k - 1);
      }
    }
  }

  lemma {:induction false} PackedIsGreedy(section: Section, cs: seq<Clause>, size: int, i: nat)
    requires i <= |cs|
    ensures AllGreedy(section, cs, size, Packed(section, cs, size, i), i, EndsOf(section, cs, size, i))
    ensures var ends := EndsOf(section, cs, size, i);
            i < |cs| ==> ends != [] && ends[|ends| - 1] == |cs|
    decreases |cs| - i
  {
    hide IsGreedy;
    if i < |cs| {
      var j := Furthest(section, cs, size, i, i + 1);
      PackedIsGreedy(section, cs, size, j);
      PieceIsGreedy(section, cs, size, i);
      OneMoreGreedy(section, cs, size, PieceOf(section, cs, i, j), Packed(section, cs, size, j), i, j,
                    EndsOf(section, cs, size, j));
    }
  }

  lemma {:induction false} PieceIsGreedy(section: Section, cs: seq<Clause>, size: int, i: nat)
    requires i < |cs|
    ensures var j := Furthest(section, cs, size, i, i + 1);
            IsGreedy(section, cs, size, PieceOf(section, cs, i, j), i, j)
  {
    FurthestIsAdmissible(section, cs, size, i, i + 1);
    FurthestStops(section, cs, size, i, i + 1);
  }

  /** The ranges of a section with clauses, one by one: each takes as many of the clauses that are left as
      fit, and at least one. */
  lemma {:induction false} RangesAreGreedy(section: Section, cs: seq<Clause>, size: int) returns (ends: seq<nat>)
    requires cs != []
    ensures AllGreedy(section, cs, size, RangesOf(section, cs, size), 0, ends)
    ensures ends != [] && ends[|ends| - 1] == |cs|
  {
    PackedIsGreedy(section, cs, size, 0);
    ends := EndsOf(section, cs, size, 0);
  }
}
