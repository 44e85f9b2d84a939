/** `decision_agent/evaluation/enterprise_clause_aware_ground_truth.py`: how many clause-aware children
    cross the start of a business section. */
module CrossSection {
  import opened Texts
  import opened Windowing
  import opened FixedChunker
  import S = Sections
  import C = ClauseChunker
  import ClauseTheorems

  /** What the count reads of a child record. */
  datatype SectionChild = SectionChild(source: string, span: Span)

  predicate Straddles(span: Span, boundary: nat) { span.start < boundary < span.end }

  predicate CrossesAny(span: Span, boundaries: seq<nat>)
  {
    exists k :: 0 <= k < |boundaries| && Straddles(span, boundaries[k])
  }

  function SectionCount(children: seq<SectionChild>, headings: string -> seq<nat>): nat
  {
    if children == [] then 0
    else
      var last := children[|children| - 1];
      SectionCount(children[..|children| - 1], headings)
      + (if CrossesAny(last.span, headings(last.source)) then 1 else 0)
  }

  /** `headings` reads a source and gives where its business headings start. */
  method CrossSectionChildCount(children: seq<SectionChild>, headings: string -> seq<nat>) returns (count: nat)
    ensures count == SectionCount(children, headings)
  {
    var boundaries: map<string, seq<nat>> := map[];
    for i := 0 to |children|
      invariant forall s :: s in boundaries ==> boundaries[s] == headings(s)
      invariant forall k :: 0 <= k < i ==> children[k].source in boundaries
    {
      if children[i].source !in boundaries {
        boundaries := boundaries[children[i].source := headings(children[i].source)];
      }
    }
    count := 0;
    for i := 0 to |children|
      invariant count == SectionCount(children[..i], headings)
    {
      assert children[..i + 1][..i] == children[..i];
      if CrossesAny(children[i].span, boundaries[children[i].source]) {
        count := count + 1;
      }
    }
    assert children[..|children|] == children;
  }

  // ---------------------------------------------------------------- only the first boundary can be crossed

  /** The business headings start where the chunker's sections do. */
  predicate SameSections(scan: C.Scan, boundaries: seq<nat>)
  {
    && |S.Boundaries(scan.headings)| == |boundaries|
    && forall k :: 0 <= k < |boundaries| ==> S.Boundaries(scan.headings)[k].start == boundaries[k]
  }

  lemma {:induction false} LaterBoundary(block: Block, scan: C.Scan, boundaries: seq<nat>, k: nat)
    requires SameSections(scan, boundaries) && 0 < k < |boundaries|
    ensures k < |C.SectionsFor(block, scan)| && C.SectionsFor(block, scan)[k].start == boundaries[k]
  {
  }

  /** A range inside one section straddles no boundary but, perhaps, the first. */
  lemma {:induction false} InsideSection(block: Block, scan: C.Scan, boundaries: seq<nat>, span: Span, s: nat, k: nat)
    requires scan.Of(block.content) && block.content != "" && SameSections(scan, boundaries)
    requires s < |C.SectionsFor(block, scan)| && 0 < k < |boundaries|
    requires C.SectionsFor(block, scan)[s].start <= span.start && span.end <= C.SectionsFor(block, scan)[s].end
    ensures !Straddles(span, boundaries[k])
  {
    var sections := C.SectionsFor(block, scan);
    S.SectionsTileBlock(scan.headings, |block.content|);
    LaterBoundary(block, scan, boundaries, k);
    if k < s { S.SectionsAscend(sections, |block.content|, k, s); }
    if s < k { S.SectionsAscend(sections, |block.content|, s, k); }
  }

  lemma {:induction false} ClauseSection(block: Block, scan: C.Scan, i: nat) returns (s: nat)
    requires scan.Of(block.content) && block.content != "" && i < |scan.markers|
    ensures var sections, clause := C.SectionsFor(block, scan), C.ClausesFor(block, scan)[i];
            && s < |sections| && clause.start == scan.markers[i].start < clause.end
            && sections[s].start <= clause.start && clause.end <= sections[s].end
            && (forall t :: 0 <= t < |sections| ==> (ClauseTheorems.InSpan(sections[t], clause) <==> t == s))
            && clause.end == if i + 1 < |scan.markers| && scan.markers[i + 1].start < sections[s].end
                             then scan.markers[i + 1].start else sections[s].end
  {
    var sections, cs := C.SectionsFor(block, scan), C.ClausesFor(block, scan);
    S.SectionsTileBlock(scan.headings, |block.content|);
    s := S.SectionIndex(sections, scan.markers[i].start);
    ClauseTheorems.ClauseInsideBlock(block, scan, i);
    forall t | 0 <= t < |sections| ensures ClauseTheorems.InSpan(sections[t], cs[i]) <==> t == s {
      S.ClauseInSection(sections, |block.content|, scan.markers, cs, t, i);
    }
    S.ClauseInSection(sections, |block.content|, scan.markers, cs, s, i);
  }

  lemma {:induction false} SpanCrossesFirst(
    block: Block, scan: C.Scan, boundaries: seq<nat>, span: Span, s: nat)
    requires scan.Of(block.content) && block.content != "" && SameSections(scan, boundaries)
    requires s < |C.SectionsFor(block, scan)|
    requires C.SectionsFor(block, scan)[s].start <= span.start && span.end <= C.SectionsFor(block, scan)[s].end
    ensures CrossesAny(span, boundaries) <==> boundaries != [] && Straddles(span, boundaries[0])
  {
    hide C.SectionsFor, Straddles, SameSections;
    forall k | 0 < k < |boundaries| ensures !Straddles(span, boundaries[k]) {
      InsideSection(block, scan, boundaries, span, s, k);
    }
  }

  lemma {:induction false} OnlyFirstIsCrossed(
    block: Block, scan: C.Scan, cfg: Chunker, sid: StableId, boundaries: seq<nat>, c: ChildChunk)
    requires cfg.Valid() && scan.Of(block.content) && SameSections(scan, boundaries)
    requires c in C.ChildrenFor(block, scan, cfg, sid)
    ensures CrossesAny(c.span, boundaries) <==> boundaries != [] && Straddles(c.span, boundaries[0])
  {
    hide C.ChildrenFor, C.SectionsFor, CrossesAny, Straddles, SameSections;
    var i := ClauseTheorems.ChildrenAreClauseLocal(block, scan, cfg, sid, c);
    var s := ClauseSection(block, scan, i);
    SpanCrossesFirst(block, scan, boundaries, c.span, s);
  }

  // ---------------------------------------------------------------- only one clause can cross it

  function CountWindows(ws: seq<Span>, h: nat): nat
  {
    if ws == [] then 0
    else CountWindows(ws[..|ws| - 1], h) + (if Straddles(ws[|ws| - 1], h) then 1 else 0)
  }

  lemma {:induction false} CountWindowsIsZero(ws: seq<Span>, h: nat)
    ensures CountWindows(ws, h) == 0 <==> forall i :: 0 <= i < |ws| ==> !Straddles(ws[i], h)
  {
    if ws != [] { CountWindowsIsZero(ws[..|ws| - 1], h); }
  }

  function CountIn(children: seq<ChildChunk>, h: nat): nat
  {
    if children == [] then 0
    else CountIn(children[..|children| - 1], h) + (if Straddles(children[|children| - 1].span, h) then 1 else 0)
  }

  lemma {:induction false} CountInConcat(a: seq<ChildChunk>, b: seq<ChildChunk>, h: nat)
    ensures CountIn(a + b, h) == CountIn(a, h) + CountIn(b, h)
  {
    if b == [] {
      assert a + b == a;
    } else {
      assert (a + b)[..|a + b| - 1] == a + b[..|b| - 1];
      CountInConcat(a, b[..|b| - 1], h);
    }
  }

  lemma {:induction false} CountInWindows(children: seq<ChildChunk>, ws: seq<Span>, h: nat)
    requires |children| == |ws| && forall i :: 0 <= i < |ws| ==> children[i].span == ws[i]
    ensures CountIn(children, h) == CountWindows(ws, h)
  {
    if ws != [] { CountInWindows(children[..|ws| - 1], ws[..|ws| - 1], h); }
  }

  /** The clause lies on one side of the offset. */
  predicate Apart(clause: S.Clause, h: nat) { clause.end <= h || h <= clause.start }

  lemma {:induction false} ApartCrossesNothing(clause: S.Clause, cfg: Chunker, h: nat)
    requires cfg.Valid() && clause.start < clause.end && Apart(clause, h)
    ensures CountWindows(C.ClauseWindowsOf(clause, cfg), h) == 0
  {
    var ws := C.ClauseWindowsOf(clause, cfg);
    forall i | 0 <= i < |ws| ensures !Straddles(ws[i], h) { ClauseTheorems.ClauseWindowsChain(clause, cfg, i); }
    CountWindowsIsZero(ws, h);
  }

  /** The windows of clause `m` that straddle the offset; none if there is no such clause. */
  function WindowsAcross(cs: seq<S.Clause>, m: nat, cfg: Chunker, h: nat): nat
    requires cfg.Valid() && forall i :: 0 <= i < |cs| ==> cs[i].start < cs[i].end
  {
    if m < |cs| then CountWindows(C.ClauseWindowsOf(cs[m], cfg), h) else 0
  }

  /** All clauses but the one numbered `m` lie on one side of the offset. */
  predicate OnlyOneAcross(cs: seq<S.Clause>, m: nat, h: nat)
  {
    forall i :: 0 <= i < |cs| && i != m ==> Apart(cs[i], h)
  }

  lemma {:induction false} ClauseSum(
    block: Block, section: S.Section, clause: S.Clause, parents: seq<ParentChunk>, cfg: Chunker, sid: StableId, h: nat)
    requires cfg.Valid() && clause.start < clause.end && C.ParentIndex(parents, clause) < |parents|
    ensures CountIn(C.ClauseChildren(block, section, clause, parents, cfg, sid), h)
         == CountWindows(C.ClauseWindowsOf(clause, cfg), h)
  {
    CountInWindows(C.ClauseChildren(block, section, clause, parents, cfg, sid), C.ClauseWindowsOf(clause, cfg), h);
  }

  lemma {:induction false} NoClauseSum(
    block: Block, section: S.Section, parents: seq<ParentChunk>, cfg: Chunker, sid: StableId, h: nat)
    requires cfg.Valid()
    ensures CountIn(C.SectionChildrenOf(block, section, [], parents, cfg, sid), h) == 0 && CountIn([], h) == 0
  {
  }

  lemma {:induction false} SectionNext(
    block: Block, section: S.Section, cs: seq<S.Clause>, parents: seq<ParentChunk>, cfg: Chunker, sid: StableId, n: nat)
    requires cfg.Valid() && C.Adopted(parents, cs) && 0 < n <= |cs|
    ensures C.SectionChildrenOf(block, section, cs[..n], parents, cfg, sid)
         == C.SectionChildrenOf(block, section, cs[..n - 1], parents, cfg, sid)
            + (if ClauseTheorems.InSpan(section, cs[n - 1])
               then C.ClauseChildren(block, section, cs[n - 1], parents, cfg, sid)
               else [])
  {
    assert cs[..n][..n - 1] == cs[..n - 1];
  }

  lemma {:induction false} SectionSum(
    block: Block, section: S.Section, cs: seq<S.Clause>, parents: seq<ParentChunk>, cfg: Chunker, sid: StableId, h: nat,
    m: nat, n: nat)
    requires cfg.Valid() && C.Adopted(parents, cs) && OnlyOneAcross(cs, m, h) && n <= |cs|
    ensures CountIn(C.SectionChildrenOf(block, section, cs[..n], parents, cfg, sid), h)
         == if m < n && ClauseTheorems.InSpan(section, cs[m]) then WindowsAcross(cs, m, cfg, h) else 0
  {
    hide CountWindows, CountIn, C.ClauseWindowsOf, C.ClauseChildren, C.SectionChildrenOf, Apart;
    if n == 0 {
      NoClauseSum(block, section, parents, cfg, sid, h);
    } else {
      SectionNext(block, section, cs, parents, cfg, sid, n);
      SectionSum(block, section, cs, parents, cfg, sid, h, m, n - 1);
      if ClauseTheorems.InSpan(section, cs[n - 1]) {
        CountInConcat(C.SectionChildrenOf(block, section, cs[..n - 1], parents, cfg, sid),
                      C.ClauseChildren(block, section, cs[n - 1], parents, cfg, sid), h);
        ClauseSum(block, section, cs[n - 1], parents, cfg, sid, h);
        if n - 1 != m { ApartCrossesNothing(cs[n - 1], cfg, h); }
      } else {
        NoClauseSum(block, section, parents, cfg, sid, h);
        CountInConcat(C.SectionChildrenOf(block, section, cs[..n - 1], parents, cfg, sid), [], h);
      }
    }
  }

  lemma {:induction false} AllNext(
    block: Block, sections: seq<S.Section>, cs: seq<S.Clause>, parents: seq<ParentChunk>, cfg: Chunker, sid: StableId,
    n: nat)
    requires cfg.Valid() && C.Adopted(parents, cs) && 0 < n <= |sections|
    ensures C.AllChildren(block, sections[..n], cs, parents, cfg, sid)
         == C.AllChildren(block, sections[..n - 1], cs, parents, cfg, sid)
            + C.SectionChildrenOf(block, sections[n - 1], cs, parents, cfg, sid)
  {
    assert sections[..n][..n - 1] == sections[..n - 1];
  }

  lemma {:induction false} EmptyCount(
    block: Block, cs: seq<S.Clause>, parents: seq<ParentChunk>, cfg: Chunker, sid: StableId, h: nat)
    requires cfg.Valid() && C.Adopted(parents, cs)
    ensures CountIn(C.AllChildren(block, [], cs, parents, cfg, sid), h) == 0
  {
  }

  lemma {:induction false} AllSum(
    block: Block, sections: seq<S.Section>, cs: seq<S.Clause>, parents: seq<ParentChunk>, cfg: Chunker, sid: StableId,
    h: nat, m: nat, home: nat, n: nat)
    requires cfg.Valid() && C.Adopted(parents, cs) && OnlyOneAcross(cs, m, h) && n <= |sections|
    requires m < |cs| ==> forall s :: 0 <= s < |sections| ==> (ClauseTheorems.InSpan(sections[s], cs[m]) <==> s == home)
    ensures CountIn(C.AllChildren(block, sections[..n], cs, parents, cfg, sid), h)
         == if home < n then WindowsAcross(cs, m, cfg, h) else 0
  {
    hide C.SectionChildrenOf, C.ClauseChildren, C.AllChildren, CountWindows, CountIn, OnlyOneAcross;
    EmptyCount(block, cs, parents, cfg, sid, h);
    if n > 0 {
      AllNext(block, sections, cs, parents, cfg, sid, n);
      AllSum(block, sections, cs, parents, cfg, sid, h, m, home, n - 1);
      assert cs[..|cs|] == cs;
      SectionSum(block, sections[n - 1], cs, parents, cfg, sid, h, m, |cs|);
      CountInConcat(C.AllChildren(block, sections[..n - 1], cs, parents, cfg, sid),
                    C.SectionChildrenOf(block, sections[n - 1], cs, parents, cfg, sid), h);
    }
  }

  /** How many markers start before an offset. */
  function MarkersBefore(ms: seq<S.Marker>, h: nat): (n: nat)
    ensures n <= |ms|
  {
    if ms == [] || ms[0].start >= h then 0 else 1 + MarkersBefore(ms[1..], h)
  }

  lemma {:induction false} MarkersBeforeCut(ms: seq<S.Marker>, content: string, h: nat)
    requires S.MarkerMatches(ms, content)
    ensures forall i :: 0 <= i < |ms| ==> (ms[i].start < h <==> i < MarkersBefore(ms, h))
  {
    if ms != [] && ms[0].start < h {
      assert forall i :: 0 <= i < |ms| - 1 ==> ms[1..][i] == ms[i + 1];
      MarkersBeforeCut(ms[1..], content, h);
    }
  }

  /** The clause that the offset may fall into: that of the last marker before it, if there is one. */
  function ClauseAcross(scan: C.Scan, h: nat): nat
  {
    if MarkersBefore(scan.markers, h) == 0 then |scan.markers| else MarkersBefore(scan.markers, h) - 1
  }

  lemma {:induction false} OthersAreApart(block: Block, scan: C.Scan, h: nat)
    requires scan.Of(block.content) && block.content != ""
    ensures OnlyOneAcross(C.ClausesFor(block, scan), ClauseAcross(scan, h), h)
  {
    MarkersBeforeCut(scan.markers, block.content, h);
    var cs, m := C.ClausesFor(block, scan), ClauseAcross(scan, h);
    forall i | 0 <= i < |cs| && i != m ensures Apart(cs[i], h) {
      var s := ClauseSection(block, scan, i);
    }
  }

  lemma {:induction false} ClausesAreLong(block: Block, scan: C.Scan)
    requires scan.Of(block.content) && block.content != ""
    ensures forall i :: 0 <= i < |scan.markers| ==>
              C.ClausesFor(block, scan)[i].start < C.ClausesFor(block, scan)[i].end
  {
    forall i | 0 <= i < |scan.markers|
      ensures C.ClausesFor(block, scan)[i].start < C.ClausesFor(block, scan)[i].end
    {
      ClauseTheorems.ClauseInsideBlock(block, scan, i);
    }
  }

  /** The children that straddle an offset are the windows of that one clause which do. */
  lemma {:induction false} ChildrenAcross(block: Block, scan: C.Scan, cfg: Chunker, sid: StableId, h: nat)
    requires cfg.Valid() && scan.Of(block.content) && block.content != ""
    ensures forall i :: 0 <= i < |scan.markers| ==>
              C.ClausesFor(block, scan)[i].start < C.ClausesFor(block, scan)[i].end
    ensures CountIn(C.ChildrenFor(block, scan, cfg, sid), h)
         == WindowsAcross(C.ClausesFor(block, scan), ClauseAcross(scan, h), cfg, h)
  {
    hide C.ParentsFor, C.AllChildren, CountWindows, CountIn, OnlyOneAcross, ClauseAcross, C.Adopted, C.SectionsFor;
    ClausesAreLong(block, scan);
    OthersAreApart(block, scan, h);
    C.AllAdopted(block, scan, cfg, sid);
    var sections, cs, m := C.SectionsFor(block, scan), C.ClausesFor(block, scan), ClauseAcross(scan, h);
    var home := 0;
    if m < |cs| { home := ClauseSection(block, scan, m); }
    assert sections[..|sections|] == sections;
    AllSum(block, sections, cs, C.ParentsFor(block, scan, cfg, sid), cfg, sid, h, m, home, |sections|);
  }

  // ---------------------------------------------------------------- when a window straddles the boundary

  /** Some window straddles an offset inside the text, unless windows do not overlap and one ends there. */
  lemma {:induction false} SomeWindowStraddles(length: nat, size: nat, overlap: nat, x: nat)
    requires overlap < size && 0 < x < length
    ensures CountWindows(WindowsOf(length, size, overlap), x) == 0 <==> overlap == 0 && x % size == 0
  {
    var ws := WindowsOf(length, size, overlap);
    WindowsAreChain(length, size, overlap);
    CountWindowsIsZero(ws, x);
    var i := ChainCovers(ws, length, size, overlap, x);
    StartsAtMultiple(length, size, overlap, i);
    if ws[i].start == x {
      assert ws[i].start + overlap == ws[i - 1].end;
      if overlap > 0 {
        assert Straddles(ws[i - 1], x);
      } else {
        RemainderIs(size, i, 0);
        NoneStraddles(length, size, i);
      }
    } else {
      assert Straddles(ws[i], x);
      if overlap == 0 { RemainderIs(size, i, x - ws[i].start); }
    }
  }

  lemma {:induction false} StartsAtMultiple(length: nat, size: nat, overlap: nat, i: nat)
    requires overlap < size && i < |WindowsOf(length, size, overlap)|
    ensures WindowsOf(length, size, overlap)[i].start == i * (size - overlap)
  {
  }

  /** Division with remainder is unique. */
  lemma {:induction false} QuotientIs(size: nat, i: nat, r: nat, j: nat, t: nat)
    requires r < size && t < size && i * size + r == j * size + t
    ensures i == j && r == t
  {
    if i < j {
      MulMonotone(i + 1, j, size);
      MulStep(i, size);
    } else if j < i {
      MulMonotone(j + 1, i, size);
      MulStep(j, size);
    }
  }

  lemma {:induction false} RemainderIs(size: nat, i: nat, r: nat)
    requires r < size
    ensures (i * size + r) % size == r
  {
    var x := i * size + r;
    DividesBack(x, size);
    QuotientIs(size, x / size, x % size, i, r);
  }

  lemma {:induction false} DividesBack(x: nat, size: nat)
    requires size > 0
    ensures x / size * size + x % size == x && 0 <= x / size && 0 <= x % size < size
  {
  }

  lemma {:induction false} NoneStraddles(length: nat, size: nat, i: nat)
    requires size > 0 && i < |WindowsOf(length, size, 0)|
    ensures forall k :: 0 <= k < |WindowsOf(length, size, 0)| ==>
              !Straddles(WindowsOf(length, size, 0)[k], WindowsOf(length, size, 0)[i].start)
  {
    var ws := WindowsOf(length, size, 0);
    WindowsAreChain(length, size, 0);
    forall k | 0 <= k < |ws| ensures !Straddles(ws[k], ws[i].start) {
      if k < i { ChainIsOrdered(ws, length, size, 0, k, i); }
      if i < k { ChainIsOrdered(ws, length, size, 0, i, k); }
    }
  }

  lemma {:induction false} ShiftedCount(ws: seq<Span>, offset: nat, h: nat)
    requires offset <= h
    ensures CountWindows(C.Shifted(ws, offset), h) == CountWindows(ws, h - offset)
  {
    if ws != [] {
      var n := |ws| - 1;
      ShiftedCount(ws[..n], offset, h);
      assert C.Shifted(ws, offset)[..n] == C.Shifted(ws[..n], offset);
    }
  }

  lemma {:induction false} WindowsInside(clause: S.Clause, cfg: Chunker, h: nat)
    requires cfg.Valid() && clause.start < h < clause.end
    ensures CountWindows(C.ClauseWindowsOf(clause, cfg), h)
         == CountWindows(WindowsOf(clause.end - clause.start, cfg.childSize, cfg.overlap), h - clause.start)
  {
    hide WindowsOf, CountWindows;
    ShiftedCount(WindowsOf(clause.end - clause.start, cfg.childSize, cfg.overlap), clause.start, h);
  }

  /** The offset is the end of a window, and the next one starts there. */
  predicate OnWindowEdge(clause: S.Clause, cfg: Chunker, h: nat)
    requires cfg.Valid() && clause.start <= h
  {
    cfg.overlap == 0 && (h - clause.start) % cfg.childSize == 0
  }

  /** No window of a clause straddles an offset exactly when the offset is not inside the clause, or
      windows do not overlap and one ends there. */
  lemma {:induction false} ClauseNotAcross(clause: S.Clause, cfg: Chunker, h: nat)
    requires cfg.Valid() && clause.start < clause.end
    ensures CountWindows(C.ClauseWindowsOf(clause, cfg), h) == 0
       <==> Apart(clause, h) || OnWindowEdge(clause, cfg, h)
  {
    hide WindowsOf, CountWindows, C.ClauseWindowsOf;
    if Apart(clause, h) {
      ApartCrossesNothing(clause, cfg, h);
    } else {
      WindowsInside(clause, cfg, h);
      SomeWindowStraddles(clause.end - clause.start, cfg.childSize, cfg.overlap, h - clause.start);
    }
  }

  // ---------------------------------------------------------------- one document

  /** The child records of a document of one block, whose file is that block. */
  function RecordsFor(source: string, children: seq<ChildChunk>): seq<SectionChild>
  {
    seq(|children|, i requires 0 <= i < |children| => SectionChild(source, children[i].span))
  }

  lemma {:induction false} CountOfRecords(
    source: string, children: seq<ChildChunk>, headings: string -> seq<nat>)
    requires forall c :: c in children ==>
               (CrossesAny(c.span, headings(source)) <==>
                headings(source) != [] && Straddles(c.span, headings(source)[0]))
    ensures SectionCount(RecordsFor(source, children), headings)
         == if headings(source) == [] then 0 else CountIn(children, headings(source)[0])
  {
    if children != [] {
      var n := |children| - 1;
      CountOfRecords(source, children[..n], headings);
      assert RecordsFor(source, children)[..n] == RecordsFor(source, children[..n]);
      assert children[n] in children;
    }
  }

  /** Nothing crosses the offset: no marker precedes it, the clause of the last one that does ends at or
      before it, or windows do not overlap and one ends there. */
  predicate NothingAcross(cs: seq<S.Clause>, m: nat, cfg: Chunker, h: nat)
    requires cfg.Valid() && (m < |cs| ==> cs[m].start < h)
  {
    m < |cs| ==> cs[m].end <= h || OnWindowEdge(cs[m], cfg, h)
  }

  /** `cross_section_child_count` of a document counts the windows of one clause: the first section also
      takes in what precedes its heading, so the last clause that opens there runs across it. */
  lemma {:induction false} SectionCountIsExact(
    source: string, block: Block, scan: C.Scan, cfg: Chunker, sid: StableId, headings: string -> seq<nat>)
    requires cfg.Valid() && scan.Of(block.content) && block.content != "" && SameSections(scan, headings(source))
    ensures forall i :: 0 <= i < |scan.markers| ==>
              C.ClausesFor(block, scan)[i].start < C.ClausesFor(block, scan)[i].end
    ensures SectionCount(RecordsFor(source, C.ChildrenFor(block, scan, cfg, sid)), headings)
         == if headings(source) == [] then 0
            else WindowsAcross(C.ClausesFor(block, scan), ClauseAcross(scan, headings(source)[0]), cfg,
                headings(source)[0])
  {
    hide C.ChildrenFor, C.ClausesFor, WindowsAcross, ClauseAcross;
    ClausesAreLong(block, scan);
    var children := C.ChildrenFor(block, scan, cfg, sid);
    forall c | c in children
      ensures CrossesAny(c.span, headings(source)) <==> headings(source) != [] && Straddles(c.span, headings(source)[0])
    {
      OnlyFirstIsCrossed(block, scan, cfg, sid, headings(source), c);
    }
    CountOfRecords(source, children, headings);
    if headings(source) != [] { ChildrenAcross(block, scan, cfg, sid, headings(source)[0]); }
  }

  lemma {:induction false} AcrossStartsBefore(block: Block, scan: C.Scan, h: nat)
    requires scan.Of(block.content) && block.content != ""
    ensures var cs, m := C.ClausesFor(block, scan), ClauseAcross(scan, h);
            m < |cs| ==> cs[m].start < h
  {
    var m := ClauseAcross(scan, h);
    if m < |scan.markers| {
      MarkersBeforeCut(scan.markers, block.content, h);
      ClauseTheorems.ClauseInsideBlock(block, scan, m);
    }
  }

  lemma {:induction false} AcrossIsZero(cs: seq<S.Clause>, m: nat, cfg: Chunker, h: nat)
    requires cfg.Valid() && forall i :: 0 <= i < |cs| ==> cs[i].start < cs[i].end
    requires m < |cs| ==> cs[m].start < h
    ensures WindowsAcross(cs, m, cfg, h) == 0 <==> NothingAcross(cs, m, cfg, h)
  {
    hide C.ClauseWindowsOf, CountWindows, OnWindowEdge;
    if m < |cs| { ClauseNotAcross(cs[m], cfg, h); }
  }

  /** Can no child cross the first business heading of the block? */
  predicate Uncrossed(block: Block, scan: C.Scan, cfg: Chunker, boundaries: seq<nat>)
    requires cfg.Valid() && scan.Of(block.content) && (block.content == "" ==> boundaries == [])
  {
    boundaries == [] ||
    (AcrossStartsBefore(block, scan, boundaries[0]);
     NothingAcross(C.ClausesFor(block, scan), ClauseAcross(scan, boundaries[0]), cfg, boundaries[0]))
  }

  lemma {:induction false} EmptyHasNoBoundaries(block: Block, scan: C.Scan, boundaries: seq<nat>)
    requires scan.Of(block.content) && SameSections(scan, boundaries)
    ensures block.content == "" ==> boundaries == []
  {
    if block.content == "" {
      assert |scan.headings| > 0 ==> scan.headings[0].start < 0;
      assert scan.headings == [];
    }
  }

  /** The count is zero exactly when that cannot happen. */
  lemma {:induction false} NoChildCrossesSections(
    source: string, block: Block, scan: C.Scan, cfg: Chunker, sid: StableId, headings: string -> seq<nat>)
    requires cfg.Valid() && scan.Of(block.content) && SameSections(scan, headings(source))
    ensures block.content == "" ==> headings(source) == []
    ensures SectionCount(RecordsFor(source, C.ChildrenFor(block, scan, cfg, sid)), headings) == 0
       <==> Uncrossed(block, scan, cfg, headings(source))
  {
    EmptyHasNoBoundaries(block, scan, headings(source));
    if block.content == "" {
      assert C.ChildrenFor(block, scan, cfg, sid) == [];
    } else {
      NoneOfText(source, block, scan, cfg, sid, headings);
    }
  }

  lemma {:induction false} NoneOfText(
    source: string, block: Block, scan: C.Scan, cfg: Chunker, sid: StableId, headings: string -> seq<nat>)
    requires cfg.Valid() && scan.Of(block.content) && block.content != "" && SameSections(scan, headings(source))
    ensures SectionCount(RecordsFor(source, C.ChildrenFor(block, scan, cfg, sid)), headings) == 0
       <==> Uncrossed(block, scan, cfg, headings(source))
  {
    hide C.ChildrenFor, C.ClausesFor, WindowsAcross, ClauseAcross, NothingAcross, SectionCount;
    SectionCountIsExact(source, block, scan, cfg, sid, headings);
    if headings(source) != [] {
      AcrossStartsBefore(block, scan, headings(source)[0]);
      AcrossIsZero(C.ClausesFor(block, scan), ClauseAcross(scan, headings(source)[0]), cfg, headings(source)[0]);
    }
  }

  // ---------------------------------------------------------------- all documents

  /** A file that is one block, with the pattern matches found in it. */
  datatype File = File(source: string, block: Block, scan: C.Scan)

  /** The matches of each file are its own, and its business headings are read from its source. */
  predicate AllReadable(files: seq<File>, headings: string -> seq<nat>)
  {
    forall d :: 0 <= d < |files| ==>
      files[d].scan.Of(files[d].block.content) && SameSections(files[d].scan, headings(files[d].source))
  }

  function AllRecordsFor(files: seq<File>, cfg: Chunker, sid: StableId, headings: string -> seq<nat>): seq<SectionChild>
    requires cfg.Valid() && AllReadable(files, headings)
  {
    if files == [] then []
    else
      var last := files[|files| - 1];
      AllRecordsFor(files[..|files| - 1], cfg, sid, headings)
      + RecordsFor(last.source, C.ChildrenFor(last.block, last.scan, cfg, sid))
  }

  lemma {:induction false} SectionCountConcat(a: seq<SectionChild>, b: seq<SectionChild>, headings: string -> seq<nat>)
    ensures SectionCount(a + b, headings) == SectionCount(a, headings) + SectionCount(b, headings)
  {
    if b == [] {
      assert a + b == a;
    } else {
      assert (a + b)[..|a + b| - 1] == a + b[..|b| - 1];
      SectionCountConcat(a, b[..|b| - 1], headings);
    }
  }

  predicate UncrossedFile(file: File, cfg: Chunker, headings: string -> seq<nat>)
    requires cfg.Valid() && file.scan.Of(file.block.content) && SameSections(file.scan, headings(file.source))
  {
    EmptyHasNoBoundaries(file.block, file.scan, headings(file.source));
    Uncrossed(file.block, file.scan, cfg, headings(file.source))
  }

  /** Over all documents the count is zero exactly when none of them has a clause across its first
      business heading. */
  lemma {:induction false} NoChildCrossesAnySection(
    files: seq<File>, cfg: Chunker, sid: StableId, headings: string -> seq<nat>)
    requires cfg.Valid() && AllReadable(files, headings)
    ensures SectionCount(AllRecordsFor(files, cfg, sid, headings), headings) == 0
       <==> forall d :: 0 <= d < |files| ==> UncrossedFile(files[d], cfg, headings)
  {
    hide C.ChildrenFor, SectionCount, Uncrossed, SameSections;
    if files != [] {
      var n := |files| - 1;
      assert forall d :: 0 <= d < n ==> files[..n][d] == files[d];
      NoChildCrossesAnySection(files[..n], cfg, sid, headings);
      NoChildCrossesSections(files[n].source, files[n].block, files[n].scan, cfg, sid, headings);
      SectionCountConcat(AllRecordsFor(files[..n], cfg, sid, headings),
                         RecordsFor(files[n].source, C.ChildrenFor(files[n].block, files[n].scan, cfg, sid)), headings);
    } else {
      NoRecords(headings);
    }
  }

  lemma {:induction false} NoRecords(headings: string -> seq<nat>)
    ensures SectionCount([], headings) == 0
  {
  }
}
