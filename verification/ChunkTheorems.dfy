/** Which chunks the two chunkers make, chunk by chunk: windows, identities, sections and order. */
module ChunkTheorems {
  import opened Texts
  import opened Windowing
  import opened FixedChunker
  import opened Sections
  import opened Packing
  import opened ClauseChunker
  import opened ClauseTheorems

  // ---------------------------------------------------------------- fixed windows

  /** A parent or child that is the block's text at a span, identified by what is hashed. */
  predicate IsParentAt(block: Block, sid: StableId, p: ParentChunk, start: nat, end: nat)
  {
    && start < end <= |block.content| && !Blank(block.content[start..end])
    && p.span == Span(start, end) && p.content == block.content[start..end]
    && p.documentId == block.documentId && p.blockIds == [block.blockId]
    && p.chunkId == sid(IdPayload(Parent, block, Span(start, end), block.content[start..end], None))
  }

  predicate IsChildAt(block: Block, sid: StableId, c: ChildChunk, parentId: string, start: nat, end: nat)
  {
    && start < end <= |block.content| && c.span == Span(start, end) && c.content == block.content[start..end]
    && c.documentId == block.documentId && c.parentId == parentId
    && c.chunkId == sid(IdPayload(Child, block, Span(start, end), block.content[start..end], Some(parentId)))
  }

  /** Windows are numbered from 0; there is a next one as long as the text is not used up. */
  lemma {:induction false} WindowNumber(i: nat, length: nat, size: nat, overlap: nat)
    requires overlap < size
    ensures i < |WindowsOf(length, size, overlap)|
       <==> length > 0 && (i == 0 || i * (size - overlap) + overlap < length)
    ensures i < |WindowsOf(length, size, overlap)| ==>
              && i * (size - overlap) < length
              && WindowsOf(length, size, overlap)[i]
                 == Span(i * (size - overlap), Min(i * (size - overlap) + size, length))
  {
    if length > 0 {
      LastWindow(length, size, overlap);
      var last, step := WindowCount(length, size, overlap) - 1, size - overlap;
      if 0 < i <= last {
        assert (i - 1) * step + size < length;
        MulStep(i - 1, step);
      }
      if i > last {
        MulMonotone(last, i - 1, step);
        MulStep(i - 1, step);
      }
    }
  }

  /** Parent `i` takes the `i`-th window of the block, if there is one and it is not blank. */
  predicate FixedParent(block: Block, cfg: Chunker, sid: StableId, p: ParentChunk, i: nat)
    requires cfg.Valid()
  {
    && i * cfg.parentSize < |block.content|
    && IsParentAt(block, sid, p, i * cfg.parentSize, Min(i * cfg.parentSize + cfg.parentSize, |block.content|))
    && p.metadata == Plain
  }

  /** Child `i` of a parent: each starts the child size less the overlap after the one before, as long as
      that one does not reach the end of the parent. */
  predicate FixedChild(block: Block, cfg: Chunker, sid: StableId, p: ParentChunk, c: ChildChunk, i: nat)
    requires cfg.Valid()
  {
    var start := p.span.start + i * (cfg.childSize - cfg.overlap);
    && (i == 0 || start + cfg.overlap < p.span.end)
    && IsChildAt(block, sid, c, p.chunkId, start, Min(start + cfg.childSize, p.span.end))
    && !Blank(c.content) && c.metadata == Plain
  }

  lemma {:induction false} ParentOfWindow(block: Block, cfg: Chunker, sid: StableId, p: ParentChunk, i: nat)
    requires cfg.Valid()
    ensures var ws := WindowsOf(|block.content|, cfg.parentSize, 0);
            i < |ws| && p == ParentAt(block, ws[i], sid) && !Blank(p.content) <==> FixedParent(block, cfg, sid, p, i)
  {
    hide WindowsOf;
    WindowNumber(i, |block.content|, cfg.parentSize, 0);
    assert i == 0 ==> i * cfg.parentSize == 0;
  }

  /** The parents of a block are its non-blank windows. */
  lemma {:induction false} ParentsAreWindows(block: Block, cfg: Chunker, sid: StableId, p: ParentChunk)
    requires cfg.Valid()
    ensures p in ParentsOf(block, cfg, sid) <==> exists i: nat :: FixedParent(block, cfg, sid, p, i)
  {
    hide WindowsOf, ParentAt, FixedParent;
    var ws := WindowsOf(|block.content|, cfg.parentSize, 0);
    KeptParentsMembers(block, ws, sid, p);
    forall i: nat { ParentOfWindow(block, cfg, sid, p, i); }
  }

  lemma {:induction false} ChildAtSpelled(block: Block, cfg: Chunker, sid: StableId, p: ParentChunk, w: Span)
    requires ParentFits(block, cfg.parentSize, p) && w.start < w.end <= |p.content|
    ensures var c := ChildAt(block, p, w, sid);
            IsChildAt(block, sid, c, p.chunkId, p.span.start + w.start, p.span.start + w.end) && c.metadata == Plain
  {
    SliceOfSlice(block.content, p.span.start, p.span.end, w.start, w.end);
  }

  lemma {:induction false} SpelledOnce(
    block: Block, sid: StableId, c: ChildChunk, d: ChildChunk, parentId: string, start: nat, end: nat)
    requires IsChildAt(block, sid, c, parentId, start, end) && c.metadata == Plain
    requires IsChildAt(block, sid, d, parentId, start, end) && d.metadata == Plain
    ensures c == d
  {
  }

  lemma {:induction false} ChildOfWindow(
    block: Block, cfg: Chunker, sid: StableId, p: ParentChunk, c: ChildChunk, i: nat)
    requires cfg.Valid() && ParentFits(block, cfg.parentSize, p)
    ensures var ws := WindowsOf(|p.content|, cfg.childSize, cfg.overlap);
            var kept := i < |ws| && c == ChildAt(block, p, ws[i], sid) && !Blank(c.content);
            kept <==> FixedChild(block, cfg, sid, p, c, i)
  {
    hide WindowsOf, IsChildAt, ChildAt, Blank;
    var ws, step := WindowsOf(|p.content|, cfg.childSize, cfg.overlap), cfg.childSize - cfg.overlap;
    WindowNumber(i, |p.content|, cfg.childSize, cfg.overlap);
    if i < |ws| {
      var d := ChildAt(block, p, ws[i], sid);
      ChildAtSpelled(block, cfg, sid, p, ws[i]);
      if FixedChild(block, cfg, sid, p, c, i) {
        SpelledOnce(block, sid, c, d, p.chunkId, p.span.start + ws[i].start, p.span.start + ws[i].end);
      }
    }
  }

  /** The children of a block are the non-blank windows of its parents. */
  lemma {:induction false} ChildrenAreWindows(block: Block, cfg: Chunker, sid: StableId, c: ChildChunk)
    requires cfg.Valid()
    ensures c in ChildrenOf(block, cfg, sid)
       <==> exists p, i: nat :: p in ParentsOf(block, cfg, sid) && FixedChild(block, cfg, sid, p, c, i)
  {
    hide WindowsOf, ChildAt, FixedChild, ParentFits, ParentsOf;
    ChildrenOfParentsMembers(block, ParentsOf(block, cfg, sid), cfg, sid, c);
    ParentsAreSlices(block, cfg, sid);
    forall p | p in ParentsOf(block, cfg, sid)
      ensures c in ChildrenOfOne(block, p, cfg, sid) <==> exists i: nat :: FixedChild(block, cfg, sid, p, c, i)
    {
      KeptChildrenMembers(block, p, WindowsOf(|p.content|, cfg.childSize, cfg.overlap), sid, c);
      forall i: nat { ChildOfWindow(block, cfg, sid, p, c, i); }
    }
  }

  // ---------------------------------------------------------------- order of the children

  /** Each child starts after the one before it. */
  predicate Ascending(children: seq<ChildChunk>)
  {
    forall i, j :: 0 <= i < j < |children| ==> children[i].span.start < children[j].span.start
  }

  predicate StartIn(children: seq<ChildChunk>, from: nat, to: nat)
  {
    forall i :: 0 <= i < |children| ==> from <= children[i].span.start < to
  }

  lemma {:induction false} AscendingConcat(a: seq<ChildChunk>, b: seq<ChildChunk>, from: nat, mid: nat, to: nat)
    requires Ascending(a) && Ascending(b) && StartIn(a, from, mid) && StartIn(b, mid, to) && from <= mid <= to
    ensures Ascending(a + b) && StartIn(a + b, from, to)
  {
  }

  lemma {:induction false} OneAscends(c: ChildChunk)
    ensures Ascending([c]) && StartIn([c], c.span.start, c.span.start + 1)
    ensures Ascending([]) && forall from, to :: StartIn([], from, to)
  {
  }

  lemma {:induction false} NextKeptChild(block: Block, p: ParentChunk, ws: seq<Span>, sid: StableId, n: nat)
    returns (last: seq<ChildChunk>)
    requires 0 < n <= |ws|
    ensures KeptChildren(block, p, ws[..n], sid) == KeptChildren(block, p, ws[..n - 1], sid) + last
    ensures Ascending(last) && StartIn(last, p.span.start + ws[n - 1].start, p.span.start + ws[n - 1].start + 1)
  {
    assert ws[..n][..n - 1] == ws[..n - 1];
    var c := ChildAt(block, p, ws[n - 1], sid);
    OneAscends(c);
    last := if Blank(c.content) then [] else [c];
  }

  lemma {:induction false} KeptChildrenAscend(
    block: Block, p: ParentChunk, cfg: Chunker, sid: StableId, n: nat)
    requires cfg.Valid() && n <= |WindowsOf(|p.content|, cfg.childSize, cfg.overlap)|
    ensures var ws := WindowsOf(|p.content|, cfg.childSize, cfg.overlap);
            var kept := KeptChildren(block, p, ws[..n], sid);
            && Ascending(kept)
            && StartIn(kept, p.span.start, p.span.start + (if n == 0 then 0 else ws[n - 1].start + 1))
  {
    hide WindowsOf, KeptChildren, Ascending;
    var ws := WindowsOf(|p.content|, cfg.childSize, cfg.overlap);
    if n == 0 {
      NoKeptChildren(block, p, ws, sid);
    } else {
      KeptChildrenAscend(block, p, cfg, sid, n - 1);
      var last := NextKeptChild(block, p, ws, sid, n);
      if n > 1 { WindowsStartLater(|p.content|, cfg.childSize, cfg.overlap, n - 2); }
      var start := p.span.start + ws[n - 1].start;
      AscendingConcat(KeptChildren(block, p, ws[..n - 1], sid), last, p.span.start, start, start + 1);
    }
  }

  lemma {:induction false} NoKeptChildren(block: Block, p: ParentChunk, ws: seq<Span>, sid: StableId)
    ensures KeptChildren(block, p, ws[..0], sid) == [] && Ascending([])
  {
  }

  lemma {:induction false} WindowsStartLater(length: nat, size: nat, overlap: nat, i: nat)
    requires overlap < size && i + 1 < |WindowsOf(length, size, overlap)|
    ensures WindowsOf(length, size, overlap)[i].start < WindowsOf(length, size, overlap)[i + 1].start
  {
    MulStep(i, size - overlap);
  }

  lemma {:induction false} OneParentAscends(block: Block, p: ParentChunk, cfg: Chunker, sid: StableId)
    requires cfg.Valid() && ParentFits(block, cfg.parentSize, p)
    ensures Ascending(ChildrenOfOne(block, p, cfg, sid))
    ensures StartIn(ChildrenOfOne(block, p, cfg, sid), p.span.start, p.span.end)
  {
    var ws := WindowsOf(|p.content|, cfg.childSize, cfg.overlap);
    KeptChildrenAscend(block, p, cfg, sid, |ws|);
    assert ws[..|ws|] == ws;
    WindowsAreChain(|p.content|, cfg.childSize, cfg.overlap);
  }

  lemma {:induction false} ParentsAscend(block: Block, cfg: Chunker, sid: StableId, n: nat)
    requires cfg.Valid() && n <= |ParentsOf(block, cfg, sid)|
    ensures var parents := ParentsOf(block, cfg, sid);
            var children := ChildrenOfParents(block, parents[..n], cfg, sid);
            Ascending(children) && StartIn(children, 0, if n == 0 then 0 else parents[n - 1].span.end)
  {
    hide ChildrenOfOne, ParentsOf;
    var parents := ParentsOf(block, cfg, sid);
    if n > 0 {
      ParentsAscend(block, cfg, sid, n - 1);
      ParentsAreSlices(block, cfg, sid);
      var p := parents[n - 1];
      assert parents[..n][..n - 1] == parents[..n - 1];
      OneParentAscends(block, p, cfg, sid);
      AscendingConcat(ChildrenOfParents(block, parents[..n - 1], cfg, sid), ChildrenOfOne(block, p, cfg, sid),
                      0, p.span.start, p.span.end);
    }
  }

  /** The children of a block come in the order of their text. */
  lemma {:induction false} FixedChildrenAscend(block: Block, cfg: Chunker, sid: StableId)
    requires cfg.Valid()
    ensures Ascending(ChildrenOf(block, cfg, sid))
  {
    var parents := ParentsOf(block, cfg, sid);
    ParentsAscend(block, cfg, sid, |parents|);
    assert parents[..|parents|] == parents;
  }

  // ---------------------------------------------------------------- sections

  /** The headings that open a section: those of the least level from two on, or all if every heading has
      level one. */
  lemma {:induction false} BoundariesAreBusinessHeadings(hs: seq<Heading>, length: nat, h: Heading)
    requires HeadingMatches(hs, length)
    ensures h in Boundaries(hs)
       <==> && h in hs
            && ((exists g :: g in hs && g.level >= 2) ==> h.level >= 2)
            && forall g :: g in hs && g.level >= 2 ==> h.level <= g.level
  {
    MinLevelIsLeast(hs);
    AtLevelMembers(hs, BusinessLevel(hs), h);
    if h in hs && forall g :: g in hs ==> g.level < 2 {
      var i :| 0 <= i < |hs| && hs[i] == h;
      assert h.level == 1;
    }
    if exists g :: g in hs && g.level >= 2 {
      var g :| g in hs && g.level >= 2;
      var i :| 0 <= i < |hs| && hs[i] == g;
      assert hs[i].level <= 6;
    }
  }

  /** Heading `i` encloses a position: it starts there or before, and every later heading that does so too
      is nested more deeply. */
  predicate Encloses(hs: seq<Heading>, position: nat, i: nat)
  {
    && i < |hs| && hs[i].start <= position
    && forall j :: i < j < |hs| && hs[j].start <= position ==> hs[j].level > hs[i].level
  }

  function TitlesAt(hs: seq<Heading>, at: seq<nat>): seq<string>
    requires forall k :: 0 <= k < |at| ==> at[k] < |hs|
  {
    seq(|at|, k requires 0 <= k < |at| => Strip(hs[at[k]].title))
  }

  /** Every later heading is nested more deeply than heading `i`. */
  predicate StaysOpen(hs: seq<Heading>, i: nat)
    requires i < |hs|
  {
    forall j :: i < j < |hs| ==> hs[j].level > hs[i].level
  }

  lemma {:induction false} NestsMeansOpen(hs: seq<Heading>, i: nat)
    requires i < |hs|
    ensures Nests(hs[i], hs[i + 1..]) <==> StaysOpen(hs, i)
  {
    if Nests(hs[i], hs[i + 1..]) {
      forall j | i < j < |hs| ensures hs[j].level > hs[i].level { assert hs[i + 1..][j - i - 1] == hs[j]; }
    }
  }

  /** The places from `n` on of the headings that stay open, in order. */
  predicate OpenPlaces(hs: seq<Heading>, n: nat, at: seq<nat>)
  {
    && (forall k :: 0 <= k < |at| ==> n <= at[k] < |hs|)
    && (forall k, l :: 0 <= k < l < |at| ==> at[k] < at[l])
    && (forall i: nat :: n <= i < |hs| ==> (i in at <==> StaysOpen(hs, i)))
  }

  lemma {:induction false} NextOpenPlace(hs: seq<Heading>, n: nat, rest: seq<nat>)
    requires n < |hs| && OpenPlaces(hs, n + 1, rest)
    ensures OpenPlaces(hs, n, if StaysOpen(hs, n) then [n] + rest else rest)
  {
    hide StaysOpen;
    var at := if StaysOpen(hs, n) then [n] + rest else rest;
    forall i: nat | n <= i < |hs| ensures i in at <==> StaysOpen(hs, i) {
      assert n !in rest;
    }
  }

  lemma {:induction false} AncestorPlaces(hs: seq<Heading>, n: nat) returns (at: seq<nat>)
    requires n <= |hs|
    ensures OpenPlaces(hs, n, at) && forall k :: 0 <= k < |at| ==> at[k] < |hs|
    ensures Titles(Ancestors(hs[n..])) == TitlesAt(hs, at)
    decreases |hs| - n
  {
    hide StaysOpen, Nests, TitlesAt, Titles, OpenPlaces;
    if n == |hs| {
      at := [];
      NoOpenPlace(hs);
    } else {
      var rest := AncestorPlaces(hs, n + 1);
      NestsMeansOpen(hs, n);
      NextOpenPlace(hs, n, rest);
      assert hs[n..][1..] == hs[n + 1..];
      at := if StaysOpen(hs, n) then [n] + rest else rest;
      FirstTitle(hs, n, rest, Ancestors(hs[n + 1..]));
    }
  }

  lemma {:induction false} NoOpenPlace(hs: seq<Heading>)
    ensures OpenPlaces(hs, |hs|, []) && Titles(Ancestors(hs[|hs|..])) == TitlesAt(hs, [])
  {
  }

  lemma {:induction false} FirstTitle(hs: seq<Heading>, n: nat, rest: seq<nat>, chain: seq<Heading>)
    requires n < |hs| && forall k :: 0 <= k < |rest| ==> rest[k] < |hs|
    ensures TitlesAt(hs, [n] + rest) == [Strip(hs[n].title)] + TitlesAt(hs, rest)
    ensures Titles([hs[n]] + chain) == [Strip(hs[n].title)] + Titles(chain)
  {
    assert ([hs[n]] + chain)[1..] == chain;
  }

  lemma {:induction false} ReachedHeadings(hs: seq<Heading>, position: nat, length: nat) returns (n: nat)
    requires HeadingMatches(hs, length)
    ensures n <= |hs| && UpTo(hs, position) == hs[..n]
    ensures forall i :: 0 <= i < |hs| ==> (hs[i].start <= position <==> i < n)
  {
    n := 0;
    while n < |hs| && hs[n].start <= position
      invariant n <= |hs| && forall i :: 0 <= i < n ==> hs[i].start <= position
    {
      n := n + 1;
    }
    UpToIsPrefix(hs, position, n);
  }

  /** The path at a position names the headings that enclose it, in order. */
  lemma {:induction false} PathNamesEnclosing(hs: seq<Heading>, position: nat, length: nat) returns (at: seq<nat>)
    requires HeadingMatches(hs, length)
    ensures forall k :: 0 <= k < |at| ==> at[k] < |hs|
    ensures forall k, l :: 0 <= k < l < |at| ==> at[k] < at[l]
    ensures forall i: nat :: i in at <==> Encloses(hs, position, i)
    ensures PathAt(hs, position) == Join(" > ", TitlesAt(hs, at))
  {
    var n := ReachedHeadings(hs, position, length);
    at := AncestorPlaces(hs[..n], 0);
    assert hs[..n][0..] == hs[..n];
    forall i: nat ensures i in at <==> Encloses(hs, position, i) {
      if i < n { OpenMeansEncloses(hs, position, n, i); }
    }
    assert TitlesAt(hs[..n], at) == TitlesAt(hs, at);
  }

  lemma {:induction false} OpenMeansEncloses(hs: seq<Heading>, position: nat, n: nat, i: nat)
    requires i < n <= |hs| && forall j :: 0 <= j < |hs| ==> (hs[j].start <= position <==> j < n)
    ensures StaysOpen(hs[..n], i) <==> Encloses(hs, position, i)
  {
    if StaysOpen(hs[..n], i) {
      forall j | i < j < |hs| && hs[j].start <= position ensures hs[j].level > hs[i].level {
        assert hs[..n][j] == hs[j];
      }
    }
  }

  /** Section `i` begins at business heading `i`, or at the beginning of the text, ends where the next one
      begins, and is named after its heading, with the path there. */
  lemma {:induction false} SectionOfHeading(hs: seq<Heading>, length: nat, i: nat)
    requires HeadingMatches(hs, length) && i < |Boundaries(hs)|
    ensures |SectionsOf(hs, length)| == |Boundaries(hs)| && HeadingMatches(Boundaries(hs), length)
    ensures var s, bs := SectionsOf(hs, length)[i], Boundaries(hs);
            && (i > 0 ==> s.start == bs[i].start) && (i == 0 ==> s.start == 0)
            && (i + 1 < |bs| ==> s.end == bs[i + 1].start) && (i + 1 == |bs| ==> s.end == length)
            && s.nearestHeading == Strip(bs[i].title) && s.path == PathAt(hs, bs[i].start)
  {
    AtLevelKeepsOrder(hs, BusinessLevel(hs), length);
  }

  // ---------------------------------------------------------------- chunks along clauses

  /** A parent is the text of a range, with the data of its section and the range's clauses. */
  predicate RangeParent(block: Block, sid: StableId, p: ParentChunk, r: Range)
  {
    && IsParentAt(block, sid, p, r.start, r.end)
    && p.metadata == Sectioned(r.section.path, r.section.nearestHeading, r.clauseIds)
  }

  lemma {:induction false} ParentOfRange(block: Block, sid: StableId, p: ParentChunk, r: Range)
    requires r.start < r.end <= |block.content|
    ensures p == ParentFor(block, r, sid) && !Blank(p.content) <==> RangeParent(block, sid, p, r)
  {
  }

  /** The parents of a block are its non-blank ranges. */
  lemma {:induction false} ParentsAreRanges(block: Block, scan: Scan, cfg: Chunker, sid: StableId, p: ParentChunk)
    requires scan.Of(block.content) && block.content != ""
    ensures p in ParentsFor(block, scan, cfg, sid)
       <==> exists r :: r in RangesFor(block, scan, cfg) && RangeParent(block, sid, p, r)
  {
    hide RangesFor, ParentFor, RangeParent;
    var rs := RangesFor(block, scan, cfg);
    KeptRangesMembers(block, rs, sid, p);
    ParentRangesTileBlock(block, scan, cfg);
    forall i | 0 <= i < |rs|
      ensures p == ParentFor(block, rs[i], sid) && !Blank(p.content) <==> RangeParent(block, sid, p, rs[i])
    {
      TilesInside(rs, 0, |block.content|, i);
      ParentOfRange(block, sid, p, rs[i]);
    }
    if r :| r in rs && RangeParent(block, sid, p, r) {
      var i :| 0 <= i < |rs| && rs[i] == r;
      assert p == ParentFor(block, rs[i], sid);
    }
  }

  /** The ranges are those of the sections. */
  lemma {:induction false} RangesComeFromSections(sections: seq<Section>, cs: seq<Clause>, size: int, r: Range)
    ensures r in AllRanges(sections, cs, size)
       <==> exists s :: 0 <= s < |sections| && r in RangesOf(sections[s], InSection(sections[s], cs), size)
  {
    hide RangesOf, InSection;
    if s :| 0 <= s < |sections| && r in RangesOf(sections[s], InSection(sections[s], cs), size) {
      AllRangesInclude(sections, cs, size, s, r);
    }
    if r in AllRanges(sections, cs, size) {
      var n := |sections| - 1;
      if r !in RangesOf(sections[n], InSection(sections[n], cs), size) {
        RangesComeFromSections(sections[..n], cs, size, r);
        var s :| 0 <= s < n && r in RangesOf(sections[..n][s], InSection(sections[..n][s], cs), size);
        assert sections[..n][s] == sections[s];
      }
    }
  }

  /** A child is window `j` of clause `i`, carries that clause and the section it lies in, and names the
      parent that contains the clause. */
  ghost predicate ClauseChild(
    block: Block, scan: Scan, cfg: Chunker, sid: StableId, c: ChildChunk, section: Section, i: nat, j: nat)
    requires cfg.Valid() && scan.Of(block.content) && block.content != ""
  {
    && i < |scan.markers|
    && var clause := ClausesFor(block, scan)[i];
       && section in SectionsFor(block, scan) && InSpan(section, clause)
       && clause.start < clause.end && j < |ClauseWindowsOf(clause, cfg)|
       && var w := ClauseWindowsOf(clause, cfg)[j];
          && (exists p :: p in ParentsFor(block, scan, cfg, sid) && Holds(p, clause)
                          && IsChildAt(block, sid, c, p.chunkId, w.start, w.end))
          && c.metadata == Sectioned(section.path, section.nearestHeading, [clause.clauseId])
  }

  lemma {:induction false} ChildOfClauseSpelled(
    block: Block, section: Section, clause: Clause, parents: seq<ParentChunk>, cfg: Chunker, sid: StableId, j: nat)
    requires cfg.Valid() && clause.start < clause.end <= |block.content|
    requires ParentIndex(parents, clause) < |parents| && j < |ClauseWindowsOf(clause, cfg)|
    ensures var c, w := ClauseChildren(block, section, clause, parents, cfg, sid)[j], ClauseWindowsOf(clause, cfg)[j];
            && IsChildAt(block, sid, c, parents[ParentIndex(parents, clause)].chunkId, w.start, w.end)
            && c.metadata == Sectioned(section.path, section.nearestHeading, [clause.clauseId])
  {
    ClauseWindowsChain(clause, cfg, j);
  }

  lemma {:induction false} SectionedOnce(
    block: Block, sid: StableId, c: ChildChunk, d: ChildChunk, parentId: string, start: nat, end: nat)
    requires IsChildAt(block, sid, c, parentId, start, end) && IsChildAt(block, sid, d, parentId, start, end)
    requires c.metadata == d.metadata
    ensures c == d
  {
  }

  /** The children of a block are the windows of its clauses. */
  lemma {:induction false} ChildrenAreClauseWindows(
    block: Block, scan: Scan, cfg: Chunker, sid: StableId, c: ChildChunk)
    requires cfg.Valid() && scan.Of(block.content) && block.content != ""
    ensures c in ChildrenFor(block, scan, cfg, sid)
       <==> exists section, i, j :: ClauseChild(block, scan, cfg, sid, c, section, i, j)
  {
    if c in ChildrenFor(block, scan, cfg, sid) {
      var section, i, j := WindowOfChild(block, scan, cfg, sid, c);
    }
    if section, i, j :| ClauseChild(block, scan, cfg, sid, c, section, i, j) {
      WindowIsChild(block, scan, cfg, sid, c, section, i, j);
    }
  }

  lemma {:induction false} WindowOfChild(block: Block, scan: Scan, cfg: Chunker, sid: StableId, c: ChildChunk)
    returns (section: Section, i: nat, j: nat)
    requires cfg.Valid() && scan.Of(block.content) && block.content != ""
    requires c in ChildrenFor(block, scan, cfg, sid)
    ensures ClauseChild(block, scan, cfg, sid, c, section, i, j)
  {
    hide ParentsFor, IsChildAt, ClauseWindowsOf, SectionsFor, SectionsOf, AreClauses;
    var sections, cs, parents := SectionsFor(block, scan), ClausesFor(block, scan), ParentsFor(block, scan, cfg, sid);
    AllAdopted(block, scan, cfg, sid);
    var s := ChildOrigin(block, sections, cs, parents, cfg, sid, c);
    section := sections[s];
    i := SectionChildOrigin(block, section, cs, parents, cfg, sid, c);
    ClauseInsideBlock(block, scan, i);
    var children := ClauseChildren(block, section, cs[i], parents, cfg, sid);
    j :| 0 <= j < |children| && children[j] == c;
    ChildOfClauseSpelled(block, section, cs[i], parents, cfg, sid, j);
    assert parents[ParentIndex(parents, cs[i])] in parents;
  }

  lemma {:induction false} WindowIsChild(
    block: Block, scan: Scan, cfg: Chunker, sid: StableId, c: ChildChunk, section: Section, i: nat, j: nat)
    requires cfg.Valid() && scan.Of(block.content) && block.content != ""
    requires ClauseChild(block, scan, cfg, sid, c, section, i, j)
    ensures c in ChildrenFor(block, scan, cfg, sid)
  {
    hide ParentsFor, IsChildAt;
    var sections, cs, parents := SectionsFor(block, scan), ClausesFor(block, scan), ParentsFor(block, scan, cfg, sid);
    var w := ClauseWindowsOf(cs[i], cfg)[j];
    var p :| p in parents && Holds(p, cs[i]) && IsChildAt(block, sid, c, p.chunkId, w.start, w.end);
    AllAdopted(block, scan, cfg, sid);
    ClauseInsideBlock(block, scan, i);
    var k := ClauseHasOneParent(block, scan, cfg, sid, i);
    var l :| 0 <= l < |parents| && parents[l] == p;
    assert l == k;
    var d := ClauseChildren(block, section, cs[i], parents, cfg, sid)[j];
    ChildOfClauseSpelled(block, section, cs[i], parents, cfg, sid, j);
    SectionedOnce(block, sid, c, d, p.chunkId, w.start, w.end);
    assert d in ClauseChildren(block, section, cs[i], parents, cfg, sid);
    SectionChildrenInclude(block, section, cs, parents, cfg, sid, d, i);
    var s :| 0 <= s < |sections| && sections[s] == section;
    AllChildrenInclude(block, sections, cs, parents, cfg, sid, d, s);
  }

  lemma {:induction false} OneClauseAscends(
    block: Block, section: Section, clause: Clause, parents: seq<ParentChunk>, cfg: Chunker, sid: StableId)
    requires cfg.Valid() && clause.start < clause.end && ParentIndex(parents, clause) < |parents|
    ensures Ascending(ClauseChildren(block, section, clause, parents, cfg, sid))
    ensures StartIn(ClauseChildren(block, section, clause, parents, cfg, sid), clause.start, clause.end)
  {
    var ws, length := ClauseWindowsOf(clause, cfg), clause.end - clause.start;
    forall i | 0 <= i < |ws| ensures clause.start <= ws[i].start < clause.end { ClauseWindowsChain(clause, cfg, i); }
    forall i, j | 0 <= i < j < |ws| ensures ws[i].start < ws[j].start {
      MulMonotone(i + 1, j, cfg.childSize - cfg.overlap);
      MulStep(i, cfg.childSize - cfg.overlap);
    }
  }

  /** The clauses of a block do not overlap and ascend. */
  predicate Disjoint(cs: seq<Clause>)
  {
    && (forall i :: 0 <= i < |cs| ==> cs[i].start < cs[i].end)
    && (forall i, j :: 0 <= i < j < |cs| ==> cs[i].end <= cs[j].start)
  }

  lemma {:induction false} OneSectionAscends(
    block: Block, section: Section, cs: seq<Clause>, parents: seq<ParentChunk>, cfg: Chunker, sid: StableId, to: nat)
    requires cfg.Valid() && Adopted(parents, cs) && Disjoint(cs) && (cs != [] ==> cs[|cs| - 1].end <= to)
    ensures var children := SectionChildrenOf(block, section, cs, parents, cfg, sid);
            && Ascending(children) && StartIn(children, section.start, Max(section.start, section.end))
            && StartIn(children, 0, to)
  {
    hide ClauseChildren, Ascending;
    if cs == [] {
      NothingAscends();
    } else {
      var n := |cs| - 1;
      var before := SectionChildrenOf(block, section, cs[..n], parents, cfg, sid);
      OneSectionAscends(block, section, cs[..n], parents, cfg, sid, cs[n].start);
      if section.start <= cs[n].start && cs[n].end <= section.end {
        OneClauseAscends(block, section, cs[n], parents, cfg, sid);
        AscendingConcat(before, ClauseChildren(block, section, cs[n], parents, cfg, sid), 0, cs[n].start, cs[n].end);
      } else {
        assert before + [] == before;
      }
    }
  }

  lemma {:induction false} NothingAscends()
    ensures Ascending([])
  {
  }

  lemma {:induction false} SectionsAscendChildren(
    block: Block, sections: seq<Section>, length: nat, cs: seq<Clause>, parents: seq<ParentChunk>, cfg: Chunker,
    sid: StableId, n: nat)
    requires cfg.Valid() && Adopted(parents, cs) && Disjoint(cs) && SectionsTile(sections, length) && n <= |sections|
    ensures var children := AllChildren(block, sections[..n], cs, parents, cfg, sid);
            Ascending(children) && StartIn(children, 0, if n == 0 then 0 else sections[n - 1].end)
  {
    hide SectionChildrenOf;
    if n > 0 {
      SectionsAscendChildren(block, sections, length, cs, parents, cfg, sid, n - 1);
      assert sections[..n][..n - 1] == sections[..n - 1];
      OneSectionAscends(block, sections[n - 1], cs, parents, cfg, sid, if cs == [] then 0 else cs[|cs| - 1].end);
      AscendingConcat(AllChildren(block, sections[..n - 1], cs, parents, cfg, sid),
                      SectionChildrenOf(block, sections[n - 1], cs, parents, cfg, sid),
                      0, sections[n - 1].start, sections[n - 1].end);
    }
  }

  /** The children of a block come in the order of their text here too. */
  lemma {:induction false} ClauseChildrenAscend(block: Block, scan: Scan, cfg: Chunker, sid: StableId)
    requires cfg.Valid() && scan.Of(block.content)
    ensures Ascending(ChildrenFor(block, scan, cfg, sid))
  {
    hide ParentsFor, SectionsOf, AllChildren, AreClauses;
    if block.content != "" {
      var sections, cs, parents := SectionsFor(block, scan), ClausesFor(block, scan), ParentsFor(block, scan, cfg, sid);
      AllAdopted(block, scan, cfg, sid);
      SectionsTileBlock(scan.headings, |block.content|);
      forall i, j | 0 <= i < j < |cs| ensures cs[i].end <= cs[j].start {
        ClausesDisjoint(sections, block.content, scan.markers, cs, i, j);
      }
      assert Disjoint(cs);
      SectionsAscendChildren(block, sections, |block.content|, cs, parents, cfg, sid, |sections|);
      assert sections[..|sections|] == sections;
    }
  }
}
