/** What clause-aware chunking promises of its result: children stay inside their clause, parents
    inside their section, and no text of a clause is lost. */
module ClauseTheorems {
  import opened Texts
  import opened Windowing
  import opened FixedChunker
  import opened Sections
  import opened Packing
  import opened ClauseChunker

  // ---------------------------------------------------------------- which children there are

  predicate InSpan(section: Section, clause: Clause)
  {
    section.start <= clause.start && clause.end <= section.end
  }

  lemma {:induction false} SectionChildOrigin(
    block: Block, section: Section, cs: seq<Clause>, parents: seq<ParentChunk>, cfg: Chunker, sid: StableId,
    c: ChildChunk)
    returns (i: nat)
    requires cfg.Valid() && Adopted(parents, cs)
    requires c in SectionChildrenOf(block, section, cs, parents, cfg, sid)
    ensures i < |cs| && InSpan(section, cs[i]) && c in ClauseChildren(block, section, cs[i], parents, cfg, sid)
  {
    var n := |cs| - 1;
    if InSpan(section, cs[n]) && c in ClauseChildren(block, section, cs[n], parents, cfg, sid) {
      i := n;
    } else {
      i := SectionChildOrigin(block, section, cs[..n], parents, cfg, sid, c);
    }
  }

  lemma {:induction false} SectionChildrenInclude(
    block: Block, section: Section, cs: seq<Clause>, parents: seq<ParentChunk>, cfg: Chunker, sid: StableId,
    c: ChildChunk, i: nat)
    requires cfg.Valid() && Adopted(parents, cs)
    requires i < |cs| && InSpan(section, cs[i]) && c in ClauseChildren(block, section, cs[i], parents, cfg, sid)
    ensures c in SectionChildrenOf(block, section, cs, parents, cfg, sid)
  {
    if i < |cs| - 1 {
      SectionChildrenInclude(block, section, cs[..|cs| - 1], parents, cfg, sid, c, i);
    }
  }

  lemma {:induction false} ChildOrigin(
    block: Block, sections: seq<Section>, cs: seq<Clause>, parents: seq<ParentChunk>, cfg: Chunker, sid: StableId,
    c: ChildChunk)
    returns (s: nat)
    requires cfg.Valid() && Adopted(parents, cs)
    requires c in AllChildren(block, sections, cs, parents, cfg, sid)
    ensures s < |sections| && c in SectionChildrenOf(block, sections[s], cs, parents, cfg, sid)
  {
    var n := |sections| - 1;
    if c in SectionChildrenOf(block, sections[n], cs, parents, cfg, sid) {
      s := n;
    } else {
      s := ChildOrigin(block, sections[..n], cs, parents, cfg, sid, c);
    }
  }

  lemma {:induction false} AllChildrenInclude(
    block: Block, sections: seq<Section>, cs: seq<Clause>, parents: seq<ParentChunk>, cfg: Chunker, sid: StableId,
    c: ChildChunk, s: nat)
    requires cfg.Valid() && Adopted(parents, cs)
    requires s < |sections| && c in SectionChildrenOf(block, sections[s], cs, parents, cfg, sid)
    ensures c in AllChildren(block, sections, cs, parents, cfg, sid)
  {
    if s < |sections| - 1 {
      AllChildrenInclude(block, sections[..|sections| - 1], cs, parents, cfg, sid, c, s);
    }
  }

  // ---------------------------------------------------------------- the windows of one clause

  /** The windows of a clause chain from its start to its end: each begins where the one before it
      ends, less the overlap. */
  lemma {:induction false} ClauseWindowsChain(clause: Clause, cfg: Chunker, i: nat)
    requires cfg.Valid() && clause.start < clause.end
    requires i < |ClauseWindowsOf(clause, cfg)|
    ensures var ws := ClauseWindowsOf(clause, cfg);
            && clause.start <= ws[i].start < ws[i].end <= clause.end
            && ws[i].end - ws[i].start <= cfg.childSize
            && (i == 0 ==> ws[i].start == clause.start)
            && (i + 1 == |ws| ==> ws[i].end == clause.end)
            && (0 < i ==> ws[i].start + cfg.overlap == ws[i - 1].end < ws[i].end)
  {
    WindowsAreChain(clause.end - clause.start, cfg.childSize, cfg.overlap);
  }

  /** Every offset of a clause is in one of its windows. */
  lemma {:induction false} ClauseWindowsCover(clause: Clause, cfg: Chunker, k: nat) returns (i: nat)
    requires cfg.Valid() && clause.start <= k < clause.end
    ensures i < |ClauseWindowsOf(clause, cfg)| && ClauseWindowsOf(clause, cfg)[i].Has(k)
  {
    var length := clause.end - clause.start;
    WindowsAreChain(length, cfg.childSize, cfg.overlap);
    i := ChainCovers(WindowsOf(length, cfg.childSize, cfg.overlap), length, cfg.childSize, cfg.overlap,
        k - clause.start);
  }

  /** Only an overlong clause is split. */
  lemma {:induction false} OnlyOverlongClausesSplit(clause: Clause, cfg: Chunker)
    requires cfg.Valid() && clause.start < clause.end
    ensures |ClauseWindowsOf(clause, cfg)| == 1 <==> clause.end - clause.start <= cfg.childSize
    ensures clause.end - clause.start <= cfg.childSize ==>
              ClauseWindowsOf(clause, cfg) == [Span(clause.start, clause.end)]
  {
    var length := clause.end - clause.start;
    WindowsAreChain(length, cfg.childSize, cfg.overlap);
    LastWindow(length, cfg.childSize, cfg.overlap);
  }

  // ---------------------------------------------------------------- every child is clause-local

  /** A child is a slice of the block inside one clause, names that clause and no other, and names a
      parent that contains the clause and lists it. */
  ghost predicate ClauseLocal(block: Block, scan: Scan, cfg: Chunker, sid: StableId, c: ChildChunk, i: nat)
    requires scan.Of(block.content)
  {
    && i < |scan.markers| && block.content != ""
    && var clause := ClausesFor(block, scan)[i];
       && clause.start <= c.span.start < c.span.end <= clause.end <= |block.content|
       && c.span.end - c.span.start <= cfg.childSize
       && c.content == block.content[c.span.start..c.span.end]
       && c.metadata.Sectioned? && c.metadata.clauseIds == [clause.clauseId]
       && exists k :: 0 <= k < |ParentsFor(block, scan, cfg, sid)|
           && Adopts(ParentsFor(block, scan, cfg, sid)[k], clause, c)
  }

  predicate Adopts(p: ParentChunk, clause: Clause, c: ChildChunk)
  {
    && Holds(p, clause) && c.parentId == p.chunkId
    && p.metadata.Sectioned? && clause.clauseId in p.metadata.clauseIds
  }

  lemma {:induction false} ClauseInsideBlock(block: Block, scan: Scan, i: nat)
    requires scan.Of(block.content) && block.content != "" && i < |scan.markers|
    ensures ClausesFor(block, scan)[i].start < ClausesFor(block, scan)[i].end <= |block.content|
    ensures ClausesFor(block, scan)[i].start == scan.markers[i].start
  {
    SectionsTileBlock(scan.headings, |block.content|);
    var sections := SectionsFor(block, scan);
    var cs := ClausesFor(block, scan);
    var s := SectionIndex(sections, scan.markers[i].start);
    ClauseInSection(sections, |block.content|, scan.markers, cs, s, i);
  }

  lemma {:induction false} ChildrenAreClauseLocal(
    block: Block, scan: Scan, cfg: Chunker, sid: StableId, c: ChildChunk) returns (i: nat)
    requires cfg.Valid() && scan.Of(block.content)
    requires c in ChildrenFor(block, scan, cfg, sid)
    ensures ClauseLocal(block, scan, cfg, sid, c, i)
  {
    var sections, cs, parents := SectionsFor(block, scan), ClausesFor(block, scan), ParentsFor(block, scan, cfg, sid);
    AllAdopted(block, scan, cfg, sid);
    var s := ChildOrigin(block, sections, cs, parents, cfg, sid, c);
    i := SectionChildOrigin(block, sections[s], cs, parents, cfg, sid, c);
    ClauseInsideBlock(block, scan, i);
    var k := ClauseHasOneParent(block, scan, cfg, sid, i);
    ChildOfClauseIsLocal(block, sections[s], cs[i], parents, cfg, sid, c);
    assert Adopts(parents[k], cs[i], c);
  }

  lemma {:induction false} ChildOfClauseIsLocal(
    block: Block, section: Section, clause: Clause, parents: seq<ParentChunk>, cfg: Chunker, sid: StableId,
    c: ChildChunk)
    requires cfg.Valid() && clause.start < clause.end <= |block.content|
    requires ParentIndex(parents, clause) < |parents|
    requires c in ClauseChildren(block, section, clause, parents, cfg, sid)
    ensures clause.start <= c.span.start < c.span.end <= clause.end
    ensures c.span.end - c.span.start <= cfg.childSize
    ensures c.content == block.content[c.span.start..c.span.end]
    ensures c.metadata == Sectioned(section.path, section.nearestHeading, [clause.clauseId])
    ensures c.parentId == parents[ParentIndex(parents, clause)].chunkId
  {
    var children := ClauseChildren(block, section, clause, parents, cfg, sid);
    var j :| 0 <= j < |children| && children[j] == c;
    ClauseWindowsChain(clause, cfg, j);
  }

  // ---------------------------------------------------------------- nothing of a clause is lost

  /** Every character of a clause, blank or not, is in a child of that clause. */
  lemma {:induction false} ClauseTextIsKept(
    block: Block, scan: Scan, cfg: Chunker, sid: StableId, i: nat, k: nat) returns (c: ChildChunk)
    requires cfg.Valid() && scan.Of(block.content) && block.content != ""
    requires i < |scan.markers|
    requires ClausesFor(block, scan)[i].start <= k < ClausesFor(block, scan)[i].end
    ensures c in ChildrenFor(block, scan, cfg, sid)
    ensures c.span.Has(k)
    ensures ClauseLocal(block, scan, cfg, sid, c, i)
  {
    var sections, cs, parents := SectionsFor(block, scan), ClausesFor(block, scan), ParentsFor(block, scan, cfg, sid);
    AllAdopted(block, scan, cfg, sid);
    SectionsTileBlock(scan.headings, |block.content|);
    var s := SectionIndex(sections, scan.markers[i].start);
    ClauseInSection(sections, |block.content|, scan.markers, cs, s, i);
    ClauseInsideBlock(block, scan, i);
    c := ChildAtOffset(block, sections[s], cs[i], parents, cfg, sid, k);
    SectionChildrenInclude(block, sections[s], cs, parents, cfg, sid, c, i);
    AllChildrenInclude(block, sections, cs, parents, cfg, sid, c, s);
    var p := ClauseHasOneParent(block, scan, cfg, sid, i);
    assert Adopts(parents[p], cs[i], c);
  }

  lemma {:induction false} ChildAtOffset(
    block: Block, section: Section, clause: Clause, parents: seq<ParentChunk>, cfg: Chunker, sid: StableId, k: nat)
    returns (c: ChildChunk)
    requires cfg.Valid() && clause.start <= k < clause.end <= |block.content|
    requires ParentIndex(parents, clause) < |parents|
    ensures c in ClauseChildren(block, section, clause, parents, cfg, sid)
    ensures c.span.Has(k)
    ensures clause.start <= c.span.start < c.span.end <= clause.end
    ensures c.span.end - c.span.start <= cfg.childSize
    ensures c.content == block.content[c.span.start..c.span.end]
    ensures c.metadata == Sectioned(section.path, section.nearestHeading, [clause.clauseId])
    ensures c.parentId == parents[ParentIndex(parents, clause)].chunkId
  {
    var j := ClauseWindowsCover(clause, cfg, k);
    c := ClauseChildren(block, section, clause, parents, cfg, sid)[j];
    ChildOfClauseIsLocal(block, section, clause, parents, cfg, sid, c);
  }

  // ---------------------------------------------------------------- parents

  lemma {:induction false} RangeHasSection(sections: seq<Section>, cs: seq<Clause>, size: int, r: Range)
    requires r in AllRanges(sections, cs, size)
    requires forall s :: 0 <= s < |sections| ==> ClauseRun(sections[s], InSection(sections[s], cs))
    ensures r.section in sections && r.section.start <= r.start < r.end <= r.section.end
  {
    var n := |sections| - 1;
    var last := RangesOf(sections[n], InSection(sections[n], cs), size);
    if r in last {
      RangesTile(sections[n], InSection(sections[n], cs), size);
      var i :| 0 <= i < |last| && last[i] == r;
      TilesInside(last, sections[n].start, sections[n].end, i);
    } else {
      RangeHasSection(sections[..n], cs, size, r);
    }
  }

  /** No parent crosses a business section, and its metadata is that of the section it lies in. */
  lemma {:induction false} ParentsStayInSections(block: Block, scan: Scan, cfg: Chunker, sid: StableId, p: ParentChunk)
    returns (section: Section)
    requires scan.Of(block.content)
    requires p in ParentsFor(block, scan, cfg, sid)
    ensures section in SectionsFor(block, scan)
    ensures section.start <= p.span.start < p.span.end <= section.end
    ensures p.metadata.Sectioned? && p.metadata.path == section.path
              && p.metadata.nearestHeading == section.nearestHeading
  {
    var sections, cs, rs := SectionsFor(block, scan), ClausesFor(block, scan), RangesFor(block, scan, cfg);
    KeptRangesMembers(block, rs, sid, p);
    var i :| 0 <= i < |rs| && p == ParentFor(block, rs[i], sid) && !Blank(p.content);
    SectionsTileBlock(scan.headings, |block.content|);
    forall s | 0 <= s < |sections| ensures ClauseRun(sections[s], InSection(sections[s], cs)) {
      var a, b := SectionClausesRun(sections, block.content, scan.markers, cs, s);
    }
    RangeHasSection(sections, cs, cfg.parentSize, rs[i]);
    section := rs[i].section;
  }

  /** Every non-blank character of the block is in exactly one parent. */
  lemma {:induction false} ParentsKeepText(
    block: Block, scan: Scan, cfg: Chunker, sid: StableId, k: nat) returns (i: nat)
    requires scan.Of(block.content)
    requires k < |block.content| && !IsSpace(block.content[k])
    ensures var parents := ParentsFor(block, scan, cfg, sid);
            && i < |parents| && parents[i].span.Has(k)
            && forall j :: 0 <= j < |parents| && parents[j].span.Has(k) ==> j == i
  {
    var rs := RangesFor(block, scan, cfg);
    ParentRangesTileBlock(block, scan, cfg);
    var n := TilesCover(rs, |block.content|, k);
    TilesInside(rs, 0, |block.content|, n);
    var p := ParentFor(block, rs[n], sid);
    assert p.content[k - rs[n].start] == block.content[k];
    KeptRangesMembers(block, rs, sid, p);
    var parents := ParentsFor(block, scan, cfg, sid);
    i :| 0 <= i < |parents| && parents[i] == p;
    ParentsAreOrdered(block, scan, cfg, sid);
  }

  lemma {:induction false} TilesCover(rs: seq<Range>, to: nat, k: nat) returns (i: nat)
    requires Tiles(rs, 0, to) && k < to
    ensures i < |rs| && rs[i].start <= k < rs[i].end
  {
    i := 0;
    while rs[i].end <= k
      invariant i < |rs| && rs[i].start <= k
      decreases |rs| - i
    {
      i := i + 1;
    }
  }
}
