/** `decision_agent/ingestion/clause_aware_chunking.py`: `ClauseAwareChunker.chunk`. */
module ClauseChunker {
  import opened Texts
  import opened Windowing
  import opened FixedChunker
  import opened Sections
  import opened Packing

  /** The pattern matches in one block's content. */
  datatype Scan = Scan(headings: seq<Heading>, markers: seq<Marker>) {
    predicate Of(content: string) { HeadingMatches(headings, |content|) && MarkerMatches(markers, content) }
  }

  datatype ChunkError = MarkerOutsideSections | ClauseHasNoParent(clauseId: string)

  datatype Chunks = Chunks(parents: seq<ParentChunk>, children: seq<ChildChunk>)

  // ---------------------------------------------------------------- parents

  function AllRanges(sections: seq<Section>, cs: seq<Clause>, size: int): seq<Range>
  {
    if sections == [] then []
    else
      var last := sections[|sections| - 1];
      AllRanges(sections[..|sections| - 1], cs, size) + RangesOf(last, InSection(last, cs), size)
  }

  function ParentFor(block: Block, r: Range, sid: StableId): ParentChunk
  {
    var content := Slice(block.content, r.start, r.end);
    var span := Span(r.start, r.end);
    ParentChunk(sid(IdPayload(Parent, block, span, content, None)), block.documentId, content, [block.blockId], span,
                Sectioned(r.section.path, r.section.nearestHeading, r.clauseIds))
  }

  function KeptRanges(block: Block, rs: seq<Range>, sid: StableId): seq<ParentChunk>
  {
    if rs == [] then []
    else
      var p := ParentFor(block, rs[|rs| - 1], sid);
      KeptRanges(block, rs[..|rs| - 1], sid) + (if Blank(p.content) then [] else [p])
  }

  lemma {:induction false} KeptRangesConcat(block: Block, a: seq<Range>, b: seq<Range>, sid: StableId)
    ensures KeptRanges(block, a + b, sid) == KeptRanges(block, a, sid) + KeptRanges(block, b, sid)
  {
    if b == [] {
      assert a + b == a;
    } else {
      assert (a + b)[..|a + b| - 1] == a + b[..|b| - 1];
      KeptRangesConcat(block, a, b[..|b| - 1], sid);
    }
  }

  /** The first loop of `chunk`, for one section. */
  method SectionParents(block: Block, section: Section, cs: seq<Clause>, cfg: Chunker, sid: StableId)
    returns (parents: seq<ParentChunk>)
    requires ClauseRun(section, InSection(section, cs))
    ensures parents == KeptRanges(block, RangesOf(section, InSection(section, cs), cfg.parentSize), sid)
  {
    parents := [];
    var ranges := ParentRanges(section, InSection(section, cs), cfg.parentSize);
    for i := 0 to |ranges|
      invariant parents == KeptRanges(block, ranges[..i], sid)
    {
      assert ranges[..i + 1][..i] == ranges[..i];
      var content := Slice(block.content, ranges[i].start, ranges[i].end);
      if Blank(content) {
        continue;
      }
      var span := Span(ranges[i].start, ranges[i].end);
      parents := parents + [
        ParentChunk(sid(IdPayload(Parent, block, span, content, None)), block.documentId, content, [block.blockId],
                    span, Sectioned(section.path, section.nearestHeading, ranges[i].clauseIds))];
      RangesTile(section, InSection(section, cs), cfg.parentSize);
      assert ranges[i] in ranges;
    }
    assert ranges[..|ranges|] == ranges;
  }

  // ---------------------------------------------------------------- children

  function Shifted(ws: seq<Span>, offset: nat): seq<Span>
  {
    seq(|ws|, i requires 0 <= i < |ws| => Span(offset + ws[i].start, offset + ws[i].end))
  }

  /** The windows of a clause, at their offsets in the block. */
  function ClauseWindowsOf(clause: Clause, cfg: Chunker): seq<Span>
    requires cfg.Valid() && clause.start < clause.end
  {
    Shifted(WindowsOf(clause.end - clause.start, cfg.childSize, cfg.overlap), clause.start)
  }

  method ClauseWindows(clause: Clause, cfg: Chunker) returns (ws: seq<Span>)
    requires cfg.Valid() && clause.start < clause.end
    ensures ws == ClauseWindowsOf(clause, cfg)
  {
    var length := clause.end - clause.start;
    if length <= cfg.childSize {
      WindowsAreChain(length, cfg.childSize, cfg.overlap);
      return [Span(clause.start, clause.end)];
    }
    ws := [];
    var local := Windows(length, cfg.childSize, cfg.overlap);
    for i := 0 to |local|
      invariant ws == Shifted(local, clause.start)[..i]
    {
      ws := ws + [Span(clause.start + local[i].start, clause.start + local[i].end)];
    }
  }

  predicate Holds(p: ParentChunk, clause: Clause)
  {
    p.span.start <= clause.start && clause.end <= p.span.end
  }

  /** The first parent that contains the clause, or `|parents|`. */
  function ParentIndex(parents: seq<ParentChunk>, clause: Clause): (i: nat)
    ensures i <= |parents|
    ensures i < |parents| ==> Holds(parents[i], clause)
    ensures forall k :: 0 <= k < i ==> !Holds(parents[k], clause)
  {
    if parents == [] || Holds(parents[0], clause) then 0 else 1 + ParentIndex(parents[1..], clause)
  }

  function ChildFor(
    block: Block, section: Section, clause: Clause, parentId: string, w: Span, sid: StableId): ChildChunk
  {
    var content := Slice(block.content, w.start, w.end);
    ChildChunk(sid(IdPayload(Child, block, w, content, Some(parentId))), parentId, block.documentId, content, w,
               Sectioned(section.path, section.nearestHeading, [clause.clauseId]))
  }

  function ClauseChildren(
    block: Block, section: Section, clause: Clause, parents: seq<ParentChunk>, cfg: Chunker,
    sid: StableId): seq<ChildChunk>
    requires cfg.Valid() && clause.start < clause.end
    requires ParentIndex(parents, clause) < |parents|
  {
    var ws := ClauseWindowsOf(clause, cfg);
    var parentId := parents[ParentIndex(parents, clause)].chunkId;
    seq(|ws|, i requires 0 <= i < |ws| => ChildFor(block, section, clause, parentId, ws[i], sid))
  }

  /** Every clause has a parent to name. */
  predicate Adopted(parents: seq<ParentChunk>, cs: seq<Clause>)
  {
    forall i :: 0 <= i < |cs| ==> cs[i].start < cs[i].end && ParentIndex(parents, cs[i]) < |parents|
  }

  function SectionChildrenOf(
    block: Block, section: Section, cs: seq<Clause>, parents: seq<ParentChunk>, cfg: Chunker,
    sid: StableId): seq<ChildChunk>
    requires cfg.Valid() && Adopted(parents, cs)
  {
    if cs == [] then []
    else
      SectionChildrenOf(block, section, cs[..|cs| - 1], parents, cfg, sid)
      + (var c := cs[|cs| - 1];
         if section.start <= c.start && c.end <= section.end
         then ClauseChildren(block, section, c, parents, cfg, sid) else [])
  }

  function AllChildren(
    block: Block, sections: seq<Section>, cs: seq<Clause>, parents: seq<ParentChunk>, cfg: Chunker,
    sid: StableId): seq<ChildChunk>
    requires cfg.Valid() && Adopted(parents, cs)
  {
    if sections == [] then []
    else
      AllChildren(block, sections[..|sections| - 1], cs, parents, cfg, sid)
      + SectionChildrenOf(block, sections[|sections| - 1], cs, parents, cfg, sid)
  }

  method ChildrenOfClause(
    block: Block, section: Section, clause: Clause, parents: seq<ParentChunk>, cfg: Chunker, sid: StableId)
    returns (r: Result<seq<ChildChunk>, ChunkError>)
    requires cfg.Valid() && clause.start < clause.end
    ensures r == if ParentIndex(parents, clause) < |parents|
                 then Ok(ClauseChildren(block, section, clause, parents, cfg, sid))
                 else Err(ClauseHasNoParent(clause.clauseId))
  {
    var k := ParentIndex(parents, clause);
    if k == |parents| {
      return Err(ClauseHasNoParent(clause.clauseId));
    }
    var children: seq<ChildChunk> := [];
    var ws := ClauseWindows(clause, cfg);
    for i := 0 to |ws|
      invariant |children| == i
      invariant forall j :: 0 <= j < i ==>
                children[j] == ChildFor(block, section, clause, parents[k].chunkId, ws[j], sid)
    {
      var content := Slice(block.content, ws[i].start, ws[i].end);
      children := children + [
        ChildChunk(sid(IdPayload(Child, block, ws[i], content, Some(parents[k].chunkId))), parents[k].chunkId,
                   block.documentId, content, ws[i],
                   Sectioned(section.path, section.nearestHeading, [clause.clauseId]))];
    }
    assert children == ClauseChildren(block, section, clause, parents, cfg, sid);
    return Ok(children);
  }

  /** The first clause of a section that no parent contains. */
  function FirstOrphan(section: Section, cs: seq<Clause>, parents: seq<ParentChunk>): Option<Clause>
  {
    if cs == [] then None
    else
      var before, c := FirstOrphan(section, cs[..|cs| - 1], parents), cs[|cs| - 1];
      if before.Some? then before
      else if section.start <= c.start && c.end <= section.end && ParentIndex(parents, c) == |parents| then Some(c)
      else None
  }

  /** The first such clause of the block, section by section. */
  function FirstOrphanOf(sections: seq<Section>, cs: seq<Clause>, parents: seq<ParentChunk>): Option<Clause>
  {
    if sections == [] then None
    else
      var before := FirstOrphanOf(sections[..|sections| - 1], cs, parents);
      if before.Some? then before else FirstOrphan(sections[|sections| - 1], cs, parents)
  }

  lemma {:induction false} OrphanStaysFirst(section: Section, cs: seq<Clause>, parents: seq<ParentChunk>, n: nat)
    requires n <= |cs| && FirstOrphan(section, cs[..n], parents).Some?
    ensures FirstOrphan(section, cs, parents) == FirstOrphan(section, cs[..n], parents)
    decreases |cs|
  {
    if n < |cs| {
      assert cs[..|cs| - 1][..n] == cs[..n];
      OrphanStaysFirst(section, cs[..|cs| - 1], parents, n);
    } else {
      assert cs[..n] == cs;
    }
  }

  lemma {:induction false} OrphanOfStaysFirst(
    sections: seq<Section>, cs: seq<Clause>, parents: seq<ParentChunk>, n: nat)
    requires n <= |sections| && FirstOrphanOf(sections[..n], cs, parents).Some?
    ensures FirstOrphanOf(sections, cs, parents) == FirstOrphanOf(sections[..n], cs, parents)
    decreases |sections|
  {
    if n < |sections| {
      assert sections[..|sections| - 1][..n] == sections[..n];
      OrphanOfStaysFirst(sections[..|sections| - 1], cs, parents, n);
    } else {
      assert sections[..n] == sections;
    }
  }

  /** The error of the first orphan, if there is one. */
  predicate FailsForOrphan(orphan: Option<Clause>, r: Result<seq<ChildChunk>, ChunkError>)
  {
    match orphan
    case None => r.Ok?
    case Some(c) => r == Err(ClauseHasNoParent(c.clauseId))
  }

  /** The second loop of `chunk`, for one section: it raises only for a clause without a parent. */
  method SectionChildren(
    block: Block, section: Section, cs: seq<Clause>, parents: seq<ParentChunk>, cfg: Chunker, sid: StableId)
    returns (r: Result<seq<ChildChunk>, ChunkError>)
    requires cfg.Valid() && forall i :: 0 <= i < |cs| ==> cs[i].start < cs[i].end
    ensures Adopted(parents, cs) ==> r == Ok(SectionChildrenOf(block, section, cs, parents, cfg, sid))
    ensures FailsForOrphan(FirstOrphan(section, cs, parents), r)
  {
    hide ClauseChildren;
    var children: seq<ChildChunk> := [];
    for i := 0 to |cs|
      invariant FirstOrphan(section, cs[..i], parents).None?
      invariant Adopted(parents, cs) ==> children == SectionChildrenOf(block, section, cs[..i], parents, cfg, sid)
    {
      assert cs[..i + 1][..i] == cs[..i];
      if !(section.start <= cs[i].start && cs[i].end <= section.end) {
        continue;
      }
      var local := ChildrenOfClause(block, section, cs[i], parents, cfg, sid);
      match local {
        case Err(e) =>
          OrphanStaysFirst(section, cs, parents, i + 1);
          return Err(e);
        case Ok(cc) => children := children + cc;
      }
    }
    assert cs[..|cs|] == cs;
    return Ok(children);
  }

  // ---------------------------------------------------------------- the whole block

  function SectionsFor(block: Block, scan: Scan): seq<Section> { SectionsOf(scan.headings, |block.content|) }

  /** The clauses of a block, where every marker lies in a section. */
  function ClausesFor(block: Block, scan: Scan): (cs: seq<Clause>)
    requires scan.Of(block.content) && block.content != ""
    ensures AreClauses(cs, scan.markers, SectionsFor(block, scan))
  {
    SectionsTileBlock(scan.headings, |block.content|);
    ClausesFound(SectionsFor(block, scan), block.content, scan.markers);
    seq(|scan.markers|, i requires 0 <= i < |scan.markers| => ClauseAt(scan.markers, SectionsFor(block, scan), i))
  }

  function RangesFor(block: Block, scan: Scan, cfg: Chunker): seq<Range>
    requires scan.Of(block.content) && block.content != ""
  {
    AllRanges(SectionsFor(block, scan), ClausesFor(block, scan), cfg.parentSize)
  }

  function ParentsFor(block: Block, scan: Scan, cfg: Chunker, sid: StableId): seq<ParentChunk>
    requires scan.Of(block.content)
  {
    if block.content == "" then [] else KeptRanges(block, RangesFor(block, scan, cfg), sid)
  }

  lemma {:induction false} AllRangesGrow(sections: seq<Section>, cs: seq<Clause>, size: int, n: nat)
    requires n < |sections|
    ensures AllRanges(sections[..n + 1], cs, size)
         == AllRanges(sections[..n], cs, size) + RangesOf(sections[n], InSection(sections[n], cs), size)
    ensures n == 0 ==> AllRanges(sections[..n + 1], cs, size) == RangesOf(sections[n], InSection(sections[n], cs), size)
  {
    assert sections[..n + 1][..n] == sections[..n];
  }

  lemma {:induction false} AllRangesTile(
    sections: seq<Section>, content: string, ms: seq<Marker>, cs: seq<Clause>, size: int, n: nat)
    requires SectionsTile(sections, |content|) && MarkerMatches(ms, content) && AreClauses(cs, ms, sections)
    requires 0 < n <= |sections|
    ensures Tiles(AllRanges(sections[..n], cs, size), 0, sections[n - 1].end)
    ensures ClauseRun(sections[n - 1], InSection(sections[n - 1], cs))
  {
    var a, b := SectionClausesRun(sections, content, ms, cs, n - 1);
    var section := sections[n - 1];
    RangesTile(section, InSection(section, cs), size);
    AllRangesGrow(sections, cs, size, n - 1);
    if n > 1 {
      AllRangesTile(sections, content, ms, cs, size, n - 1);
      TilesJoin(AllRanges(sections[..n - 1], cs, size), RangesOf(section, InSection(section, cs), size),
                0, section.start, section.end);
    }
  }

  /** Before blank ranges are dropped, the parent ranges tile the block. */
  lemma {:induction false} ParentRangesTileBlock(block: Block, scan: Scan, cfg: Chunker)
    requires scan.Of(block.content) && block.content != ""
    ensures Tiles(RangesFor(block, scan, cfg), 0, |block.content|)
  {
    var sections := SectionsFor(block, scan);
    SectionsTileBlock(scan.headings, |block.content|);
    assert sections[..|sections|] == sections;
    AllRangesTile(sections, block.content, scan.markers, ClausesFor(block, scan), cfg.parentSize, |sections|);
  }

  lemma {:induction false} KeptRangesMembers(block: Block, rs: seq<Range>, sid: StableId, p: ParentChunk)
    ensures p in KeptRanges(block, rs, sid)
       <==> exists i :: 0 <= i < |rs| && p == ParentFor(block, rs[i], sid) && !Blank(p.content)
  {
    if rs != [] {
      var n := |rs| - 1;
      KeptRangesMembers(block, rs[..n], sid, p);
      if i :| 0 <= i < |rs| && p == ParentFor(block, rs[i], sid) && !Blank(p.content) && i != n {
        assert rs[..n][i] == rs[i];
      }
      if i :| 0 <= i < n && p == ParentFor(block, rs[..n][i], sid) && !Blank(p.content) {
        assert rs[..n][i] == rs[i];
      }
    }
  }

  lemma {:induction false} KeptRangesOrdered(block: Block, rs: seq<Range>, to: nat, n: nat, sid: StableId)
    requires Tiles(rs, 0, to) && n <= |rs|
    ensures Ordered(KeptRanges(block, rs[..n], sid))
  {
    if n > 0 {
      assert rs[..n][..n - 1] == rs[..n - 1];
      KeptRangesOrdered(block, rs, to, n - 1, sid);
      var before := KeptRanges(block, rs[..n - 1], sid);
      forall k | 0 <= k < |before| ensures before[k].span.end <= rs[n - 1].start {
        assert before[k] in before;
        KeptRangesMembers(block, rs[..n - 1], sid, before[k]);
        var i :| 0 <= i < n - 1 && before[k] == ParentFor(block, rs[..n - 1][i], sid);
        TilesAscend(rs, 0, to, i, n - 1);
      }
    }
  }

  lemma {:induction false} TilesInside(rs: seq<Range>, from: nat, to: nat, i: nat)
    requires Tiles(rs, from, to) && i < |rs|
    ensures from <= rs[i].start < rs[i].end <= to
  {
    if i > 0 { TilesAscend(rs, from, to, 0, i); }
    if i < |rs| - 1 { TilesAscend(rs, from, to, i, |rs| - 1); }
  }

  /** A parent is a non-blank slice of its block. */
  predicate IsSlice(block: Block, p: ParentChunk)
  {
    && p.span.start < p.span.end <= |block.content|
    && p.content == block.content[p.span.start..p.span.end] && !Blank(p.content)
    && p.blockIds == [block.blockId]
  }

  lemma {:induction false} KeptAreOrdered(block: Block, rs: seq<Range>, sid: StableId)
    requires Tiles(rs, 0, |block.content|)
    ensures Ordered(KeptRanges(block, rs, sid))
    ensures forall p :: p in KeptRanges(block, rs, sid) ==> IsSlice(block, p)
  {
    assert rs[..|rs|] == rs;
    KeptRangesOrdered(block, rs, |block.content|, |rs|, sid);
    forall p | p in KeptRanges(block, rs, sid) ensures IsSlice(block, p) {
      KeptRangesMembers(block, rs, sid, p);
      var i :| 0 <= i < |rs| && p == ParentFor(block, rs[i], sid) && !Blank(p.content);
      TilesInside(rs, 0, |block.content|, i);
    }
  }

  /** Parents are non-blank slices of the block, disjoint and in order. */
  lemma {:induction false} ParentsAreOrdered(block: Block, scan: Scan, cfg: Chunker, sid: StableId)
    requires scan.Of(block.content)
    ensures Ordered(ParentsFor(block, scan, cfg, sid))
    ensures forall p :: p in ParentsFor(block, scan, cfg, sid) ==> IsSlice(block, p)
  {
    if block.content != "" {
      ParentRangesTileBlock(block, scan, cfg);
      KeptAreOrdered(block, RangesFor(block, scan, cfg), sid);
    }
  }

  lemma {:induction false} AllRangesInclude(sections: seq<Section>, cs: seq<Clause>, size: int, s: nat, r: Range)
    requires s < |sections| && r in RangesOf(sections[s], InSection(sections[s], cs), size)
    ensures r in AllRanges(sections, cs, size)
  {
    if s < |sections| - 1 {
      AllRangesInclude(sections[..|sections| - 1], cs, size, s, r);
    }
  }

  lemma {:induction false} OnlyOneHolds(parents: seq<ParentChunk>, clause: Clause, k: nat)
    requires Ordered(parents) && clause.start < clause.end
    requires k < |parents| && Holds(parents[k], clause)
    ensures forall j :: 0 <= j < |parents| && Holds(parents[j], clause) ==> j == k
    ensures ParentIndex(parents, clause) == k
  {}

  /** The range that takes a clause. */
  lemma {:induction false} ClauseRange(
    sections: seq<Section>, content: string, ms: seq<Marker>, cs: seq<Clause>, size: int, i: nat)
    returns (r: Range)
    requires SectionsTile(sections, |content|) && MarkerMatches(ms, content) && AreClauses(cs, ms, sections)
    requires i < |ms|
    ensures r in AllRanges(sections, cs, size)
    ensures r.start <= cs[i].start < cs[i].end <= r.end
    ensures cs[i].clauseId in r.clauseIds
    ensures cs[i].start == ms[i].start
  {
    var s := SectionIndex(sections, ms[i].start);
    assert cs[i] == ClauseAt(ms, sections, i);
    var a, b := SectionClausesRun(sections, content, ms, cs, s);
    r := RunRange(sections[s], cs, a, b, size, i);
    AllRangesInclude(sections, cs, size, s, r);
  }

  lemma {:induction false} RunRange(
    section: Section, cs: seq<Clause>, a: nat, b: nat, size: int, i: nat) returns (r: Range)
    requires a <= i < b <= |cs|
    requires ClauseRun(section, cs[a..b])
    ensures r in RangesOf(section, cs[a..b], size)
    ensures r.start <= cs[i].start < cs[i].end <= r.end
    ensures cs[i].clauseId in r.clauseIds
  {
    var run := cs[a..b];
    assert run[i - a] == cs[i];
    r := PackedHolds(section, run, size, 0, i - a);
  }

  lemma {:induction false} HeldOnce(
    block: Block, rs: seq<Range>, clause: Clause, r: Range, sid: StableId) returns (k: nat)
    requires Tiles(rs, 0, |block.content|)
    requires r in rs && r.start <= clause.start < clause.end <= r.end
    requires clause.start < |block.content| && !IsSpace(block.content[clause.start])
    ensures var parents := KeptRanges(block, rs, sid);
            && k < |parents| && Holds(parents[k], clause) && k == ParentIndex(parents, clause)
            && parents[k].metadata == Sectioned(r.section.path, r.section.nearestHeading, r.clauseIds)
            && forall j :: 0 <= j < |parents| && Holds(parents[j], clause) ==> j == k
  {
    var p := ParentFor(block, r, sid);
    var n :| 0 <= n < |rs| && rs[n] == r;
    TilesInside(rs, 0, |block.content|, n);
    assert p.content[clause.start - r.start] == block.content[clause.start];
    KeptRangesMembers(block, rs, sid, p);
    KeptAreOrdered(block, rs, sid);
    var parents := KeptRanges(block, rs, sid);
    k :| 0 <= k < |parents| && parents[k] == p;
    OnlyOneHolds(parents, clause, k);
  }

  /** Every clause lies in exactly one parent, so the "has no Parent chunk" error is never raised. */
  lemma {:induction false} ClauseHasOneParent(
    block: Block, scan: Scan, cfg: Chunker, sid: StableId, i: nat) returns (k: nat)
    requires scan.Of(block.content)
    requires i < |scan.markers|
    ensures block.content != ""
    ensures var parents := ParentsFor(block, scan, cfg, sid);
            var clause := ClausesFor(block, scan)[i];
            && clause.start < clause.end
            && k < |parents| && Holds(parents[k], clause) && k == ParentIndex(parents, clause)
            && parents[k].metadata.Sectioned? && clause.clauseId in parents[k].metadata.clauseIds
            && forall j :: 0 <= j < |parents| && Holds(parents[j], clause) ==> j == k
  {
    assert scan.markers[i].start < |block.content|;
    SectionsTileBlock(scan.headings, |block.content|);
    var cs := ClausesFor(block, scan);
    var r := ClauseRange(SectionsFor(block, scan), block.content, scan.markers, cs, cfg.parentSize, i);
    ParentRangesTileBlock(block, scan, cfg);
    k := HeldOnce(block, RangesFor(block, scan, cfg), cs[i], r, sid);
  }

  lemma {:induction false} AllAdopted(block: Block, scan: Scan, cfg: Chunker, sid: StableId)
    requires scan.Of(block.content) && block.content != ""
    ensures Adopted(ParentsFor(block, scan, cfg, sid), ClausesFor(block, scan))
  {
    var cs := ClausesFor(block, scan);
    forall i | 0 <= i < |cs|
      ensures cs[i].start < cs[i].end
      ensures ParentIndex(ParentsFor(block, scan, cfg, sid), cs[i]) < |ParentsFor(block, scan, cfg, sid)|
    {
      var k := ClauseHasOneParent(block, scan, cfg, sid, i);
    }
  }

  function ChildrenFor(block: Block, scan: Scan, cfg: Chunker, sid: StableId): seq<ChildChunk>
    requires cfg.Valid() && scan.Of(block.content)
  {
    if block.content == "" then []
    else
      AllAdopted(block, scan, cfg, sid);
      AllChildren(block, SectionsFor(block, scan), ClausesFor(block, scan), ParentsFor(block, scan, cfg, sid), cfg, sid)
  }

  lemma {:induction false} BlankKeepsNoRange(block: Block, rs: seq<Range>, sid: StableId)
    requires Blank(block.content)
    ensures KeptRanges(block, rs, sid) == []
  {
    if rs != [] {
      BlankKeepsNoRange(block, rs[..|rs| - 1], sid);
      BlankSlice(block.content, rs[|rs| - 1].start, rs[|rs| - 1].end);
    }
  }

  lemma {:induction false} NoClausesNoChildren(
    block: Block, sections: seq<Section>, parents: seq<ParentChunk>, cfg: Chunker, sid: StableId)
    requires cfg.Valid()
    ensures AllChildren(block, sections, [], parents, cfg, sid) == []
  {
    if sections != [] { NoClausesNoChildren(block, sections[..|sections| - 1], parents, cfg, sid); }
  }

  lemma {:induction false} MarkerIsNotBlank(content: string, ms: seq<Marker>, i: nat)
    requires MarkerMatches(ms, content) && i < |ms|
    ensures !Blank(content)
  {
    assert !IsSpace(content[ms[i].start]);
  }

  lemma {:induction false} NoMarkersInBlank(content: string, ms: seq<Marker>)
    requires Blank(content) && MarkerMatches(ms, content)
    ensures ms == []
  {
    if ms != [] { MarkerIsNotBlank(content, ms, 0); }
  }

  lemma {:induction false} BlankHasNoChunks(block: Block, scan: Scan, cfg: Chunker, sid: StableId)
    requires cfg.Valid() && scan.Of(block.content) && Blank(block.content)
    ensures ParentsFor(block, scan, cfg, sid) == [] && ChildrenFor(block, scan, cfg, sid) == []
  {
    NoMarkersInBlank(block.content, scan.markers);
    if block.content != "" {
      BlankKeepsNoRange(block, RangesFor(block, scan, cfg), sid);
      assert ClausesFor(block, scan) == [];
      NoClausesNoChildren(block, SectionsFor(block, scan), [], cfg, sid);
    }
  }

  lemma {:induction false} SectionsAreRuns(sections: seq<Section>, content: string, ms: seq<Marker>, cs: seq<Clause>)
    requires SectionsTile(sections, |content|) && MarkerMatches(ms, content) && AreClauses(cs, ms, sections)
    ensures forall s :: 0 <= s < |sections| ==> ClauseRun(sections[s], InSection(sections[s], cs))
  {
    forall s | 0 <= s < |sections| ensures ClauseRun(sections[s], InSection(sections[s], cs)) {
      var a, b := SectionClausesRun(sections, content, ms, cs, s);
    }
  }

  /** The loop over sections that collects parents. */
  method AllParents(block: Block, sections: seq<Section>, cs: seq<Clause>, cfg: Chunker, sid: StableId)
    returns (parents: seq<ParentChunk>)
    requires forall s :: 0 <= s < |sections| ==> ClauseRun(sections[s], InSection(sections[s], cs))
    ensures parents == KeptRanges(block, AllRanges(sections, cs, cfg.parentSize), sid)
  {
    parents := [];
    for s := 0 to |sections|
      invariant parents == KeptRanges(block, AllRanges(sections[..s], cs, cfg.parentSize), sid)
    {
      var local := SectionParents(block, sections[s], cs, cfg, sid);
      NextSectionRanges(block, sections, cs, cfg, sid, s);
      parents := parents + local;
    }
    assert sections[..|sections|] == sections;
  }

  lemma {:induction false} NextSectionRanges(
    block: Block, sections: seq<Section>, cs: seq<Clause>, cfg: Chunker, sid: StableId, s: nat)
    requires s < |sections|
    ensures KeptRanges(block, AllRanges(sections[..s + 1], cs, cfg.parentSize), sid)
         == KeptRanges(block, AllRanges(sections[..s], cs, cfg.parentSize), sid)
            + KeptRanges(block, RangesOf(sections[s], InSection(sections[s], cs), cfg.parentSize), sid)
  {
    AllRangesGrow(sections, cs, cfg.parentSize, s);
    KeptRangesConcat(block, AllRanges(sections[..s], cs, cfg.parentSize),
                     RangesOf(sections[s], InSection(sections[s], cs), cfg.parentSize), sid);
  }

  /** The loop over sections that collects children. */
  method CollectChildren(
    block: Block, sections: seq<Section>, cs: seq<Clause>, parents: seq<ParentChunk>, cfg: Chunker, sid: StableId)
    returns (r: Result<seq<ChildChunk>, ChunkError>)
    requires cfg.Valid() && forall i :: 0 <= i < |cs| ==> cs[i].start < cs[i].end
    ensures Adopted(parents, cs) ==> r == Ok(AllChildren(block, sections, cs, parents, cfg, sid))
    ensures FailsForOrphan(FirstOrphanOf(sections, cs, parents), r)
  {
    var children: seq<ChildChunk> := [];
    for s := 0 to |sections|
      invariant Adopted(parents, cs) ==> children == AllChildren(block, sections[..s], cs, parents, cfg, sid)
      invariant FirstOrphanOf(sections[..s], cs, parents).None?
    {
      assert sections[..s + 1][..s] == sections[..s];
      var local := SectionChildren(block, sections[s], cs, parents, cfg, sid);
      match local {
        case Err(e) =>
          OrphanOfStaysFirst(sections, cs, parents, s + 1);
          return Err(e);
        case Ok(cc) => children := children + cc;
      }
    }
    assert sections[..|sections|] == sections;
    return Ok(children);
  }

  /** Respect business sections and clause boundaries.  Neither error is ever returned. */
  method Chunk(block: Block, scan: Scan, cfg: Chunker, sid: StableId) returns (r: Result<Chunks, ChunkError>)
    requires cfg.Valid() && scan.Of(block.content)
    ensures r == Ok(Chunks(ParentsFor(block, scan, cfg, sid), ChildrenFor(block, scan, cfg, sid)))
  {
    if Blank(block.content) {
      BlankHasNoChunks(block, scan, cfg, sid);
      return Ok(Chunks([], []));
    }
    var sections := FindSections(scan.headings, |block.content|);
    var found := FindClauses(scan.markers, sections);
    AllMarkersFound(block, scan);
    match found {
      case None => return Err(MarkerOutsideSections);
      case Some(cs) =>
        assert cs == ClausesFor(block, scan);
        r := ChunkClauses(block, scan, sections, cs, cfg, sid);
    }
  }

  lemma {:induction false} AllMarkersFound(block: Block, scan: Scan)
    requires scan.Of(block.content) && block.content != ""
    ensures forall i :: 0 <= i < |scan.markers| ==>
              SectionIndex(SectionsFor(block, scan), scan.markers[i].start) < |SectionsFor(block, scan)|
  {
    SectionsTileBlock(scan.headings, |block.content|);
    ClausesFound(SectionsFor(block, scan), block.content, scan.markers);
  }

  /** The two loops of `chunk`, over the sections and over the clauses. */
  method ChunkClauses(block: Block, scan: Scan, sections: seq<Section>, cs: seq<Clause>, cfg: Chunker, sid: StableId)
    returns (r: Result<Chunks, ChunkError>)
    requires cfg.Valid() && scan.Of(block.content) && block.content != ""
    requires sections == SectionsFor(block, scan) && cs == ClausesFor(block, scan)
    ensures r == Ok(Chunks(ParentsFor(block, scan, cfg, sid), ChildrenFor(block, scan, cfg, sid)))
  {
    SectionsTileBlock(scan.headings, |block.content|);
    SectionsAreRuns(sections, block.content, scan.markers, cs);
    var parents := AllParents(block, sections, cs, cfg, sid);
    AllAdopted(block, scan, cfg, sid);
    var children := CollectChildren(block, sections, cs, parents, cfg, sid);
    match children {
      case Err(e) => return Err(e);
      case Ok(cc) => return Ok(Chunks(parents, cc));
    }
  }
}
