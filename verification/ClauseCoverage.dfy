/** When clause mapping can fail over clause-aware chunks: exactly when a clause has no text that both
    the chunker and the ground truth give it in the block of its marker. */
module ClauseCoverage {
  import opened Texts
  import opened Windowing
  import opened FixedChunker
  import opened ClauseSpans
  import opened ClauseLocation
  import opened ClauseMapping
  import opened CrossClause
  import S = Sections
  import C = ClauseChunker
  import ClauseTheorems

  // ---------------------------------------------------------------- the first span of a clause

  predicate NoneIn(id: string, spans: seq<ContentSpan>)
  {
    forall s :: s in spans ==> s.blockId != id
  }

  /** Trimming the back leaves the start of a first span alone that is not blank. */
  lemma {:induction false} TrimBackKeepsHead(blocks: seq<Block>, head: ContentSpan, rest: seq<ContentSpan>)
    requires RStrip(TextOf(blocks, head)) != "" && NoneIn(head.blockId, rest)
    ensures var spans := TrimBack(blocks, [head] + rest);
            && spans != [] && spans[0].blockId == head.blockId && spans[0].start == head.start
            && NoneIn(head.blockId, spans[1..])
  {
    if rest != [] {
      var n := |rest| - 1;
      assert [head] + rest == [head] + rest[..n] + [rest[n]];
      TrimBackOfLast(blocks, [head] + rest[..n], rest[n]);
      if RStrip(TextOf(blocks, rest[n])) == "" {
        TrimBackKeepsHead(blocks, head, rest[..n]);
      } else {
        assert ([head] + rest[..n] + [Cut(blocks, rest[n])])[1..] == rest[..n] + [Cut(blocks, rest[n])];
        assert rest[n] in rest;
      }
    } else {
      TrimBackOfLast(blocks, [], head);
      assert [] + [head] == [head] && [] + [Cut(blocks, head)] == [Cut(blocks, head)];
      assert [head] + rest == [head];
    }
  }

  lemma {:induction false} PartsAvoid(parts: seq<ContentSpan>, spans: seq<ContentSpan>, id: string)
    requires PartsOf(parts, spans) && NoneIn(id, spans)
    ensures NoneIn(id, parts)
  {
    forall s | s in parts ensures s.blockId != id {
      var t :| t in spans && PartOf(s, t);
    }
  }

  lemma {:induction false} BlankHeadVanishes(blocks: seq<Block>, head: ContentSpan, rest: seq<ContentSpan>)
    requires AllInside(blocks, rest) && NoneIn(head.blockId, rest) && Blank(TextOf(blocks, head))
    ensures NoneIn(head.blockId, Trimmed(blocks, [head] + rest))
  {
    LStripSplits(TextOf(blocks, head));
    assert ([head] + rest)[1..] == rest;
    TrimmedParts(blocks, rest);
    PartsAvoid(Trimmed(blocks, rest), rest, head.blockId);
  }

  lemma {:induction false} TextHeadStays(blocks: seq<Block>, head: ContentSpan, rest: seq<ContentSpan>)
    requires Inside(blocks, head) && NoneIn(head.blockId, rest) && !Blank(TextOf(blocks, head))
    ensures var spans := Trimmed(blocks, [head] + rest);
            && spans != [] && spans[0].blockId == head.blockId
            && spans[0].start == head.end - |LStrip(TextOf(blocks, head))|
            && NoneIn(head.blockId, spans[1..])
  {
    hide TrimBack;
    var text := TextOf(blocks, head);
    LStripSplits(text);
    assert ([head] + rest)[1..] == rest;
    var first := head.(start := head.end - |LStrip(text)|);
    assert TrimFront(blocks, [head] + rest) == [first] + rest;
    LStripSuffixSpan(ContentOf(blocks, head.blockId), head.start, head.end);
    assert TextOf(blocks, first) == LStrip(text);
    NotBlankAfterStrip(text);
    TrimBackKeepsHead(blocks, first, rest);
  }

  lemma {:induction false} NotBlankAfterStrip(text: string)
    requires !Blank(text)
    ensures RStrip(LStrip(text)) != ""
  {
    BlankStrip(text);
  }

  lemma {:induction false} LaterAvoidOwn(source: Source, ms: seq<Marker>, i: nat, n: nat)
    requires source.Valid() && MarkersInOrder(source, ms) && i < |ms| && n <= |source.blocks|
    ensures ms[i].blockIndex < |source.blocks|
    ensures NoneIn(source.blocks[ms[i].blockIndex].blockId, LaterSegments(source, ms, i, n))
    ensures n <= LastBlock(source, ms, i) + 1 ==> AllInside(source.blocks, LaterSegments(source, ms, i, n))
  {
    assert MarkerInside(source, ms[i]);
    assert i + 1 < |ms| ==> MarkerInside(source, ms[i + 1]);
    if n > ms[i].blockIndex + 1 {
      LaterAvoidOwn(source, ms, i, n - 1);
      ContentOfBlock(source.blocks, n - 1);
    }
  }

  /** How the spans of a block stand in a trimmed list: none, or the first, from offset `start`. */
  predicate FirstOrNone(spans: seq<ContentSpan>, id: string, none: bool, start: int)
  {
    if none then NoneIn(id, spans)
    else spans != [] && spans[0].blockId == id && spans[0].start == start && NoneIn(id, spans[1..])
  }

  lemma {:induction false} TrimmedOwn(
    source: Source, ms: seq<Marker>, i: nat, stop: bool, later: seq<ContentSpan>)
    requires source.Valid() && MarkersInOrder(source, ms) && i < |ms| && ms[i].blockIndex < |source.blocks|
    requires AllInside(source.blocks, later) && NoneIn(source.blocks[ms[i].blockIndex].blockId, later)
    ensures FirstOrNone(
              Trimmed(source.blocks, OwnSegment(source, ms, i, stop) + later), source.blocks[ms[i].blockIndex].blockId,
              Blank(OwnText(source, ms, i, stop)),
              EndIn(source, ms, i, stop, ms[i].blockIndex) - |LStrip(OwnText(source, ms, i, stop))|)
  {
    var b := ms[i].blockIndex;
    ContentOfBlock(source.blocks, b);
    OwnEndInside(source, ms, i, stop);
    if OwnSegment(source, ms, i, stop) == [] {
      assert [] + later == later;
      TrimmedParts(source.blocks, later);
      PartsAvoid(Trimmed(source.blocks, later), later, source.blocks[b].blockId);
    } else {
      var head := OwnSegment(source, ms, i, stop)[0];
      assert OwnSegment(source, ms, i, stop) == [head];
      if Blank(TextOf(source.blocks, head)) {
        BlankHeadVanishes(source.blocks, head, later);
      } else {
        TextHeadStays(source.blocks, head, later);
      }
    }
  }

  /** The spans of a located clause in the block of its marker: none if its text there is blank, and
      otherwise the first span, from its first non-blank character there. */
  lemma {:induction false} SpansInOwnBlock(source: Source, ms: seq<Marker>, i: nat, stop: bool)
    requires source.Valid() && MarkersInOrder(source, ms) && i < |ms|
    ensures ms[i].blockIndex < |source.blocks|
    ensures FirstOrNone(
              LocatedAt(source, ms, i, stop).spans, source.blocks[ms[i].blockIndex].blockId,
              Blank(OwnText(source, ms, i, stop)),
              EndIn(source, ms, i, stop, ms[i].blockIndex) - |LStrip(OwnText(source, ms, i, stop))|)
  {
    hide FirstOrNone, SegmentsTo, LaterSegments, OwnSegment, OwnText, EndIn, Trimmed;
    LastBlockIsBlock(source, ms, i);
    var n := LastBlock(source, ms, i) + 1;
    SegmentsSplit(source, ms, i, stop, n);
    LaterAvoidOwn(source, ms, i, n);
    TrimmedOwn(source, ms, i, stop, LaterSegments(source, ms, i, n));
  }

  lemma {:induction false} OwnEndInside(source: Source, ms: seq<Marker>, i: nat, stop: bool)
    requires source.Valid() && MarkersInOrder(source, ms) && i < |ms|
    ensures ms[i].blockIndex < |source.blocks|
    ensures EndIn(source, ms, i, stop, ms[i].blockIndex) <= |source.blocks[ms[i].blockIndex].content|
    ensures ms[i].markerStart < ms[i].lineEnd <= |source.blocks[ms[i].blockIndex].content|
  {
    assert MarkerInside(source, ms[i]);
    assert i + 1 < |ms| ==> MarkerInside(source, ms[i + 1]);
  }

  // ---------------------------------------------------------------- exactly when a clause has a child

  lemma {:induction false} SliceHasText(s: string, start: nat, end: nat, k: nat)
    requires start <= k < end <= |s| && !IsSpace(s[k])
    ensures !Blank(Slice(s, start, end))
  {
    assert Slice(s, start, end)[k - start] == s[k];
  }

  lemma {:induction false} FirstText(s: string, start: nat, end: nat) returns (k: nat)
    requires end <= |s| && !Blank(Slice(s, start, end))
    ensures start <= k < end && !IsSpace(s[k]) && k == end - |LStrip(Slice(s, start, end))|
    ensures forall q :: start <= q < k ==> IsSpace(s[q])
  {
    var text := Slice(s, start, end);
    assert start < end && text == s[start..end];
    LStripSplits(text);
    k := end - |LStrip(text)|;
    assert LStrip(text)[0] == s[k];
    forall q | start <= q < k ensures IsSpace(s[q]) {
      assert text[..k - start][q - start] == s[q];
    }
  }

  /** A shorter slice is not blank exactly when the first text of the longer one lies in it. */
  lemma {:induction false} FirstTextDecides(s: string, start: nat, end: nat, cut: nat)
    requires end <= |s| && !Blank(Slice(s, start, end))
    ensures !Blank(Slice(s, start, Min(end, cut))) <==> end - |LStrip(Slice(s, start, end))| < cut
  {
    var k := FirstText(s, start, end);
    if k < cut { SliceHasText(s, start, Min(end, cut), k); }
    if !Blank(Slice(s, start, Min(end, cut))) { var q := FirstText(s, start, Min(end, cut)); }
  }

  lemma {:induction false} BlankShorter(s: string, start: nat, end: nat, cut: nat)
    requires end <= |s| && Blank(Slice(s, start, end))
    ensures Blank(Slice(s, start, Min(end, cut)))
  {
    if !Blank(Slice(s, start, Min(end, cut))) {
      var q := FirstText(s, start, Min(end, cut));
      SliceHasText(s, start, end, q);
    }
  }

  lemma {:induction false} ClauseChunksAtOffset(
    block: Block, scan: C.Scan, cfg: Chunker, sid: StableId, i: nat, offset: nat)
    returns (k: nat, c: ChildChunk)
    requires cfg.Valid() && scan.Of(block.content) && block.content != "" && i < |scan.markers|
    requires C.ClausesFor(block, scan)[i].start <= offset < C.ClausesFor(block, scan)[i].end
    ensures var parents := C.ParentsFor(block, scan, cfg, sid);
            && k < |parents| && parents[k].span.Has(offset) && parents[k].blockIds == [block.blockId]
            && c in C.ChildrenFor(block, scan, cfg, sid) && c.parentId == parents[k].chunkId && c.span.Has(offset)
  {
    c := ClauseTheorems.ClauseTextIsKept(block, scan, cfg, sid, i, offset);
    var parents := C.ParentsFor(block, scan, cfg, sid);
    var clause := C.ClausesFor(block, scan)[i];
    k :| 0 <= k < |parents| && ClauseTheorems.Adopts(parents[k], clause, c);
    C.ParentsAreOrdered(block, scan, cfg, sid);
    assert C.IsSlice(block, parents[k]);
  }

  /** The first span, and no other, is in the block, and starts before the offset `cut`. */
  predicate StartsBefore(spans: seq<ContentSpan>, id: string, cut: int)
  {
    spans != [] && spans[0].blockId == id && NoneIn(id, spans[1..]) && spans[0].start < cut
  }

  lemma {:induction false} FirstSpanDecides(
    spans: seq<ContentSpan>, id: string, content: string, start: nat, end: nat, cut: nat)
    requires end <= |content|
    requires FirstOrNone(spans, id, Blank(Slice(content, start, end)), end - |LStrip(Slice(content, start, end))|)
    ensures NoneIn(id, if spans == [] then [] else spans[1..])
    ensures !Blank(Slice(content, start, Min(end, cut))) <==> StartsBefore(spans, id, cut)
  {
    if Blank(Slice(content, start, end)) {
      BlankShorter(content, start, end, cut);
    } else {
      FirstTextDecides(content, start, end, cut);
    }
  }

  /** The text of a clause in its own block up to an offset. */
  function TextUpTo(source: Source, ms: seq<Marker>, i: nat, stop: bool, cut: nat): string
    requires source.Shaped() && i < |ms| && ms[i].blockIndex < |source.blocks|
  {
    Slice(source.blocks[ms[i].blockIndex].content, ms[i].lineEnd,
        Min(EndIn(source, ms, i, stop, ms[i].blockIndex), cut))
  }

  /** It is not blank exactly when the located clause starts in its own block before the offset. */
  lemma {:induction false} OwnSpanDecides(source: Source, ms: seq<Marker>, i: nat, stop: bool, cut: nat)
    requires source.Valid() && MarkersInOrder(source, ms) && i < |ms|
    ensures ms[i].blockIndex < |source.blocks|
    ensures var spans := LocatedAt(source, ms, i, stop).spans;
            NoneIn(source.blocks[ms[i].blockIndex].blockId, if spans == [] then [] else spans[1..])
    ensures !Blank(TextUpTo(source, ms, i, stop, cut))
       <==> StartsBefore(LocatedAt(source, ms, i, stop).spans, source.blocks[ms[i].blockIndex].blockId, cut)
  {
    hide SegmentsTo, EndIn, Trimmed, StartsBefore, FirstOrNone;
    SpansInOwnBlock(source, ms, i, stop);
    OwnEndInside(source, ms, i, stop);
    var b := ms[i].blockIndex;
    FirstSpanDecides(LocatedAt(source, ms, i, stop).spans, source.blocks[b].blockId, source.blocks[b].content,
                     ms[i].lineEnd, EndIn(source, ms, i, stop, b), cut);
  }

  /** The text that both modules give to a clause in the block of its marker: from its marker line to
      where the first of the two ends it. */
  function SharedText(source: Source, scans: seq<C.Scan>, stop: bool, b: nat, j: nat): string
    requires MarkersAgree(source, scans) && b < |source.blocks| && j < |source.matches[b]|
  {
    SharedMarker(source, scans, b, j);
    TextUpTo(source, MarkersOf(source), Number(source, b, j), stop, ClauseOf(source, scans, b, j).end)
  }

  lemma {:induction false} SharedTextStarts(source: Source, scans: seq<C.Scan>, stop: bool, b: nat, j: nat)
    requires MarkersAgree(source, scans) && b < |source.blocks| && j < |source.matches[b]|
    ensures MarkersInOrder(source, MarkersOf(source)) && Number(source, b, j) < |MarkersOf(source)|
    ensures var spans := LocatedAt(source, MarkersOf(source), Number(source, b, j), stop).spans;
            NoneIn(source.blocks[b].blockId, if spans == [] then [] else spans[1..])
    ensures !Blank(SharedText(source, scans, stop, b, j))
       <==> StartsBefore(LocatedAt(source, MarkersOf(source), Number(source, b, j), stop).spans,
                         source.blocks[b].blockId, ClauseOf(source, scans, b, j).end)
  {
    hide LocatedAt, StartsBefore, TextUpTo, ClauseOf;
    SharedMarker(source, scans, b, j);
    OwnSpanDecides(source, MarkersOf(source), Number(source, b, j), stop, ClauseOf(source, scans, b, j).end);
  }

  lemma {:induction false} ChildIdsOrigin(parents: seq<ParentChunk>, children: seq<ChildChunk>, spans: seq<ContentSpan>)
    returns (c: ChildChunk)
    requires ChildIdsFor(parents, children, spans) != []
    ensures c in children && Meets(spans, BlockIdsOf(parents, c.parentId), c.span)
  {
    var n := |children| - 1;
    if Meets(spans, BlockIdsOf(parents, children[n].parentId), children[n].span) {
      c := children[n];
    } else {
      c := ChildIdsOrigin(parents, children[..n], spans);
    }
  }

  lemma {:induction false} NumberIsUnique(source: Source, b: nat, j: nat, c: nat, k: nat)
    requires source.Valid() && b < |source.blocks| && j < |source.matches[b]|
    requires c < |source.blocks| && k < |source.matches[c]|
    requires Number(source, b, j) == Number(source, c, k)
    ensures b == c && j == k
  {
    MarkerAtNumber(source, |source.blocks|, b, j);
    MarkerAtNumber(source, |source.blocks|, c, k);
  }

  /** A child that meets a clause was cut from it, in the block of its marker. */
  lemma {:induction false} MetInOwnBlock(
    doc: Document, scans: seq<C.Scan>, cfg: Chunker, sid: StableId, stop: bool, b: nat, j: nat)
    requires ChunkedByClauses(doc, scans, cfg, sid) && MarkersInOrder(doc.source, MarkersOf(doc.source))
    requires b < |doc.source.blocks| && j < |doc.source.matches[b]|
    requires Number(doc.source, b, j) < |MarkersOf(doc.source)|
    requires ChildIdsFor(doc.parents, doc.children, LocatedOf(doc, stop)[Number(doc.source, b, j)].spans) != []
    ensures !Blank(SharedText(doc.source, scans, stop, b, j))
  {
    var i := Number(doc.source, b, j);
    var spans := LocatedOf(doc, stop)[i].spans;
    var c := ChildIdsOrigin(doc.parents, doc.children, spans);
    var d, own := ChildPlace(doc, scans, cfg, sid, c);
    ChildMeetsOnlyItsClause(doc, scans, cfg, sid, stop, c, d, own, i);
    NumberIsUnique(doc.source, b, j, d, own);
    MeetsInClause(doc.source.blocks[b], scans[b], cfg, sid, c, j, spans);
    SharedTextStarts(doc.source, scans, stop, b, j);
  }

  /** If only the first span can lie in the block, a child of the block is met where that span starts
      before the child's clause ends. */
  lemma {:induction false} MeetsInClause(
    block: Block, scan: C.Scan, cfg: Chunker, sid: StableId, c: ChildChunk, own: nat, spans: seq<ContentSpan>)
    requires scan.Of(block.content) && ClauseTheorems.ClauseLocal(block, scan, cfg, sid, c, own)
    requires Meets(spans, [block.blockId], c.span)
    ensures spans != []
    ensures NoneIn(block.blockId, spans[1..]) ==>
              spans[0].blockId == block.blockId && spans[0].start < C.ClausesFor(block, scan)[own].end
  {
    var k :| 0 <= k < |spans| && spans[k].blockId in [block.blockId]
             && Overlaps(spans[k].start, spans[k].end, c.span.start, c.span.end);
    if k > 0 { assert spans[k] == spans[1..][k - 1]; }
  }

  /** A clause with shared text is met by the child that holds its first character. */
  lemma {:induction false} SharedTextIsMet(
    doc: Document, scans: seq<C.Scan>, cfg: Chunker, sid: StableId, stop: bool, b: nat, j: nat)
    requires ChunkedByClauses(doc, scans, cfg, sid) && MarkersInOrder(doc.source, MarkersOf(doc.source))
    requires b < |doc.source.blocks| && j < |doc.source.matches[b]|
    requires Number(doc.source, b, j) < |MarkersOf(doc.source)|
    requires !Blank(SharedText(doc.source, scans, stop, b, j))
    ensures ChildIdsFor(doc.parents, doc.children, LocatedOf(doc, stop)[Number(doc.source, b, j)].spans) != []
  {
    hide SegmentsTo, EndIn, Trimmed, AwareParents, AwareChildren, SharedText, C.ParentsFor, C.ChildrenFor;
    var source, i := doc.source, Number(doc.source, b, j);
    SharedTextStarts(source, scans, stop, b, j);
    SharedMarker(source, scans, b, j);
    var l := LocatedOf(doc, stop)[i];
    assert l.spans[0] in l.spans;
    SpanInBlock(source, MarkersOf(source), i, stop, b, l.spans[0]);
    OwnEndInside(source, MarkersOf(source), i, stop);
    ClauseTheorems.ClauseInsideBlock(source.blocks[b], scans[b], j);
    var k, c := ClauseChunksAtOffset(source.blocks[b], scans[b], cfg, sid, j, l.spans[0].start);
    AgreedAreScanned(source, scans);
    AwareParentsInclude(source.blocks, scans, cfg, sid, b, C.ParentsFor(source.blocks[b], scans[b], cfg, sid)[k]);
    AwareChildrenInclude(source.blocks, scans, cfg, sid, b, c);
    var n :| 0 <= n < |doc.parents| && doc.parents[n] == C.ParentsFor(source.blocks[b], scans[b], cfg, sid)[k];
    FirstCharacterDecides(doc, l, n, c);
  }

  // ---------------------------------------------------------------- parents are always met

  lemma {:induction false} ParentIsMet(
    doc: Document, scans: seq<C.Scan>, cfg: Chunker, sid: StableId, stop: bool, i: nat)
    requires ChunkedByClauses(doc, scans, cfg, sid) && MarkersInOrder(doc.source, MarkersOf(doc.source))
    requires i < |MarkersOf(doc.source)| && Filled(doc.source, MarkersOf(doc.source), i, stop)
    ensures ParentIdsFor(doc.parents, LocatedOf(doc, stop)[i].spans) != []
  {
    var blocks, first := doc.source.blocks, LocatedOf(doc, stop)[i].spans;
    LocatedStartsOnText(doc.source, MarkersOf(doc.source), i, stop);
    assert Inside(blocks, first[0]);
    var b := ContentOfFinds(blocks, first[0].blockId);
    AgreedAreScanned(doc.source, scans);
    var p := ParentAtOffset(blocks[b], scans[b], cfg, sid, first[0].start);
    AwareParentsInclude(blocks, scans, cfg, sid, b, p);
    assert first[0].blockId in p.blockIds;
    ParentIdsInclude(doc.parents, first, p);
  }

  lemma {:induction false} ParentAtOffset(block: Block, scan: C.Scan, cfg: Chunker, sid: StableId, k: nat)
    returns (p: ParentChunk)
    requires scan.Of(block.content) && k < |block.content| && !IsSpace(block.content[k])
    ensures p in C.ParentsFor(block, scan, cfg, sid) && p.span.Has(k) && p.blockIds == [block.blockId]
  {
    var n := ClauseTheorems.ParentsKeepText(block, scan, cfg, sid, k);
    p := C.ParentsFor(block, scan, cfg, sid)[n];
    C.ParentsAreOrdered(block, scan, cfg, sid);
    assert C.IsSlice(block, p);
  }

  // ---------------------------------------------------------------- the exact condition

  predicate EachShares(source: Source, scans: seq<C.Scan>, stop: bool)
    requires MarkersAgree(source, scans)
  {
    forall b, j :: 0 <= b < |source.blocks| && 0 <= j < |source.matches[b]| ==>
        !Blank(SharedText(source, scans, stop, b, j))
  }

  /** Over clause-aware chunks `MapClauses` never fails with "maps to no Parent chunk", and it fails
      with "maps to no Child chunk" exactly when a clause has only white space that both modules give
      it in the block of its marker. */
  lemma {:induction false} ClauseAwareCoverage(
    doc: Document, scans: seq<C.Scan>, cfg: Chunker, sid: StableId, stop: bool)
    requires ChunkedByClauses(doc, scans, cfg, sid)
    ensures MarkersInOrder(doc.source, MarkersOf(doc.source))
    ensures Locatable(doc, stop) ==>
              forall i :: 0 <= i < |MarkersOf(doc.source)| ==>
                  ParentIdsFor(doc.parents, LocatedOf(doc, stop)[i].spans) != []
    ensures Locatable(doc, stop) ==> (Covered(doc, stop) <==> EachShares(doc.source, scans, stop))
  {
    MarkersAreInOrder(doc.source, |doc.source.blocks|);
    if Locatable(doc, stop) {
      forall i | 0 <= i < |MarkersOf(doc.source)|
        ensures ParentIdsFor(doc.parents, LocatedOf(doc, stop)[i].spans) != []
      {
        ParentIsMet(doc, scans, cfg, sid, stop, i);
      }
      if Covered(doc, stop) { CoveredShares(doc, scans, cfg, sid, stop); }
      if EachShares(doc.source, scans, stop) { SharingIsCovered(doc, scans, cfg, sid, stop); }
    }
  }

  lemma {:induction false} CoveredShares(doc: Document, scans: seq<C.Scan>, cfg: Chunker, sid: StableId, stop: bool)
    requires ChunkedByClauses(doc, scans, cfg, sid) && MarkersInOrder(doc.source, MarkersOf(doc.source))
    requires Covered(doc, stop)
    ensures EachShares(doc.source, scans, stop)
  {
    forall b, j | 0 <= b < |doc.source.blocks| && 0 <= j < |doc.source.matches[b]|
      ensures !Blank(SharedText(doc.source, scans, stop, b, j))
    {
      MarkerAtNumber(doc.source, |doc.source.blocks|, b, j);
      MetInOwnBlock(doc, scans, cfg, sid, stop, b, j);
    }
  }

  lemma {:induction false} SharingIsCovered(doc: Document, scans: seq<C.Scan>, cfg: Chunker, sid: StableId, stop: bool)
    requires ChunkedByClauses(doc, scans, cfg, sid) && MarkersInOrder(doc.source, MarkersOf(doc.source))
    requires EachShares(doc.source, scans, stop)
    requires forall i :: 0 <= i < |MarkersOf(doc.source)| ==>
              ParentIdsFor(doc.parents, LocatedOf(doc, stop)[i].spans) != []
    ensures Covered(doc, stop)
  {
    forall i | 0 <= i < |MarkersOf(doc.source)|
      ensures ChildIdsFor(doc.parents, doc.children, LocatedOf(doc, stop)[i].spans) != []
    {
      var b, j := MarkerHome(doc.source, |doc.source.blocks|, i);
      SharedTextIsMet(doc, scans, cfg, sid, stop, b, j);
    }
  }

  // ---------------------------------------------------------------- documents whose headings are read alike

  /** The ground truth knows every heading at which the chunker starts a further section. */
  predicate BoundariesKnown(scan: C.Scan, headings: seq<nat>)
  {
    forall k :: 1 <= k < |S.Boundaries(scan.headings)| ==> S.Boundaries(scan.headings)[k].start in headings
  }

  lemma {:induction false} FirstAfterIsLeast(hs: seq<nat>, position: nat, k: nat)
    requires forall i, j :: 0 <= i < j < |hs| ==> hs[i] < hs[j]
    requires k < |hs| && hs[k] > position
    ensures FirstAfter(hs, position).Some? && FirstAfter(hs, position).value <= hs[k]
  {
    if hs[0] <= position { FirstAfterIsLeast(hs[1..], position, k - 1); }
  }

  lemma {:induction false} SectionEnd(hs: seq<S.Heading>, length: nat, s: nat)
    requires s < |S.SectionsOf(hs, length)|
    ensures S.SectionsOf(hs, length)[s].end
         == if s + 1 < |S.Boundaries(hs)| then S.Boundaries(hs)[s + 1].start else length
  {
  }

  /** Where a clause ends for the chunker: at the next marker or at the end of its section. */
  lemma {:induction false} ClauseEnd(block: Block, scan: C.Scan, i: nat) returns (s: nat)
    requires scan.Of(block.content) && block.content != "" && i < |scan.markers|
    ensures s < |C.SectionsFor(block, scan)|
    ensures var section, end := C.SectionsFor(block, scan)[s], C.ClausesFor(block, scan)[i].end;
            && scan.markers[i].start < section.end <= |block.content|
            && (end == section.end || (i + 1 < |scan.markers| && end == scan.markers[i + 1].start))
  {
    var sections, cs := C.SectionsFor(block, scan), C.ClausesFor(block, scan);
    S.SectionsTileBlock(scan.headings, |block.content|);
    s := S.SectionIndex(sections, scan.markers[i].start);
    S.ClauseInSection(sections, |block.content|, scan.markers, cs, s, i);
  }

  lemma {:induction false} StopsAtHeading(source: Source, ms: seq<Marker>, i: nat, position: nat)
    requires source.Valid() && MarkersInOrder(source, ms) && i < |ms|
    requires ms[i].blockIndex < |source.blocks| && ms[i].markerStart < position
    requires position in source.headings[ms[i].blockIndex]
    ensures EndIn(source, ms, i, true, ms[i].blockIndex) <= position
  {
    var hs := source.headings[ms[i].blockIndex];
    var k :| 0 <= k < |hs| && hs[k] == position;
    assert MatchesIn(source.matches[ms[i].blockIndex], hs, source.blocks[ms[i].blockIndex].content);
    FirstAfterIsLeast(hs, ms[i].markerStart, k);
  }

  lemma {:induction false} EndBeforeNextMarker(source: Source, b: nat, j: nat, stop: bool)
    requires source.Valid() && MarkersInOrder(source, MarkersOf(source))
    requires b < |source.blocks| && j + 1 < |source.matches[b]|
    ensures Number(source, b, j) < |MarkersOf(source)|
    ensures EndIn(source, MarkersOf(source), Number(source, b, j), stop, b) <= source.matches[b][j + 1].start
  {
    MarkerAtNumber(source, |source.blocks|, b, j);
    MarkerAtNumber(source, |source.blocks|, b, j + 1);
  }

  lemma {:induction false} EndBeforeSectionEnd(
    source: Source, block: Block, scan: C.Scan, ms: seq<Marker>, i: nat, s: nat)
    requires source.Valid() && MarkersInOrder(source, ms) && i < |ms|
    requires ms[i].blockIndex < |source.blocks| && source.blocks[ms[i].blockIndex] == block
    requires BoundariesKnown(scan, source.headings[ms[i].blockIndex])
    requires s < |C.SectionsFor(block, scan)| && ms[i].markerStart < C.SectionsFor(block, scan)[s].end
    ensures EndIn(source, ms, i, true, ms[i].blockIndex) <= C.SectionsFor(block, scan)[s].end
  {
    SectionEnd(scan.headings, |block.content|, s);
    OwnEndInside(source, ms, i, true);
    if s + 1 < |S.Boundaries(scan.headings)| {
      StopsAtHeading(source, ms, i, S.Boundaries(scan.headings)[s + 1].start);
    }
  }

  /** With the stop on, and every later section known, the ground truth ends a clause in its own block
      no later than the chunker does. */
  lemma {:induction false} ClauseEndsAgree(source: Source, scans: seq<C.Scan>, b: nat, j: nat)
    requires MarkersAgree(source, scans) && b < |source.blocks| && j < |source.matches[b]|
    requires BoundariesKnown(scans[b], source.headings[b])
    ensures MarkersInOrder(source, MarkersOf(source)) && Number(source, b, j) < |MarkersOf(source)|
    ensures EndIn(source, MarkersOf(source), Number(source, b, j), true, b) <= ClauseOf(source, scans, b, j).end
  {
    SharedMarker(source, scans, b, j);
    var ms, i, block := MarkersOf(source), Number(source, b, j), source.blocks[b];
    var s := ClauseEnd(block, scans[b], j);
    EndBeforeSectionEnd(source, block, scans[b], ms, i, s);
    if j + 1 < |source.matches[b]| {
      SharedMarker(source, scans, b, j + 1);
      EndBeforeNextMarker(source, b, j, true);
    }
  }

  /** Then clause mapping fails for want of a child exactly when a clause has no text in the block of its
      marker before the next marker and the next business heading there. */
  lemma {:induction false} CoveredWhenHeadingsAgree(doc: Document, scans: seq<C.Scan>, cfg: Chunker, sid: StableId)
    requires ChunkedByClauses(doc, scans, cfg, sid)
    requires forall b :: 0 <= b < |scans| ==> BoundariesKnown(scans[b], doc.source.headings[b])
    ensures MarkersInOrder(doc.source, MarkersOf(doc.source))
    ensures Locatable(doc, true) ==>
              (Covered(doc, true) <==> forall i :: 0 <= i < |MarkersOf(doc.source)| ==> HasOwnText(doc.source, i))
  {
    var source := doc.source;
    ClauseAwareCoverage(doc, scans, cfg, sid, true);
    forall b, j | 0 <= b < |source.blocks| && 0 <= j < |source.matches[b]|
      ensures Number(source, b, j) < |MarkersOf(source)|
      ensures !Blank(SharedText(source, scans, true, b, j)) <==> HasOwnText(source, Number(source, b, j))
    {
      SharedMarker(source, scans, b, j);
      ClauseEndsAgree(source, scans, b, j);
    }
    if EachShares(source, scans, true) {
      forall i | 0 <= i < |MarkersOf(source)| ensures HasOwnText(source, i) {
        var b, j := MarkerHome(source, |source.blocks|, i);
      }
    }
  }

  /** Clause `i`, stopped at the next business heading, has text in the block of its marker. */
  predicate HasOwnText(source: Source, i: nat)
    requires source.Valid() && MarkersInOrder(source, MarkersOf(source)) && i < |MarkersOf(source)|
  {
    assert MarkerInside(source, MarkersOf(source)[i]);
    !Blank(OwnText(source, MarkersOf(source), i, true))
  }

  /** In a document of one block that is so for every clause that can be located, so `MapClauses` never
      fails with either of the two errors. */
  lemma {:induction false} ClauseAwareChunkingCoversClauses(
    doc: Document, scan: C.Scan, cfg: Chunker, sid: StableId)
    requires ChunkedByClauses(doc, [scan], cfg, sid) && BoundariesKnown(scan, doc.source.headings[0])
    ensures MarkersInOrder(doc.source, MarkersOf(doc.source))
    ensures Locatable(doc, true) ==> Covered(doc, true)
  {
    var source := doc.source;
    CoveredWhenHeadingsAgree(doc, [scan], cfg, sid);
    if Locatable(doc, true) {
      forall i | 0 <= i < |MarkersOf(source)| ensures HasOwnText(source, i) {
        assert Filled(source, MarkersOf(source), i, true);
        OneBlockIsOwn(source, i);
      }
    }
  }

  lemma {:induction false} OneBlockIsOwn(source: Source, i: nat)
    requires source.Valid() && |source.blocks| == 1
    requires MarkersInOrder(source, MarkersOf(source)) && i < |MarkersOf(source)|
    requires Filled(source, MarkersOf(source), i, true)
    ensures HasOwnText(source, i)
  {
    var ms := MarkersOf(source);
    LastBlockIsBlock(source, ms, i);
    SegmentsText(source, ms, i, true);
    assert LaterSegments(source, ms, i, 1) == [];
    assert OwnText(source, ms, i, true) + "" == OwnText(source, ms, i, true);
  }

  // ---------------------------------------------------------------- a clause in the next block

  /** Two blocks: the first is a marker of one character, the second one character of text. */
  const PAGES := [Block("p", "d", "m"), Block("q", "d", "t")]

  function Pages(): Source { Source(PAGES, [[MarkerMatch("C", 0, 1)], []], [[], []]) }

  function PageScans(): seq<C.Scan> { [C.Scan([], [S.Marker("C", 0)]), C.Scan([], [])] }

  /** An identity for every block is enough to tell the parents apart here. */
  const BLOCK_NAME: StableId := (payload: IdPayload) => payload.block.blockId

  lemma {:induction false} PagesAgree()
    ensures MarkersAgree(Pages(), PageScans()) && Scanned(PAGES, PageScans())
  {
    var source, scans := Pages(), PageScans();
    assert MatchesIn(source.matches[0], source.headings[0], source.blocks[0].content);
    assert MatchesIn(source.matches[1], source.headings[1], source.blocks[1].content);
    assert SameMarkers(source.blocks[0], source.matches[0], scans[0]);
    assert SameMarkers(source.blocks[1], source.matches[1], scans[1]);
  }

  lemma {:induction false} SecondStartsLater(parents: seq<ParentChunk>)
    requires Ordered(parents)
    ensures |parents| >= 2 ==> parents[0].span.end <= parents[1].span.start
  {
  }

  /** A block of one character has at most one parent. */
  lemma {:induction false} OneParentAtMost(block: Block, scan: C.Scan, cfg: Chunker)
    requires scan.Of(block.content) && |block.content| == 1
    ensures |C.ParentsFor(block, scan, cfg, BLOCK_NAME)| <= 1
    ensures forall p :: p in C.ParentsFor(block, scan, cfg, BLOCK_NAME) ==> p.chunkId == block.blockId
  {
    C.ParentsAreOrdered(block, scan, cfg, BLOCK_NAME);
    var parents := C.ParentsFor(block, scan, cfg, BLOCK_NAME);
    SecondStartsLater(parents);
    forall i | 0 <= i < |parents| ensures parents[i].span == Span(0, 1) { assert C.IsSlice(block, parents[i]); }
    forall p | p in parents ensures p.chunkId == block.blockId {
      var ranges := C.RangesFor(block, scan, cfg);
      C.KeptRangesMembers(block, ranges, BLOCK_NAME, p);
      var i :| 0 <= i < |ranges| && p == C.ParentFor(block, ranges[i], BLOCK_NAME) && !Blank(p.content);
      assert BLOCK_NAME(IdPayload(Parent, block, p.span, p.content, None)) == block.blockId;
    }
  }

  lemma {:induction false} AwareOfTwo(blocks: seq<Block>, scans: seq<C.Scan>, cfg: Chunker, sid: StableId)
    requires Scanned(blocks, scans) && |blocks| == 2
    ensures AwareParents(blocks, scans, cfg, sid)
         == C.ParentsFor(blocks[0], scans[0], cfg, sid) + C.ParentsFor(blocks[1], scans[1], cfg, sid)
  {
    hide C.ParentsFor;
    assert AwareParents(blocks[..1][..0], scans[..1][..0], cfg, sid) == [];
    assert AwareParents(blocks[..1], scans[..1], cfg, sid) == [] + C.ParentsFor(blocks[0], scans[0], cfg, sid);
  }

  lemma {:induction false} PageParentsDiffer(cfg: Chunker)
    requires Scanned(PAGES, PageScans())
    ensures var parents := AwareParents(PAGES, PageScans(), cfg, BLOCK_NAME);
            forall i, j :: 0 <= i < j < |parents| ==> parents[i].chunkId != parents[j].chunkId
  {
    hide C.ParentsFor;
    OneParentAtMost(PAGES[0], PageScans()[0], cfg);
    OneParentAtMost(PAGES[1], PageScans()[1], cfg);
    AwareOfTwo(PAGES, PageScans(), cfg, BLOCK_NAME);
  }

  /** Every child names a parent. */
  lemma {:induction false} ParentNamed(
    blocks: seq<Block>, scans: seq<C.Scan>, cfg: Chunker, sid: StableId, c: ChildChunk) returns (p: ParentChunk)
    requires cfg.Valid() && Scanned(blocks, scans) && c in AwareChildren(blocks, scans, cfg, sid)
    ensures p in AwareParents(blocks, scans, cfg, sid) && p.chunkId == c.parentId
  {
    hide ClauseTheorems.ClauseLocal, C.ParentsFor, C.ChildrenFor, AwareParents, AwareChildren;
    var b := AwareChildOrigin(blocks, scans, cfg, sid, c);
    var own := ClauseTheorems.ChildrenAreClauseLocal(blocks[b], scans[b], cfg, sid, c);
    p := NamedParent(blocks[b], scans[b], cfg, sid, c, own);
    AwareParentsInclude(blocks, scans, cfg, sid, b, p);
  }

  function PagesDocument(cfg: Chunker): Document
    requires cfg.Valid() && Scanned(PAGES, PageScans())
  {
    Document("d", Pages(), AwareParents(PAGES, PageScans(), cfg, BLOCK_NAME),
        AwareChildren(PAGES, PageScans(), cfg, BLOCK_NAME))
  }

  lemma {:induction false} PagesAreChunked(cfg: Chunker)
    requires cfg.Valid() && Scanned(PAGES, PageScans())
    ensures ChunkedByClauses(PagesDocument(cfg), PageScans(), cfg, BLOCK_NAME)
  {
    hide AwareParents, AwareChildren;
    PagesAgree();
    PageParentsDiffer(cfg);
    var doc := PagesDocument(cfg);
    forall c | c in doc.children ensures exists p :: p in doc.parents && p.chunkId == c.parentId {
      var p := ParentNamed(PAGES, PageScans(), cfg, BLOCK_NAME, c);
      assert p in doc.parents && p.chunkId == c.parentId;
    }
    assert doc.Linked();
  }

  lemma {:induction false} PageMarkers()
    requires Pages().Valid()
    ensures MarkersOf(Pages()) == [Marker("C", 0, 0, 1, 1)]
  {
    var source := Pages();
    assert MarkersUpTo(source, 0) == [];
    assert MarkersUpTo(source, 1) == MarkersUpTo(source, 0) + BlockMarkers(source, 0);
    assert MarkersUpTo(source, 2) == MarkersUpTo(source, 1) + BlockMarkers(source, 1);
    assert BlockMarkers(source, 0) == [MarkerAt(source, 0, 0)];
    assert BlockMarkers(source, 1) == [];
  }

  lemma {:induction false} PagesOwnText(stop: bool)
    requires Pages().Valid() && MarkersInOrder(Pages(), [Marker("C", 0, 0, 1, 1)])
    ensures OwnText(Pages(), [Marker("C", 0, 0, 1, 1)], 0, stop) == ""
  {
    var source, ms := Pages(), [Marker("C", 0, 0, 1, 1)];
    OwnEndInside(source, ms, 0, stop);
    assert |OwnText(source, ms, 0, stop)| == 0;
  }

  lemma {:induction false} PagesLaterText()
    ensures LaterText(PAGES, [Marker("C", 0, 0, 1, 1)], 0) == "t"
  {
    assert PAGES[..1][..0] == [];
    assert DocumentText(PAGES[..1]) == DocumentText(PAGES[..1][..0]) + "m" == "m";
    assert DocumentText(PAGES) == DocumentText(PAGES[..1]) + "t" == "mt";
    assert Slice("mt", 1, 2) == "t";
  }

  lemma {:induction false} OneLetter(s: string)
    requires s == "" + "t"
    ensures !Blank(s)
  {
    assert s[0] == 't';
  }

  lemma {:induction false} PagesText(stop: bool)
    requires Pages().Valid() && MarkersInOrder(Pages(), [Marker("C", 0, 0, 1, 1)])
    ensures OwnText(Pages(), [Marker("C", 0, 0, 1, 1)], 0, stop) == ""
    ensures Filled(Pages(), [Marker("C", 0, 0, 1, 1)], 0, stop)
  {
    hide OwnText, LaterText, SegmentsOf, LaterSegments, JoinText, Blank;
    var source, ms := Pages(), [Marker("C", 0, 0, 1, 1)];
    PagesOwnText(stop);
    PagesLaterText();
    SegmentsText(source, ms, 0, stop);
    LaterSegmentsSpell(source, ms, 0);
    OneLetter(JoinText(source.blocks, SegmentsOf(source, ms, 0, stop)));
  }

  /** A clause whose text begins in the next block is located, but no child is cut from there: mapping
      this document fails, for every chunk size and with or without the stop at headings. */
  lemma {:induction false} TextInTheNextBlockIsNotMapped(cfg: Chunker, stop: bool) returns (doc: Document)
    requires cfg.Valid()
    ensures ChunkedByClauses(doc, PageScans(), cfg, BLOCK_NAME)
    ensures MarkersInOrder(doc.source, MarkersOf(doc.source)) && Locatable(doc, stop) && !Covered(doc, stop)
  {
    PagesAgree();
    doc := PagesDocument(cfg);
    PagesAreChunked(cfg);
    ClauseAwareCoverage(doc, PageScans(), cfg, BLOCK_NAME, stop);
    PageMarkers();
    PagesText(stop);
    PageShares(stop);
  }

  lemma {:induction false} PageShares(stop: bool)
    requires MarkersAgree(Pages(), PageScans()) && MarkersInOrder(Pages(), MarkersOf(Pages()))
    requires MarkersOf(Pages()) == [Marker("C", 0, 0, 1, 1)]
    requires OwnText(Pages(), MarkersOf(Pages()), 0, stop) == ""
    ensures !EachShares(Pages(), PageScans(), stop)
  {
    var source := Pages();
    SharedMarker(source, PageScans(), 0, 0);
    assert MarkersUpTo(source, 0) == [];
    OwnEndInside(source, MarkersOf(source), 0, stop);
    BlankShorter("m", 1, EndIn(source, MarkersOf(source), 0, stop, 0), ClauseOf(source, PageScans(), 0, 0).end);
    assert Blank(SharedText(source, PageScans(), stop, 0, 0));
  }
}
