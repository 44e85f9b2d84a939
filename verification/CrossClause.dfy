/** `decision_agent/evaluation/enterprise_clause_aware_ground_truth.py`: clause-aware chunks against
    the ground truth's own view of where each clause lies. */
module CrossClause {
  import opened Texts
  import opened Windowing
  import opened FixedChunker
  import opened ClauseSpans
  import opened ClauseLocation
  import opened ClauseMapping
  import S = Sections
  import C = ClauseChunker
  import ClauseTheorems

  // ---------------------------------------------------------------- documents chunked along clauses

  /** The chunker and the ground truth find markers at the same places of a block.  Nothing is said of
      headings, which the two modules read with different patterns. */
  predicate SameMarkers(block: Block, matches: seq<MarkerMatch>, scan: C.Scan)
  {
    && scan.Of(block.content)
    && |scan.markers| == |matches|
    && forall j :: 0 <= j < |matches| ==> scan.markers[j].start == matches[j].start
  }

  predicate MarkersAgree(source: Source, scans: seq<C.Scan>)
  {
    && source.Valid() && |scans| == |source.blocks|
    && forall b :: 0 <= b < |scans| ==> SameMarkers(source.blocks[b], source.matches[b], scans[b])
  }

  predicate Scanned(blocks: seq<Block>, scans: seq<C.Scan>)
  {
    |scans| == |blocks| && forall b :: 0 <= b < |scans| ==> scans[b].Of(blocks[b].content)
  }

  function AwareParents(blocks: seq<Block>, scans: seq<C.Scan>, cfg: Chunker, sid: StableId): seq<ParentChunk>
    requires Scanned(blocks, scans)
  {
    if blocks == [] then []
    else
      var n := |blocks| - 1;
      AwareParents(blocks[..n], scans[..n], cfg, sid) + C.ParentsFor(blocks[n], scans[n], cfg, sid)
  }

  function AwareChildren(blocks: seq<Block>, scans: seq<C.Scan>, cfg: Chunker, sid: StableId): seq<ChildChunk>
    requires cfg.Valid() && Scanned(blocks, scans)
  {
    if blocks == [] then []
    else
      var n := |blocks| - 1;
      AwareChildren(blocks[..n], scans[..n], cfg, sid) + C.ChildrenFor(blocks[n], scans[n], cfg, sid)
  }

  /** A document of any number of blocks, each chunked along its clauses. */
  ghost predicate ChunkedByClauses(doc: Document, scans: seq<C.Scan>, cfg: Chunker, sid: StableId)
  {
    && cfg.Valid() && doc.Linked() && MarkersAgree(doc.source, scans)
    && doc.parents == AwareParents(doc.source.blocks, scans, cfg, sid)
    && doc.children == AwareChildren(doc.source.blocks, scans, cfg, sid)
  }

  lemma {:induction false} AwareParentsInclude(
    blocks: seq<Block>, scans: seq<C.Scan>, cfg: Chunker, sid: StableId, b: nat, p: ParentChunk)
    requires Scanned(blocks, scans) && b < |blocks| && p in C.ParentsFor(blocks[b], scans[b], cfg, sid)
    ensures p in AwareParents(blocks, scans, cfg, sid)
  {
    hide C.ParentsFor;
    var n := |blocks| - 1;
    if b < n { AwareParentsInclude(blocks[..n], scans[..n], cfg, sid, b, p); }
  }

  lemma {:induction false} AwareChildrenInclude(
    blocks: seq<Block>, scans: seq<C.Scan>, cfg: Chunker, sid: StableId, b: nat, c: ChildChunk)
    requires cfg.Valid() && Scanned(blocks, scans) && b < |blocks| && c in C.ChildrenFor(blocks[b], scans[b], cfg, sid)
    ensures c in AwareChildren(blocks, scans, cfg, sid)
  {
    hide C.ChildrenFor;
    var n := |blocks| - 1;
    if b < n { AwareChildrenInclude(blocks[..n], scans[..n], cfg, sid, b, c); }
  }

  lemma {:induction false} AwareChildOrigin(
    blocks: seq<Block>, scans: seq<C.Scan>, cfg: Chunker, sid: StableId, c: ChildChunk) returns (b: nat)
    requires cfg.Valid() && Scanned(blocks, scans) && c in AwareChildren(blocks, scans, cfg, sid)
    ensures b < |blocks| && c in C.ChildrenFor(blocks[b], scans[b], cfg, sid)
  {
    var n := |blocks| - 1;
    if c in C.ChildrenFor(blocks[n], scans[n], cfg, sid) {
      b := n;
    } else {
      b := AwareChildOrigin(blocks[..n], scans[..n], cfg, sid, c);
    }
  }

  lemma {:induction false} AgreedAreScanned(source: Source, scans: seq<C.Scan>)
    requires MarkersAgree(source, scans)
    ensures Scanned(source.blocks, scans)
  {
    forall b | 0 <= b < |scans| ensures scans[b].Of(source.blocks[b].content) {
      assert SameMarkers(source.blocks[b], source.matches[b], scans[b]);
    }
  }

  /** Every child is cut from one clause of one block, and its parent's block is that block. */
  lemma {:induction false} ChildPlace(
    doc: Document, scans: seq<C.Scan>, cfg: Chunker, sid: StableId, c: ChildChunk) returns (b: nat, own: nat)
    requires ChunkedByClauses(doc, scans, cfg, sid) && c in doc.children
    ensures b < |doc.source.blocks| == |scans| && scans[b].Of(doc.source.blocks[b].content)
    ensures ClauseTheorems.ClauseLocal(doc.source.blocks[b], scans[b], cfg, sid, c, own)
    ensures BlockIdsOf(doc.parents, c.parentId) == [doc.source.blocks[b].blockId]
  {
    AgreedAreScanned(doc.source, scans);
    b := AwareChildOrigin(doc.source.blocks, scans, cfg, sid, c);
    own := ClauseTheorems.ChildrenAreClauseLocal(doc.source.blocks[b], scans[b], cfg, sid, c);
    ParentBlock(doc, scans, cfg, sid, b, own, c);
  }

  lemma {:induction false} NamedParent(
    block: Block, scan: C.Scan, cfg: Chunker, sid: StableId, c: ChildChunk, own: nat) returns (p: ParentChunk)
    requires scan.Of(block.content) && ClauseTheorems.ClauseLocal(block, scan, cfg, sid, c, own)
    ensures p in C.ParentsFor(block, scan, cfg, sid)
    ensures p.chunkId == c.parentId && p.blockIds == [block.blockId]
  {
    hide C.ParentsFor;
    var parents := C.ParentsFor(block, scan, cfg, sid);
    var k :| 0 <= k < |parents| && ClauseTheorems.Adopts(parents[k], C.ClausesFor(block, scan)[own], c);
    C.ParentsAreOrdered(block, scan, cfg, sid);
    p := parents[k];
    assert C.IsSlice(block, p);
  }

  lemma {:induction false} ParentBlock(
    doc: Document, scans: seq<C.Scan>, cfg: Chunker, sid: StableId, b: nat, own: nat, c: ChildChunk)
    requires ChunkedByClauses(doc, scans, cfg, sid) && Scanned(doc.source.blocks, scans) && b < |scans|
    requires ClauseTheorems.ClauseLocal(doc.source.blocks[b], scans[b], cfg, sid, c, own)
    ensures BlockIdsOf(doc.parents, c.parentId) == [doc.source.blocks[b].blockId]
  {
    hide C.ParentsFor, AwareParents, AwareChildren, ClauseTheorems.ClauseLocal;
    var p := NamedParent(doc.source.blocks[b], scans[b], cfg, sid, c, own);
    AwareParentsInclude(doc.source.blocks, scans, cfg, sid, b, p);
    var n :| 0 <= n < |doc.parents| && doc.parents[n] == p;
    BlockIdsOfParent(doc.parents, n);
  }

  // ---------------------------------------------------------------- markers by block

  /** The number of marker `j` of block `b` in the document. */
  function Number(source: Source, b: nat, j: nat): nat
    requires source.Valid() && b <= |source.blocks|
  {
    |MarkersUpTo(source, b)| + j
  }

  lemma {:induction false} MarkerAtNumber(source: Source, n: nat, b: nat, j: nat)
    requires source.Valid() && b < n <= |source.blocks| && j < |source.matches[b]|
    ensures Number(source, b, j) < |MarkersUpTo(source, n)|
    ensures MarkersUpTo(source, n)[Number(source, b, j)] == MarkerAt(source, b, j)
  {
    assert MarkersUpTo(source, n) == MarkersUpTo(source, n - 1) + BlockMarkers(source, n - 1);
    if b < n - 1 { MarkerAtNumber(source, n - 1, b, j); }
  }

  lemma {:induction false} MarkerHome(source: Source, n: nat, i: nat) returns (b: nat, j: nat)
    requires source.Valid() && n <= |source.blocks| && i < |MarkersUpTo(source, n)|
    ensures b < n && j < |source.matches[b]| && i == Number(source, b, j)
    ensures MarkersUpTo(source, n)[i] == MarkerAt(source, b, j)
  {
    if i < |MarkersUpTo(source, n - 1)| {
      b, j := MarkerHome(source, n - 1, i);
    } else {
      b, j := n - 1, i - |MarkersUpTo(source, n - 1)|;
    }
  }

  /** The facts about marker `j` of block `b` that the two views share. */
  lemma {:induction false} SharedMarker(source: Source, scans: seq<C.Scan>, b: nat, j: nat)
    requires MarkersAgree(source, scans) && b < |source.blocks| && j < |source.matches[b]|
    ensures MarkersInOrder(source, MarkersOf(source))
    ensures Number(source, b, j) < |MarkersOf(source)|
    ensures MarkersOf(source)[Number(source, b, j)] == MarkerAt(source, b, j)
    ensures scans[b].Of(source.blocks[b].content) && |scans[b].markers| == |source.matches[b]|
    ensures scans[b].markers[j].start == source.matches[b][j].start
    ensures source.blocks[b].content != ""
  {
    assert SameMarkers(source.blocks[b], source.matches[b], scans[b]);
    MarkersAreInOrder(source, |source.blocks|);
    MarkerAtNumber(source, |source.blocks|, b, j);
    assert scans[b].markers[j].start < |source.blocks[b].content|;
  }

  /** A clause of the chunker, by its marker's place. */
  function ClauseOf(source: Source, scans: seq<C.Scan>, b: nat, j: nat): S.Clause
    requires MarkersAgree(source, scans) && b < |source.blocks| && j < |source.matches[b]|
  {
    SharedMarker(source, scans, b, j);
    C.ClausesFor(source.blocks[b], scans[b])[j]
  }

  // ---------------------------------------------------------------- where located spans lie

  /** `s` is a part of `t`. */
  predicate PartOf(s: ContentSpan, t: ContentSpan)
  {
    s.blockId == t.blockId && t.start <= s.start && s.end <= t.end
  }

  predicate PartsOf(parts: seq<ContentSpan>, spans: seq<ContentSpan>)
  {
    forall s :: s in parts ==> exists t :: t in spans && PartOf(s, t)
  }

  lemma {:induction false} TrimFrontParts(blocks: seq<Block>, spans: seq<ContentSpan>)
    requires AllInside(blocks, spans)
    ensures PartsOf(TrimFront(blocks, spans), spans)
  {
    if spans != [] {
      var stripped := LStrip(TextOf(blocks, spans[0]));
      if stripped == "" {
        TrimFrontParts(blocks, spans[1..]);
        forall s | s in TrimFront(blocks, spans) ensures exists t :: t in spans && PartOf(s, t) {
          var t :| t in spans[1..] && PartOf(s, t);
          assert t in spans;
        }
      } else {
        var first := spans[0].(start := spans[0].end - |stripped|);
        assert PartOf(first, spans[0]);
        forall s | s in TrimFront(blocks, spans) ensures exists t :: t in spans && PartOf(s, t) {
          if s != first { assert s in spans && PartOf(s, s); }
        }
      }
    }
  }

  lemma {:induction false} TrimBackParts(blocks: seq<Block>, spans: seq<ContentSpan>)
    requires AllInside(blocks, spans)
    ensures PartsOf(TrimBack(blocks, spans), spans)
  {
    if spans != [] {
      var last := spans[|spans| - 1];
      var stripped := RStrip(TextOf(blocks, last));
      if stripped == "" {
        TrimBackParts(blocks, spans[..|spans| - 1]);
        forall s | s in TrimBack(blocks, spans) ensures exists t :: t in spans && PartOf(s, t) {
          var t :| t in spans[..|spans| - 1] && PartOf(s, t);
          assert t in spans;
        }
      } else {
        var cut := last.(end := last.start + |stripped|);
        assert PartOf(cut, last);
        forall s | s in TrimBack(blocks, spans) ensures exists t :: t in spans && PartOf(s, t) {
          if s != cut { assert s in spans && PartOf(s, s); }
        }
      }
    }
  }

  lemma {:induction false} TrimmedParts(blocks: seq<Block>, spans: seq<ContentSpan>)
    requires AllInside(blocks, spans)
    ensures PartsOf(Trimmed(blocks, spans), spans)
  {
    TrimFrontParts(blocks, spans);
    TrimFrontStrips(blocks, spans);
    var front := TrimFront(blocks, spans);
    TrimBackParts(blocks, front);
    forall s | s in Trimmed(blocks, spans) ensures exists t :: t in spans && PartOf(s, t) {
      var m :| m in front && PartOf(s, m);
      var t :| t in spans && PartOf(m, t);
    }
  }

  /** A located span is part of what the clause takes of one block. */
  predicate InPart(source: Source, ms: seq<Marker>, i: nat, stop: bool, b: nat, t: ContentSpan)
    requires source.Shaped() && i < |ms|
  {
    && b < |source.blocks| && ms[i].blockIndex <= b <= LastBlock(source, ms, i)
    && t.blockId == source.blocks[b].blockId
    && StartIn(ms, i, b) <= t.start < t.end <= EndIn(source, ms, i, stop, b)
  }

  lemma {:induction false} SegmentPlace(source: Source, ms: seq<Marker>, i: nat, stop: bool, n: nat, t: ContentSpan)
    returns (b: nat)
    requires source.Valid() && MarkersInOrder(source, ms) && i < |ms|
              && n <= LastBlock(source, ms, i) + 1 <= |source.blocks|
    requires t in SegmentsTo(source, ms, i, stop, n)
    ensures InPart(source, ms, i, stop, b, t)
  {
    if t in SegmentsTo(source, ms, i, stop, n - 1) {
      b := SegmentPlace(source, ms, i, stop, n - 1, t);
    } else {
      b := n - 1;
    }
  }

  lemma {:induction false} LastBlockIsBlock(source: Source, ms: seq<Marker>, i: nat)
    requires source.Valid() && MarkersInOrder(source, ms) && i < |ms|
    ensures ms[i].blockIndex <= LastBlock(source, ms, i) < |source.blocks|
  {
    assert MarkerInside(source, ms[i]);
    assert i + 1 < |ms| ==> Before(ms[i], ms[i + 1]) && MarkerInside(source, ms[i + 1]);
  }

  lemma {:induction false} SpanPlace(source: Source, ms: seq<Marker>, i: nat, stop: bool, t: ContentSpan)
    returns (b: nat)
    requires source.Valid() && MarkersInOrder(source, ms) && i < |ms|
    requires t in LocatedAt(source, ms, i, stop).spans
    ensures InPart(source, ms, i, stop, b, t)
  {
    hide SegmentsTo, Trimmed, EndIn, JoinText;
    LastBlockIsBlock(source, ms, i);
    var segments := SegmentsOf(source, ms, i, stop);
    SegmentsInside(source, ms, i, stop, LastBlock(source, ms, i) + 1);
    TrimmedParts(source.blocks, segments);
    TrimmedTextIsStripped(source.blocks, segments);
    var u :| u in segments && PartOf(t, u);
    b := SegmentPlace(source, ms, i, stop, LastBlock(source, ms, i) + 1, u);
    var spans := LocatedAt(source, ms, i, stop).spans;
    var k :| 0 <= k < |spans| && spans[k] == t;
    assert Inside(source.blocks, spans[k]);
  }

  lemma {:induction false} SpanInBlock(source: Source, ms: seq<Marker>, i: nat, stop: bool, b: nat, t: ContentSpan)
    requires source.Valid() && MarkersInOrder(source, ms) && i < |ms| && b < |source.blocks|
    requires t in LocatedAt(source, ms, i, stop).spans && t.blockId == source.blocks[b].blockId
    ensures InPart(source, ms, i, stop, b, t)
  {
    var c := SpanPlace(source, ms, i, stop, t);
    assert c == b;
  }

  /** In the block of a later marker, a clause ends at or before that marker. */
  lemma {:induction false} EndsBeforeLater(source: Source, ms: seq<Marker>, i: nat, stop: bool, g: nat, t: ContentSpan)
    requires source.Valid() && MarkersInOrder(source, ms) && i < g < |ms|
    requires InPart(source, ms, i, stop, ms[g].blockIndex, t)
    ensures t.end <= ms[g].markerStart
  {
    assert i + 1 < g ==> Before(ms[i + 1], ms[g]);
    assert MarkerInside(source, ms[i + 1]);
  }

  /** A later clause that reaches the block of an earlier marker has its own marker there, and starts after it. */
  lemma {:induction false} StartsAfterEarlier(
    source: Source, ms: seq<Marker>, i: nat, stop: bool, g: nat, t: ContentSpan)
    requires source.Valid() && MarkersInOrder(source, ms) && g < i < |ms|
    requires InPart(source, ms, i, stop, ms[g].blockIndex, t)
    ensures ms[i].blockIndex == ms[g].blockIndex && ms[i].markerStart < t.start
  {
    assert Before(ms[g], ms[i]);
    assert MarkerInside(source, ms[i]);
  }

  // ---------------------------------------------------------------- a child meets only its clause

  lemma {:induction false} ClausesAreDisjoint(block: Block, scan: C.Scan, i: nat, j: nat)
    requires scan.Of(block.content) && block.content != "" && i < j < |scan.markers|
    ensures C.ClausesFor(block, scan)[i].end <= C.ClausesFor(block, scan)[j].start
  {
    S.ClausesDisjoint(C.SectionsFor(block, scan), block.content, scan.markers, C.ClausesFor(block, scan), i, j);
  }

  lemma {:induction false} LaterClauseStarts(source: Source, scans: seq<C.Scan>, b: nat, own: nat, j: nat)
    requires MarkersAgree(source, scans) && b < |source.blocks| && own < j < |source.matches[b]|
    ensures ClauseOf(source, scans, b, own).end <= source.matches[b][j].start
  {
    SharedMarker(source, scans, b, own);
    SharedMarker(source, scans, b, j);
    ClausesAreDisjoint(source.blocks[b], scans[b], own, j);
    ClauseTheorems.ClauseInsideBlock(source.blocks[b], scans[b], j);
  }

  /** A span of clause `i` that lies in block `b` shares no character with another clause of that block. */
  lemma {:induction false} SpanAvoidsOthers(
    source: Source, scans: seq<C.Scan>, stop: bool, i: nat, b: nat, own: nat, t: ContentSpan)
    requires MarkersAgree(source, scans) && MarkersInOrder(source, MarkersOf(source)) && i < |MarkersOf(source)|
    requires b < |source.blocks| && own < |source.matches[b]|
    requires t in LocatedAt(source, MarkersOf(source), i, stop).spans && t.blockId == source.blocks[b].blockId
    requires i != Number(source, b, own)
    ensures t.end <= source.matches[b][own].start || ClauseOf(source, scans, b, own).end <= t.start
  {
    var ms, g := MarkersOf(source), Number(source, b, own);
    SharedMarker(source, scans, b, own);
    SpanInBlock(source, ms, i, stop, b, t);
    if i < g {
      EndsBeforeLater(source, ms, i, stop, g, t);
    } else {
      StartsAfterEarlier(source, ms, i, stop, g, t);
      var c, j := MarkerHome(source, |source.blocks|, i);
      assert c == b;
      LaterClauseStarts(source, scans, b, own, j);
    }
  }

  /** A child meets no located clause but the one it was cut from.  Only the markers matter: headings
      may be read differently, the ground truth may stop at them or not, and clauses may run on into
      further blocks. */
  lemma {:induction false} ChildMeetsOnlyItsClause(
    doc: Document, scans: seq<C.Scan>, cfg: Chunker, sid: StableId, stop: bool, c: ChildChunk, b: nat, own: nat, i: nat)
    requires ChunkedByClauses(doc, scans, cfg, sid) && MarkersInOrder(doc.source, MarkersOf(doc.source))
    requires b < |scans| && scans[b].Of(doc.source.blocks[b].content)
    requires ClauseTheorems.ClauseLocal(doc.source.blocks[b], scans[b], cfg, sid, c, own)
    requires i < |MarkersOf(doc.source)|
    requires Meets(LocatedOf(doc, stop)[i].spans, [doc.source.blocks[b].blockId], c.span)
    ensures own < |doc.source.matches[b]| && i == Number(doc.source, b, own)
  {
    hide AwareParents, AwareChildren, ClauseTheorems.Adopts, LocatedAt, MarkersInOrder;
    assert SameMarkers(doc.source.blocks[b], doc.source.matches[b], scans[b]);
    var spans := LocatedOf(doc, stop)[i].spans;
    var k :| 0 <= k < |spans| && spans[k].blockId in [doc.source.blocks[b].blockId]
             && Overlaps(spans[k].start, spans[k].end, c.span.start, c.span.end);
    ClauseTheorems.ClauseInsideBlock(doc.source.blocks[b], scans[b], own);
    if i != Number(doc.source, b, own) {
      SpanAvoidsOthers(doc.source, scans, stop, i, b, own, spans[k]);
    }
  }

  // ---------------------------------------------------------------- the count of crossing children

  /** What the count reads of a child record. */
  datatype ChildRecord = ChildRecord(documentId: string, blockIds: seq<string>, span: Span)

  function OverlappingIds(child: ChildRecord, clauses: seq<ClauseRecord>): set<string>
  {
    set k | 0 <= k < |clauses| && clauses[k].documentId == child.documentId
            && Meets(clauses[k].spans, child.blockIds, child.span) :: clauses[k].clauseId
  }

  function CrossCount(children: seq<ChildRecord>, clauses: seq<ClauseRecord>): nat
  {
    if children == [] then 0
    else CrossCount(children[..|children| - 1], clauses)
         + (if |OverlappingIds(children[|children| - 1], clauses)| > 1 then 1 else 0)
  }

  method CrossClauseChildCount(children: seq<ChildRecord>, clauses: seq<ClauseRecord>) returns (count: nat)
    ensures count == CrossCount(children, clauses)
  {
    count := 0;
    for i := 0 to |children|
      invariant count == CrossCount(children[..i], clauses)
    {
      assert children[..i + 1][..i] == children[..i];
      var overlapping: set<string> := {};
      for k := 0 to |clauses|
        invariant overlapping == OverlappingIds(children[i], clauses[..k])
      {
        if clauses[k].documentId == children[i].documentId
           && Meets(clauses[k].spans, children[i].blockIds, children[i].span) {
          overlapping := overlapping + {clauses[k].clauseId};
        }
        OverlappingStep(children[i], clauses, k);
      }
      assert clauses[..|clauses|] == clauses;
      if |overlapping| > 1 {
        count := count + 1;
      }
    }
    assert children[..|children|] == children;
  }

  lemma {:induction false} OverlappingStep(child: ChildRecord, clauses: seq<ClauseRecord>, k: nat)
    requires k < |clauses|
    ensures OverlappingIds(child, clauses[..k + 1])
         == OverlappingIds(child, clauses[..k])
            + (if clauses[k].documentId == child.documentId && Meets(clauses[k].spans, child.blockIds, child.span)
               then {clauses[k].clauseId} else {})
  {
    var a, b := clauses[..k], clauses[..k + 1];
    assert forall j :: 0 <= j < k ==> a[j] == b[j];
    assert b[k] == clauses[k];
  }

  lemma {:induction false} NoneCross(children: seq<ChildRecord>, clauses: seq<ClauseRecord>)
    ensures CrossCount(children, clauses) == 0
       <==> forall i :: 0 <= i < |children| ==> |OverlappingIds(children[i], clauses)| <= 1
  {
    if children != [] { NoneCross(children[..|children| - 1], clauses); }
  }

  // ---------------------------------------------------------------- no child crosses a clause

  function ChildRecords(doc: Document): seq<ChildRecord>
  {
    seq(|doc.children|, i requires 0 <= i < |doc.children| =>
      ChildRecord(doc.documentId, BlockIdsOf(doc.parents, doc.children[i].parentId), doc.children[i].span))
  }

  function AllChildRecords(docs: seq<Document>): seq<ChildRecord>
  {
    if docs == [] then [] else AllChildRecords(docs[..|docs| - 1]) + ChildRecords(docs[|docs| - 1])
  }

  lemma {:induction false} ChildRecordOrigin(docs: seq<Document>, r: ChildRecord) returns (d: nat, i: nat)
    requires r in AllChildRecords(docs)
    ensures d < |docs| && i < |docs[d].children| && r == ChildRecords(docs[d])[i]
  {
    var n := |docs| - 1;
    if r in ChildRecords(docs[n]) {
      d := n;
      i :| 0 <= i < |docs[n].children| && ChildRecords(docs[n])[i] == r;
    } else {
      d, i := ChildRecordOrigin(docs[..n], r);
    }
  }

  lemma {:induction false} ClauseRecordOrigin(docs: seq<Document>, stop: bool, r: ClauseRecord) returns (d: nat, i: nat)
    requires AllValid(docs)
    requires r in AllRecords(docs, stop)
    ensures d < |docs| && i < |MarkersOf(docs[d].source)| && r == RecordOf(docs[d], LocatedOf(docs[d], stop)[i])
  {
    var n := |docs| - 1;
    if r in RecordsOf(docs[n], stop) {
      d := n;
      i :| 0 <= i < |RecordsOf(docs[n], stop)| && RecordsOf(docs[n], stop)[i] == r;
    } else {
      d, i := ClauseRecordOrigin(docs[..n], stop, r);
    }
  }

  /** A corpus of documents, each chunked along its clauses. */
  ghost predicate ChunkedCorpus(docs: seq<Document>, scans: seq<seq<C.Scan>>, cfg: Chunker, sid: StableId)
  {
    && |docs| == |scans| && DistinctDocuments(docs)
    && forall d :: 0 <= d < |docs| ==> ChunkedByClauses(docs[d], scans[d], cfg, sid)
  }

  predicate DistinctDocuments(docs: seq<Document>)
  {
    forall d, e :: 0 <= d < e < |docs| ==> docs[d].documentId != docs[e].documentId
  }

  /** A record of a corpus with distinct document identities belongs to the document it names. */
  lemma {:induction false} RecordOfDocument(docs: seq<Document>, stop: bool, d: nat, r: ClauseRecord) returns (j: nat)
    requires AllValid(docs) && DistinctDocuments(docs) && d < |docs|
    requires r in AllRecords(docs, stop) && r.documentId == docs[d].documentId
    ensures j < |MarkersOf(docs[d].source)| && r == RecordOf(docs[d], LocatedOf(docs[d], stop)[j])
  {
    var e;
    e, j := ClauseRecordOrigin(docs, stop, r);
    assert docs[e].documentId == docs[d].documentId;
    assert e == d;
  }

  /** `cross_clause_child_count` is always zero. */
  lemma {:induction false} NoChildCrossesClauses(
    docs: seq<Document>, scans: seq<seq<C.Scan>>, cfg: Chunker, sid: StableId, stop: bool)
    requires ChunkedCorpus(docs, scans, cfg, sid)
    ensures AllValid(docs)
    ensures CrossCount(AllChildRecords(docs), AllRecords(docs, stop)) == 0
  {
    forall d | 0 <= d < |docs|
      ensures docs[d].source.Valid() && MarkersInOrder(docs[d].source, MarkersOf(docs[d].source))
    {
      assert ChunkedByClauses(docs[d], scans[d], cfg, sid);
      MarkersAreInOrder(docs[d].source, |docs[d].source.blocks|);
    }
    var children, clauses := AllChildRecords(docs), AllRecords(docs, stop);
    forall k | 0 <= k < |children| ensures |OverlappingIds(children[k], clauses)| <= 1 {
      assert children[k] in children;
      var d, i := ChildRecordOrigin(docs, children[k]);
      OnlyOneClause(docs, scans, cfg, sid, stop, d, i);
    }
    NoneCross(children, clauses);
  }

  lemma {:induction false} OnlyOneClause(
    docs: seq<Document>, scans: seq<seq<C.Scan>>, cfg: Chunker, sid: StableId, stop: bool, d: nat, i: nat)
    requires ChunkedCorpus(docs, scans, cfg, sid) && AllValid(docs)
    requires d < |docs| && i < |docs[d].children|
    ensures |OverlappingIds(ChildRecords(docs[d])[i], AllRecords(docs, stop))| <= 1
  {
    var doc, c, child := docs[d], docs[d].children[i], ChildRecords(docs[d])[i];
    var clauses := AllRecords(docs, stop);
    assert ChunkedByClauses(doc, scans[d], cfg, sid);
    var b, own := ChildPlace(doc, scans[d], cfg, sid, c);
    assert SameMarkers(doc.source.blocks[b], doc.source.matches[b], scans[d][b]);
    SharedMarker(doc.source, scans[d], b, own);
    var id := MarkerAt(doc.source, b, own).clauseId;
    forall k | 0 <= k < |clauses| && clauses[k].documentId == child.documentId
               && Meets(clauses[k].spans, child.blockIds, child.span)
      ensures clauses[k].clauseId == id
    {
      assert clauses[k] in clauses;
      OnlyOwnClause(docs, d, scans[d], cfg, sid, stop, c, b, own, clauses[k]);
    }
    AtMostOne(OverlappingIds(child, clauses), id);
  }

  lemma {:induction false} RecordNames(doc: Document, stop: bool, j: nat)
    requires doc.source.Valid() && MarkersInOrder(doc.source, MarkersOf(doc.source)) && j < |MarkersOf(doc.source)|
    ensures LocatedOf(doc, stop)[j].marker.blockIndex < |doc.source.blocks|
    ensures var r := RecordOf(doc, LocatedOf(doc, stop)[j]);
            r.clauseId == MarkersOf(doc.source)[j].clauseId && r.spans == LocatedOf(doc, stop)[j].spans
  {
    assert MarkerInside(doc.source, MarkersOf(doc.source)[j]);
  }

  lemma {:induction false} OnlyOwnClause(
    docs: seq<Document>, d: nat, scans: seq<C.Scan>, cfg: Chunker, sid: StableId, stop: bool, c: ChildChunk, b: nat,
    own: nat, r: ClauseRecord)
    requires AllValid(docs) && DistinctDocuments(docs) && d < |docs|
    requires ChunkedByClauses(docs[d], scans, cfg, sid)
    requires b < |scans| && scans[b].Of(docs[d].source.blocks[b].content) && own < |docs[d].source.matches[b]|
    requires ClauseTheorems.ClauseLocal(docs[d].source.blocks[b], scans[b], cfg, sid, c, own)
    requires r in AllRecords(docs, stop) && r.documentId == docs[d].documentId
    requires Meets(r.spans, [docs[d].source.blocks[b].blockId], c.span)
    ensures r.clauseId == MarkerAt(docs[d].source, b, own).clauseId
  {
    var j := RecordOfDocument(docs, stop, d, r);
    RecordNames(docs[d], stop, j);
    ChildMeetsOnlyItsClause(docs[d], scans, cfg, sid, stop, c, b, own, j);
    SharedMarker(docs[d].source, scans, b, own);
  }

  lemma {:induction false} AtMostOne(s: set<string>, id: string)
    requires forall x :: x in s ==> x == id
    ensures |s| <= 1
  {
    if id in s { assert s == {id}; } else { assert s == {}; }
  }
}
