/** What the records of `_map_clauses`, and the counts over them, say of the characters of a document. */
module MappingTheorems {
  import opened Texts
  import opened Windowing
  import opened FixedChunker
  import opened ClauseSpans
  import opened ClauseLocation
  import opened ClauseMapping
  import opened CrossClause
  import opened Listings
  import CrossSection

  /** A character of a clause's spans is a character of a chunk of these blocks. */
  ghost predicate Shares(spans: seq<ContentSpan>, blockIds: seq<string>, chunk: Span)
  {
    exists s, k :: s in spans && s.blockId in blockIds && s.start <= k < s.end && chunk.Has(k)
  }

  lemma {:induction false} MeetsMeansShares(spans: seq<ContentSpan>, blockIds: seq<string>, chunk: Span)
    ensures Meets(spans, blockIds, chunk) <==> Shares(spans, blockIds, chunk)
  {
    if Meets(spans, blockIds, chunk) {
      var i :| 0 <= i < |spans| && spans[i].blockId in blockIds
               && Overlaps(spans[i].start, spans[i].end, chunk.start, chunk.end);
      var k := Max(spans[i].start, chunk.start);
      assert spans[i] in spans && spans[i].start <= k < spans[i].end && chunk.Has(k);
    }
    if Shares(spans, blockIds, chunk) {
      var s, k :| s in spans && s.blockId in blockIds && s.start <= k < s.end && chunk.Has(k);
      var i :| 0 <= i < |spans| && spans[i] == s;
      assert Overlaps(spans[i].start, spans[i].end, chunk.start, chunk.end);
    }
  }

  // ---------------------------------------------------------------- which chunks are listed

  function ParentNames(parents: seq<ParentChunk>): seq<string>
  {
    seq(|parents|, k requires 0 <= k < |parents| => parents[k].chunkId)
  }

  function ChildNames(children: seq<ChildChunk>): seq<string>
  {
    seq(|children|, k requires 0 <= k < |children| => children[k].chunkId)
  }

  /** The parents listed for some spans: exactly those that share a character with them, in order. */
  lemma {:induction false} ParentPositions(parents: seq<ParentChunk>, spans: seq<ContentSpan>)
    returns (at: seq<nat>, shared: seq<bool>)
    ensures ListsMarked(ParentIdsFor(parents, spans), at, ParentNames(parents), shared)
    ensures |shared| == |parents|
    ensures forall k :: 0 <= k < |parents| ==> (shared[k] <==> Shares(spans, parents[k].blockIds, parents[k].span))
  {
    hide Shares, Meets, ListsMarked;
    if parents == [] {
      at, shared := [], [];
      assert ListsMarked([], [], [], []) by { NothingMarked(); }
    } else {
      var n := |parents| - 1;
      var p := parents[n];
      at, shared := ParentPositions(parents[..n], spans);
      var hit := Meets(spans, p.blockIds, p.span);
      MeetsMeansShares(spans, p.blockIds, p.span);
      NextMarked(ParentIdsFor(parents[..n], spans), at, ParentNames(parents[..n]), shared, p.chunkId, hit);
      at, shared := if hit then at + [n] else at, shared + [hit];
      assert forall k :: 0 <= k < n ==> parents[..n][k] == parents[k];
      assert ParentNames(parents) == ParentNames(parents[..n]) + [p.chunkId];
    }
  }

  lemma {:induction false} ChildPositions(
    parents: seq<ParentChunk>, children: seq<ChildChunk>, spans: seq<ContentSpan>)
    returns (at: seq<nat>, shared: seq<bool>)
    ensures ListsMarked(ChildIdsFor(parents, children, spans), at, ChildNames(children), shared)
    ensures |shared| == |children|
    ensures forall k :: 0 <= k < |children| ==>
              (shared[k] <==> Shares(spans, BlockIdsOf(parents, children[k].parentId), children[k].span))
  {
    hide Shares, Meets, ListsMarked, BlockIdsOf;
    if children == [] {
      at, shared := [], [];
      assert ListsMarked([], [], [], []) by { NothingMarked(); }
    } else {
      var n := |children| - 1;
      var c := children[n];
      at, shared := ChildPositions(parents, children[..n], spans);
      var hit := Meets(spans, BlockIdsOf(parents, c.parentId), c.span);
      MeetsMeansShares(spans, BlockIdsOf(parents, c.parentId), c.span);
      NextMarked(ChildIdsFor(parents, children[..n], spans), at, ChildNames(children[..n]), shared, c.chunkId, hit);
      at, shared := if hit then at + [n] else at, shared + [hit];
      assert forall k :: 0 <= k < n ==> children[..n][k] == children[k];
      assert ChildNames(children) == ChildNames(children[..n]) + [c.chunkId];
    }
  }

  /** A child has the blocks of the parent it names. */
  lemma {:induction false} BlocksOfNamedParent(doc: Document, c: ChildChunk, spans: seq<ContentSpan>)
    requires doc.Linked() && c in doc.children
    ensures Shares(spans, BlockIdsOf(doc.parents, c.parentId), c.span)
       <==> exists p :: p in doc.parents && p.chunkId == c.parentId && Shares(spans, p.blockIds, c.span)
  {
    hide Shares, BlockIdsOf;
    forall p | p in doc.parents && p.chunkId == c.parentId
      ensures BlockIdsOf(doc.parents, c.parentId) == p.blockIds
    {
      var k :| 0 <= k < |doc.parents| && doc.parents[k] == p;
      BlockIdsOfParent(doc.parents, k);
    }
  }

  // ---------------------------------------------------------------- every record

  /** How many markers the first `d` documents have. */
  function MarkersBefore(docs: seq<Document>, d: nat): nat
    requires AllValid(docs) && d <= |docs|
  {
    if d == 0 then 0 else MarkersBefore(docs, d - 1) + |MarkersOf(docs[d - 1].source)|
  }

  lemma {:induction false} PrefixMarkers(docs: seq<Document>, n: nat, d: nat)
    requires AllValid(docs) && d <= n <= |docs|
    ensures AllValid(docs[..n]) && MarkersBefore(docs, d) == MarkersBefore(docs[..n], d)
  {
    if d > 0 { PrefixMarkers(docs, n, d - 1); }
  }

  lemma {:induction false} RecordsForMarkers(docs: seq<Document>, stop: bool)
    requires AllValid(docs)
    ensures |AllRecords(docs, stop)| == MarkersBefore(docs, |docs|)
  {
    hide RecordOf, LocatedOf, MarkersOf;
    if docs != [] {
      RecordsForMarkers(docs[..|docs| - 1], stop);
      PrefixMarkers(docs, |docs| - 1, |docs| - 1);
    }
  }

  /** There is one record for each marker of each document, in order. */
  lemma {:induction false} RecordOfMarker(docs: seq<Document>, stop: bool, d: nat, i: nat)
    requires AllValid(docs) && d < |docs| && i < |MarkersOf(docs[d].source)|
    ensures |AllRecords(docs, stop)| == MarkersBefore(docs, |docs|)
    ensures MarkersBefore(docs, d) + i < |AllRecords(docs, stop)|
    ensures AllRecords(docs, stop)[MarkersBefore(docs, d) + i] == RecordOf(docs[d], LocatedOf(docs[d], stop)[i])
  {
    hide RecordOf, LocatedOf, MarkersOf, AllValid, MarkersInOrder;
    var n := |docs| - 1;
    PrefixMarkers(docs, n, d);
    RecordsForMarkers(docs, stop);
    RecordsForMarkers(docs[..n], stop);
    if d < n {
      RecordOfMarker(docs[..n], stop, d, i);
    } else {
      PrefixMarkers(docs, n, n);
    }
  }

  /** The record of clause `i` of document `d` keeps the clause's place and text, and lists the parents that
      share a character with it, and the children that do in the blocks of the parent they name: exactly
      these, each at its place, in document order. */
  lemma {:induction false} RecordListsWhatItShares(docs: seq<Document>, stop: bool, d: nat, i: nat)
    returns (parentsAt: seq<nat>, childrenAt: seq<nat>)
    requires AllValid(docs) && d < |docs| && docs[d].Linked() && i < |MarkersOf(docs[d].source)|
    ensures MarkersBefore(docs, d) + i < |AllRecords(docs, stop)|
    ensures RecordKeeps(docs[d], LocatedOf(docs[d], stop)[i], AllRecords(docs, stop)[MarkersBefore(docs, d) + i])
    ensures Lists(docs[d], AllRecords(docs, stop)[MarkersBefore(docs, d) + i], parentsAt, childrenAt)
  {
    hide Shares, BlockIdsOf, ParentIdsFor, ChildIdsFor, LocatedAt, MarkersOf, AllRecords;
    MarkerIdsOf(docs[d], stop);
    var doc, l := docs[d], LocatedOf(docs[d], stop)[i];
    RecordOfMarker(docs, stop, d, i);
    var shared;
    parentsAt, shared := ParentPositions(doc.parents, l.spans);
    PlacesMarked(ParentIdsFor(doc.parents, l.spans), parentsAt, ParentNames(doc.parents), shared);
    childrenAt, shared := ChildPositions(doc.parents, doc.children, l.spans);
    PlacesMarked(ChildIdsFor(doc.parents, doc.children, l.spans), childrenAt, ChildNames(doc.children), shared);
    forall k | 0 <= k < |doc.children| { BlocksOfNamedParent(doc, doc.children[k], l.spans); }
  }

  predicate RecordKeeps(doc: Document, l: Located, r: ClauseRecord)
  {
    && r.clauseId == l.marker.clauseId && r.documentId == doc.documentId
    && l.marker.blockIndex < |doc.source.blocks| && r.blockId == doc.source.blocks[l.marker.blockIndex].blockId
    && r.markerStart == l.marker.markerStart && r.markerEnd == l.marker.markerEnd
    && r.spans == l.spans && r.content == l.content
  }

  /** The identities of the record are those of the parents and children at these places, which ascend and
      are the places of the chunks that share a character with the clause. */
  ghost predicate Lists(doc: Document, r: ClauseRecord, parentsAt: seq<nat>, childrenAt: seq<nat>)
  {
    && |parentsAt| == |r.parentIds| && |childrenAt| == |r.childIds|
    && (forall i, j :: 0 <= i < j < |parentsAt| ==> parentsAt[i] < parentsAt[j])
    && (forall i, j :: 0 <= i < j < |childrenAt| ==> childrenAt[i] < childrenAt[j])
    && (forall j :: 0 <= j < |parentsAt| ==>
          parentsAt[j] < |doc.parents| && r.parentIds[j] == doc.parents[parentsAt[j]].chunkId)
    && (forall j :: 0 <= j < |childrenAt| ==>
          childrenAt[j] < |doc.children| && r.childIds[j] == doc.children[childrenAt[j]].chunkId)
    && (forall k :: 0 <= k < |doc.parents| ==>
          (k in parentsAt <==> Shares(r.spans, doc.parents[k].blockIds, doc.parents[k].span)))
    && (forall k :: 0 <= k < |doc.children| ==>
          (k in childrenAt <==> SharesAsChild(doc, r.spans, doc.children[k])))
  }

  ghost predicate SharesAsChild(doc: Document, spans: seq<ContentSpan>, c: ChildChunk)
  {
    exists p :: p in doc.parents && p.chunkId == c.parentId && Shares(spans, p.blockIds, c.span)
  }

  /** So an identity is listed exactly when a chunk that bears it shares a character with the clause. */
  lemma {:induction false} ListedExactlyWhenShared(docs: seq<Document>, stop: bool, d: nat, i: nat, id: string)
    requires AllValid(docs) && d < |docs| && docs[d].Linked() && i < |MarkersOf(docs[d].source)|
    ensures MarkersBefore(docs, d) + i < |AllRecords(docs, stop)|
    ensures var doc, r := docs[d], AllRecords(docs, stop)[MarkersBefore(docs, d) + i];
            && (id in r.parentIds <==>
                  exists p :: p in doc.parents && p.chunkId == id && Shares(r.spans, p.blockIds, p.span))
            && (id in r.childIds <==>
                  exists c :: c in doc.children && c.chunkId == id && SharesAsChild(doc, r.spans, c))
  {
    hide Shares, SharesAsChild, MarkersOf, AllRecords, RecordKeeps, AllValid, MarkersBefore;
    var parentsAt, childrenAt := RecordListsWhatItShares(docs, stop, d, i);
    ListedIds(docs[d], AllRecords(docs, stop)[MarkersBefore(docs, d) + i], parentsAt, childrenAt, id);
  }

  lemma {:induction false} ListedIds(
    doc: Document, r: ClauseRecord, parentsAt: seq<nat>, childrenAt: seq<nat>, id: string)
    requires Lists(doc, r, parentsAt, childrenAt)
    ensures id in r.parentIds <==>
              exists p :: p in doc.parents && p.chunkId == id && Shares(r.spans, p.blockIds, p.span)
    ensures id in r.childIds <==>
              exists c :: c in doc.children && c.chunkId == id && SharesAsChild(doc, r.spans, c)
  {
    hide Shares, SharesAsChild;
    if id in r.parentIds {
      var j :| 0 <= j < |r.parentIds| && r.parentIds[j] == id;
      assert parentsAt[j] in parentsAt && doc.parents[parentsAt[j]] in doc.parents;
    }
    if id in r.childIds {
      var j :| 0 <= j < |r.childIds| && r.childIds[j] == id;
      assert childrenAt[j] in childrenAt && doc.children[childrenAt[j]] in doc.children;
    }
    if p :| p in doc.parents && p.chunkId == id && Shares(r.spans, p.blockIds, p.span) {
      var k :| 0 <= k < |doc.parents| && doc.parents[k] == p;
      assert k in parentsAt;
      var j :| 0 <= j < |parentsAt| && parentsAt[j] == k;
      assert r.parentIds[j] == id;
    }
    if c :| c in doc.children && c.chunkId == id && SharesAsChild(doc, r.spans, c) {
      var k :| 0 <= k < |doc.children| && doc.children[k] == c;
      assert k in childrenAt;
      var j :| 0 <= j < |childrenAt| && childrenAt[j] == k;
      assert r.childIds[j] == id;
    }
  }

  /** The spans of a mapped clause lie in blocks of its own document. */
  lemma {:induction false} MappedSpansStayInDocument(doc: Document, stop: bool, i: nat, s: ContentSpan, b: nat)
    requires doc.source.Valid() && MarkersInOrder(doc.source, MarkersOf(doc.source))
    requires AllMappable(doc, stop) && i < |MarkersOf(doc.source)|
    requires s in LocatedOf(doc, stop)[i].spans
    requires b < |doc.source.blocks| && doc.source.blocks[b].blockId == s.blockId
    ensures doc.source.blocks[b].documentId == doc.documentId
  {
    DocumentOfBlock(doc.source.blocks, b);
    var spans := LocatedOf(doc, stop)[i].spans;
    var k :| 0 <= k < |spans| && spans[k] == s;
    assert !Strays(doc, LocatedOf(doc, stop)[i]);
  }

  lemma {:induction false} DocumentOfBlock(blocks: seq<Block>, b: nat)
    requires DistinctBlocks(blocks) && b < |blocks|
    ensures DocumentOf(blocks, blocks[b].blockId) == blocks[b].documentId
  {
    if b < |blocks| - 1 { DocumentOfBlock(blocks[..|blocks| - 1], b); }
  }

  // ---------------------------------------------------------------- what is counted

  /** A child shares characters with two clauses of its document that have different identities. */
  ghost predicate SharedByTwo(child: ChildRecord, clauses: seq<ClauseRecord>)
  {
    exists a, b :: a in clauses && b in clauses && a.clauseId != b.clauseId
                   && a.documentId == child.documentId && b.documentId == child.documentId
                   && Shares(a.spans, child.blockIds, child.span) && Shares(b.spans, child.blockIds, child.span)
  }

  lemma {:induction false} OverlappingMeansShared(child: ChildRecord, clauses: seq<ClauseRecord>)
    ensures |OverlappingIds(child, clauses)| > 1 <==> SharedByTwo(child, clauses)
  {
    hide Shares, Meets;
    var ids := OverlappingIds(child, clauses);
    forall c | c in clauses { MeetsMeansShares(c.spans, child.blockIds, child.span); }
    if SharedByTwo(child, clauses) {
      var a, b :| a in clauses && b in clauses && a.clauseId != b.clauseId
                  && a.documentId == child.documentId && b.documentId == child.documentId
                  && Shares(a.spans, child.blockIds, child.span) && Shares(b.spans, child.blockIds, child.span);
      TwoMembers(ids, a.clauseId, b.clauseId);
    }
    if |ids| > 1 {
      var x, y := DifferentMembers(ids);
      var i :| 0 <= i < |clauses| && clauses[i].documentId == child.documentId
               && Meets(clauses[i].spans, child.blockIds, child.span) && clauses[i].clauseId == x;
      var j :| 0 <= j < |clauses| && clauses[j].documentId == child.documentId
               && Meets(clauses[j].spans, child.blockIds, child.span) && clauses[j].clauseId == y;
      assert clauses[i] in clauses && clauses[j] in clauses;
    }
  }

  lemma {:induction false} TwoMembers(s: set<string>, x: string, y: string)
    requires x in s && y in s && x != y
    ensures |s| > 1
  {
    var rest := s - {x};
    assert y in rest;
    assert |s| == |rest| + 1;
  }

  lemma {:induction false} DifferentMembers(s: set<string>) returns (x: string, y: string)
    requires |s| > 1
    ensures x in s && y in s && x != y
  {
    x :| x in s;
    var rest := s - {x};
    assert |rest| == |s| - 1;
    y :| y in rest;
  }

  /** The count of crossing children is the number of children that two clauses share. */
  lemma {:induction false} CrossCountCounts(children: seq<ChildRecord>, clauses: seq<ClauseRecord>)
    ensures CrossCount(children, clauses)
         == |set i: nat | i < |children| && SharedByTwo(children[i], clauses)|
  {
    CrossCountUpTo(children, clauses, |children|);
    assert children[..|children|] == children;
  }

  lemma {:induction false} CrossCountUpTo(children: seq<ChildRecord>, clauses: seq<ClauseRecord>, n: nat)
    requires n <= |children|
    ensures CrossCount(children[..n], clauses) == |set i: nat | i < n && SharedByTwo(children[i], clauses)|
  {
    hide SharedByTwo, OverlappingIds;
    if n > 0 {
      CrossCountUpTo(children, clauses, n - 1);
      OverlappingMeansShared(children[n - 1], clauses);
      assert children[..n][..n - 1] == children[..n - 1];
      var before := set i: nat | i < n - 1 && SharedByTwo(children[i], clauses);
      var all := set i: nat | i < n && SharedByTwo(children[i], clauses);
      OneMore(before, all, n - 1, SharedByTwo(children[n - 1], clauses));
    }
  }

  /** A heading starts behind the first character of the span and before its end. */
  ghost predicate HeadingInside(span: Span, starts: seq<nat>)
  {
    exists h :: h in starts && span.start < h < span.end
  }

  /** The count of children that cross a section is the number of those with a heading of their source
      inside. */
  lemma {:induction false} SectionCountCounts(children: seq<CrossSection.SectionChild>, headings: string -> seq<nat>)
    ensures CrossSection.SectionCount(children, headings)
         == |set i: nat | i < |children| && HeadingInside(children[i].span, headings(children[i].source))|
  {
    SectionCountUpTo(children, headings, |children|);
    assert children[..|children|] == children;
  }

  lemma {:induction false} SectionCountUpTo(
    children: seq<CrossSection.SectionChild>, headings: string -> seq<nat>, n: nat)
    requires n <= |children|
    ensures CrossSection.SectionCount(children[..n], headings)
         == |set i: nat | i < n && HeadingInside(children[i].span, headings(children[i].source))|
  {
    hide HeadingInside, CrossSection.CrossesAny;
    if n > 0 {
      var last := children[n - 1];
      SectionCountUpTo(children, headings, n - 1);
      CrossesMeansInside(last.span, headings(last.source));
      assert children[..n][..n - 1] == children[..n - 1];
      var before := set i: nat | i < n - 1 && HeadingInside(children[i].span, headings(children[i].source));
      var all := set i: nat | i < n && HeadingInside(children[i].span, headings(children[i].source));
      OneMore(before, all, n - 1, HeadingInside(last.span, headings(last.source)));
    }
  }

  lemma {:induction false} CrossesMeansInside(span: Span, starts: seq<nat>)
    ensures CrossSection.CrossesAny(span, starts) <==> HeadingInside(span, starts)
  {
    if h :| h in starts && span.start < h < span.end {
      var k :| 0 <= k < |starts| && starts[k] == h;
      assert CrossSection.Straddles(span, starts[k]);
    }
    if k :| 0 <= k < |starts| && CrossSection.Straddles(span, starts[k]) {
      assert starts[k] in starts;
    }
  }
}
