/** `decision_agent/evaluation/enterprise_kb_ground_truth.py`: `_map_clauses`, by interval overlap. */
module ClauseMapping {
  import opened Texts
  import opened Windowing
  import opened FixedChunker
  import opened ClauseSpans
  import opened ClauseLocation

  datatype Document = Document(
    documentId: string, source: Source, parents: seq<ParentChunk>, children: seq<ChildChunk>)
  {
    /** What parsing and chunking a document has already checked: parent identities are unique and
        every child names one of them. */
    predicate Linked()
    {
      && source.Valid()
      && (forall i, j :: 0 <= i < j < |parents| ==> parents[i].chunkId != parents[j].chunkId)
      && (forall c :: c in children ==> exists p :: p in parents && p.chunkId == c.parentId)
    }
  }

  datatype ClauseRecord = ClauseRecord(
    clauseId: string, documentId: string, blockId: string, markerStart: nat, markerEnd: nat,
    spans: seq<ContentSpan>, content: string, parentIds: seq<string>, childIds: seq<string>)

  datatype MapError =
    | Unlocated(error: LocateError)
    | DuplicateClauseId(clauseId: string)
    | NoParent(clauseId: string)
    | NoChild(clauseId: string)
    | CrossesDocuments(clauseId: string)
    | WrongCount

  predicate Overlaps(startA: nat, endA: nat, startB: nat, endB: nat)
  {
    Max(startA, startB) < Min(endA, endB)
  }

  /** Does one of the spans share a character with a chunk of these blocks? */
  predicate Meets(spans: seq<ContentSpan>, blockIds: seq<string>, chunk: Span)
  {
    exists i :: 0 <= i < |spans| && spans[i].blockId in blockIds
                && Overlaps(spans[i].start, spans[i].end, chunk.start, chunk.end)
  }

  /** `parent_by_id[id].block_ids` */
  function BlockIdsOf(parents: seq<ParentChunk>, id: string): seq<string>
  {
    if parents == [] then []
    else if parents[|parents| - 1].chunkId == id then parents[|parents| - 1].blockIds
    else BlockIdsOf(parents[..|parents| - 1], id)
  }

  function ParentIdsFor(parents: seq<ParentChunk>, spans: seq<ContentSpan>): seq<string>
  {
    if parents == [] then []
    else
      var p := parents[|parents| - 1];
      ParentIdsFor(parents[..|parents| - 1], spans)
      + (if Meets(spans, p.blockIds, p.span) then [p.chunkId] else [])
  }

  function ChildIdsFor(parents: seq<ParentChunk>, children: seq<ChildChunk>, spans: seq<ContentSpan>): seq<string>
  {
    if children == [] then []
    else
      var c := children[|children| - 1];
      ChildIdsFor(parents, children[..|children| - 1], spans)
      + (if Meets(spans, BlockIdsOf(parents, c.parentId), c.span) then [c.chunkId] else [])
  }

  function RecordOf(doc: Document, l: Located): ClauseRecord
    requires l.marker.blockIndex < |doc.source.blocks|
  {
    ClauseRecord(l.marker.clauseId, doc.documentId, doc.source.blocks[l.marker.blockIndex].blockId,
                 l.marker.markerStart, l.marker.markerEnd, l.spans, l.content,
                 ParentIdsFor(doc.parents, l.spans), ChildIdsFor(doc.parents, doc.children, l.spans))
  }

  /** A clause can be mapped: it meets a parent and a child, and stays in its document. */
  predicate Mappable(doc: Document, l: Located)
  {
    && ParentIdsFor(doc.parents, l.spans) != []
    && ChildIdsFor(doc.parents, doc.children, l.spans) != []
    && !Strays(doc, l)
  }

  predicate Strays(doc: Document, l: Located)
  {
    exists i :: 0 <= i < |l.spans| && DocumentOf(doc.source.blocks, l.spans[i].blockId) != doc.documentId
  }

  function DocumentOf(blocks: seq<Block>, id: string): string
  {
    if blocks == [] then ""
    else if blocks[|blocks| - 1].blockId == id then blocks[|blocks| - 1].documentId
    else DocumentOf(blocks[..|blocks| - 1], id)
  }

  /** The error the body of the inner loop raises for a clause that is not mappable. */
  function MapFailure(doc: Document, l: Located): MapError
  {
    if ParentIdsFor(doc.parents, l.spans) == [] then NoParent(l.marker.clauseId)
    else if ChildIdsFor(doc.parents, doc.children, l.spans) == [] then NoChild(l.marker.clauseId)
    else CrossesDocuments(l.marker.clauseId)
  }

  predicate FailsAt(doc: Document, l: Located, seen: set<string>, e: MapError)
  {
    if l.marker.clauseId in seen then e == DuplicateClauseId(l.marker.clauseId)
    else !Mappable(doc, l) && e == MapFailure(doc, l)
  }

  /** What is wrong with clause `i` of a document, by the error it gives, after the clauses `seen` before. */
  ghost predicate IsWrong(doc: Document, stop: bool, i: nat, seen: set<string>, e: MapError)
    requires doc.source.Valid() && MarkersInOrder(doc.source, MarkersOf(doc.source)) && i < |MarkersOf(doc.source)|
  {
    var l := LocatedOf(doc, stop)[i];
    match e
    case DuplicateClauseId(c) => c == l.marker.clauseId && c in seen
    case NoParent(c) => c == l.marker.clauseId && c !in seen && ParentIdsFor(doc.parents, l.spans) == []
    case NoChild(c) =>
      && c == l.marker.clauseId && c !in seen && ParentIdsFor(doc.parents, l.spans) != []
      && ChildIdsFor(doc.parents, doc.children, l.spans) == []
    case CrossesDocuments(c) =>
      && c == l.marker.clauseId && c !in seen && ParentIdsFor(doc.parents, l.spans) != []
      && ChildIdsFor(doc.parents, doc.children, l.spans) != [] && Strays(doc, l)
    case Unlocated(_) => false
    case WrongCount => false
  }

  // ---------------------------------------------------------------- one document

  function LocatedOf(doc: Document, stop: bool): seq<Located>
    requires doc.source.Valid() && MarkersInOrder(doc.source, MarkersOf(doc.source))
  {
    var ms := MarkersOf(doc.source);
    seq(|ms|, i requires 0 <= i < |ms| => LocatedAt(doc.source, ms, i, stop))
  }

  predicate Locatable(doc: Document, stop: bool)
    requires doc.source.Valid() && MarkersInOrder(doc.source, MarkersOf(doc.source))
  {
    var ms := MarkersOf(doc.source);
    && ms != [] && DistinctIds(ms)
    && forall i :: 0 <= i < |ms| ==> Filled(doc.source, ms, i, stop)
  }

  method MapParents(parents: seq<ParentChunk>, spans: seq<ContentSpan>) returns (ids: seq<string>)
    ensures ids == ParentIdsFor(parents, spans)
  {
    ids := [];
    for i := 0 to |parents|
      invariant ids == ParentIdsFor(parents[..i], spans)
    {
      assert parents[..i + 1][..i] == parents[..i];
      if Meets(spans, parents[i].blockIds, parents[i].span) {
        ids := ids + [parents[i].chunkId];
      }
    }
    assert parents[..|parents|] == parents;
  }

  method MapChildren(parents: seq<ParentChunk>, children: seq<ChildChunk>, spans: seq<ContentSpan>)
    returns (ids: seq<string>)
    ensures ids == ChildIdsFor(parents, children, spans)
  {
    ids := [];
    for i := 0 to |children|
      invariant ids == ChildIdsFor(parents, children[..i], spans)
    {
      assert children[..i + 1][..i] == children[..i];
      if Meets(spans, BlockIdsOf(parents, children[i].parentId), children[i].span) {
        ids := ids + [children[i].chunkId];
      }
    }
    assert children[..|children|] == children;
  }

  /** The loop over the clauses of one document, after the clause identities `seen` before; `bad` is the
      first clause that fails. */
  method MapDocument(doc: Document, located: seq<Located>, seen: set<string>)
    returns (r: Result<seq<ClauseRecord>, MapError>, ghost bad: nat)
    requires forall i :: 0 <= i < |located| ==> located[i].marker.blockIndex < |doc.source.blocks|
    requires forall i, j :: 0 <= i < j < |located| ==> located[i].marker.clauseId != located[j].marker.clauseId
    ensures r.Ok? ==> |r.value| == |located| && forall i :: 0 <= i < |located| ==>
                        && located[i].marker.clauseId !in seen && Mappable(doc, located[i])
                        && r.value[i] == RecordOf(doc, located[i])
    ensures r.Err? ==> bad < |located| && FailsAt(doc, located[bad], seen, r.error)
    ensures r.Err? ==> forall i :: 0 <= i < bad ==>
              located[i].marker.clauseId !in seen && Mappable(doc, located[i])
  {
    var records: seq<ClauseRecord> := [];
    var all := seen;
    for i := 0 to |located|
      invariant all == seen + set k | 0 <= k < i :: located[k].marker.clauseId
      invariant |records| == i
      invariant forall k :: 0 <= k < i ==> records[k] == RecordOf(doc, located[k])
      invariant forall k :: 0 <= k < i ==> located[k].marker.clauseId !in seen && Mappable(doc, located[k])
    {
      var l := located[i];
      if l.marker.clauseId in all {
        return Err(DuplicateClauseId(l.marker.clauseId)), i;
      }
      all := all + {l.marker.clauseId};
      var parentIds := MapParents(doc.parents, l.spans);
      var childIds := MapChildren(doc.parents, doc.children, l.spans);
      if parentIds == [] {
        return Err(NoParent(l.marker.clauseId)), i;
      }
      if childIds == [] {
        return Err(NoChild(l.marker.clauseId)), i;
      }
      if Strays(doc, l) {
        return Err(CrossesDocuments(l.marker.clauseId)), i;
      }
      records := records + [
        ClauseRecord(l.marker.clauseId, doc.documentId, doc.source.blocks[l.marker.blockIndex].blockId,
                     l.marker.markerStart, l.marker.markerEnd, l.spans, l.content, parentIds, childIds)];
    }
    return Ok(records), 0;
  }

  // ---------------------------------------------------------------- all documents

  predicate AllValid(docs: seq<Document>)
  {
    forall d :: 0 <= d < |docs| ==> docs[d].source.Valid() && MarkersInOrder(docs[d].source, MarkersOf(docs[d].source))
  }

  function RecordsOf(doc: Document, stop: bool): seq<ClauseRecord>
    requires doc.source.Valid() && MarkersInOrder(doc.source, MarkersOf(doc.source))
  {
    seq(|MarkersOf(doc.source)|, i requires 0 <= i < |MarkersOf(doc.source)| => RecordOf(doc, LocatedOf(doc, stop)[i]))
  }

  function AllRecords(docs: seq<Document>, stop: bool): seq<ClauseRecord>
    requires AllValid(docs)
  {
    if docs == [] then [] else AllRecords(docs[..|docs| - 1], stop) + RecordsOf(docs[|docs| - 1], stop)
  }

  /** Every clause of a document meets a parent and a child. */
  predicate Covered(doc: Document, stop: bool)
    requires doc.source.Valid() && MarkersInOrder(doc.source, MarkersOf(doc.source))
  {
    forall i :: 0 <= i < |MarkersOf(doc.source)| ==>
      && ParentIdsFor(doc.parents, LocatedOf(doc, stop)[i].spans) != []
      && ChildIdsFor(doc.parents, doc.children, LocatedOf(doc, stop)[i].spans) != []
  }

  predicate Confined(doc: Document, stop: bool)
    requires doc.source.Valid() && MarkersInOrder(doc.source, MarkersOf(doc.source))
  {
    forall i :: 0 <= i < |MarkersOf(doc.source)| ==> !Strays(doc, LocatedOf(doc, stop)[i])
  }

  predicate AllMappable(doc: Document, stop: bool)
    requires doc.source.Valid() && MarkersInOrder(doc.source, MarkersOf(doc.source))
  {
    Locatable(doc, stop) && Covered(doc, stop) && Confined(doc, stop)
  }

  function ClauseIds(doc: Document): set<string>
    requires doc.source.Valid()
  {
    set i | 0 <= i < |MarkersOf(doc.source)| :: MarkersOf(doc.source)[i].clauseId
  }

  /** No clause identity occurs in two documents. */
  predicate SeparateIds(docs: seq<Document>)
    requires AllValid(docs)
  {
    forall d, e :: 0 <= d < e < |docs| ==> ClauseIds(docs[d]) !! ClauseIds(docs[e])
  }

  function IdsUpTo(docs: seq<Document>): set<string>
    requires AllValid(docs)
  {
    if docs == [] then {} else IdsUpTo(docs[..|docs| - 1]) + ClauseIds(docs[|docs| - 1])
  }

  lemma {:induction false} IdsUpToMembers(docs: seq<Document>, id: string)
    requires AllValid(docs)
    ensures id in IdsUpTo(docs) <==> exists d :: 0 <= d < |docs| && id in ClauseIds(docs[d])
  {
    if docs != [] {
      var n := |docs| - 1;
      IdsUpToMembers(docs[..n], id);
      assert forall d :: 0 <= d < n ==> docs[..n][d] == docs[d];
    }
  }

  /** A document fails if it cannot be located, or by what is wrong with its first wrong clause. */
  ghost predicate FailsBecause(doc: Document, stop: bool, seen: set<string>, e: MapError)
    requires doc.source.Valid() && MarkersInOrder(doc.source, MarkersOf(doc.source))
  {
    if e.Unlocated? then !Locatable(doc, stop)
    else exists i: nat :: i < |MarkersOf(doc.source)| && IsWrong(doc, stop, i, seen, e)
                          && forall k :: 0 <= k < i ==> LocatedOf(doc, stop)[k].marker.clauseId !in seen
                                                        && Mappable(doc, LocatedOf(doc, stop)[k])
  }

  /** The step of the outer loop for one document. */
  method MapNext(doc: Document, stop: bool, seen: set<string>) returns (r: Result<seq<ClauseRecord>, MapError>)
    requires doc.source.Valid() && MarkersInOrder(doc.source, MarkersOf(doc.source))
    ensures r.Ok? <==> AllMappable(doc, stop) && ClauseIds(doc) !! seen
    ensures r.Ok? ==> r.value == RecordsOf(doc, stop)
    ensures r.Err? && (r.error.NoParent? || r.error.NoChild?) ==> Locatable(doc, stop) && !Covered(doc, stop)
    ensures r.Err? ==> FailsBecause(doc, stop, seen, r.error)
  {
    hide FailsBecause, FailsAt;
    var located := LocateClauseSpans(doc.source, stop);
    match located {
      case Err(e) =>
        CannotBeLocated(doc, stop, seen, e);
        return Err(Unlocated(e));
      case Ok(ls) =>
        assert ls == LocatedOf(doc, stop);
        MarkerIdsOf(doc, stop);
        ghost var bad;
        r, bad := MapDocument(doc, ls, seen);
        if r.Ok? {
          NothingFails(doc, stop, seen);
          assert r.value == RecordsOf(doc, stop);
        } else {
          SomethingFails(doc, stop, seen, bad, r.error);
        }
    }
  }

  lemma {:induction false} NothingFails(doc: Document, stop: bool, seen: set<string>)
    requires doc.source.Valid() && MarkersInOrder(doc.source, MarkersOf(doc.source)) && Locatable(doc, stop)
    requires forall i :: 0 <= i < |LocatedOf(doc, stop)| ==>
               LocatedOf(doc, stop)[i].marker.clauseId !in seen && Mappable(doc, LocatedOf(doc, stop)[i])
    ensures AllMappable(doc, stop) && ClauseIds(doc) !! seen
  {
    MarkerIdsOf(doc, stop);
  }

  lemma {:induction false} CannotBeLocated(doc: Document, stop: bool, seen: set<string>, e: LocateError)
    requires doc.source.Valid() && MarkersInOrder(doc.source, MarkersOf(doc.source)) && !Locatable(doc, stop)
    ensures FailsBecause(doc, stop, seen, Unlocated(e))
  {
  }

  lemma {:induction false} SomethingFails(doc: Document, stop: bool, seen: set<string>, bad: nat, e: MapError)
    requires doc.source.Valid() && MarkersInOrder(doc.source, MarkersOf(doc.source))
    requires bad < |LocatedOf(doc, stop)| && FailsAt(doc, LocatedOf(doc, stop)[bad], seen, e)
    requires forall k :: 0 <= k < bad ==>
               LocatedOf(doc, stop)[k].marker.clauseId !in seen && Mappable(doc, LocatedOf(doc, stop)[k])
    ensures !(AllMappable(doc, stop) && ClauseIds(doc) !! seen)
    ensures e.NoParent? || e.NoChild? ==> !Covered(doc, stop)
    ensures FailsBecause(doc, stop, seen, e)
  {
    MarkerIdsOf(doc, stop);
    assert IsWrong(doc, stop, bad, seen, e);
    assert LocatedOf(doc, stop)[bad].marker.clauseId in ClauseIds(doc);
  }

  lemma {:induction false} MarkerIdsOf(doc: Document, stop: bool)
    requires doc.source.Valid() && MarkersInOrder(doc.source, MarkersOf(doc.source))
    ensures forall i :: 0 <= i < |LocatedOf(doc, stop)| ==> LocatedOf(doc, stop)[i].marker == MarkersOf(doc.source)[i]
    ensures forall i :: 0 <= i < |LocatedOf(doc, stop)| ==> LocatedOf(doc, stop)[i].marker.clauseId in ClauseIds(doc)
    ensures forall i :: 0 <= i < |LocatedOf(doc, stop)| ==>
              LocatedOf(doc, stop)[i].marker.blockIndex < |doc.source.blocks|
  {
    forall i | 0 <= i < |MarkersOf(doc.source)| ensures MarkersOf(doc.source)[i].blockIndex < |doc.source.blocks| {
      assert MarkerInside(doc.source, MarkersOf(doc.source)[i]);
    }
  }

  /** Map every clause of every document.  When each located clause meets a parent and a child, the
      two "maps to no chunk" errors cannot occur. */
  method MapClauses(docs: seq<Document>, stop: bool, expected: nat) returns (r: Result<seq<ClauseRecord>, MapError>)
    requires forall d :: 0 <= d < |docs| ==> docs[d].source.Valid()
    ensures AllValid(docs)
    ensures r.Ok? <==> && (forall d :: 0 <= d < |docs| ==> AllMappable(docs[d], stop))
                       && SeparateIds(docs)
                       && |AllRecords(docs, stop)| == expected
    ensures r.Ok? ==> r.value == AllRecords(docs, stop)
    ensures r.Err? && (r.error.NoParent? || r.error.NoChild?) ==>
              exists d :: 0 <= d < |docs| && Locatable(docs[d], stop) && !Covered(docs[d], stop)
    ensures r.Err? && r.error != WrongCount ==>
              exists d :: 0 <= d < |docs| && EachMappable(docs[..d], stop)
                          && FailsBecause(docs[d], stop, IdsUpTo(docs[..d]), r.error)
  {
    forall d | 0 <= d < |docs| ensures MarkersInOrder(docs[d].source, MarkersOf(docs[d].source)) {
      MarkersAreInOrder(docs[d].source, |docs[d].source.blocks|);
    }
    ghost var bad;
    r, bad := MapAll(docs, stop);
    match r {
      case Err(e) => assert !AllMappable(docs[bad], stop) || !SeparateIds(docs);
      case Ok(records) =>
        EachMappableMeansAll(docs, stop);
        if |records| != expected {
          r := Err(WrongCount);
        }
    }
  }

  predicate EachMappable(docs: seq<Document>, stop: bool)
    requires AllValid(docs)
  {
    docs == [] || (EachMappable(docs[..|docs| - 1], stop) && AllMappable(docs[|docs| - 1], stop))
  }

  lemma {:induction false} EachMappableMeansAll(docs: seq<Document>, stop: bool)
    requires AllValid(docs) && EachMappable(docs, stop)
    ensures forall d :: 0 <= d < |docs| ==> AllMappable(docs[d], stop)
  {
    if docs != [] { EachMappableMeansAll(docs[..|docs| - 1], stop); }
  }

  /** The loop over the documents; `bad` is the first document that fails. */
  method MapAll(docs: seq<Document>, stop: bool) returns (r: Result<seq<ClauseRecord>, MapError>, ghost bad: nat)
    requires AllValid(docs)
    ensures r.Ok? ==> r.value == AllRecords(docs, stop) && SeparateIds(docs)
                      && EachMappable(docs, stop)
    ensures r.Err? ==> bad < |docs| && (!AllMappable(docs[bad], stop) || !SeparateIds(docs))
    ensures r.Err? ==> EachMappable(docs[..bad], stop)
                       && FailsBecause(docs[bad], stop, IdsUpTo(docs[..bad]), r.error)
    ensures r.Err? && (r.error.NoParent? || r.error.NoChild?) ==>
              Locatable(docs[bad], stop) && !Covered(docs[bad], stop)
  {
    var records: seq<ClauseRecord> := [];
    var all: set<string> := {};
    for d := 0 to |docs|
      invariant records == AllRecords(docs[..d], stop)
      invariant all == IdsUpTo(docs[..d])
      invariant SeparateIds(docs[..d])
      invariant EachMappable(docs[..d], stop)
    {
      assert docs[..d + 1][..d] == docs[..d];
      var local := MapNext(docs[d], stop, all);
      SeparateStep(docs, d);
      match local {
        case Err(e) => return Err(e), d;
        case Ok(rs) =>
          records := records + rs;
          all := all + ClauseIds(docs[d]);
      }
    }
    assert docs[..|docs|] == docs;
    return Ok(records), 0;
  }

  lemma {:induction false} SeparateStep(docs: seq<Document>, d: nat)
    requires AllValid(docs) && d < |docs|
    requires SeparateIds(docs[..d])
    ensures ClauseIds(docs[d]) !! IdsUpTo(docs[..d]) <==> SeparateIds(docs[..d + 1])
    ensures !SeparateIds(docs[..d + 1]) ==> !SeparateIds(docs)
  {
    var before, after := docs[..d], docs[..d + 1];
    if SeparateIds(after) {
      forall id | id in IdsUpTo(before) ensures id !in ClauseIds(docs[d]) {
        IdsUpToMembers(before, id);
        var e :| 0 <= e < |before| && id in ClauseIds(before[e]);
        assert after[e] == before[e] && after[d] == docs[d];
      }
    }
    if ClauseIds(docs[d]) !! IdsUpTo(before) {
      forall e, f | 0 <= e < f < |after| ensures ClauseIds(after[e]) !! ClauseIds(after[f]) {
        assert after[e] == before[e];
        if f == d {
          forall id | id in ClauseIds(after[e]) ensures id !in ClauseIds(after[f]) { IdsUpToMembers(before, id); }
        } else {
          assert after[f] == before[f];
        }
      }
    }
    if !SeparateIds(after) {
      var e, f :| 0 <= e < f < |after| && !(ClauseIds(after[e]) !! ClauseIds(after[f]));
      assert docs[e] == after[e] && docs[f] == after[f];
    }
  }

  // ---------------------------------------------------------------- membership

  lemma {:induction false} ParentIdsInclude(parents: seq<ParentChunk>, spans: seq<ContentSpan>, p: ParentChunk)
    requires p in parents && Meets(spans, p.blockIds, p.span)
    ensures p.chunkId in ParentIdsFor(parents, spans)
  {
    if p != parents[|parents| - 1] { ParentIdsInclude(parents[..|parents| - 1], spans, p); }
  }

  lemma {:induction false} ChildIdsInclude(
    parents: seq<ParentChunk>, children: seq<ChildChunk>, spans: seq<ContentSpan>, c: ChildChunk)
    requires c in children && Meets(spans, BlockIdsOf(parents, c.parentId), c.span)
    ensures c.chunkId in ChildIdsFor(parents, children, spans)
  {
    if c != children[|children| - 1] { ChildIdsInclude(parents, children[..|children| - 1], spans, c); }
  }

  lemma {:induction false} BlockIdsOfParent(parents: seq<ParentChunk>, k: nat)
    requires forall i, j :: 0 <= i < j < |parents| ==> parents[i].chunkId != parents[j].chunkId
    requires k < |parents|
    ensures BlockIdsOf(parents, parents[k].chunkId) == parents[k].blockIds
  {
    if k < |parents| - 1 { BlockIdsOfParent(parents[..|parents| - 1], k); }
  }

  /** A clause whose first character lies in a parent of its block, and in a child of that parent, is
      mapped to both. */
  lemma {:induction false} FirstCharacterDecides(doc: Document, l: Located, k: nat, c: ChildChunk)
    requires doc.Linked()
    requires l.spans != [] && l.spans[0].start < l.spans[0].end
    requires k < |doc.parents| && l.spans[0].blockId in doc.parents[k].blockIds
    requires doc.parents[k].span.Has(l.spans[0].start)
    requires c in doc.children && c.parentId == doc.parents[k].chunkId && c.span.Has(l.spans[0].start)
    ensures ParentIdsFor(doc.parents, l.spans) != []
    ensures ChildIdsFor(doc.parents, doc.children, l.spans) != []
  {
    BlockIdsOfParent(doc.parents, k);
    ParentIdsInclude(doc.parents, l.spans, doc.parents[k]);
    ChildIdsInclude(doc.parents, doc.children, l.spans, c);
  }

  lemma {:induction false} ContentOfFinds(blocks: seq<Block>, id: string) returns (b: nat)
    requires ContentOf(blocks, id) != ""
    ensures b < |blocks| && blocks[b].blockId == id && blocks[b].content == ContentOf(blocks, id)
  {
    if blocks[|blocks| - 1].blockId == id {
      b := |blocks| - 1;
    } else {
      b := ContentOfFinds(blocks[..|blocks| - 1], id);
    }
  }

  // ---------------------------------------------------------------- fixed-window documents

  function FixedParents(blocks: seq<Block>, cfg: Chunker, sid: StableId): seq<ParentChunk>
    requires cfg.Valid()
  {
    if blocks == [] then []
    else FixedParents(blocks[..|blocks| - 1], cfg, sid) + ParentsOf(blocks[|blocks| - 1], cfg, sid)
  }

  function FixedChildren(blocks: seq<Block>, cfg: Chunker, sid: StableId): seq<ChildChunk>
    requires cfg.Valid()
  {
    if blocks == [] then []
    else FixedChildren(blocks[..|blocks| - 1], cfg, sid) + ChildrenOf(blocks[|blocks| - 1], cfg, sid)
  }

  lemma {:induction false} FixedInclude(blocks: seq<Block>, cfg: Chunker, sid: StableId, b: nat)
    requires cfg.Valid() && b < |blocks|
    ensures forall p :: p in ParentsOf(blocks[b], cfg, sid) ==> p in FixedParents(blocks, cfg, sid)
    ensures forall c :: c in ChildrenOf(blocks[b], cfg, sid) ==> c in FixedChildren(blocks, cfg, sid)
  {
    if b < |blocks| - 1 { FixedInclude(blocks[..|blocks| - 1], cfg, sid, b); }
  }

  /** Over a document chunked by fixed windows, every located clause meets a parent and a child, so
      `MapClauses` never fails with "maps to no Parent chunk" or "maps to no Child chunk". */
  lemma {:induction false} FixedChunkingCoversClauses(doc: Document, cfg: Chunker, sid: StableId, stop: bool)
    requires cfg.Valid() && doc.Linked()
    requires doc.parents == FixedParents(doc.source.blocks, cfg, sid)
    requires doc.children == FixedChildren(doc.source.blocks, cfg, sid)
    ensures MarkersInOrder(doc.source, MarkersOf(doc.source))
    ensures Locatable(doc, stop) ==> Covered(doc, stop)
  {
    MarkersAreInOrder(doc.source, |doc.source.blocks|);
    if Locatable(doc, stop) {
      forall i | 0 <= i < |MarkersOf(doc.source)|
        ensures ParentIdsFor(doc.parents, LocatedOf(doc, stop)[i].spans) != []
        ensures ChildIdsFor(doc.parents, doc.children, LocatedOf(doc, stop)[i].spans) != []
      {
        FixedChunkingCoversClause(doc, cfg, sid, stop, i);
      }
    }
  }

  lemma {:induction false} FixedChunkingCoversClause(doc: Document, cfg: Chunker, sid: StableId, stop: bool, i: nat)
    requires cfg.Valid() && doc.Linked()
    requires doc.parents == FixedParents(doc.source.blocks, cfg, sid)
    requires doc.children == FixedChildren(doc.source.blocks, cfg, sid)
    requires MarkersInOrder(doc.source, MarkersOf(doc.source))
    requires Locatable(doc, stop) && i < |MarkersOf(doc.source)|
    ensures ParentIdsFor(doc.parents, LocatedOf(doc, stop)[i].spans) != []
    ensures ChildIdsFor(doc.parents, doc.children, LocatedOf(doc, stop)[i].spans) != []
  {
    var blocks, l := doc.source.blocks, LocatedOf(doc, stop)[i];
    assert Filled(doc.source, MarkersOf(doc.source), i, stop);
    LocatedStartsOnText(doc.source, MarkersOf(doc.source), i, stop);
    assert Inside(blocks, l.spans[0]);
    var b := ContentOfFinds(blocks, l.spans[0].blockId);
    FixedCoversOffset(doc, cfg, sid, b, l.spans[0].start, l);
  }

  lemma {:induction false} ChunksAtOffset(block: Block, cfg: Chunker, sid: StableId, offset: nat)
    returns (p: ParentChunk, c: ChildChunk)
    requires cfg.Valid()
    requires offset < |block.content| && !IsSpace(block.content[offset])
    ensures p in ParentsOf(block, cfg, sid) && p.span.Has(offset) && p.blockIds == [block.blockId]
    ensures c in ChildrenOf(block, cfg, sid) && c.parentId == p.chunkId && c.span.Has(offset)
  {
    var j;
    j, c := NoContentIsLost(block, cfg, sid, offset);
    p := ParentsOf(block, cfg, sid)[j];
    ParentsAreSlices(block, cfg, sid);
    assert ParentFits(block, cfg.parentSize, p);
  }

  lemma {:induction false} FixedCoversOffset(
    doc: Document, cfg: Chunker, sid: StableId, b: nat, offset: nat, l: Located)
    requires cfg.Valid() && doc.Linked()
    requires doc.parents == FixedParents(doc.source.blocks, cfg, sid)
    requires doc.children == FixedChildren(doc.source.blocks, cfg, sid)
    requires b < |doc.source.blocks| && offset < |doc.source.blocks[b].content|
    requires !IsSpace(doc.source.blocks[b].content[offset])
    requires l.spans != [] && l.spans[0].start == offset < l.spans[0].end
    requires l.spans[0].blockId == doc.source.blocks[b].blockId
    ensures ParentIdsFor(doc.parents, l.spans) != []
    ensures ChildIdsFor(doc.parents, doc.children, l.spans) != []
  {
    var p, c := ChunksAtOffset(doc.source.blocks[b], cfg, sid, offset);
    FixedInclude(doc.source.blocks, cfg, sid, b);
    var k :| 0 <= k < |doc.parents| && doc.parents[k] == p;
    FirstCharacterDecides(doc, l, k, c);
  }
}
