/** `decision_agent/ingestion/chunking.py`: `ParentChildChunker`. */
module FixedChunker {
  import opened Texts
  import opened Windowing

  datatype Block = Block(blockId: string, documentId: string, content: string)

  /** What a chunk records beyond its place: nothing, or the clause-aware section data. */
  datatype Metadata =
    | Plain
    | Sectioned(path: string, nearestHeading: string, clauseIds: seq<string>)

  datatype ParentChunk = ParentChunk(
    chunkId: string, documentId: string, content: string, blockIds: seq<string>, span: Span, metadata: Metadata)

  datatype ChildChunk = ChildChunk(
    chunkId: string, parentId: string, documentId: string, content: string, span: Span, metadata: Metadata)

  datatype Kind = Parent | Child

  /** The fields whose canonical JSON is hashed into a chunk identity. */
  datatype IdPayload = IdPayload(kind: Kind, block: Block, span: Span, content: string, parentId: Option<string>)

  /** SHA-256 over canonical JSON is any function of the payload. */
  type StableId = IdPayload -> string

  datatype ConfigError =
    | ParentSizeNotPositive | ChildSizeNotPositive | ChildExceedsParent | OverlapNegative | OverlapTooLarge

  datatype Chunker = Chunker(parentSize: int, childSize: int, overlap: int) {
    predicate Valid() { 0 < childSize <= parentSize && 0 <= overlap < childSize }

    /** `__post_init__` accepts exactly the valid sizes. */
    function PostInit(): (r: Result<Chunker, ConfigError>)
      ensures r.Ok? <==> Valid()
      ensures r.Ok? ==> r.value == this
      ensures r == Err(ParentSizeNotPositive) <==> parentSize <= 0
      ensures r == Err(ChildSizeNotPositive) <==> childSize <= 0 < parentSize
      ensures r == Err(ChildExceedsParent) <==> 0 < parentSize < childSize
      ensures r == Err(OverlapNegative) <==> 0 < childSize <= parentSize && overlap < 0
    {
      if parentSize <= 0 then Err(ParentSizeNotPositive)
      else if childSize <= 0 then Err(ChildSizeNotPositive)
      else if childSize > parentSize then Err(ChildExceedsParent)
      else if overlap < 0 then Err(OverlapNegative)
      else if overlap >= childSize then Err(OverlapTooLarge)
      else Ok(this)
    }
  }

  function ParentAt(block: Block, w: Span, sid: StableId): ParentChunk
  {
    var content := Slice(block.content, w.start, w.end);
    ParentChunk(sid(IdPayload(Parent, block, w, content, None)), block.documentId, content, [block.blockId], w, Plain)
  }

  function ChildAt(block: Block, parent: ParentChunk, w: Span, sid: StableId): ChildChunk
  {
    var content := Slice(parent.content, w.start, w.end);
    var span := Span(parent.span.start + w.start, parent.span.start + w.end);
    ChildChunk(sid(IdPayload(Child, block, span, content, Some(parent.chunkId))),
               parent.chunkId, block.documentId, content, span, Plain)
  }

  /** One parent for each window that is not blank, in window order. */
  function KeptParents(block: Block, ws: seq<Span>, sid: StableId): seq<ParentChunk>
  {
    if ws == [] then []
    else
      var p := ParentAt(block, ws[|ws| - 1], sid);
      KeptParents(block, ws[..|ws| - 1], sid) + (if Blank(p.content) then [] else [p])
  }

  function KeptChildren(block: Block, parent: ParentChunk, ws: seq<Span>, sid: StableId): seq<ChildChunk>
  {
    if ws == [] then []
    else
      var c := ChildAt(block, parent, ws[|ws| - 1], sid);
      KeptChildren(block, parent, ws[..|ws| - 1], sid) + (if Blank(c.content) then [] else [c])
  }

  function ParentsOf(block: Block, cfg: Chunker, sid: StableId): seq<ParentChunk>
    requires cfg.Valid()
  {
    KeptParents(block, WindowsOf(|block.content|, cfg.parentSize, 0), sid)
  }

  /** The children of one parent. */
  function ChildrenOfOne(block: Block, p: ParentChunk, cfg: Chunker, sid: StableId): seq<ChildChunk>
    requires cfg.Valid()
  {
    KeptChildren(block, p, WindowsOf(|p.content|, cfg.childSize, cfg.overlap), sid)
  }

  function ChildrenOfParents(block: Block, parents: seq<ParentChunk>, cfg: Chunker, sid: StableId): seq<ChildChunk>
    requires cfg.Valid()
  {
    if parents == [] then []
    else
      var p := parents[|parents| - 1];
      ChildrenOfParents(block, parents[..|parents| - 1], cfg, sid) + ChildrenOfOne(block, p, cfg, sid)
  }

  function ChildrenOf(block: Block, cfg: Chunker, sid: StableId): seq<ChildChunk>
    requires cfg.Valid()
  {
    ChildrenOfParents(block, ParentsOf(block, cfg, sid), cfg, sid)
  }

  lemma {:induction false} BlankSlice(s: string, start: nat, end: nat)
    requires Blank(s)
    ensures Blank(Slice(s, start, end))
  {}

  lemma {:induction false} BlankBlockHasNoParents(block: Block, ws: seq<Span>, sid: StableId)
    requires Blank(block.content)
    ensures KeptParents(block, ws, sid) == []
  {
    if ws != [] {
      BlankBlockHasNoParents(block, ws[..|ws| - 1], sid);
      BlankSlice(block.content, ws[|ws| - 1].start, ws[|ws| - 1].end);
    }
  }

  /** The inner loop: the children of one parent. */
  method ChunkParent(block: Block, parent: ParentChunk, cfg: Chunker, sid: StableId) returns (children: seq<ChildChunk>)
    requires cfg.Valid()
    ensures children == ChildrenOfOne(block, parent, cfg, sid)
  {
    var local := Windows(|parent.content|, cfg.childSize, cfg.overlap);
    children := KeepChildren(block, parent, local, sid);
  }

  method KeepChildren(
    block: Block, parent: ParentChunk, local: seq<Span>, sid: StableId) returns (children: seq<ChildChunk>)
    ensures children == KeptChildren(block, parent, local, sid)
  {
    children := [];
    for j := 0 to |local|
      invariant children == KeptChildren(block, parent, local[..j], sid)
    {
      assert local[..j + 1][..j] == local[..j];
      var content := Slice(parent.content, local[j].start, local[j].end);
      if Blank(content) {
        continue;
      }
      var span := Span(parent.span.start + local[j].start, parent.span.start + local[j].end);
      var childId := sid(IdPayload(Child, block, span, content, Some(parent.chunkId)));
      children := children + [ChildChunk(childId, parent.chunkId, block.documentId, content, span, Plain)];
    }
    assert local[..|local|] == local;
  }

  lemma {:induction false} NextParent(block: Block, ws: seq<Span>, sid: StableId, i: nat)
    requires i < |ws|
    ensures var p := ParentAt(block, ws[i], sid);
            KeptParents(block, ws[..i + 1], sid)
                == KeptParents(block, ws[..i], sid) + (if Blank(p.content) then [] else [p])
  {
    assert ws[..i + 1][..i] == ws[..i];
  }

  lemma {:induction false} NextChildren(
    block: Block, parents: seq<ParentChunk>, p: ParentChunk, cfg: Chunker, sid: StableId)
    requires cfg.Valid()
    ensures ChildrenOfParents(block, parents + [p], cfg, sid)
         == ChildrenOfParents(block, parents, cfg, sid) + ChildrenOfOne(block, p, cfg, sid)
  {
    assert (parents + [p])[..|parents|] == parents;
  }

  /** Parents for the windows of the block, and children for the windows of each parent, in order.  Blank
      windows of either kind are left out, and a blank parent has no children. */
  method Chunk(block: Block, cfg: Chunker, sid: StableId) returns (parents: seq<ParentChunk>, children: seq<ChildChunk>)
    requires cfg.Valid()
    ensures parents == ParentsOf(block, cfg, sid)
    ensures children == ChildrenOf(block, cfg, sid)
  {
    hide WindowsOf, ChildrenOfOne;
    parents, children := [], [];
    if Blank(block.content) {
      BlankBlockHasNoParents(block, WindowsOf(|block.content|, cfg.parentSize, 0), sid);
      return;
    }
    var ws := Windows(|block.content|, cfg.parentSize, 0);
    for i := 0 to |ws|
      invariant parents == KeptParents(block, ws[..i], sid)
      invariant children == ChildrenOfParents(block, parents, cfg, sid)
    {
      NextParent(block, ws, sid, i);
      var content := Slice(block.content, ws[i].start, ws[i].end);
      if Blank(content) {
        continue;
      }
      var parentId := sid(IdPayload(Parent, block, ws[i], content, None));
      var parent := ParentChunk(parentId, block.documentId, content, [block.blockId], ws[i], Plain);
      var local := ChunkParent(block, parent, cfg, sid);
      NextChildren(block, parents, parent, cfg, sid);
      parents := parents + [parent];
      children := children + local;
    }
    assert ws[..|ws|] == ws;
  }

  // ---------------------------------------------------------------- nothing is lost

  lemma {:induction false} KeptParentsMembers(block: Block, ws: seq<Span>, sid: StableId, p: ParentChunk)
    ensures p in KeptParents(block, ws, sid)
       <==> exists i :: 0 <= i < |ws| && p == ParentAt(block, ws[i], sid) && !Blank(p.content)
  {
    if ws != [] {
      var n := |ws| - 1;
      KeptParentsMembers(block, ws[..n], sid, p);
      if i :| 0 <= i < |ws| && p == ParentAt(block, ws[i], sid) && !Blank(p.content) && i != n {
        assert ws[..n][i] == ws[i];
      }
      if i :| 0 <= i < n && p == ParentAt(block, ws[..n][i], sid) && !Blank(p.content) {
        assert ws[..n][i] == ws[i];
      }
    }
  }

  lemma {:induction false} KeptChildrenMembers(
    block: Block, parent: ParentChunk, ws: seq<Span>, sid: StableId, c: ChildChunk)
    ensures c in KeptChildren(block, parent, ws, sid)
       <==> exists i :: 0 <= i < |ws| && c == ChildAt(block, parent, ws[i], sid) && !Blank(c.content)
  {
    if ws != [] {
      var n := |ws| - 1;
      KeptChildrenMembers(block, parent, ws[..n], sid, c);
      if i :| 0 <= i < |ws| && c == ChildAt(block, parent, ws[i], sid) && !Blank(c.content) && i != n {
        assert ws[..n][i] == ws[i];
      }
      if i :| 0 <= i < n && c == ChildAt(block, parent, ws[..n][i], sid) && !Blank(c.content) {
        assert ws[..n][i] == ws[i];
      }
    }
  }

  lemma {:induction false} ChildrenOfParentsMembers(
    block: Block, parents: seq<ParentChunk>, cfg: Chunker, sid: StableId, c: ChildChunk)
    requires cfg.Valid()
    ensures c in ChildrenOfParents(block, parents, cfg, sid)
       <==> exists p :: p in parents && c in ChildrenOfOne(block, p, cfg, sid)
  {
    if parents != [] {
      var n := |parents| - 1;
      ChildrenOfParentsMembers(block, parents[..n], cfg, sid, c);
      LastOrEarlier(parents);
    }
  }

  lemma {:induction false} LastOrEarlier(parents: seq<ParentChunk>)
    requires parents != []
    ensures forall p :: p in parents <==> p in parents[..|parents| - 1] || p == parents[|parents| - 1]
  {
    assert parents == parents[..|parents| - 1] + [parents[|parents| - 1]];
  }

  /** The parents lie in text order without sharing a character. */
  predicate Ordered(parents: seq<ParentChunk>)
  {
    forall i, j :: 0 <= i < j < |parents| ==> parents[i].span.end <= parents[j].span.start
  }

  /** A parent is a non-blank slice of its block at its own offsets. */
  predicate ParentFits(block: Block, size: int, p: ParentChunk)
  {
    && p.span.start < p.span.end <= |block.content|
    && p.span.end - p.span.start <= size
    && p.content == block.content[p.span.start..p.span.end] && !Blank(p.content)
    && p.blockIds == [block.blockId]
  }

  /** A child is a non-blank slice of its block at its own offsets, inside the parent it names. */
  predicate ChildFits(block: Block, size: int, p: ParentChunk, c: ChildChunk)
  {
    && c.span.start < c.span.end <= |block.content|
    && c.span.end - c.span.start <= size
    && c.content == block.content[c.span.start..c.span.end] && !Blank(c.content)
    && c.parentId == p.chunkId
    && p.span.start <= c.span.start && c.span.end <= p.span.end
  }

  lemma {:induction false} KeptParentsOrdered(block: Block, ws: seq<Span>, size: nat, n: nat, sid: StableId)
    requires IsChain(ws, |block.content|, size, 0)
    requires n <= |ws|
    ensures Ordered(KeptParents(block, ws[..n], sid))
  {
    if n > 0 {
      assert ws[..n][..n - 1] == ws[..n - 1];
      KeptParentsOrdered(block, ws, size, n - 1, sid);
      KeptParentsEndBefore(block, ws, size, n, sid, KeptParents(block, ws[..n - 1], sid));
    }
  }

  lemma {:induction false} KeptParentsEndBefore(
    block: Block, ws: seq<Span>, size: nat, n: nat, sid: StableId, before: seq<ParentChunk>)
    requires IsChain(ws, |block.content|, size, 0)
    requires 0 < n <= |ws| && before == KeptParents(block, ws[..n - 1], sid)
    ensures forall k :: 0 <= k < |before| ==> before[k].span.end <= ws[n - 1].start
  {
    forall k | 0 <= k < |before| ensures before[k].span.end <= ws[n - 1].start {
      KeptParentsMembers(block, ws[..n - 1], sid, before[k]);
      var i :| 0 <= i < n - 1 && before[k] == ParentAt(block, ws[..n - 1][i], sid);
      ChainIsOrdered(ws, |block.content|, size, 0, i, n - 1);
    }
  }

  lemma {:induction false} KeptParentFits(block: Block, ws: seq<Span>, size: nat, sid: StableId, p: ParentChunk)
    requires IsChain(ws, |block.content|, size, 0)
    requires p in KeptParents(block, ws, sid)
    ensures ParentFits(block, size, p)
  {
    KeptParentsMembers(block, ws, sid, p);
  }

  lemma {:induction false} KeptChildFits(
    block: Block, parentSize: nat, p: ParentChunk, ws: seq<Span>, size: nat, overlap: nat, sid: StableId,
    c: ChildChunk)
    requires ParentFits(block, parentSize, p)
    requires IsChain(ws, |p.content|, size, overlap)
    requires c in KeptChildren(block, p, ws, sid)
    ensures ChildFits(block, size, p, c)
  {
    KeptChildrenMembers(block, p, ws, sid, c);
    var i :| 0 <= i < |ws| && c == ChildAt(block, p, ws[i], sid) && !Blank(c.content);
    ChildAtFits(block, parentSize, p, ws[i], size, sid);
  }

  lemma {:induction false} ChildAtFits(block: Block, parentSize: nat, p: ParentChunk, w: Span, size: nat, sid: StableId)
    requires ParentFits(block, parentSize, p)
    requires w.start < w.end <= |p.content| && w.end - w.start <= size
    requires !Blank(ChildAt(block, p, w, sid).content)
    ensures ChildFits(block, size, p, ChildAt(block, p, w, sid))
  {
    SliceOfSlice(block.content, p.span.start, p.span.end, w.start, w.end);
  }

  lemma {:induction false} SliceOfSlice(s: string, start: nat, end: nat, from: nat, to: nat)
    requires start <= end <= |s| && from <= to <= end - start
    ensures s[start..end][from..to] == s[start + from..start + to]
  {
    var a, b := s[start..end][from..to], s[start + from..start + to];
    assert |a| == |b|;
    forall i | 0 <= i < |a| ensures a[i] == b[i] {}
  }

  /** Every chunk is a non-blank slice of its block at its own offsets and within its size, parents
      are disjoint and in order, and every child lies inside the parent it names. */
  lemma {:induction false} ChunksAreSlices(block: Block, cfg: Chunker, sid: StableId)
    requires cfg.Valid()
    ensures Ordered(ParentsOf(block, cfg, sid))
    ensures forall p :: p in ParentsOf(block, cfg, sid) ==> ParentFits(block, cfg.parentSize, p)
    ensures forall c :: c in ChildrenOf(block, cfg, sid) ==>
              exists p :: p in ParentsOf(block, cfg, sid) && ChildFits(block, cfg.childSize, p, c)
  {
    ParentsAreSlices(block, cfg, sid);
    forall c | c in ChildrenOf(block, cfg, sid)
      ensures exists p :: p in ParentsOf(block, cfg, sid) && ChildFits(block, cfg.childSize, p, c)
    {
      var p := ChildHasParent(block, cfg, sid, c);
    }
  }

  lemma {:induction false} ParentsAreSlices(block: Block, cfg: Chunker, sid: StableId)
    requires cfg.Valid()
    ensures Ordered(ParentsOf(block, cfg, sid))
    ensures forall p :: p in ParentsOf(block, cfg, sid) ==> ParentFits(block, cfg.parentSize, p)
  {
    var ws := WindowsOf(|block.content|, cfg.parentSize, 0);
    WindowsAreChain(|block.content|, cfg.parentSize, 0);
    assert ws[..|ws|] == ws;
    KeptParentsOrdered(block, ws, cfg.parentSize, |ws|, sid);
    forall p | p in ParentsOf(block, cfg, sid) ensures ParentFits(block, cfg.parentSize, p) {
      KeptParentFits(block, ws, cfg.parentSize, sid, p);
    }
  }

  lemma {:induction false} ChildHasParent(
    block: Block, cfg: Chunker, sid: StableId, c: ChildChunk) returns (p: ParentChunk)
    requires cfg.Valid()
    requires c in ChildrenOf(block, cfg, sid)
    ensures p in ParentsOf(block, cfg, sid) && ChildFits(block, cfg.childSize, p, c)
  {
    ParentsAreSlices(block, cfg, sid);
    ChildrenOfParentsMembers(block, ParentsOf(block, cfg, sid), cfg, sid, c);
    p :| p in ParentsOf(block, cfg, sid)
         && c in ChildrenOfOne(block, p, cfg, sid);
    WindowsAreChain(|p.content|, cfg.childSize, cfg.overlap);
    KeptChildFits(block, cfg.parentSize, p, WindowsOf(|p.content|, cfg.childSize, cfg.overlap),
                  cfg.childSize, cfg.overlap, sid, c);
  }

  lemma {:induction false} KeptParentCovers(
    block: Block, ws: seq<Span>, size: nat, sid: StableId, k: nat) returns (p: ParentChunk)
    requires IsChain(ws, |block.content|, size, 0)
    requires k < |block.content| && !IsSpace(block.content[k])
    ensures p in KeptParents(block, ws, sid) && p.span.Has(k)
  {
    var w := ChainCovers(ws, |block.content|, size, 0, k);
    p := ParentAt(block, ws[w], sid);
    assert p.content[k - ws[w].start] == block.content[k];
    KeptParentsMembers(block, ws, sid, p);
  }

  lemma {:induction false} KeptChildCovers(
    block: Block, parentSize: nat, p: ParentChunk, ws: seq<Span>, size: nat, overlap: nat,
                        sid: StableId, k: nat)
    returns (c: ChildChunk)
    requires ParentFits(block, parentSize, p)
    requires IsChain(ws, |p.content|, size, overlap)
    requires p.span.Has(k) && !IsSpace(block.content[k])
    ensures c in KeptChildren(block, p, ws, sid) && c.span.Has(k) && c.parentId == p.chunkId
  {
    var v := ChainCovers(ws, |p.content|, size, overlap, k - p.span.start);
    c := ChildAt(block, p, ws[v], sid);
    assert c.content[k - p.span.start - ws[v].start] == block.content[k];
    KeptChildrenMembers(block, p, ws, sid, c);
  }

  /** Blank chunks are dropped, yet every non-blank character is in exactly one parent and in at
      least one child of that parent. */
  lemma {:induction false} NoContentIsLost(
    block: Block, cfg: Chunker, sid: StableId, k: nat) returns (i: nat, c: ChildChunk)
    requires cfg.Valid()
    requires k < |block.content| && !IsSpace(block.content[k])
    ensures var parents := ParentsOf(block, cfg, sid);
            && i < |parents| && parents[i].span.Has(k)
            && (forall j :: 0 <= j < |parents| && parents[j].span.Has(k) ==> j == i)
            && c in ChildrenOf(block, cfg, sid) && c.parentId == parents[i].chunkId && c.span.Has(k)
  {
    var parents := ParentsOf(block, cfg, sid);
    var p := SomeParentHas(block, cfg, sid, k);
    i :| 0 <= i < |parents| && parents[i] == p;
    ParentsAreSlices(block, cfg, sid);
    OnlyParentHas(parents, i, k);
    c := ChildOfParentAt(block, cfg, p, sid, k);
    ChildrenOfParentsMembers(block, parents, cfg, sid, c);
  }

  lemma {:induction false} SomeParentHas(block: Block, cfg: Chunker, sid: StableId, k: nat) returns (p: ParentChunk)
    requires cfg.Valid()
    requires k < |block.content| && !IsSpace(block.content[k])
    ensures p in ParentsOf(block, cfg, sid) && p.span.Has(k)
  {
    WindowsAreChain(|block.content|, cfg.parentSize, 0);
    p := KeptParentCovers(block, WindowsOf(|block.content|, cfg.parentSize, 0), cfg.parentSize, sid, k);
  }

  lemma {:induction false} OnlyParentHas(parents: seq<ParentChunk>, i: nat, k: nat)
    requires Ordered(parents) && i < |parents| && parents[i].span.Has(k)
    ensures forall j :: 0 <= j < |parents| && parents[j].span.Has(k) ==> j == i
  {
  }

  lemma {:induction false} ChildOfParentAt(
    block: Block, cfg: Chunker, p: ParentChunk, sid: StableId, k: nat) returns (c: ChildChunk)
    requires cfg.Valid() && ParentFits(block, cfg.parentSize, p)
    requires k < |block.content| && !IsSpace(block.content[k]) && p.span.Has(k)
    ensures c in ChildrenOfOne(block, p, cfg, sid) && c.span.Has(k) && c.parentId == p.chunkId
  {
    WindowsAreChain(|p.content|, cfg.childSize, cfg.overlap);
    c := KeptChildCovers(block, cfg.parentSize, p, WindowsOf(|p.content|, cfg.childSize, cfg.overlap),
                         cfg.childSize, cfg.overlap, sid, k);
  }
}
