/** `decision_agent/evaluation/enterprise_kb_ground_truth.py`: `_locate_clause_spans`. */
module ClauseLocation {
  import opened Texts
  import opened FixedChunker
  import opened ClauseSpans

  datatype Located = Located(marker: Marker, spans: seq<ContentSpan>, content: string)

  datatype LocateError = NoMarkers | DuplicateMarker | EmptyContent(clauseId: string) | BlankContent(clauseId: string)

  // ---------------------------------------------------------------- markers

  /** The offset after the line break that follows a marker, if there is one. */
  function LineContentStart(content: string, markerEnd: nat): (r: nat)
    ensures markerEnd <= r <= Max(markerEnd, |content|)
    ensures Blank(Slice(content, markerEnd, r))
  {
    var a := if markerEnd < |content| && content[markerEnd] == '\r' then markerEnd + 1 else markerEnd;
    if a < |content| && content[a] == '\n' then a + 1 else a
  }

  function MarkerAt(source: Source, b: nat, k: nat): Marker
    requires source.Valid() && b < |source.blocks| && k < |source.matches[b]|
  {
    var m := source.matches[b][k];
    Marker(m.clauseId, b, m.start, m.end, LineContentStart(source.blocks[b].content, m.end))
  }

  function BlockMarkers(source: Source, b: nat): seq<Marker>
    requires source.Valid() && b < |source.blocks|
  {
    seq(|source.matches[b]|, k requires 0 <= k < |source.matches[b]| => MarkerAt(source, b, k))
  }

  function MarkersUpTo(source: Source, n: nat): seq<Marker>
    requires source.Valid() && n <= |source.blocks|
  {
    if n == 0 then [] else MarkersUpTo(source, n - 1) + BlockMarkers(source, n - 1)
  }

  function MarkersOf(source: Source): seq<Marker>
    requires source.Valid()
  {
    MarkersUpTo(source, |source.blocks|)
  }

  /** A marker lies inside its block. */
  predicate MarkerInside(source: Source, m: Marker)
  {
    && m.blockIndex < |source.blocks|
    && m.markerStart < m.markerEnd <= m.lineEnd <= |source.blocks[m.blockIndex].content|
  }

  /** Text order of markers: by block, then by offset, without overlap. */
  predicate Before(a: Marker, b: Marker)
  {
    a.blockIndex < b.blockIndex || (a.blockIndex == b.blockIndex && a.markerEnd <= b.markerStart)
  }

  predicate MarkersInOrder(source: Source, ms: seq<Marker>)
  {
    && (forall i :: 0 <= i < |ms| ==> MarkerInside(source, ms[i]))
    && (forall i, j :: 0 <= i < j < |ms| ==> Before(ms[i], ms[j]))
  }

  predicate InBlocks(ms: seq<Marker>, from: nat, to: nat)
  {
    forall i :: 0 <= i < |ms| ==> from <= ms[i].blockIndex < to
  }

  predicate InOrderUpTo(source: Source, ms: seq<Marker>, n: nat)
  {
    MarkersInOrder(source, ms) && InBlocks(ms, 0, n)
  }

  lemma {:induction false} MarkersAreInOrder(source: Source, n: nat)
    requires source.Valid() && n <= |source.blocks|
    ensures InOrderUpTo(source, MarkersUpTo(source, n), n)
  {
    if n > 0 {
      MarkersAreInOrder(source, n - 1);
      NextMarkersInOrder(source, MarkersUpTo(source, n - 1), n - 1);
      assert MarkersUpTo(source, n) == MarkersUpTo(source, n - 1) + BlockMarkers(source, n - 1);
    }
  }

  lemma {:induction false} NextMarkersInOrder(source: Source, x: seq<Marker>, b: nat)
    requires source.Valid() && b < |source.blocks|
    requires InOrderUpTo(source, x, b)
    ensures InOrderUpTo(source, x + BlockMarkers(source, b), b + 1)
  {
    var y := BlockMarkers(source, b);
    assert MatchesIn(source.matches[b], source.headings[b], source.blocks[b].content);
    assert forall i :: 0 <= i < |y| ==> y[i] == MarkerAt(source, b, i) && MarkerInside(source, y[i]);
    OrderConcat(source, x, y, b);
  }

  lemma {:induction false} OrderConcat(source: Source, x: seq<Marker>, y: seq<Marker>, b: nat)
    requires InOrderUpTo(source, x, b)
    requires MarkersInOrder(source, y) && InBlocks(y, b, b + 1)
    ensures InOrderUpTo(source, x + y, b + 1)
  {}

  method CollectMarkers(source: Source) returns (markers: seq<Marker>)
    requires source.Valid()
    ensures markers == MarkersOf(source)
  {
    markers := [];
    for b := 0 to |source.blocks|
      invariant markers == MarkersUpTo(source, b)
    {
      ghost var before := markers;
      var found := source.matches[b];
      for k := 0 to |found|
        invariant markers == before + BlockMarkers(source, b)[..k]
      {
        var m := found[k];
        markers := markers + [Marker(m.clauseId, b, m.start, m.end, LineContentStart(source.blocks[b].content, m.end))];
      }
      assert BlockMarkers(source, b)[..|found|] == BlockMarkers(source, b);
    }
  }

  // ---------------------------------------------------------------- segments

  function FirstAfter(hs: seq<nat>, position: nat): Option<nat>
  {
    if hs == [] then None else if hs[0] > position then Some(hs[0]) else FirstAfter(hs[1..], position)
  }

  /** Where clause `i` begins in block `b`. */
  function StartIn(ms: seq<Marker>, i: nat, b: nat): nat
    requires i < |ms|
  {
    if b == ms[i].blockIndex then ms[i].lineEnd else 0
  }

  /** Where clause `i` ends in block `b`: at the next marker, and in its own block, on request, at the
      next business heading. */
  function EndIn(source: Source, ms: seq<Marker>, i: nat, stop: bool, b: nat): nat
    requires source.Shaped() && i < |ms| && b < |source.blocks|
  {
    var end := if i + 1 < |ms| && b == ms[i + 1].blockIndex then ms[i + 1].markerStart
               else |source.blocks[b].content|;
    if stop && b == ms[i].blockIndex && FirstAfter(source.headings[b], ms[i].markerStart).Some?
    then Min(end, FirstAfter(source.headings[b], ms[i].markerStart).value)
    else end
  }

  function LastBlock(source: Source, ms: seq<Marker>, i: nat): int
    requires i < |ms|
  {
    if i + 1 < |ms| then ms[i + 1].blockIndex else |source.blocks| - 1
  }

  /** The segments of clause `i` in the blocks from its own up to, not including, block `n`. */
  function SegmentsTo(source: Source, ms: seq<Marker>, i: nat, stop: bool, n: nat): seq<ContentSpan>
    requires source.Shaped() && i < |ms| && n <= |source.blocks|
  {
    if n <= ms[i].blockIndex then []
    else
      var b := n - 1;
      var start, end := StartIn(ms, i, b), EndIn(source, ms, i, stop, b);
      SegmentsTo(source, ms, i, stop, b)
      + (if end > start then [ContentSpan(source.blocks[b].blockId, start, end)] else [])
  }

  function SegmentsOf(source: Source, ms: seq<Marker>, i: nat, stop: bool): seq<ContentSpan>
    requires source.Valid() && MarkersInOrder(source, ms) && i < |ms|
  {
    SegmentsTo(source, ms, i, stop, LastBlock(source, ms, i) + 1)
  }

  lemma {:induction false} SegmentsInside(source: Source, ms: seq<Marker>, i: nat, stop: bool, n: nat)
    requires source.Valid() && MarkersInOrder(source, ms) && i < |ms| && n <= |source.blocks|
    ensures AllInside(source.blocks, SegmentsTo(source, ms, i, stop, n))
  {
    if n > ms[i].blockIndex {
      SegmentsInside(source, ms, i, stop, n - 1);
      ContentOfBlock(source.blocks, n - 1);
    }
  }

  /** The part of clause `i` in the block of its marker. */
  function OwnSegment(source: Source, ms: seq<Marker>, i: nat, stop: bool): seq<ContentSpan>
    requires source.Shaped() && i < |ms| && ms[i].blockIndex < |source.blocks|
  {
    var b := ms[i].blockIndex;
    var end := EndIn(source, ms, i, stop, b);
    if end > ms[i].lineEnd then [ContentSpan(source.blocks[b].blockId, ms[i].lineEnd, end)] else []
  }

  /** Its parts in the blocks after that one, up to, not including, block `n`. */
  function LaterSegments(source: Source, ms: seq<Marker>, i: nat, n: nat): seq<ContentSpan>
    requires source.Shaped() && i < |ms| && n <= |source.blocks|
  {
    if n <= ms[i].blockIndex + 1 then []
    else
      var end := EndIn(source, ms, i, false, n - 1);
      LaterSegments(source, ms, i, n - 1)
      + (if end > 0 then [ContentSpan(source.blocks[n - 1].blockId, 0, end)] else [])
  }

  /** Only the first part depends on where the clause is told to stop. */
  lemma {:induction false} SegmentsSplit(source: Source, ms: seq<Marker>, i: nat, stop: bool, n: nat)
    requires source.Shaped() && i < |ms| && ms[i].blockIndex < n <= |source.blocks|
    ensures SegmentsTo(source, ms, i, stop, n) == OwnSegment(source, ms, i, stop) + LaterSegments(source, ms, i, n)
  {
    if n - 1 == ms[i].blockIndex {
      assert SegmentsTo(source, ms, i, stop, n - 1) == [];
    } else {
      SegmentsSplit(source, ms, i, stop, n - 1);
      assert EndIn(source, ms, i, stop, n - 1) == EndIn(source, ms, i, false, n - 1);
    }
  }

  method CollectSegments(source: Source, ms: seq<Marker>, i: nat, stop: bool) returns (segments: seq<ContentSpan>)
    requires source.Valid() && MarkersInOrder(source, ms) && i < |ms|
    ensures segments == SegmentsOf(source, ms, i, stop)
  {
    var marker := ms[i];
    var lastBlockIndex := if i + 1 < |ms| then ms[i + 1].blockIndex else |source.blocks| - 1;
    segments := [];
    assert i + 1 < |ms| ==> Before(ms[i], ms[i + 1]);
    for b := marker.blockIndex to lastBlockIndex + 1
      invariant segments == SegmentsTo(source, ms, i, stop, b)
    {
      var block := source.blocks[b];
      var start := if b == marker.blockIndex then marker.lineEnd else 0;
      var end := if i + 1 < |ms| && b == ms[i + 1].blockIndex then ms[i + 1].markerStart else |block.content|;
      if stop && b == marker.blockIndex {
        var boundary := FirstAfter(source.headings[b], marker.markerStart);
        if boundary.Some? {
          end := Min(end, boundary.value);
        }
      }
      if end > start {
        segments := segments + [ContentSpan(block.blockId, start, end)];
      }
    }
  }

  // ---------------------------------------------------------------- located clauses

  function LocatedAt(source: Source, ms: seq<Marker>, i: nat, stop: bool): Located
    requires source.Valid() && MarkersInOrder(source, ms) && i < |ms|
  {
    var spans := Trimmed(source.blocks, SegmentsOf(source, ms, i, stop));
    Located(ms[i], spans, JoinText(source.blocks, spans))
  }

  predicate DistinctIds(ms: seq<Marker>)
  {
    forall i, j :: 0 <= i < j < |ms| ==> ms[i].clauseId != ms[j].clauseId
  }

  /** Locate every clause of a document.  It fails exactly when there is no marker, a marker is
      repeated or a clause is blank, and always before the separate test for blank content. */
  method LocateClauseSpans(source: Source, stop: bool) returns (r: Result<seq<Located>, LocateError>)
    requires source.Valid()
    ensures MarkersInOrder(source, MarkersOf(source))
    ensures var ms := MarkersOf(source);
            r.Ok? <==> ms != [] && DistinctIds(ms)
                       && forall i :: 0 <= i < |ms| ==> Filled(source, ms, i, stop)
    ensures r.Ok? ==> |r.value| == |MarkersOf(source)|
                      && forall i :: 0 <= i < |r.value| ==> r.value[i] == LocatedAt(source, MarkersOf(source), i, stop)
    ensures r.Err? ==> !r.error.BlankContent?
    ensures MarkersOf(source) == [] <==> r == Err(NoMarkers)
    ensures MarkersOf(source) != [] && !DistinctIds(MarkersOf(source)) <==> r == Err(DuplicateMarker)
  {
    MarkersAreInOrder(source, |source.blocks|);
    var ms := CollectMarkers(source);
    if ms == [] {
      return Err(NoMarkers);
    }
    if !(forall i, j :: 0 <= i < j < |ms| ==> ms[i].clauseId != ms[j].clauseId) {
      return Err(DuplicateMarker);
    }
    ghost var empty;
    r, empty := LocateAll(source, ms, stop);
    if r.Err? { assert !Filled(source, ms, empty, stop); }
  }

  /** Has clause `i` content besides white space? */
  predicate Filled(source: Source, ms: seq<Marker>, i: nat, stop: bool)
    requires source.Valid() && MarkersInOrder(source, ms) && i < |ms|
  {
    !Blank(JoinText(source.blocks, SegmentsOf(source, ms, i, stop)))
  }

  /** The loop over the markers; `empty` is the first clause without content. */
  method LocateAll(
    source: Source, ms: seq<Marker>, stop: bool)
    returns (r: Result<seq<Located>, LocateError>, ghost empty: nat)
    requires source.Valid() && MarkersInOrder(source, ms)
    ensures r.Ok? ==> |r.value| == |ms| && forall i :: 0 <= i < |ms| ==>
                        Filled(source, ms, i, stop) && r.value[i] == LocatedAt(source, ms, i, stop)
    ensures r.Err? ==> r.error.EmptyContent? && empty < |ms| && !Filled(source, ms, empty, stop)
  {
    var located := [];
    for i := 0 to |ms|
      invariant |located| == i
      invariant forall k :: 0 <= k < i ==> Filled(source, ms, k, stop) && located[k] == LocatedAt(source, ms, k, stop)
    {
      var one := LocateOne(source, ms, i, stop);
      match one {
        case Err(e) => return Err(e), i;
        case Ok(l) => located := located + [l];
      }
    }
    return Ok(located), 0;
  }

  method LocateOne(source: Source, ms: seq<Marker>, i: nat, stop: bool) returns (r: Result<Located, LocateError>)
    requires source.Valid() && MarkersInOrder(source, ms) && i < |ms|
    ensures r == if Filled(source, ms, i, stop) then Ok(LocatedAt(source, ms, i, stop))
              else Err(EmptyContent(ms[i].clauseId))
  {
    var clauseId := ms[i].clauseId;
    var segments := CollectSegments(source, ms, i, stop);
    SegmentsInside(source, ms, i, stop, LastBlock(source, ms, i) + 1);
    var trimmed := TrimSegments(source.blocks, segments);
    TrimmedTextIsStripped(source.blocks, segments);
    if trimmed == [] {
      return Err(EmptyContent(clauseId));
    }
    var content := JoinText(source.blocks, trimmed);
    StrippedIsNotBlank(JoinText(source.blocks, segments));
    if Blank(content) {
      return Err(BlankContent(clauseId));
    }
    return Ok(Located(ms[i], trimmed, content));
  }

  lemma {:induction false} StrippedIsNotBlank(s: string)
    requires !Blank(s)
    ensures Strip(s) != "" && !IsSpace(Strip(s)[0]) && !IsSpace(Strip(s)[|Strip(s)| - 1])
    ensures !Blank(Strip(s))
  {
    LStripSplits(s);
    RStripSplits(LStrip(s));
    BlankStrip(s);
    assert Strip(s)[0] == LStrip(s)[0];
  }

  // ---------------------------------------------------------------- what a located clause is

  function DocumentText(blocks: seq<Block>): string
  {
    if blocks == [] then "" else DocumentText(blocks[..|blocks| - 1]) + blocks[|blocks| - 1].content
  }

  /** The offset in the document of an offset in a block. */
  function Global(blocks: seq<Block>, b: nat, offset: nat): nat
    requires b <= |blocks|
  {
    |DocumentText(blocks[..b])| + offset
  }

  /** The part of clause `i` in block `b`, empty or not, as it is joined. */
  lemma {:induction false} NextSegmentText(source: Source, ms: seq<Marker>, i: nat, b: nat)
    requires source.Shaped() && DistinctBlocks(source.blocks) && i < |ms| && ms[i].blockIndex <= b < |source.blocks|
    requires EndIn(source, ms, i, false, b) <= |source.blocks[b].content|
    ensures JoinText(source.blocks, SegmentsTo(source, ms, i, false, b + 1))
         == JoinText(source.blocks, SegmentsTo(source, ms, i, false, b))
            + Slice(source.blocks[b].content, StartIn(ms, i, b), EndIn(source, ms, i, false, b))
    ensures b == ms[i].blockIndex ==> SegmentsTo(source, ms, i, false, b) == []
  {
    var start, end := StartIn(ms, i, b), EndIn(source, ms, i, false, b);
    ContentOfBlock(source.blocks, b);
    var before := SegmentsTo(source, ms, i, false, b);
    var part := Slice(source.blocks[b].content, start, end);
    if end > start {
      var last := ContentSpan(source.blocks[b].blockId, start, end);
      JoinConcat(source.blocks, before, [last]);
      assert SegmentsTo(source, ms, i, false, b + 1) == before + [last];
      assert JoinText(source.blocks, [last]) == part;
    } else {
      assert part == "";
      assert SegmentsTo(source, ms, i, false, b + 1) == before;
    }
  }

  lemma {:induction false} NextBlockText(blocks: seq<Block>, b: nat)
    requires b < |blocks|
    ensures DocumentText(blocks[..b + 1]) == DocumentText(blocks[..b]) + blocks[b].content
  {
    assert blocks[..b + 1][..b] == blocks[..b];
  }

  /** The segments of clause `i` up to block `b` spell the document from the marker line on. */
  predicate Spells(source: Source, ms: seq<Marker>, i: nat, b: nat)
    requires source.Shaped() && i < |ms| && ms[i].blockIndex <= b < |source.blocks|
  {
    JoinText(source.blocks, SegmentsTo(source, ms, i, false, b + 1))
    == Slice(DocumentText(source.blocks[..b + 1]),
             Global(source.blocks, ms[i].blockIndex, ms[i].lineEnd),
             |DocumentText(source.blocks[..b])| + EndIn(source, ms, i, false, b))
  }

  lemma {:induction false} EmptyPrefix(s: string)
    ensures "" + s == s
  {
  }

  lemma {:induction false} SpellFirst(source: Source, ms: seq<Marker>, i: nat, b: nat)
    requires source.Shaped() && DistinctBlocks(source.blocks) && i < |ms| && ms[i].blockIndex == b < |source.blocks|
    requires ms[i].lineEnd <= |source.blocks[b].content|
    requires EndIn(source, ms, i, false, b) <= |source.blocks[b].content|
    ensures Spells(source, ms, i, b)
  {
    NextBlockText(source.blocks, b);
    NextSegmentText(source, ms, i, b);
    EmptyPrefix(Slice(source.blocks[b].content, StartIn(ms, i, b), EndIn(source, ms, i, false, b)));
    SliceAfter(DocumentText(source.blocks[..b]), source.blocks[b].content, ms[i].lineEnd,
        EndIn(source, ms, i, false, b));
  }

  lemma {:induction false} SpellNext(source: Source, ms: seq<Marker>, i: nat, a: nat, b: nat)
    requires source.Shaped() && DistinctBlocks(source.blocks) && i < |ms|
              && ms[i].blockIndex <= a < b == a + 1 < |source.blocks|
    requires EndIn(source, ms, i, false, a) == |source.blocks[a].content|
    requires EndIn(source, ms, i, false, b) <= |source.blocks[b].content|
    requires ms[i].lineEnd <= |source.blocks[ms[i].blockIndex].content|
    requires Spells(source, ms, i, a)
    ensures Spells(source, ms, i, b)
  {
    var blocks := source.blocks;
    GlobalInside(blocks, ms[i].blockIndex, b, ms[i].lineEnd);
    SpelledSoFar(source, ms, i, a);
    NextBlockText(blocks, b);
    NextSegmentText(source, ms, i, b);
    SliceAcross(DocumentText(blocks[..b]), blocks[b].content, Global(blocks, ms[i].blockIndex, ms[i].lineEnd),
                EndIn(source, ms, i, false, b));
  }

  lemma {:induction false} SpelledSoFar(source: Source, ms: seq<Marker>, i: nat, a: nat)
    requires source.Shaped() && i < |ms| && ms[i].blockIndex <= a < |source.blocks|
    requires EndIn(source, ms, i, false, a) == |source.blocks[a].content| && Spells(source, ms, i, a)
    ensures JoinText(source.blocks, SegmentsTo(source, ms, i, false, a + 1))
         == Slice(DocumentText(source.blocks[..a + 1]), Global(source.blocks, ms[i].blockIndex, ms[i].lineEnd),
                  |DocumentText(source.blocks[..a + 1])|)
  {
    NextBlockText(source.blocks, a);
  }

  lemma {:induction false} SegmentsSpellDocument(source: Source, ms: seq<Marker>, i: nat, b: nat)
    requires source.Shaped() && DistinctBlocks(source.blocks) && i < |ms|
    requires ms[i].blockIndex <= b <= LastBlock(source, ms, i) < |source.blocks|
    requires ms[i].lineEnd <= |source.blocks[ms[i].blockIndex].content|
    requires i + 1 < |ms| ==> ms[i + 1].markerStart <= |source.blocks[ms[i + 1].blockIndex].content|
    ensures Spells(source, ms, i, b)
    decreases b
  {
    EndInBlock(source, ms, i, b);
    if b == ms[i].blockIndex {
      SpellFirst(source, ms, i, b);
    } else {
      SegmentsSpellDocument(source, ms, i, b - 1);
      SpellStep(source, ms, i, b);
    }
  }

  lemma {:induction false} SpellStep(source: Source, ms: seq<Marker>, i: nat, b: nat)
    requires source.Shaped() && DistinctBlocks(source.blocks) && i < |ms|
    requires ms[i].blockIndex < b <= LastBlock(source, ms, i) < |source.blocks|
    requires ms[i].lineEnd <= |source.blocks[ms[i].blockIndex].content|
    requires i + 1 < |ms| ==> ms[i + 1].markerStart <= |source.blocks[ms[i + 1].blockIndex].content|
    requires Spells(source, ms, i, b - 1)
    ensures Spells(source, ms, i, b)
  {
    EndInBlock(source, ms, i, b - 1);
    EndInBlock(source, ms, i, b);
    SpellNext(source, ms, i, b - 1, b);
  }

  /** A clause takes all of every block before the one of the next marker. */
  lemma {:induction false} EndInBlock(source: Source, ms: seq<Marker>, i: nat, b: nat)
    requires source.Shaped() && i < |ms| && b <= LastBlock(source, ms, i) < |source.blocks|
    requires i + 1 < |ms| ==> ms[i + 1].markerStart <= |source.blocks[ms[i + 1].blockIndex].content|
    ensures EndIn(source, ms, i, false, b) <= |source.blocks[b].content|
    ensures b < LastBlock(source, ms, i) ==> EndIn(source, ms, i, false, b) == |source.blocks[b].content|
  {
  }

  lemma {:induction false} SliceAfter(a: string, c: string, start: nat, end: nat)
    requires start <= |c| && end <= |c|
    ensures Slice(a + c, |a| + start, |a| + end) == Slice(c, start, end)
  {}

  lemma {:induction false} SliceAcross(a: string, c: string, start: nat, end: nat)
    requires start <= |a| && end <= |c|
    ensures Slice(a + c, start, |a| + end) == Slice(a, start, |a|) + Slice(c, 0, end)
  {}

  lemma {:induction false} GlobalInside(blocks: seq<Block>, a: nat, b: nat, offset: nat)
    requires a < b <= |blocks| && offset <= |blocks[a].content|
    ensures Global(blocks, a, offset) <= |DocumentText(blocks[..b])|
  {
    assert blocks[..b][..b - 1] == blocks[..b - 1];
    if a < b - 1 { GlobalInside(blocks, a, b - 1, offset); }
  }

  lemma {:induction false} DocumentPrefix(blocks: seq<Block>, n: nat)
    requires n <= |blocks|
    ensures DocumentText(blocks[..n]) <= DocumentText(blocks)
    decreases |blocks| - n
  {
    if n < |blocks| {
      assert blocks[..n + 1][..n] == blocks[..n];
      DocumentPrefix(blocks, n + 1);
    } else {
      assert blocks[..n] == blocks;
    }
  }

  /** The document's text between the end of a marker line and the next marker, or the end. */
  function TextBetween(blocks: seq<Block>, ms: seq<Marker>, i: nat): string
    requires i < |ms| && forall k :: 0 <= k < |ms| ==> ms[k].blockIndex < |blocks|
  {
    Slice(DocumentText(blocks),
          Global(blocks, ms[i].blockIndex, ms[i].lineEnd),
          EndOfText(blocks, ms, i))
  }

  lemma {:induction false} SlicePrefix(prefix: string, s: string, start: nat, end: nat)
    requires prefix <= s && end <= |prefix|
    ensures Slice(prefix, start, end) == Slice(s, start, end)
  {}

  lemma {:induction false} SegmentsSpellTextBetween(source: Source, ms: seq<Marker>, i: nat)
    requires source.Valid() && MarkersInOrder(source, ms) && i < |ms|
    ensures JoinText(source.blocks, SegmentsOf(source, ms, i, false)) == TextBetween(source.blocks, ms, i)
  {
    var n := LastBlock(source, ms, i);
    assert MarkerInside(source, ms[i]);
    assert i + 1 < |ms| ==> Before(ms[i], ms[i + 1]) && MarkerInside(source, ms[i + 1]);
    SegmentsSpellDocument(source, ms, i, n);
    SpellingEndsAtNextMarker(source, ms, i, n);
    SlicePrefix(DocumentText(source.blocks[..n + 1]), DocumentText(source.blocks),
                Global(source.blocks, ms[i].blockIndex, ms[i].lineEnd), EndOfText(source.blocks, ms, i));
  }

  /** The offset in the document of the next marker, or the end. */
  function EndOfText(blocks: seq<Block>, ms: seq<Marker>, i: nat): nat
    requires i < |ms| && forall k :: 0 <= k < |ms| ==> ms[k].blockIndex < |blocks|
  {
    if i + 1 < |ms| then Global(blocks, ms[i + 1].blockIndex, ms[i + 1].markerStart) else |DocumentText(blocks)|
  }

  lemma {:induction false} SpellingEndsAtNextMarker(source: Source, ms: seq<Marker>, i: nat, n: nat)
    requires source.Shaped() && i < |ms| && n == LastBlock(source, ms, i) < |source.blocks|
    requires forall k :: 0 <= k < |ms| ==> ms[k].blockIndex < |source.blocks|
    requires i + 1 < |ms| ==> ms[i + 1].markerStart <= |source.blocks[ms[i + 1].blockIndex].content|
    ensures |DocumentText(source.blocks[..n])| + EndIn(source, ms, i, false, n) == EndOfText(source.blocks, ms, i)
    ensures EndOfText(source.blocks, ms, i) <= |DocumentText(source.blocks[..n + 1])|
    ensures DocumentText(source.blocks[..n + 1]) <= DocumentText(source.blocks)
  {
    NextBlockText(source.blocks, n);
    DocumentPrefix(source.blocks, n + 1);
    if i + 1 == |ms| { assert source.blocks[..n + 1] == source.blocks; }
  }

  /** The content of a located clause is the document's text between its marker line and the next
      marker, with the white space at both ends removed.  It may span blocks; no character is added
      or lost. */
  lemma {:induction false} LocatedContentIsTextBetweenMarkers(source: Source, i: nat)
    requires source.Valid() && i < |MarkersOf(source)|
    ensures MarkersInOrder(source, MarkersOf(source))
    ensures LocatedAt(source, MarkersOf(source), i, false).content
         == Strip(TextBetween(source.blocks, MarkersOf(source), i))
  {
    MarkersAreInOrder(source, |source.blocks|);
    var ms := MarkersOf(source);
    SegmentsInside(source, ms, i, false, LastBlock(source, ms, i) + 1);
    TrimmedTextIsStripped(source.blocks, SegmentsOf(source, ms, i, false));
    SegmentsSpellTextBetween(source, ms, i);
  }

  /** The text of clause `i` in the block of its marker. */
  function OwnText(source: Source, ms: seq<Marker>, i: nat, stop: bool): string
    requires source.Shaped() && i < |ms| && ms[i].blockIndex < |source.blocks|
  {
    Slice(source.blocks[ms[i].blockIndex].content, ms[i].lineEnd, EndIn(source, ms, i, stop, ms[i].blockIndex))
  }

  /** The document's text from the block after the marker's up to the next marker, if it is so far. */
  function LaterText(blocks: seq<Block>, ms: seq<Marker>, i: nat): string
    requires i < |ms| && forall k :: 0 <= k < |ms| ==> ms[k].blockIndex < |blocks|
  {
    Slice(DocumentText(blocks), Global(blocks, ms[i].blockIndex + 1, 0), EndOfText(blocks, ms, i))
  }

  lemma {:induction false} OwnSegmentText(source: Source, ms: seq<Marker>, i: nat, stop: bool)
    requires source.Valid() && MarkersInOrder(source, ms) && i < |ms|
    ensures JoinText(source.blocks, OwnSegment(source, ms, i, stop)) == OwnText(source, ms, i, stop)
  {
    assert MarkerInside(source, ms[i]);
    assert i + 1 < |ms| ==> MarkerInside(source, ms[i + 1]);
    ContentOfBlock(source.blocks, ms[i].blockIndex);
    var own := OwnSegment(source, ms, i, stop);
    if own != [] {
      assert JoinText(source.blocks, own) == TextOf(source.blocks, own[0]) + JoinText(source.blocks, []);
    }
  }

  lemma {:induction false} SegmentsText(source: Source, ms: seq<Marker>, i: nat, stop: bool)
    requires source.Valid() && MarkersInOrder(source, ms) && i < |ms|
    ensures 0 <= LastBlock(source, ms, i) < |source.blocks|
    ensures JoinText(source.blocks, SegmentsOf(source, ms, i, stop))
         == OwnText(source, ms, i, stop)
            + JoinText(source.blocks, LaterSegments(source, ms, i, LastBlock(source, ms, i) + 1))
  {
    hide SegmentsTo, LaterSegments, OwnSegment, OwnText, JoinText;
    assert MarkerInside(source, ms[i]);
    assert i + 1 < |ms| ==> Before(ms[i], ms[i + 1]) && MarkerInside(source, ms[i + 1]);
    var n := LastBlock(source, ms, i) + 1;
    SegmentsSplit(source, ms, i, stop, n);
    JoinConcat(source.blocks, OwnSegment(source, ms, i, stop), LaterSegments(source, ms, i, n));
    OwnSegmentText(source, ms, i, stop);
  }

  lemma {:induction false} SliceSplit(s: string, a: nat, m: nat, b: nat)
    requires a <= m && m <= |s| && b <= |s|
    ensures Slice(s, a, b) == Slice(s, a, Min(m, b)) + Slice(s, m, b)
  {}

  lemma {:induction false} SameSuffix(a: string, b: string, c: string)
    requires a + b == a + c
    ensures b == c
  {
    assert b == (a + b)[|a|..] && c == (a + c)[|a|..];
  }

  /** The text between a marker line and the next marker is the rest of the marker's block, or what
      precedes the next marker in it, and then the later text. */
  lemma {:induction false} TextBetweenSplits(source: Source, ms: seq<Marker>, i: nat)
    requires source.Valid() && MarkersInOrder(source, ms) && i < |ms|
    ensures TextBetween(source.blocks, ms, i) == OwnText(source, ms, i, false) + LaterText(source.blocks, ms, i)
  {
    var blocks, b := source.blocks, ms[i].blockIndex;
    assert MarkerInside(source, ms[i]);
    assert i + 1 < |ms| ==> Before(ms[i], ms[i + 1]) && MarkerInside(source, ms[i + 1]);
    NextBlockText(blocks, b);
    DocumentPrefix(blocks, b + 1);
    EndOfTextInside(source, ms, i);
    SliceSplit(DocumentText(blocks), Global(blocks, b, ms[i].lineEnd), Global(blocks, b + 1, 0),
        EndOfText(blocks, ms, i));
    var end := EndIn(source, ms, i, false, b);
    assert Min(Global(blocks, b + 1, 0), EndOfText(blocks, ms, i)) == Global(blocks, b, end) by {
      OwnEnd(source, ms, i);
    }
    SliceAfter(DocumentText(blocks[..b]), blocks[b].content, ms[i].lineEnd, end);
    SlicePrefix(DocumentText(blocks[..b + 1]), DocumentText(blocks), Global(blocks, b, ms[i].lineEnd),
        Global(blocks, b, end));
  }

  lemma {:induction false} EndOfTextInside(source: Source, ms: seq<Marker>, i: nat)
    requires source.Valid() && MarkersInOrder(source, ms) && i < |ms|
    ensures EndOfText(source.blocks, ms, i) <= |DocumentText(source.blocks)|
  {
    if i + 1 < |ms| {
      var c := ms[i + 1].blockIndex;
      assert MarkerInside(source, ms[i + 1]);
      NextBlockText(source.blocks, c);
      DocumentPrefix(source.blocks, c + 1);
    }
  }

  lemma {:induction false} OwnEnd(source: Source, ms: seq<Marker>, i: nat)
    requires source.Valid() && MarkersInOrder(source, ms) && i < |ms|
    ensures var b := ms[i].blockIndex;
            Min(Global(source.blocks, b + 1, 0), EndOfText(source.blocks, ms, i))
            == Global(source.blocks, b, EndIn(source, ms, i, false, b))
  {
    var blocks, b := source.blocks, ms[i].blockIndex;
    NextBlockText(blocks, b);
    DocumentPrefix(blocks, b + 1);
    if i + 1 < |ms| {
      var c := ms[i + 1].blockIndex;
      assert Before(ms[i], ms[i + 1]) && MarkerInside(source, ms[i + 1]);
      if b < c { DocumentGrows(blocks, b + 1, c); }
    }
  }

  lemma {:induction false} DocumentGrows(blocks: seq<Block>, a: nat, b: nat)
    requires a <= b <= |blocks|
    ensures |DocumentText(blocks[..a])| <= |DocumentText(blocks[..b])|
  {
    if a < b {
      DocumentGrows(blocks, a, b - 1);
      NextBlockText(blocks, b - 1);
    }
  }

  /** The parts in later blocks spell the later text. */
  lemma {:induction false} LaterSegmentsSpell(source: Source, ms: seq<Marker>, i: nat)
    requires source.Valid() && MarkersInOrder(source, ms) && i < |ms|
    ensures 0 <= LastBlock(source, ms, i) < |source.blocks|
    ensures JoinText(source.blocks, LaterSegments(source, ms, i, LastBlock(source, ms, i) + 1))
         == LaterText(source.blocks, ms, i)
  {
    SegmentsText(source, ms, i, false);
    SegmentsSpellTextBetween(source, ms, i);
    TextBetweenSplits(source, ms, i);
    SameSuffix(OwnText(source, ms, i, false),
               JoinText(source.blocks, LaterSegments(source, ms, i, LastBlock(source, ms, i) + 1)),
               LaterText(source.blocks, ms, i));
  }

  /** With or without the stop at a business heading, the content is the clause's text in the block of
      its marker, cut at the heading if there is one and the stop is on, followed by the document's
      later text up to the next marker, stripped.  A heading in a later block cuts nothing. */
  lemma {:induction false} LocatedContentIsOwnAndLaterText(source: Source, i: nat, stop: bool)
    requires source.Valid() && i < |MarkersOf(source)|
    ensures MarkersInOrder(source, MarkersOf(source))
    ensures LocatedAt(source, MarkersOf(source), i, stop).content
         == Strip(OwnText(source, MarkersOf(source), i, stop) + LaterText(source.blocks, MarkersOf(source), i))
  {
    MarkersAreInOrder(source, |source.blocks|);
    var ms := MarkersOf(source);
    SegmentsInside(source, ms, i, stop, LastBlock(source, ms, i) + 1);
    TrimmedTextIsStripped(source.blocks, SegmentsOf(source, ms, i, stop));
    SegmentsText(source, ms, i, stop);
    LaterSegmentsSpell(source, ms, i);
  }

  /** A located clause begins with a non-blank character of a block. */
  lemma {:induction false} LocatedStartsOnText(source: Source, ms: seq<Marker>, i: nat, stop: bool)
    requires source.Valid() && MarkersInOrder(source, ms) && i < |ms|
    requires Filled(source, ms, i, stop)
    ensures var spans := LocatedAt(source, ms, i, stop).spans;
            && spans != [] && AllInside(source.blocks, spans)
            && !IsSpace(ContentOf(source.blocks, spans[0].blockId)[spans[0].start])
  {
    var segments := SegmentsOf(source, ms, i, stop);
    SegmentsInside(source, ms, i, stop, LastBlock(source, ms, i) + 1);
    TrimmedStartsOnText(source.blocks, segments);
  }

  lemma {:induction false} TrimmedStartsOnText(blocks: seq<Block>, segments: seq<ContentSpan>)
    requires AllInside(blocks, segments) && !Blank(JoinText(blocks, segments))
    ensures var spans := Trimmed(blocks, segments);
            && spans != [] && AllInside(blocks, spans)
            && !IsSpace(ContentOf(blocks, spans[0].blockId)[spans[0].start])
  {
    TrimmedTextIsStripped(blocks, segments);
    StrippedIsNotBlank(JoinText(blocks, segments));
    FirstCharacter(blocks, Trimmed(blocks, segments));
  }

  lemma {:induction false} FirstCharacter(blocks: seq<Block>, spans: seq<ContentSpan>)
    requires AllInside(blocks, spans) && spans != []
    ensures JoinText(blocks, spans) != ""
    ensures JoinText(blocks, spans)[0] == ContentOf(blocks, spans[0].blockId)[spans[0].start]
  {
    assert Inside(blocks, spans[0]);
    assert JoinText(blocks, spans) == TextOf(blocks, spans[0]) + JoinText(blocks, spans[1..]);
  }
}
