/** `decision_agent/evaluation/enterprise_kb_ground_truth.py`: where the text of each clause lies. */
module ClauseSpans {
  import opened Texts
  import opened FixedChunker

  datatype ContentSpan = ContentSpan(blockId: string, start: nat, end: nat)

  /** One match of the clause-marker pattern inside a block. */
  datatype MarkerMatch = MarkerMatch(clauseId: string, start: nat, end: nat)

  datatype Marker = Marker(clauseId: string, blockIndex: nat, markerStart: nat, markerEnd: nat, lineEnd: nat)

  /** The blocks of a document, with the pattern matches found in each. */
  datatype Source = Source(blocks: seq<Block>, matches: seq<seq<MarkerMatch>>, headings: seq<seq<nat>>) {
    predicate Shaped() { |matches| == |blocks| == |headings| }

    predicate Valid()
    {
      && Shaped()
      && DistinctBlocks(blocks)
      && forall b {:trigger MatchesIn(matches[b], headings[b], blocks[b].content)} :: 0 <= b < |blocks| ==>
          MatchesIn(matches[b], headings[b], blocks[b].content)
    }
  }

  predicate DistinctBlocks(blocks: seq<Block>)
  {
    forall i, j :: 0 <= i < j < |blocks| ==> blocks[i].blockId != blocks[j].blockId
  }

  /** What `finditer` can give for the markers and for the business headings of one block. */
  predicate MatchesIn(ms: seq<MarkerMatch>, hs: seq<nat>, content: string)
  {
    && (forall i :: 0 <= i < |ms| ==> ms[i].start < ms[i].end <= |content|)
    && (forall i, j :: 0 <= i < j < |ms| ==> ms[i].end <= ms[j].start)
    && (forall i :: 0 <= i < |hs| ==> hs[i] < |content|)
    && (forall i, j :: 0 <= i < j < |hs| ==> hs[i] < hs[j])
  }

  // ---------------------------------------------------------------- trimming

  /** `block_by_id[id].content` */
  function ContentOf(blocks: seq<Block>, id: string): string
  {
    if blocks == [] then ""
    else if blocks[|blocks| - 1].blockId == id then blocks[|blocks| - 1].content
    else ContentOf(blocks[..|blocks| - 1], id)
  }

  lemma {:induction false} ContentOfBlock(blocks: seq<Block>, b: nat)
    requires DistinctBlocks(blocks) && b < |blocks|
    ensures ContentOf(blocks, blocks[b].blockId) == blocks[b].content
  {
    if b < |blocks| - 1 { ContentOfBlock(blocks[..|blocks| - 1], b); }
  }

  function TextOf(blocks: seq<Block>, span: ContentSpan): string
  {
    Slice(ContentOf(blocks, span.blockId), span.start, span.end)
  }

  function JoinText(blocks: seq<Block>, spans: seq<ContentSpan>): string
  {
    if spans == [] then "" else TextOf(blocks, spans[0]) + JoinText(blocks, spans[1..])
  }

  /** A span is a non-empty part of its block. */
  predicate Inside(blocks: seq<Block>, span: ContentSpan)
  {
    span.start < span.end <= |ContentOf(blocks, span.blockId)|
  }

  predicate AllInside(blocks: seq<Block>, spans: seq<ContentSpan>)
  {
    forall i :: 0 <= i < |spans| ==> Inside(blocks, spans[i])
  }

  function TrimFront(blocks: seq<Block>, spans: seq<ContentSpan>): seq<ContentSpan>
  {
    if spans == [] then []
    else
      var stripped := LStrip(TextOf(blocks, spans[0]));
      if stripped != "" then [spans[0].(start := spans[0].end - |stripped|)] + spans[1..]
      else TrimFront(blocks, spans[1..])
  }

  function TrimBack(blocks: seq<Block>, spans: seq<ContentSpan>): seq<ContentSpan>
  {
    if spans == [] then []
    else
      var last := spans[|spans| - 1];
      var stripped := RStrip(TextOf(blocks, last));
      if stripped != "" then spans[..|spans| - 1] + [last.(end := last.start + |stripped|)]
      else TrimBack(blocks, spans[..|spans| - 1])
  }

  function Trimmed(blocks: seq<Block>, spans: seq<ContentSpan>): seq<ContentSpan>
  {
    TrimBack(blocks, TrimFront(blocks, spans))
  }

  lemma {:induction false} JoinConcat(blocks: seq<Block>, a: seq<ContentSpan>, b: seq<ContentSpan>)
    ensures JoinText(blocks, a + b) == JoinText(blocks, a) + JoinText(blocks, b)
  {
    if a == [] {
      assert a + b == b;
    } else {
      assert (a + b)[1..] == a[1..] + b;
      JoinConcat(blocks, a[1..], b);
    }
  }

  /** Stripping a text whose stripped part does not vanish leaves what follows it alone. */
  lemma {:induction false} LStripConcat(s: string, t: string)
    ensures LStrip(s + t) == if LStrip(s) != "" then LStrip(s) + t else LStrip(t)
  {
    if s == "" {
      assert s + t == t;
    } else if IsSpace(s[0]) {
      assert (s + t)[1..] == s[1..] + t;
      LStripConcat(s[1..], t);
    }
  }

  lemma {:induction false} RStripConcat(s: string, t: string)
    ensures RStrip(s + t) == if RStrip(t) != "" then s + RStrip(t) else RStrip(s)
  {
    if t == "" {
      assert s + t == s;
    } else if IsSpace(t[|t| - 1]) {
      assert (s + t)[..|s + t| - 1] == s + t[..|t| - 1];
      RStripConcat(s, t[..|t| - 1]);
    }
  }

  lemma {:induction false} LStripSuffixSpan(content: string, start: nat, end: nat)
    requires start <= end <= |content|
    ensures var stripped := LStrip(content[start..end]);
            content[end - |stripped|..end] == stripped
  {
    LStripSplits(content[start..end]);
  }

  lemma {:induction false} RStripPrefixSpan(content: string, start: nat, end: nat)
    requires start <= end <= |content|
    ensures var stripped := RStrip(content[start..end]);
            content[start..start + |stripped|] == stripped
  {
    RStripSplits(content[start..end]);
  }

  lemma {:induction false} TrimFrontStrips(blocks: seq<Block>, spans: seq<ContentSpan>)
    requires AllInside(blocks, spans)
    ensures JoinText(blocks, TrimFront(blocks, spans)) == LStrip(JoinText(blocks, spans))
    ensures AllInside(blocks, TrimFront(blocks, spans))
  {
    if spans != [] {
      var span, rest := spans[0], spans[1..];
      LStripConcat(TextOf(blocks, span), JoinText(blocks, rest));
      var stripped := LStrip(TextOf(blocks, span));
      if stripped != "" {
        LStripSuffixSpan(ContentOf(blocks, span.blockId), span.start, span.end);
        var first := span.(start := span.end - |stripped|);
        assert ([first] + rest)[1..] == rest;
      } else {
        TrimFrontStrips(blocks, rest);
      }
    }
  }

  /** Trimming the back strips the back of the text. */
  predicate BackStripped(blocks: seq<Block>, spans: seq<ContentSpan>)
  {
    && JoinText(blocks, TrimBack(blocks, spans)) == RStrip(JoinText(blocks, spans))
    && AllInside(blocks, TrimBack(blocks, spans))
  }

  lemma {:induction false} TrimBackStrips(blocks: seq<Block>, spans: seq<ContentSpan>)
    requires AllInside(blocks, spans)
    ensures BackStripped(blocks, spans)
  {
    if spans != [] {
      var rest, last := spans[..|spans| - 1], spans[|spans| - 1];
      assert spans == rest + [last];
      if RStrip(TextOf(blocks, last)) == "" {
        TrimBackStrips(blocks, rest);
        PopKeepsStripped(blocks, rest, last);
      } else {
        CutIsStripped(blocks, rest, last);
      }
    }
  }

  /** A span whose end is moved back over white space. */
  function Cut(blocks: seq<Block>, last: ContentSpan): ContentSpan
  {
    last.(end := last.start + |RStrip(TextOf(blocks, last))|)
  }

  lemma {:induction false} TrimBackOfLast(blocks: seq<Block>, rest: seq<ContentSpan>, last: ContentSpan)
    ensures TrimBack(blocks, rest + [last])
         == if RStrip(TextOf(blocks, last)) != "" then rest + [Cut(blocks, last)] else TrimBack(blocks, rest)
  {
    assert (rest + [last])[..|rest|] == rest;
  }

  lemma {:induction false} PopKeepsStripped(blocks: seq<Block>, rest: seq<ContentSpan>, last: ContentSpan)
    requires RStrip(TextOf(blocks, last)) == "" && BackStripped(blocks, rest)
    ensures BackStripped(blocks, rest + [last])
  {
    TrimBackOfLast(blocks, rest, last);
    JoinLast(blocks, rest, last);
    RStripConcat(JoinText(blocks, rest), TextOf(blocks, last));
  }

  lemma {:induction false} CutIsStripped(blocks: seq<Block>, rest: seq<ContentSpan>, last: ContentSpan)
    requires RStrip(TextOf(blocks, last)) != "" && AllInside(blocks, rest) && Inside(blocks, last)
    ensures BackStripped(blocks, rest + [last])
  {
    TrimBackOfLast(blocks, rest, last);
    JoinLast(blocks, rest, last);
    RStripConcat(JoinText(blocks, rest), TextOf(blocks, last));
    CutSpan(blocks, last);
    JoinLast(blocks, rest, Cut(blocks, last));
  }

  lemma {:induction false} JoinLast(blocks: seq<Block>, rest: seq<ContentSpan>, last: ContentSpan)
    ensures JoinText(blocks, rest + [last]) == JoinText(blocks, rest) + TextOf(blocks, last)
  {
    JoinConcat(blocks, rest, [last]);
    assert JoinText(blocks, [last]) == TextOf(blocks, last);
  }

  lemma {:induction false} CutSpan(blocks: seq<Block>, last: ContentSpan)
    requires Inside(blocks, last) && RStrip(TextOf(blocks, last)) != ""
    ensures Inside(blocks, Cut(blocks, last)) && TextOf(blocks, Cut(blocks, last)) == RStrip(TextOf(blocks, last))
  {
    RStripPrefixSpan(ContentOf(blocks, last.blockId), last.start, last.end);
  }

  /** Trimming the spans strips the text they spell, and keeps every span inside its block. */
  lemma {:induction false} TrimmedTextIsStripped(blocks: seq<Block>, spans: seq<ContentSpan>)
    requires AllInside(blocks, spans)
    ensures JoinText(blocks, Trimmed(blocks, spans)) == Strip(JoinText(blocks, spans))
    ensures AllInside(blocks, Trimmed(blocks, spans))
    ensures Trimmed(blocks, spans) == [] <==> Blank(JoinText(blocks, spans))
  {
    TrimFrontStrips(blocks, spans);
    TrimBackStrips(blocks, TrimFront(blocks, spans));
    var text := JoinText(blocks, spans);
    LStripSplits(text);
    RStripSplits(LStrip(text));
    if Blank(text) { RStripSplits(""); }
    BlankStrip(text);
    EmptyJoin(blocks, Trimmed(blocks, spans));
  }

  lemma {:induction false} BlankStrip(s: string)
    ensures Strip(s) == "" <==> Blank(s)
  {
    LStripSplits(s);
    RStripSplits(LStrip(s));
    if LStrip(s) != "" { assert !Blank(LStrip(s)); }
  }

  lemma {:induction false} EmptyJoin(blocks: seq<Block>, spans: seq<ContentSpan>)
    requires AllInside(blocks, spans)
    ensures JoinText(blocks, spans) == "" <==> spans == []
  {
    if spans != [] { assert |TextOf(blocks, spans[0])| == spans[0].end - spans[0].start; }
  }

  /** The first loop of `_trim_segments`. */
  method PopBlankFront(blocks: seq<Block>, segments: seq<ContentSpan>) returns (spans: seq<ContentSpan>)
    ensures spans == TrimFront(blocks, segments)
  {
    spans := segments;
    while spans != []
      invariant TrimFront(blocks, spans) == TrimFront(blocks, segments)
      decreases |spans|
    {
      var stripped := LStrip(TextOf(blocks, spans[0]));
      if stripped != "" {
        return [spans[0].(start := spans[0].end - |stripped|)] + spans[1..];
      }
      spans := spans[1..];
    }
  }

  /** The second loop of `_trim_segments`. */
  method PopBlankBack(blocks: seq<Block>, segments: seq<ContentSpan>) returns (spans: seq<ContentSpan>)
    ensures spans == TrimBack(blocks, segments)
  {
    spans := segments;
    while spans != []
      invariant TrimBack(blocks, spans) == TrimBack(blocks, segments)
      decreases |spans|
    {
      var last := spans[|spans| - 1];
      var stripped := RStrip(TextOf(blocks, last));
      if stripped != "" {
        return spans[..|spans| - 1] + [last.(end := last.start + |stripped|)];
      }
      spans := spans[..|spans| - 1];
    }
  }

  /** Pop blank segments off both ends and shorten the first and the last that are left; the closing
      filter on empty spans never drops one. */
  method TrimSegments(blocks: seq<Block>, segments: seq<ContentSpan>) returns (trimmed: seq<ContentSpan>)
    requires AllInside(blocks, segments)
    ensures trimmed == Trimmed(blocks, segments)
  {
    var front := PopBlankFront(blocks, segments);
    var spans := PopBlankBack(blocks, front);
    TrimmedTextIsStripped(blocks, segments);
    forall i | 0 <= i < |spans| ensures spans[i].start < spans[i].end { assert Inside(blocks, spans[i]); }
    trimmed := DropEmpty(spans);
  }

  /** The closing filter. */
  method DropEmpty(spans: seq<ContentSpan>) returns (kept: seq<ContentSpan>)
    ensures (forall i :: 0 <= i < |spans| ==> spans[i].start < spans[i].end) ==> kept == spans
    ensures forall s :: s in kept <==> s in spans && s.start < s.end
  {
    kept := [];
    for i := 0 to |spans|
      invariant (forall k :: 0 <= k < |spans| ==> spans[k].start < spans[k].end) ==> kept == spans[..i]
      invariant forall s :: s in kept <==> s in spans[..i] && s.start < s.end
    {
      assert spans[..i + 1] == spans[..i] + [spans[i]];
      if spans[i].end > spans[i].start {
        kept := kept + [spans[i]];
      }
    }
    assert spans[..|spans|] == spans;
  }
}
