/** `decision_agent/context/conversation_memory.py` and the estimator of `token_budget.py`: project a
    session into one bounded, marker-free text. */
module MemoryProjection {
  import opened Texts
  import opened Neutralization

  datatype Turn = Turn(userText: string, assistantText: string)

  datatype Snapshot = Snapshot(turns: seq<Turn>, summary: Option<string>)

  datatype Projection = Projection(content: string, estimatedTokens: nat)

  // ---------------------------------------------------------------- tokens

  predicate IsAscii(c: char) { c < '\U{0080}' }

  function AsciiCount(s: string): (n: nat)
    ensures n <= |s|
  {
    if s == "" then 0 else (if IsAscii(s[0]) then 1 else 0) + AsciiCount(s[1..])
  }

  /** Four ASCII characters or one other character for a token, rounded up: `ceil(a / 4 + n)`. */
  function Estimate(s: string): nat
  {
    if s == "" then 0
    else
      var ascii := AsciiCount(s);
      Max(1, (ascii + 4 * (|s| - ascii) + 3) / 4)
  }

  /** Quarter tokens. */
  function Weight(s: string): nat { AsciiCount(s) + 4 * (|s| - AsciiCount(s)) }

  lemma {:induction false} AsciiConcat(a: string, b: string)
    ensures AsciiCount(a + b) == AsciiCount(a) + AsciiCount(b)
    ensures Weight(a + b) == Weight(a) + Weight(b)
  {
    if a == "" {
      assert a + b == b;
    } else {
      assert (a + b)[1..] == a[1..] + b;
      AsciiConcat(a[1..], b);
    }
  }

  /** The estimate is the weight in whole tokens, rounded up, so it grows with the weight and bounds
      the length. */
  lemma {:induction false} EstimateFollowsWeight(s: string)
    ensures Estimate(s) == (Weight(s) + 3) / 4
    ensures |s| <= Weight(s) <= 4 * Estimate(s)
  {}

  // ---------------------------------------------------------------- rendering

  function TurnLines(t: Turn): seq<string>
  {
    ["<HISTORICAL_TURN>", "<HISTORICAL_USER>", Neutralize(t.userText), "</HISTORICAL_USER>",
     "<HISTORICAL_ASSISTANT>", Neutralize(t.assistantText), "</HISTORICAL_ASSISTANT>", "</HISTORICAL_TURN>"]
  }

  function AllTurnLines(turns: seq<Turn>): seq<string>
  {
    if turns == [] then [] else AllTurnLines(turns[..|turns| - 1]) + TurnLines(turns[|turns| - 1])
  }

  function HeadLines(summary: Option<string>): seq<string>
  {
    ["<UNTRUSTED_CONVERSATION_MEMORY>"]
    + (if summary.Some? then ["<PREVIOUS_SUMMARY>", summary.value, "</PREVIOUS_SUMMARY>"] else [])
  }

  const TAIL: seq<string> := ["</UNTRUSTED_CONVERSATION_MEMORY>"]

  function Rendered(summary: Option<string>, turns: seq<Turn>): string
  {
    Join("\n", HeadLines(summary) + AllTurnLines(turns) + TAIL)
  }

  method Render(summary: Option<string>, turns: seq<Turn>) returns (text: string)
    ensures text == Rendered(summary, turns)
  {
    var sections := RenderHead(summary);
    assert sections == HeadLines(summary) + AllTurnLines(turns[..0]);
    for i := 0 to |turns|
      invariant sections == HeadLines(summary) + AllTurnLines(turns[..i])
    {
      assert turns[..i + 1][..i] == turns[..i];
      var lines := RenderTurn(turns[i]);
      sections := sections + lines;
    }
    assert turns[..|turns|] == turns;
    text := Join("\n", sections + TAIL);
  }

  method RenderHead(summary: Option<string>) returns (lines: seq<string>)
    ensures lines == HeadLines(summary)
  {
    lines := ["<UNTRUSTED_CONVERSATION_MEMORY>"];
    if summary.Some? {
      lines := lines + ["<PREVIOUS_SUMMARY>", summary.value, "</PREVIOUS_SUMMARY>"];
    }
  }

  method RenderTurn(turn: Turn) returns (lines: seq<string>)
    ensures lines == TurnLines(turn)
  {
    return [
      "<HISTORICAL_TURN>", "<HISTORICAL_USER>", Neutralize(turn.userText), "</HISTORICAL_USER>",
      "<HISTORICAL_ASSISTANT>", Neutralize(turn.assistantText), "</HISTORICAL_ASSISTANT>", "</HISTORICAL_TURN>"];
  }

  /** The lines of some turns, for any way to render one turn. */
  function Flat(f: Turn -> seq<string>, turns: seq<Turn>): seq<string>
  {
    if turns == [] then [] else Flat(f, turns[..|turns| - 1]) + f(turns[|turns| - 1])
  }

  lemma {:induction false} FlatConcat(f: Turn -> seq<string>, a: seq<Turn>, b: seq<Turn>)
    ensures Flat(f, a + b) == Flat(f, a) + Flat(f, b)
  {
    if b == [] {
      assert a + b == a;
    } else {
      assert (a + b)[..|a + b| - 1] == a + b[..|b| - 1];
      FlatConcat(f, a, b[..|b| - 1]);
    }
  }

  lemma {:induction false} AllTurnLinesAreFlat(turns: seq<Turn>)
    ensures AllTurnLines(turns) == Flat(TurnLines, turns)
  {
    if turns != [] { AllTurnLinesAreFlat(turns[..|turns| - 1]); }
  }

  lemma {:induction false} AllTurnLinesConcat(a: seq<Turn>, b: seq<Turn>)
    ensures AllTurnLines(a + b) == AllTurnLines(a) + AllTurnLines(b)
  {
    AllTurnLinesAreFlat(a);
    AllTurnLinesAreFlat(b);
    AllTurnLinesAreFlat(a + b);
    FlatConcat(TurnLines, a, b);
  }

  lemma {:induction false} InsertedLinesAddWeight(head: seq<string>, lines: seq<string>, rest: seq<string>)
    requires head != [] && lines != [] && rest != []
    ensures Weight(Join("\n", head + rest)) < Weight(Join("\n", head + (lines + rest)))
    ensures Weight(Join("\n", head + (lines + rest)))
         == Weight(Join("\n", head)) + Weight(Join("\n", lines)) + Weight(Join("\n", rest)) + 2
    ensures |Join("\n", head + (lines + rest))| == |Join("\n", head)| + |Join("\n", lines)| + |Join("\n", rest)| + 2
  {
    JoinLinesConcat(head, lines + rest);
    JoinLinesConcat(lines, rest);
    JoinLinesConcat(head, rest);
    var a, b, c := Join("\n", head), Join("\n", lines), Join("\n", rest);
    LineBreakWeight(a, c);
    LineBreakWeight(b, c);
    LineBreakWeight(a, b + "\n" + c);
  }

  lemma {:induction false} LineBreakWeight(a: string, b: string)
    ensures Weight(a + "\n" + b) == Weight(a) + 1 + Weight(b)
  {
    AsciiConcat(a + "\n", b);
    AsciiConcat(a, "\n");
    assert AsciiCount("\n") == 1;
  }

  lemma {:induction false} LinesGrow(summary: Option<string>, t: Turn, turns: seq<Turn>)
    ensures HeadLines(summary) + AllTurnLines([t] + turns) + TAIL
         == HeadLines(summary) + (TurnLines(t) + (AllTurnLines(turns) + TAIL))
    ensures HeadLines(summary) + AllTurnLines(turns) + TAIL == HeadLines(summary) + (AllTurnLines(turns) + TAIL)
  {
    FirstTurnLines(t, turns);
    Regroup(HeadLines(summary), TurnLines(t), AllTurnLines(turns), TAIL);
    Regroup(HeadLines(summary), [], AllTurnLines(turns), TAIL);
  }

  lemma {:induction false} FirstTurnLines(t: Turn, turns: seq<Turn>)
    ensures AllTurnLines([t] + turns) == TurnLines(t) + AllTurnLines(turns)
  {
    AllTurnLinesConcat([t], turns);
    assert AllTurnLines([t]) == AllTurnLines([]) + TurnLines(t);
  }

  lemma {:induction false} Regroup(a: seq<string>, b: seq<string>, c: seq<string>, d: seq<string>)
    ensures a + (b + c) + d == a + (b + (c + d))
  {
  }

  /** Rendering one more turn in front only adds weight. */
  lemma {:induction false} OneMoreTurn(summary: Option<string>, t: Turn, turns: seq<Turn>)
    ensures Weight(Rendered(summary, turns)) < Weight(Rendered(summary, [t] + turns))
  {
    LinesGrow(summary, t, turns);
    InsertedLinesAddWeight(HeadLines(summary), TurnLines(t), AllTurnLines(turns) + TAIL);
  }

  // ---------------------------------------------------------------- the suffix that fits

  /** What a run of turns costs; the estimator is the caller's. */
  type Cost = seq<Turn> -> nat

  /** Where the suffix starts that is reached by taking turns from the newest on while they fit. */
  function KeptFrom(cost: Cost, turns: seq<Turn>, allowance: nat, k: nat): (r: nat)
    requires k <= |turns|
    ensures r <= k
  {
    if k > 0 && cost(turns[k - 1..]) <= allowance then KeptFrom(cost, turns, allowance, k - 1) else k
  }

  /** Nothing can be projected: there is no memory, the summary alone is too long, or there is no
      summary and the newest turn alone is too long. */
  predicate NothingFits(cost: Cost, turns: seq<Turn>, hasSummary: bool, allowance: nat)
  {
    if hasSummary then cost([]) > allowance
    else turns == [] || cost(turns[|turns| - 1..]) > allowance
  }

  /** The two fitting tests and the loop of `project`. */
  method SelectSuffix(cost: Cost, turns: seq<Turn>, hasSummary: bool, allowance: nat) returns (r: Option<seq<Turn>>)
    requires hasSummary || turns != []
    ensures r == if NothingFits(cost, turns, hasSummary, allowance) then None
                 else Some(turns[KeptFrom(cost, turns, allowance, |turns|)..])
    ensures r.Some? ==> cost(r.value) <= allowance
  {
    var selected: seq<Turn> := [];
    if hasSummary && cost(selected) > allowance {
      return None;
    }
    var k: nat := |turns|;
    while k > 0
      invariant k <= |turns|
      invariant selected == turns[k..]
      invariant hasSummary ==> cost([]) <= allowance
      invariant k < |turns| ==> cost(selected) <= allowance && cost(turns[|turns| - 1..]) <= allowance
      invariant KeptFrom(cost, turns, allowance, |turns|) == KeptFrom(cost, turns, allowance, k)
    {
      var candidate := [turns[k - 1]] + selected;
      assert candidate == turns[k - 1..];
      if cost(candidate) > allowance {
        if selected == [] && !hasSummary {
          return None;
        }
        break;
      }
      selected := candidate;
      k := k - 1;
    }
    return Some(selected);
  }

  /** A longer run of turns never costs less. */
  ghost predicate Growing(cost: Cost)
  {
    forall t: Turn, turns: seq<Turn> :: cost(turns) <= cost([t] + turns)
  }

  lemma {:induction false} SuffixCostsLess(cost: Cost, turns: seq<Turn>, i: nat, j: nat)
    requires Growing(cost) && i <= j <= |turns|
    ensures cost(turns[j..]) <= cost(turns[i..])
    decreases j - i
  {
    if i < j {
      assert turns[i..] == [turns[i]] + turns[i + 1..];
      SuffixCostsLess(cost, turns, i + 1, j);
    }
  }

  lemma {:induction false} KeptFromStops(cost: Cost, turns: seq<Turn>, allowance: nat, k: nat)
    requires k <= |turns| && cost(turns[k..]) <= allowance
    ensures var r := KeptFrom(cost, turns, allowance, k);
            cost(turns[r..]) <= allowance && (r > 0 ==> cost(turns[r - 1..]) > allowance)
  {
    if k > 0 && cost(turns[k - 1..]) <= allowance { KeptFromStops(cost, turns, allowance, k - 1); }
  }

  /** The loop stops at the first suffix that does not fit, yet it finds the longest one of all: a
      suffix fits exactly when it is no longer than the one kept. */
  lemma {:induction false} KeptSuffixIsLongest(cost: Cost, turns: seq<Turn>, hasSummary: bool, allowance: nat, j: nat)
    requires Growing(cost) && !NothingFits(cost, turns, hasSummary, allowance)
    requires j <= |turns|
    ensures cost(turns[j..]) <= allowance <==> j >= KeptFrom(cost, turns, allowance, |turns|)
  {
    assert turns[|turns|..] == [];
    if !hasSummary { SuffixCostsLess(cost, turns, |turns| - 1, |turns|); }
    KeptFromStops(cost, turns, allowance, |turns|);
    var r := KeptFrom(cost, turns, allowance, |turns|);
    if j >= r {
      SuffixCostsLess(cost, turns, r, j);
    } else {
      SuffixCostsLess(cost, turns, j, r - 1);
    }
  }

  // ---------------------------------------------------------------- projection

  /** The checks of `ConversationMemoryProjection`. */
  ghost predicate Accepted(p: Projection)
  {
    1 <= |p.content| <= 20000 && p.estimatedTokens >= 1 && !HasMarker(p.content)
  }

  function SummaryText(snapshot: Snapshot): Option<string>
  {
    if snapshot.summary.None? then None else Some(Neutralize(snapshot.summary.value))
  }

  function MemoryCost(summary: Option<string>): Cost
  {
    turns => Estimate(Rendered(summary, turns))
  }

  /** The projection before it is checked. */
  function Projected(snapshot: Snapshot, allowance: nat): Option<Projection>
  {
    var summary := SummaryText(snapshot);
    var cost := MemoryCost(summary);
    if NothingFits(cost, snapshot.turns, summary.Some?, allowance) then None
    else
      var content := Rendered(summary, snapshot.turns[KeptFrom(cost, snapshot.turns, allowance, |snapshot.turns|)..]);
      Some(Projection(content, Estimate(content)))
  }

  /** Return the projection, or nothing.  The last budget check never drops a projection.  `raised`
      stands for the validation error of a projection that its own contract refuses. */
  method Project(snapshot: Snapshot, allowance: nat) returns (r: Option<Projection>, ghost raised: bool)
    requires allowance > 0
    ensures r == Projected(snapshot, allowance)
    ensures raised <==> r.Some? && !Accepted(r.value)
  {
    raised := false;
    if snapshot.summary.None? && snapshot.turns == [] {
      return None, false;
    }
    var summaryText := SummaryText(snapshot);
    var kept := SelectSuffix(MemoryCost(summaryText), snapshot.turns, summaryText.Some?, allowance);
    if kept.None? {
      return None, false;
    }
    var content := Render(summaryText, kept.value);
    var estimatedTokens := Estimate(content);
    if estimatedTokens > allowance {
      return None, false;
    }
    r := Some(Projection(content, estimatedTokens));
    raised := !Accepted(r.value);
  }

  // ---------------------------------------------------------------- what is kept

  lemma {:induction false} MemoryCostGrows(summary: Option<string>)
    ensures Growing(MemoryCost(summary))
  {
    forall t: Turn, turns: seq<Turn> ensures MemoryCost(summary)(turns) <= MemoryCost(summary)([t] + turns) {
      OneMoreTurn(summary, t, turns);
      EstimateFollowsWeight(Rendered(summary, turns));
      EstimateFollowsWeight(Rendered(summary, [t] + turns));
    }
  }

  /** A projection holds the summary and the longest suffix of turns that fits. */
  lemma {:induction false} KeepsLongestFittingSuffix(snapshot: Snapshot, allowance: nat) returns (k: nat)
    requires Projected(snapshot, allowance).Some?
    ensures k <= |snapshot.turns|
    ensures Projected(snapshot, allowance).value.content == Rendered(SummaryText(snapshot), snapshot.turns[k..])
    ensures forall j :: 0 <= j <= |snapshot.turns| ==>
              (MemoryCost(SummaryText(snapshot))(snapshot.turns[j..]) <= allowance <==> j >= k)
  {
    var cost := MemoryCost(SummaryText(snapshot));
    MemoryCostGrows(SummaryText(snapshot));
    k := KeptFrom(cost, snapshot.turns, allowance, |snapshot.turns|);
    forall j | 0 <= j <= |snapshot.turns| ensures cost(snapshot.turns[j..]) <= allowance <==> j >= k {
      KeptSuffixIsLongest(cost, snapshot.turns, SummaryText(snapshot).Some?, allowance, j);
    }
  }

  ghost predicate Clean(lines: seq<string>) { forall i :: 0 <= i < |lines| ==> !HasMarker(lines[i]) }

  lemma {:induction false} CleanConcat(a: seq<string>, b: seq<string>)
    requires Clean(a) && Clean(b)
    ensures Clean(a + b)
  {
  }

  lemma {:induction false} HeadIsClean(summary: Option<string>)
    requires summary.Some? ==> !HasMarker(summary.value)
    ensures Clean(HeadLines(summary)) && Clean(TAIL)
  {
    NoBracketNoMarker("<UNTRUSTED_CONVERSATION_MEMORY>");
    NoBracketNoMarker("<PREVIOUS_SUMMARY>");
    NoBracketNoMarker("</PREVIOUS_SUMMARY>");
    NoBracketNoMarker("</UNTRUSTED_CONVERSATION_MEMORY>");
  }

  lemma {:induction false} TurnIsClean(t: Turn)
    ensures Clean(TurnLines(t))
  {
    NeutralizedHasNoMarker(t.userText);
    NeutralizedHasNoMarker(t.assistantText);
    UserTagsAreClean();
    AssistantTagsAreClean();
    EightAreClean("<HISTORICAL_TURN>", "<HISTORICAL_USER>", Neutralize(t.userText), "</HISTORICAL_USER>",
                  "<HISTORICAL_ASSISTANT>", Neutralize(t.assistantText), "</HISTORICAL_ASSISTANT>",
                  "</HISTORICAL_TURN>");
  }

  lemma {:induction false} UserTagsAreClean()
    ensures !HasMarker("<HISTORICAL_TURN>") && !HasMarker("<HISTORICAL_USER>") && !HasMarker("</HISTORICAL_USER>")
  {
    NoBracketNoMarker("<HISTORICAL_TURN>");
    NoBracketNoMarker("<HISTORICAL_USER>");
    NoBracketNoMarker("</HISTORICAL_USER>");
  }

  lemma {:induction false} AssistantTagsAreClean()
    ensures !HasMarker("<HISTORICAL_ASSISTANT>") && !HasMarker("</HISTORICAL_ASSISTANT>")
              && !HasMarker("</HISTORICAL_TURN>")
  {
    NoBracketNoMarker("<HISTORICAL_ASSISTANT>");
    NoBracketNoMarker("</HISTORICAL_ASSISTANT>");
    NoBracketNoMarker("</HISTORICAL_TURN>");
  }

  lemma {:induction false} EightAreClean(
    a: string, b: string, c: string, d: string, e: string, f: string, g: string, h: string)
    requires !HasMarker(a) && !HasMarker(b) && !HasMarker(c) && !HasMarker(d)
    requires !HasMarker(e) && !HasMarker(f) && !HasMarker(g) && !HasMarker(h)
    ensures Clean([a, b, c, d, e, f, g, h])
  {
  }

  lemma {:induction false} TurnsAreClean(turns: seq<Turn>)
    ensures Clean(AllTurnLines(turns))
  {
    if turns != [] {
      TurnsAreClean(turns[..|turns| - 1]);
      TurnIsClean(turns[|turns| - 1]);
      CleanConcat(AllTurnLines(turns[..|turns| - 1]), TurnLines(turns[|turns| - 1]));
    }
  }

  lemma {:induction false} LinesHaveNoMarker(summary: Option<string>, turns: seq<Turn>)
    requires summary.Some? ==> !HasMarker(summary.value)
    ensures !HasMarker(Rendered(summary, turns))
  {
    HeadIsClean(summary);
    TurnsAreClean(turns);
    CleanConcat(HeadLines(summary), AllTurnLines(turns));
    CleanConcat(HeadLines(summary) + AllTurnLines(turns), TAIL);
    JoinedLinesHaveNoMarker(HeadLines(summary) + AllTurnLines(turns) + TAIL);
  }

  /** Projected memory never carries an evidence marker. */
  lemma {:induction false} ProjectionHasNoMarker(snapshot: Snapshot, allowance: nat)
    requires Projected(snapshot, allowance).Some?
    ensures !HasMarker(Projected(snapshot, allowance).value.content)
  {
    if snapshot.summary.Some? { NeutralizedHasNoMarker(snapshot.summary.value); }
    var cost := MemoryCost(SummaryText(snapshot));
    var k := KeptFrom(cost, snapshot.turns, allowance, |snapshot.turns|);
    LinesHaveNoMarker(SummaryText(snapshot), snapshot.turns[k..]);
  }

  // ---------------------------------------------------------------- when the contract can refuse a projection

  lemma {:induction false} RenderedIsNotEmpty(summary: Option<string>, turns: seq<Turn>)
    ensures |Rendered(summary, turns)| > 0
  {
    var lines := AllTurnLines(turns) + TAIL;
    assert HeadLines(summary) + AllTurnLines(turns) + TAIL == HeadLines(summary) + lines;
    JoinLinesConcat(HeadLines(summary), lines);
  }

  lemma {:induction false} ProjectionFits(snapshot: Snapshot, allowance: nat)
    requires Projected(snapshot, allowance).Some?
    ensures var p := Projected(snapshot, allowance).value;
            && p.estimatedTokens == Estimate(p.content) <= allowance
            && 1 <= |p.content| <= 4 * p.estimatedTokens
  {
    var summary := SummaryText(snapshot);
    var k := KeepsLongestFittingSuffix(snapshot, allowance);
    assert MemoryCost(summary)(snapshot.turns[k..]) <= allowance;
    RenderedIsNotEmpty(summary, snapshot.turns[k..]);
    EstimateFollowsWeight(Projected(snapshot, allowance).value.content);
  }

  /** Up to an allowance of 5000 tokens the projection's own contract always accepts it. */
  lemma {:induction false} SmallAllowanceNeverRaises(snapshot: Snapshot, allowance: nat)
    requires allowance <= 5000
    requires Projected(snapshot, allowance).Some?
    ensures Accepted(Projected(snapshot, allowance).value)
  {
    ProjectionFits(snapshot, allowance);
    ProjectionHasNoMarker(snapshot, allowance);
  }

  predicate AllAscii(s: string) { forall i :: 0 <= i < |s| ==> IsAscii(s[i]) }

  lemma {:induction false} AsciiWeight(s: string)
    requires AllAscii(s)
    ensures AsciiCount(s) == |s| == Weight(s)
  {
    if s != "" { AsciiWeight(s[1..]); }
  }

  lemma {:induction false} JoinedLines(lines: seq<string>, most: nat)
    requires forall i :: 0 <= i < |lines| ==> AllAscii(lines[i]) && |lines[i]| <= most
    ensures AllAscii(Join("\n", lines))
    ensures |Join("\n", lines)| <= |lines| * (most + 1)
  {
    if |lines| > 1 { JoinedLines(lines[1..], most); }
  }

  /** A text of `n` letters. */
  function Letters(n: nat): (s: string)
    ensures |s| == n && AllAscii(s) && '[' !in s
  {
    seq(n, _ => 'a')
  }

  const BEFORE: seq<string> := ["<HISTORICAL_TURN>", "<HISTORICAL_USER>"]

  function After(assistantText: string): seq<string>
  {
    ["</HISTORICAL_USER>", "<HISTORICAL_ASSISTANT>", Neutralize(assistantText), "</HISTORICAL_ASSISTANT>",
        "</HISTORICAL_TURN>"]
  }

  /** The characters that rendering adds to the user text of a single turn. */
  function Frame(): nat
  {
    |Join("\n", HeadLines(None))| + |Join("\n", BEFORE)| + |Join("\n", After("a"))| + |Join("\n", TAIL)| + 4
  }

  lemma {:induction false} NeutralizedLetters(n: nat)
    ensures Neutralize(Letters(n)) == Letters(n)
  {
    NoBracketNoMarker(Letters(n));
    NeutralizeIsIdentityWithoutMarkers(Letters(n));
  }

  lemma {:induction false} TurnLength(n: nat)
    ensures |Join("\n", TurnLines(Turn(Letters(n), "a")))| == |Join("\n", BEFORE)| + n + |Join("\n", After("a"))| + 2
    ensures TurnLines(Turn(Letters(n), "a")) == BEFORE + ([Letters(n)] + After("a"))
  {
    NeutralizedLetters(n);
    assert TurnLines(Turn(Letters(n), "a")) == BEFORE + ([Letters(n)] + After("a"));
    InsertedLinesAddWeight(BEFORE, [Letters(n)], After("a"));
  }

  /** Lines of at most 60 ASCII characters. */
  predicate ShortLines(lines: seq<string>)
  {
    forall i :: 0 <= i < |lines| ==> AllAscii(lines[i]) && |lines[i]| <= 60
  }

  predicate Short(s: string) { AllAscii(s) && |s| <= 60 }

  lemma {:induction false} HeadIsShort()
    ensures ShortLines(HeadLines(None))
  {
    assert HeadLines(None) == ["<UNTRUSTED_CONVERSATION_MEMORY>"];
    assert Short("<UNTRUSTED_CONVERSATION_MEMORY>");
  }

  lemma {:induction false} TailIsShort()
    ensures ShortLines(TAIL)
  {
    assert Short("</UNTRUSTED_CONVERSATION_MEMORY>");
  }

  lemma {:induction false} BeforeIsShort()
    ensures ShortLines(BEFORE)
  {
    assert Short("<HISTORICAL_TURN>");
    assert Short("<HISTORICAL_USER>");
  }

  lemma {:induction false} AfterIsShort()
    ensures ShortLines(After("a"))
  {
    NoBracketNoMarker("a");
    NeutralizeIsIdentityWithoutMarkers("a");
    EndTagsAreShort();
    FiveShort("</HISTORICAL_USER>", "<HISTORICAL_ASSISTANT>", Neutralize("a"), "</HISTORICAL_ASSISTANT>",
        "</HISTORICAL_TURN>");
  }

  lemma {:induction false} EndTagsAreShort()
    ensures Short("</HISTORICAL_USER>") && Short("<HISTORICAL_ASSISTANT>")
    ensures Short("</HISTORICAL_ASSISTANT>") && Short("</HISTORICAL_TURN>")
  {}

  lemma {:induction false} FiveShort(a: string, b: string, c: string, d: string, e: string)
    requires Short(a) && Short(b) && Short(c) && Short(d) && Short(e)
    ensures ShortLines([a, b, c, d, e])
  {}

  lemma {:induction false} FrameIsShort()
    ensures Frame() <= 1000
  {
    HeadIsShort();
    BeforeIsShort();
    AfterIsShort();
    TailIsShort();
    JoinedLines(HeadLines(None), 60);
    JoinedLines(BEFORE, 60);
    JoinedLines(After("a"), 60);
    JoinedLines(TAIL, 60);
  }

  lemma {:induction false} SingleTurnLines(t: Turn)
    ensures HeadLines(None) + AllTurnLines([t]) + TAIL == HeadLines(None) + (TurnLines(t) + TAIL)
  {
    LinesGrow(None, t, []);
    assert [t] + [] == [t];
    assert AllTurnLines([]) + TAIL == TAIL;
  }

  lemma {:induction false} LettersLength(n: nat)
    ensures |Rendered(None, [Turn(Letters(n), "a")])| == Frame() + n
  {
    var t := Turn(Letters(n), "a");
    SingleTurnLines(t);
    InsertedLinesAddWeight(HeadLines(None), TurnLines(t), TAIL);
    TurnLength(n);
  }

  lemma {:induction false} LettersAreAscii(n: nat)
    ensures AllAscii(Rendered(None, [Turn(Letters(n), "a")]))
  {
    var t := Turn(Letters(n), "a");
    SingleTurnLines(t);
    TurnLength(n);
    HeadIsShort();
    BeforeIsShort();
    AfterIsShort();
    TailIsShort();
    AllLinesAscii(HeadLines(None), BEFORE, Letters(n), After("a"), TAIL);
    JoinedLines(HeadLines(None) + ((BEFORE + ([Letters(n)] + After("a"))) + TAIL), 60 + n);
  }

  lemma {:induction false} AllLinesAscii(a: seq<string>, b: seq<string>, c: string, d: seq<string>, e: seq<string>)
    requires ShortLines(a) && ShortLines(b) && AllAscii(c) && ShortLines(d) && ShortLines(e)
    ensures var lines := a + ((b + ([c] + d)) + e);
            forall i :: 0 <= i < |lines| ==> AllAscii(lines[i]) && |lines[i]| <= 60 + |c|
  {}

  /** A session of one long turn whose projection the contract refuses. */
  lemma {:induction false} LargeAllowanceCanRaise(allowance: nat) returns (snapshot: Snapshot)
    requires allowance > 5000
    ensures snapshot.summary.None? && |snapshot.turns| == 1
    ensures !Blank(snapshot.turns[0].userText) && !Blank(snapshot.turns[0].assistantText)
    ensures Projected(snapshot, allowance).Some? && !Accepted(Projected(snapshot, allowance).value)
  {
    FrameIsShort();
    var n := 20001 - Frame();
    LettersLength(n);
    LettersAreAscii(n);
    var turns := [Turn(Letters(n), "a")];
    snapshot := Snapshot(turns, None);
    assert !IsSpace(Letters(n)[0]) && !IsSpace("a"[0]);
    var text := Rendered(None, turns);
    AsciiWeight(text);
    EstimateFollowsWeight(text);
    var cost := MemoryCost(None);
    assert turns[0..] == turns;
    assert cost(turns[0..]) == 5001;
    assert KeptFrom(cost, turns, allowance, 1) == KeptFrom(cost, turns, allowance, 0) == 0;
  }

  /** The contract accepts every projection exactly when the allowance is at most 5000 tokens. */
  lemma {:induction false} NeverRaisesIff(allowance: nat)
    ensures allowance <= 5000 <==>
              forall snapshot: Snapshot :: Projected(snapshot, allowance).Some? ==>
                  Accepted(Projected(snapshot, allowance).value)
  {
    if allowance <= 5000 {
      forall snapshot: Snapshot | Projected(snapshot, allowance).Some?
        ensures Accepted(Projected(snapshot, allowance).value)
      {
        SmallAllowanceNeverRaises(snapshot, allowance);
      }
    } else {
      var snapshot := LargeAllowanceCanRaise(allowance);
    }
  }
}
