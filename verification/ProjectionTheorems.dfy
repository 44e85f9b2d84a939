/** The text of a projected session and its estimate, spelled out. */
module ProjectionTheorems {
  import opened Texts
  import opened Listings
  import opened Neutralization
  import opened MemoryProjection

  // ---------------------------------------------------------------- the text

  /** Lines, each with its line break. */
  function Broken(lines: seq<string>): string
  {
    if lines == [] then "" else lines[0] + "\n" + Broken(lines[1..])
  }

  lemma {:induction false} BrokenConcat(a: seq<string>, b: seq<string>)
    ensures Broken(a + b) == Broken(a) + Broken(b)
  {
    if a == [] {
      assert a + b == b;
    } else {
      assert (a + b)[1..] == a[1..] + b;
      BrokenConcat(a[1..], b);
    }
  }

  lemma {:induction false} JoinedIsBroken(lines: seq<string>, last: string)
    ensures Join("\n", lines + [last]) == Broken(lines) + last
  {
    if lines != [] {
      assert (lines + [last])[1..] == lines[1..] + [last];
      JoinedIsBroken(lines[1..], last);
    }
  }

  lemma {:induction false} OneLine(a: string)
    ensures Broken([a]) == a + "\n"
  {
    assert [a][1..] == [];
  }

  lemma {:induction false} TwoLines(a: string, b: string)
    ensures Broken([a, b]) == a + "\n" + b + "\n"
  {
    OneLine(b);
    assert [a, b][1..] == [b];
  }

  lemma {:induction false} ThreeLines(a: string, b: string, c: string)
    ensures Broken([a, b, c]) == a + "\n" + b + "\n" + c + "\n"
  {
    TwoLines(b, c);
    assert [a, b, c][1..] == [b, c];
  }

  lemma {:induction false} EightLines(
    a: string, b: string, c: string, d: string, e: string, f: string, g: string, h: string)
    ensures Broken([a, b, c, d, e, f, g, h])
         == a + "\n" + b + "\n" + c + "\n" + d + "\n" + e + "\n" + f + "\n" + g + "\n" + h + "\n"
  {
    ThreeLines(a, b, c);
    ThreeLines(d, e, f);
    TwoLines(g, h);
    BrokenConcat([a, b, c], [d, e, f]);
    BrokenConcat([a, b, c] + [d, e, f], [g, h]);
    assert [a, b, c] + [d, e, f] + [g, h] == [a, b, c, d, e, f, g, h];
  }

  /** The summary between its tags, if there is one. */
  function SummaryPart(summary: Option<string>): string
  {
    if summary.None? then ""
    else "<PREVIOUS_SUMMARY>" + "\n" + Neutralize(summary.value) + "\n" + "</PREVIOUS_SUMMARY>" + "\n"
  }

  /** A turn: the user's text between the user tags, then the assistant's between its own. */
  function TurnPart(t: Turn): string
  {
    "<HISTORICAL_TURN>" + "\n" + "<HISTORICAL_USER>" + "\n" + Neutralize(t.userText) + "\n" + "</HISTORICAL_USER>"
    + "\n" + "<HISTORICAL_ASSISTANT>" + "\n" + Neutralize(t.assistantText) + "\n" + "</HISTORICAL_ASSISTANT>"
    + "\n" + "</HISTORICAL_TURN>" + "\n"
  }

  function TurnsPart(turns: seq<Turn>): string
  {
    if turns == [] then "" else TurnPart(turns[0]) + TurnsPart(turns[1..])
  }

  /** The whole text of a session's memory. */
  function MemoryText(summary: Option<string>, turns: seq<Turn>): string
  {
    "<UNTRUSTED_CONVERSATION_MEMORY>" + "\n" + SummaryPart(summary) + TurnsPart(turns)
    + "</UNTRUSTED_CONVERSATION_MEMORY>"
  }

  lemma {:induction false} TurnLinesBroken(t: Turn)
    ensures Broken(TurnLines(t)) == TurnPart(t)
  {
    EightLines("<HISTORICAL_TURN>", "<HISTORICAL_USER>", Neutralize(t.userText), "</HISTORICAL_USER>",
               "<HISTORICAL_ASSISTANT>", Neutralize(t.assistantText), "</HISTORICAL_ASSISTANT>", "</HISTORICAL_TURN>");
  }

  lemma {:induction false} AllTurnLinesBroken(turns: seq<Turn>)
    ensures Broken(AllTurnLines(turns)) == TurnsPart(turns)
  {
    hide TurnLines, TurnPart, AllTurnLines;
    if turns == [] {
      NoTurnLines();
    } else {
      FirstTurnLines(turns[0], turns[1..]);
      assert [turns[0]] + turns[1..] == turns;
      BrokenConcat(TurnLines(turns[0]), AllTurnLines(turns[1..]));
      TurnLinesBroken(turns[0]);
      AllTurnLinesBroken(turns[1..]);
    }
  }

  lemma {:induction false} NoTurnLines()
    ensures AllTurnLines([]) == []
  {
  }

  lemma {:induction false} HeadLinesBroken(summary: Option<string>)
    ensures Broken(HeadLines(if summary.None? then None else Some(Neutralize(summary.value))))
         == "<UNTRUSTED_CONVERSATION_MEMORY>" + "\n" + SummaryPart(summary)
  {
    OneLine("<UNTRUSTED_CONVERSATION_MEMORY>");
    if summary.Some? {
      var inner := ["<PREVIOUS_SUMMARY>", Neutralize(summary.value), "</PREVIOUS_SUMMARY>"];
      ThreeLines("<PREVIOUS_SUMMARY>", Neutralize(summary.value), "</PREVIOUS_SUMMARY>");
      BrokenConcat(["<UNTRUSTED_CONVERSATION_MEMORY>"], inner);
    }
  }

  /** What is rendered is the opening tag, the neutralized summary between its tags if there is one, every
      turn in order with its two neutralized texts between their tags, and the closing tag. */
  lemma {:induction false} RenderedIsMemoryText(summary: Option<string>, turns: seq<Turn>)
    ensures Rendered(if summary.None? then None else Some(Neutralize(summary.value)), turns)
         == MemoryText(summary, turns)
  {
    hide SummaryPart, TurnsPart, HeadLines, AllTurnLines, Broken, Join;
    var neutral := if summary.None? then None else Some(Neutralize(summary.value));
    JoinedIsBroken(HeadLines(neutral) + AllTurnLines(turns), "</UNTRUSTED_CONVERSATION_MEMORY>");
    BrokenConcat(HeadLines(neutral), AllTurnLines(turns));
    HeadLinesBroken(summary);
    AllTurnLinesBroken(turns);
  }

  /** A projection is the text of the summary and of the longest run of newest turns whose estimate is
      within the allowance: the run from turn `k` on, where `j` fits exactly from `k` on. */
  lemma {:induction false} ProjectionSpelledOut(snapshot: Snapshot, allowance: nat) returns (k: nat)
    requires Projected(snapshot, allowance).Some?
    ensures k <= |snapshot.turns|
    ensures var p := Projected(snapshot, allowance).value;
            && p.content == MemoryText(snapshot.summary, snapshot.turns[k..])
            && p.estimatedTokens == Estimate(p.content)
    ensures forall j :: 0 <= j <= |snapshot.turns| ==>
              (Estimate(MemoryText(snapshot.summary, snapshot.turns[j..])) <= allowance <==> k <= j)
  {
    hide MemoryText, Rendered, Estimate;
    k := KeepsLongestFittingSuffix(snapshot, allowance);
    RenderedIsMemoryText(snapshot.summary, snapshot.turns[k..]);
    forall j | 0 <= j <= |snapshot.turns|
      ensures Estimate(MemoryText(snapshot.summary, snapshot.turns[j..])) <= allowance <==> k <= j
    {
      RenderedIsMemoryText(snapshot.summary, snapshot.turns[j..]);
    }
  }

  /** There is no projection exactly when there is nothing to project, or the summary alone, or without one
      the newest turn alone, exceeds the allowance. */
  lemma {:induction false} NothingProjectedIff(snapshot: Snapshot, allowance: nat)
    ensures Projected(snapshot, allowance).None?
       <==> if snapshot.summary.Some? then Estimate(MemoryText(snapshot.summary, [])) > allowance
            else snapshot.turns == []
                 || Estimate(MemoryText(None, [snapshot.turns[|snapshot.turns| - 1]])) > allowance
  {
    hide MemoryText, Rendered, Estimate;
    RenderedIsMemoryText(snapshot.summary, []);
    if snapshot.turns != [] {
      var n := |snapshot.turns| - 1;
      assert snapshot.turns[n..] == [snapshot.turns[n]];
      RenderedIsMemoryText(snapshot.summary, [snapshot.turns[n]]);
    }
  }

  // ---------------------------------------------------------------- the estimate

  lemma {:induction false} AsciiCountUpTo(s: string, n: nat)
    requires n <= |s|
    ensures AsciiCount(s[..n]) == |set i: nat | i < n && s[i] as int < 128|
  {
    if n > 0 {
      AsciiCountUpTo(s, n - 1);
      AsciiConcat(s[..n - 1], [s[n - 1]]);
      assert s[..n] == s[..n - 1] + [s[n - 1]];
      assert AsciiCount([s[n - 1]]) == (if s[n - 1] as int < 128 then 1 else 0) + AsciiCount("");
      var before := set i: nat | i < n - 1 && s[i] as int < 128;
      var all := set i: nat | i < n && s[i] as int < 128;
      OneMore(before, all, n - 1, s[n - 1] as int < 128);
    }
  }

  /** The estimate is the least number of tokens such that four of its quarters pay for every character: one
      quarter for an ASCII character and four for any other. */
  lemma {:induction false} EstimateCountsCharacters(s: string)
    ensures var ascii := |set i: nat | i < |s| && s[i] as int < 128|;
            ascii <= |s| && 4 * Estimate(s) - 3 <= ascii + 4 * (|s| - ascii) <= 4 * Estimate(s)
  {
    AsciiCountUpTo(s, |s|);
    assert s[..|s|] == s;
  }
}
