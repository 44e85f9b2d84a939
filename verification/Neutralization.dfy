/** `decision_agent/context/conversation_memory.py`: evidence markers and how they are defused. */
module Neutralization {
  import opened Texts

  /** The zeros of the decimal digits outside ASCII; each starts a run of ten digits. */
  const DIGIT_ZEROS: seq<int> := [
    0x660, 0x6F0, 0x7C0, 0x966, 0x9E6, 0xA66, 0xAE6, 0xB66, 0xBE6, 0xC66, 0xCE6, 0xD66, 0xDE6, 0xE50, 0xED0, 0xF20,
    0x1040, 0x1090, 0x17E0, 0x1810, 0x1946, 0x19D0, 0x1A80, 0x1A90, 0x1B50, 0x1BB0, 0x1C40, 0x1C50, 0xA620, 0xA8D0,
    0xA900, 0xA9D0, 0xA9F0, 0xAA50, 0xABF0, 0xFF10, 0x104A0, 0x10D30, 0x11066, 0x110F0, 0x11136, 0x111D0, 0x112F0,
    0x11450, 0x114D0, 0x11650, 0x116C0, 0x11730, 0x118E0, 0x11950, 0x11C50, 0x11D50, 0x11DA0, 0x11F50, 0x16A60, 0x16AC0,
    0x16B50, 0x1D7CE, 0x1D7D8, 0x1D7E2, 0x1D7EC, 0x1D7F6, 0x1E140, 0x1E2F0, 0x1E4F0, 0x1E950, 0x1FBF0]

  predicate InRuns(n: int, zeros: seq<int>)
  {
    zeros != [] && (zeros[0] <= n < zeros[0] + 10 || InRuns(n, zeros[1..]))
  }

  /** `\d` of a text pattern: any decimal digit, not only the ASCII ones. */
  predicate IsDigit(c: char)
  {
    '0' <= c <= '9' || (c as int >= 0x660 && InRuns(c as int, DIGIT_ZEROS))
  }

  /** How many digits a text begins with. */
  function DigitRun(s: string): (n: nat)
    ensures n <= |s|
    ensures forall i :: 0 <= i < n ==> IsDigit(s[i])
    ensures n < |s| ==> !IsDigit(s[n])
  {
    if s == "" || !IsDigit(s[0]) then 0 else 1 + DigitRun(s[1..])
  }

  /** The length of the match of `\[[DE][1-9]\d*\]` at the start of a text, or 0. */
  function MarkerLength(s: string): (n: nat)
    ensures n == 0 || 4 <= n <= |s|
  {
    if |s| >= 4 && s[0] == '[' && (s[1] == 'D' || s[1] == 'E') && '1' <= s[2] <= '9' then
      var k := DigitRun(s[3..]);
      if 3 + k < |s| && s[3 + k] == ']' then 4 + k else 0
    else 0
  }

  ghost predicate HasMarker(s: string)
  {
    exists i :: 0 <= i < |s| && MarkerLength(s[i..]) > 0
  }

  /** Replace each marker `[D12]` by `[historical-D12]`, from left to right. */
  function Neutralize(s: string): string
  {
    if s == "" then ""
    else if MarkerLength(s) > 0 then "[historical-" + s[1..MarkerLength(s)] + Neutralize(s[MarkerLength(s)..])
    else [s[0]] + Neutralize(s[1..])
  }

  // ---------------------------------------------------------------- what a marker looks like

  /** A marker is one opening bracket and then neither a bracket of that kind nor a line break. */
  lemma {:induction false} MarkerCharacters(s: string, i: nat)
    requires 0 < i < MarkerLength(s)
    ensures s[i] != '[' && s[i] != '\n'
  {
    if 3 <= i < MarkerLength(s) - 1 { assert IsDigit(s[3..][i - 3]); }
  }

  lemma {:induction false} DigitRunIs(s: string, n: nat)
    requires n < |s| && !IsDigit(s[n])
    requires forall i :: 0 <= i < n ==> IsDigit(s[i])
    ensures DigitRun(s) == n
  {
    if n > 0 { DigitRunIs(s[1..], n - 1); }
  }

  /** Whether a text begins with a given marker depends on the marker's own characters only. */
  lemma {:induction false} MarkerIsLocal(s: string, t: string)
    requires MarkerLength(s) > 0
    requires |t| >= MarkerLength(s) && t[..MarkerLength(s)] == s[..MarkerLength(s)]
    ensures MarkerLength(t) == MarkerLength(s)
  {
    var n := MarkerLength(s);
    var k := n - 4;
    forall i | 0 <= i < n ensures t[i] == s[i] { assert t[..n][i] == s[..n][i]; }
    assert forall i :: 0 <= i < k ==> t[3..][i] == s[3..][i];
    assert t[3..][k] == ']';
    DigitRunIs(t[3..], k);
  }

  // ---------------------------------------------------------------- no marker survives

  lemma {:induction false} NeutralizeKeepsPlainPrefix(s: string, w: string)
    requires '[' !in w
    ensures w <= Neutralize(s) <==> w <= s
  {
    if s != "" && w != "" {
      if MarkerLength(s) > 0 {
        assert Neutralize(s)[0] == '[' && s[0] == '[';
      } else {
        NeutralizeKeepsPlainPrefix(s[1..], w[1..]);
        assert Neutralize(s)[1..] == Neutralize(s[1..]);
        PrefixTail(w, s);
        PrefixTail(w, Neutralize(s));
      }
    }
  }

  lemma {:induction false} PrefixTail(w: string, s: string)
    requires w != "" && s != ""
    ensures w <= s <==> w[0] == s[0] && w[1..] <= s[1..]
  {
    if w[0] == s[0] && w[1..] <= s[1..] {
      assert w == [w[0]] + w[1..] && s == [s[0]] + s[1..];
    }
  }

  /** What follows the first character of a marker has no opening bracket, so neutralizing kept it. */
  lemma {:induction false} PlainTail(c: char, rest: string)
    ensures var out := [c] + Neutralize(rest);
            MarkerLength(out) > 0 ==> out[1..MarkerLength(out)] <= rest
  {
    var out := [c] + Neutralize(rest);
    if MarkerLength(out) > 0 {
      var w := out[1..MarkerLength(out)];
      forall i | 0 <= i < |w| ensures w[i] != '[' { MarkerCharacters(out, i + 1); }
      assert out[1..] == Neutralize(rest);
      assert w <= out[1..];
      NeutralizeKeepsPlainPrefix(rest, w);
    }
  }

  lemma {:induction false} StartCarriesOver(s: string, t: string)
    requires s != "" && t != "" && s[0] == t[0]
    requires MarkerLength(s) > 0 ==> s[1..MarkerLength(s)] <= t[1..]
    ensures MarkerLength(s) > 0 ==> MarkerLength(t) == MarkerLength(s)
  {
    if MarkerLength(s) > 0 {
      var n := MarkerLength(s);
      assert t[..n] == [t[0]] + t[1..][..n - 1];
      assert s[..n] == [s[0]] + s[1..n];
      MarkerIsLocal(s, t);
    }
  }

  lemma {:induction false} NoMarkerAtStart(s: string)
    ensures MarkerLength(Neutralize(s)) == 0
  {
    if s != "" {
      if MarkerLength(s) > 0 {
        assert Neutralize(s)[1] == 'h';
      } else {
        PlainTail(s[0], s[1..]);
        StartCarriesOver(Neutralize(s), s);
      }
    }
  }

  /** In the replacement of a marker only the first character is an opening bracket. */
  lemma {:induction false} ReplacementHasOneBracket(s: string, i: nat)
    requires MarkerLength(s) > 0 && 0 < i < 11 + MarkerLength(s)
    ensures ("[historical-" + s[1..MarkerLength(s)])[i] != '['
  {
    if i >= 12 {
      MarkerCharacters(s, i - 11);
      assert ("[historical-" + s[1..MarkerLength(s)])[i] == s[i - 11];
    } else {
      assert ("[historical-" + s[1..MarkerLength(s)])[i] == "[historical-"[i];
    }
  }

  /** Neutralized text contains no marker, whatever it was made from. */
  lemma {:induction false} NeutralizedHasNoMarker(s: string)
    ensures !HasMarker(Neutralize(s))
  {
    var out := Neutralize(s);
    forall i | 0 <= i < |out| ensures MarkerLength(out[i..]) == 0 {
      NoMarkerAt(s, i);
    }
  }

  lemma {:induction false} NoMarkerAt(s: string, i: nat)
    requires i < |Neutralize(s)|
    ensures MarkerLength(Neutralize(s)[i..]) == 0
  {
    var out := Neutralize(s);
    if i == 0 {
      NoMarkerAtStart(s);
      assert out[0..] == out;
    } else if MarkerLength(s) > 0 {
      var n := MarkerLength(s);
      var head := "[historical-" + s[1..n];
      if i < |head| {
        ReplacementHasOneBracket(s, i);
        assert out[i..][0] == head[i];
      } else {
        assert out[i..] == Neutralize(s[n..])[i - |head|..];
        NoMarkerAt(s[n..], i - |head|);
      }
    } else {
      assert out[i..] == Neutralize(s[1..])[i - 1..];
      NoMarkerAt(s[1..], i - 1);
    }
  }

  /** Text without markers is left as it is, so neutralizing twice is neutralizing once. */
  lemma {:induction false} NeutralizeIsIdentityWithoutMarkers(s: string)
    requires !HasMarker(s)
    ensures Neutralize(s) == s
  {
    if s != "" {
      assert s[0..] == s;
      forall i | 0 <= i < |s[1..]| ensures MarkerLength(s[1..][i..]) == 0 {
        assert s[1..][i..] == s[i + 1..];
      }
      NeutralizeIsIdentityWithoutMarkers(s[1..]);
    }
  }

  lemma {:induction false} NeutralizeIsIdempotent(s: string)
    ensures Neutralize(Neutralize(s)) == Neutralize(s)
  {
    NeutralizedHasNoMarker(s);
    NeutralizeIsIdentityWithoutMarkers(Neutralize(s));
  }

  // ---------------------------------------------------------------- what is replaced

  /** A marker of `n` characters: `[`, `D` or `E`, a digit from 1 to 9, further digits, and `]`. */
  lemma {:induction false} MarkerSpelled(s: string, n: nat)
    requires n > 0
    ensures MarkerLength(s) == n
       <==> && 4 <= n <= |s| && s[0] == '[' && s[1] in {'D', 'E'} && '1' <= s[2] <= '9' && s[n - 1] == ']'
            && forall i :: 3 <= i < n - 1 ==> IsDigit(s[i])
  {
    if MarkerLength(s) == n {
      assert forall i :: 3 <= i < n - 1 ==> s[i] == s[3..][i - 3];
    }
    if 4 <= n <= |s| && s[n - 1] == ']' && forall i :: 3 <= i < n - 1 ==> IsDigit(s[i]) {
      assert s[3..][n - 4] == ']';
      DigitRunIs(s[3..], n - 4);
    }
  }

  lemma {:induction false} RunsMeanSome(n: int, zeros: seq<int>)
    ensures InRuns(n, zeros) <==> exists k :: 0 <= k < |zeros| && zeros[k] <= n < zeros[k] + 10
  {
    if zeros != [] {
      RunsMeanSome(n, zeros[1..]);
      if k :| 0 <= k < |zeros[1..]| && zeros[1..][k] <= n < zeros[1..][k] + 10 {
        assert zeros[k + 1] <= n < zeros[k + 1] + 10;
      }
      if k :| 0 <= k < |zeros| && zeros[k] <= n < zeros[k] + 10 {
        if k > 0 { assert zeros[1..][k - 1] <= n < zeros[1..][k - 1] + 10; }
      }
    }
  }

  /** A digit is one of the ten ASCII digits or of the ten from one of the listed zeros on. */
  lemma {:induction false} DigitIsInRun(c: char)
    ensures IsDigit(c)
       <==> || '0' <= c <= '9'
            || (c as int >= 0x660
                && exists k :: 0 <= k < |DIGIT_ZEROS| && DIGIT_ZEROS[k] <= c as int < DIGIT_ZEROS[k] + 10)
  {
    hide InRuns;
    RunsMeanSome(c as int, DIGIT_ZEROS);
  }

  /** Up to its first marker a text is kept; that marker gets `historical-` behind its bracket; and so on
      with the rest. */
  lemma {:induction false} FirstMarkerIsReplaced(before: string, marker: string, rest: string)
    requires forall i :: 0 <= i < |before| ==> MarkerLength((before + marker + rest)[i..]) == 0
    requires marker != "" && MarkerLength(marker + rest) == |marker|
    ensures Neutralize(before + marker + rest) == before + "[historical-" + marker[1..] + Neutralize(rest)
  {
    var s := before + marker + rest;
    if before == "" {
      assert s == marker + rest;
      ReplacedAtStart(marker, rest);
      assert "" + "[historical-" == "[historical-";
    } else {
      assert s[0..] == s;
      assert s[1..] == before[1..] + marker + rest;
      forall i | 0 <= i < |before[1..]| ensures MarkerLength(s[1..][i..]) == 0 {
        assert s[1..][i..] == s[i + 1..];
      }
      FirstMarkerIsReplaced(before[1..], marker, rest);
      Shift(before, "[historical-", marker[1..], Neutralize(rest));
    }
  }

  lemma {:induction false} ReplacedAtStart(marker: string, rest: string)
    requires marker != "" && MarkerLength(marker + rest) == |marker|
    ensures Neutralize(marker + rest) == "[historical-" + marker[1..] + Neutralize(rest)
  {
    var s := marker + rest;
    assert s[1..|marker|] == marker[1..] && s[|marker|..] == rest;
  }

  lemma {:induction false} Shift(a: string, b: string, c: string, d: string)
    requires a != ""
    ensures [a[0]] + (a[1..] + b + c + d) == a + b + c + d
  {
    assert [a[0]] + a[1..] == a;
  }

  // ---------------------------------------------------------------- joining lines

  lemma {:induction false} NoBracketNoMarker(s: string)
    requires '[' !in s
    ensures !HasMarker(s)
  {
    forall i | 0 <= i < |s| ensures MarkerLength(s[i..]) == 0 {
      assert s[i..][0] == s[i];
    }
  }

  /** A marker cannot run across a line break. */
  lemma {:induction false} LineBreakSeparates(a: string, b: string)
    requires !HasMarker(a) && !HasMarker(b)
    ensures !HasMarker(a + "\n" + b)
  {
    var s := a + "\n" + b;
    forall i | 0 <= i < |s| ensures MarkerLength(s[i..]) == 0 {
      if i > |a| {
        assert s[i..] == b[i - |a| - 1..];
      } else if i < |a| && MarkerLength(s[i..]) > 0 {
        var n := MarkerLength(s[i..]);
        if i + n > |a| {
          MarkerCharacters(s[i..], |a| - i);
        } else {
          assert a[i..][..n] == s[i..][..n];
          MarkerIsLocal(s[i..], a[i..]);
        }
      }
    }
  }

  lemma {:induction false} JoinedLinesHaveNoMarker(lines: seq<string>)
    requires forall i :: 0 <= i < |lines| ==> !HasMarker(lines[i])
    ensures !HasMarker(Join("\n", lines))
  {
    if |lines| > 1 {
      JoinedLinesHaveNoMarker(lines[1..]);
      LineBreakSeparates(lines[0], Join("\n", lines[1..]));
    }
  }

  lemma {:induction false} JoinLinesConcat(a: seq<string>, b: seq<string>)
    requires a != [] && b != []
    ensures Join("\n", a + b) == Join("\n", a) + "\n" + Join("\n", b)
  {
    assert (a + b)[1..] == a[1..] + b;
    if |a| == 1 {
      assert a[1..] + b == b;
    } else {
      JoinLinesConcat(a[1..], b);
    }
  }
}
