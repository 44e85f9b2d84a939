/** Values and text operations shared by the other modules. */
module Texts {

  datatype Option<+T> = None | Some(value: T)

  datatype Result<+T, +E> = Ok(value: T) | Err(error: E)

  function Min(a: int, b: int): int { if a <= b then a else b }

  function Max(a: int, b: int): int { if a <= b then b else a }

  /** Python's `s[start:end]` for offsets that are not negative: out-of-range ends are clamped. */
  function Slice(s: string, start: nat, end: nat): (r: string)
    ensures |r| <= Max(0, end - start)
  {
    var e := Min(end, |s|);
    if start <= e then s[start..e] else ""
  }

  /** The characters that Python's `str.strip` removes. */
  predicate IsSpace(c: char)
  {
    || c == ' ' || '\t' <= c <= '\r' || '\U{001C}' <= c <= '\U{001F}'
    || c == '\U{0085}' || c == '\U{00A0}' || c == '\U{1680}' || '\U{2000}' <= c <= '\U{200A}'
    || c == '\U{2028}' || c == '\U{2029}' || c == '\U{202F}' || c == '\U{205F}' || c == '\U{3000}'
  }

  /** `not s.strip()` */
  predicate Blank(s: string) { forall i :: 0 <= i < |s| ==> IsSpace(s[i]) }

  lemma {:induction false} BlankConcat(s: string, t: string)
    ensures Blank(s + t) <==> Blank(s) && Blank(t)
  {
    if Blank(s + t) {
      forall i | 0 <= i < |s| ensures IsSpace(s[i]) { assert s[i] == (s + t)[i]; }
      forall i | 0 <= i < |t| ensures IsSpace(t[i]) { assert t[i] == (s + t)[|s| + i]; }
    }
  }

  function LStrip(s: string): (r: string)
    ensures |r| <= |s|
  {
    if s != [] && IsSpace(s[0]) then LStrip(s[1..]) else s
  }

  function RStrip(s: string): (r: string)
    ensures |r| <= |s|
  {
    if s != [] && IsSpace(s[|s| - 1]) then RStrip(s[..|s| - 1]) else s
  }

  function Strip(s: string): string { RStrip(LStrip(s)) }

  /** What is left after stripping the left end: a suffix, cut off a blank prefix, that is empty or
      begins with a non-blank character. */
  lemma {:induction false} LStripSplits(s: string)
    ensures LStrip(s) == s[|s| - |LStrip(s)|..]
    ensures Blank(s[..|s| - |LStrip(s)|])
    ensures LStrip(s) == [] || !IsSpace(LStrip(s)[0])
    ensures LStrip(s) == [] <==> Blank(s)
  {
    if s != [] && IsSpace(s[0]) {
      var t := s[1..];
      LStripSplits(t);
      var k := |t| - |LStrip(t)|;
      assert s[..k + 1] == [s[0]] + t[..k];
      assert t[k..] == s[k + 1..];
      BlankConcat([s[0]], t[..k]);
      BlankConcat([s[0]], t);
      assert s == [s[0]] + t;
    }
  }

  lemma {:induction false} RStripSplits(s: string)
    ensures RStrip(s) == s[..|RStrip(s)|]
    ensures Blank(s[|RStrip(s)|..])
    ensures RStrip(s) == [] || !IsSpace(RStrip(s)[|RStrip(s)| - 1])
    ensures RStrip(s) == [] <==> Blank(s)
  {
    if s != [] && IsSpace(s[|s| - 1]) {
      var t, c := s[..|s| - 1], [s[|s| - 1]];
      RStripSplits(t);
      var k := |RStrip(t)|;
      assert s[k..] == t[k..] + c;
      assert t[..k] == s[..k];
      BlankConcat(t[k..], c);
      BlankConcat(t, c);
      assert s == t + c;
    }
  }

  /** `separator.join(parts)` */
  function Join(separator: string, parts: seq<string>): string
  {
    if parts == [] then "" else if |parts| == 1 then parts[0]
    else parts[0] + separator + Join(separator, parts[1..])
  }
}
