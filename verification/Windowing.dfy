/** `decision_agent/ingestion/chunking.py`: bounded overlapping windows and the fixed-window
    parent/child chunker. */
module Windowing {
  import opened Texts

  /** A half-open range of character offsets. */
  datatype Span = Span(start: nat, end: nat) {
    predicate Has(k: int) { start <= k < end }
  }

  function CeilDiv(a: nat, b: nat): nat
    requires b > 0
  {
    (a + b - 1) / b
  }

  // ---------------------------------------------------------------- windows

  function WindowCount(length: nat, size: nat, overlap: nat): nat
    requires overlap < size
  {
    if length == 0 then 0
    else if length <= size then 1
    else 1 + CeilDiv(length - size, size - overlap)
  }

  function WindowAt(i: nat, length: nat, size: nat, overlap: nat): Span
    requires overlap < size
  {
    var start := i * (size - overlap);
    Span(start, Max(start, Min(start + size, length)))
  }

  /** The windows in closed form: nothing here follows the loop that produces them. */
  function WindowsOf(length: nat, size: nat, overlap: nat): seq<Span>
    requires overlap < size
  {
    seq(WindowCount(length, size, overlap), i requires 0 <= i => WindowAt(i, length, size, overlap))
  }

  lemma {:induction false} MulStep(i: nat, step: nat)
    ensures (i + 1) * step == i * step + step
  {}

  lemma {:induction false} MulMonotone(i: nat, j: nat, step: nat)
    requires i <= j
    ensures i * step <= j * step
  {}

  /** The last window is the first one to reach the end of the text, and it starts inside it. */
  lemma {:induction false} LastWindow(length: nat, size: nat, overlap: nat)
    requires overlap < size
    requires length > 0
    ensures var last := WindowCount(length, size, overlap) - 1;
            && 0 <= last
            && last * (size - overlap) + size >= length
            && last * (size - overlap) + overlap < Max(length, overlap + 1)
            && forall i: nat {:trigger i * (size - overlap)} :: i < last ==> i * (size - overlap) + size < length
  {
    var step := size - overlap;
    var last := WindowCount(length, size, overlap) - 1;
    if length > size {
      var room := length - size;
      assert last == (room + step - 1) / step;
      assert last * step <= room + step - 1 < last * step + step;
      forall i: nat | i < last ensures i * step + size < length {
        MulMonotone(i, last - 1, step);
        MulStep(last - 1, step);
      }
    }
  }

  /** Each window ends where the next one's fresh text starts; only the last may be short. */
  lemma {:induction false} WindowChain(length: nat, size: nat, overlap: nat, i: nat)
    requires overlap < size
    requires i < WindowCount(length, size, overlap)
    ensures var ws := WindowsOf(length, size, overlap);
            && ws[i].start < ws[i].end <= length
            && ws[i].end <= ws[i].start + size
            && (i + 1 < |ws| ==> ws[i].end == ws[i].start + size < length
                                 && ws[i + 1].start == ws[i].end - overlap
                                 && ws[i].end < ws[i + 1].end)
            && (i + 1 == |ws| ==> ws[i].end == length)
            && (i == 0 ==> ws[i].start == 0)
  {
    LastWindow(length, size, overlap);
    var last := WindowCount(length, size, overlap) - 1;
    MulStep(i, size - overlap);
    if i < last {
      LastWindow(length, size, overlap);
      if i + 1 == last { } else { assert (i + 1) * (size - overlap) + size < length; }
    }
  }

  lemma {:induction false} NextStart(i: nat, start: nat, length: nat, size: nat, overlap: nat)
    requires overlap < size
    requires i < WindowCount(length, size, overlap)
    requires start == i * (size - overlap)
    ensures start < length
    ensures WindowAt(i, length, size, overlap) == Span(start, Min(start + size, length))
    ensures start + size < length <==> i + 1 < WindowCount(length, size, overlap)
    ensures start + size - overlap == (i + 1) * (size - overlap)
  {
    WindowChain(length, size, overlap, i);
    MulStep(i, size - overlap);
  }

  /** The windows from `start` on, one at a time: the bridge between the loop and the closed form. */
  function WindowsFrom(start: nat, length: nat, size: nat, overlap: nat): seq<Span>
    requires overlap < size
    decreases length - start
  {
    if start >= length then []
    else if start + size >= length then [Span(start, length)]
    else [Span(start, start + size)] + WindowsFrom(start + size - overlap, length, size, overlap)
  }

  lemma {:induction false} WindowsFromAreClosed(i: nat, start: nat, length: nat, size: nat, overlap: nat)
    requires overlap < size
    requires i < WindowCount(length, size, overlap)
    requires start == i * (size - overlap)
    ensures WindowsFrom(start, length, size, overlap) == WindowsOf(length, size, overlap)[i..]
    decreases length - start
  {
    NextStart(i, start, length, size, overlap);
    if start + size < length {
      WindowsFromAreClosed(i + 1, start + size - overlap, length, size, overlap);
    }
  }

  /** The loop of `_windows`, which counts nothing and steps back by the overlap each time.  It stops at
      the first window that reaches the end, and what it has yielded by then is the closed form. */
  method Windows(length: nat, size: nat, overlap: nat) returns (ws: seq<Span>)
    requires overlap < size
    ensures ws == WindowsOf(length, size, overlap)
  {
    var start: nat := 0;
    ws := [];
    while start < length
      invariant ws + WindowsFrom(start, length, size, overlap) == WindowsFrom(0, length, size, overlap)
      decreases length - start
    {
      var end := Min(start + size, length);
      NextWindow(start, length, size, overlap);
      ws := ws + [Span(start, end)];
      if end == length {
        break;
      }
      start := end - overlap;
    }
    assert ws == WindowsFrom(0, length, size, overlap);
    AllWindowsAreClosed(length, size, overlap);
  }

  lemma {:induction false} NextWindow(start: nat, length: nat, size: nat, overlap: nat)
    requires overlap < size && start < length
    ensures var end := Min(start + size, length);
            && WindowsFrom(start, length, size, overlap)
               == if end == length then [Span(start, end)]
                   else [Span(start, end)] + WindowsFrom(end - overlap, length, size, overlap)
  {
  }

  lemma {:induction false} AllWindowsAreClosed(length: nat, size: nat, overlap: nat)
    requires overlap < size
    ensures WindowsFrom(0, length, size, overlap) == WindowsOf(length, size, overlap)
  {
    if length > 0 { WindowsFromAreClosed(0, 0, length, size, overlap); }
  }

  /** What `WindowChain` says of each window, for a whole sequence. */
  predicate IsChain(ws: seq<Span>, length: nat, size: nat, overlap: nat)
  {
    && (|ws| == 0 <==> length == 0)
    && (forall i :: 0 <= i < |ws| ==>
          && ws[i].start < ws[i].end <= length && ws[i].end <= ws[i].start + size
          && (i == 0 ==> ws[i].start == 0)
          && (i + 1 == |ws| ==> ws[i].end == length))
    && (forall i :: 0 < i < |ws| ==> ws[i].start + overlap == ws[i - 1].end < ws[i].end)
  }

  lemma {:induction false} WindowsAreChain(length: nat, size: nat, overlap: nat)
    requires overlap < size
    ensures IsChain(WindowsOf(length, size, overlap), length, size, overlap)
  {
    var ws := WindowsOf(length, size, overlap);
    forall i | 0 <= i < |ws|
      ensures ws[i].start < ws[i].end <= length && ws[i].end <= ws[i].start + size
      ensures i == 0 ==> ws[i].start == 0
      ensures i + 1 == |ws| ==> ws[i].end == length
      ensures 0 < i ==> ws[i].start + overlap == ws[i - 1].end < ws[i].end
    {
      WindowChain(length, size, overlap, i);
      if i > 0 { WindowChain(length, size, overlap, i - 1); }
    }
  }

  /** Every offset is in some window. */
  lemma {:induction false} ChainCovers(ws: seq<Span>, length: nat, size: nat, overlap: nat, k: nat) returns (i: nat)
    requires IsChain(ws, length, size, overlap)
    requires k < length
    ensures i < |ws| && ws[i].Has(k)
  {
    i := 0;
    while ws[i].end <= k
      invariant i < |ws| && ws[i].start <= k
      decreases |ws| - i
    {
      i := i + 1;
    }
  }

  lemma {:induction false} ChainIsOrdered(ws: seq<Span>, length: nat, size: nat, overlap: nat, i: nat, j: nat)
    requires IsChain(ws, length, size, overlap)
    requires i < j < |ws|
    ensures ws[i].end <= ws[j].start + overlap
    decreases j
  {
    assert ws[j].start + overlap == ws[j - 1].end;
    if i + 1 < j {
      ChainIsOrdered(ws, length, size, overlap, i, j - 1);
      assert ws[j - 1].start + overlap == ws[j - 2].end < ws[j - 1].end;
    }
  }

  /** The windows cover the text; without overlap, the covering window is the only one. */
  lemma {:induction false} WindowsCoverOnce(length: nat, size: nat, overlap: nat, k: nat) returns (i: nat)
    requires overlap < size
    requires k < length
    ensures i < |WindowsOf(length, size, overlap)| && WindowsOf(length, size, overlap)[i].Has(k)
    ensures overlap == 0 ==>
              forall j :: 0 <= j < |WindowsOf(length, size, overlap)| && WindowsOf(length, size, overlap)[j].Has(k)
                          ==> j == i
  {
    WindowsAreChain(length, size, overlap);
    i := OnlyCover(WindowsOf(length, size, overlap), length, size, overlap, k);
  }

  lemma {:induction false} OnlyCover(ws: seq<Span>, length: nat, size: nat, overlap: nat, k: nat) returns (i: nat)
    requires IsChain(ws, length, size, overlap)
    requires k < length
    ensures i < |ws| && ws[i].Has(k)
    ensures overlap == 0 ==> forall j :: 0 <= j < |ws| && ws[j].Has(k) ==> j == i
  {
    i := ChainCovers(ws, length, size, overlap, k);
    if overlap == 0 {
      forall j | 0 <= j < |ws| && ws[j].Has(k) ensures j == i {
        if i < j { ChainIsOrdered(ws, length, size, overlap, i, j); }
        if j < i { ChainIsOrdered(ws, length, size, overlap, j, i); }
      }
    }
  }

  /** The window's text starts, past what it shares with its predecessor, inside the text. */
  predicate FreshInside(ws: seq<Span>, overlap: nat, length: nat)
  {
    forall i :: 0 <= i < |ws| ==> ws[i].start + (if i == 0 then 0 else overlap) <= ws[i].end <= length
  }

  /** Drop from every later window the characters it shares with its predecessor, and join. */
  function Reassemble(text: string, ws: seq<Span>, overlap: nat): string
    requires FreshInside(ws, overlap, |text|)
  {
    if ws == [] then ""
    else
      var last := |ws| - 1;
      Reassemble(text, ws[..last], overlap)
      + text[ws[last].start + (if last == 0 then 0 else overlap)..ws[last].end]
  }

  lemma {:induction false} WindowsAreFresh(length: nat, size: nat, overlap: nat)
    requires overlap < size
    ensures FreshInside(WindowsOf(length, size, overlap), overlap, length)
  {
    var ws := WindowsOf(length, size, overlap);
    forall i | 0 <= i < |ws|
      ensures ws[i].start + (if i == 0 then 0 else overlap) <= ws[i].end <= length
    {
      WindowChain(length, size, overlap, i);
      if i > 0 { WindowChain(length, size, overlap, i - 1); }
    }
  }

  lemma {:induction false} ReassemblePrefix(text: string, ws: seq<Span>, overlap: nat, n: nat)
    requires n <= |ws| && FreshInside(ws, overlap, |text|)
    requires forall i :: 0 < i < |ws| ==> ws[i].start + overlap == ws[i - 1].end
    requires ws != [] ==> ws[0].start == 0
    ensures Reassemble(text, ws[..n], overlap) == text[..if n == 0 then 0 else ws[n - 1].end]
  {
    if n > 0 {
      ReassemblePrefix(text, ws, overlap, n - 1);
      ReassembleNext(text, ws, overlap, n);
      if n > 1 { JoinAt(text, ws[n - 2].end, ws[n - 1].end); }
    }
  }

  lemma {:induction false} ReassembleNext(text: string, ws: seq<Span>, overlap: nat, n: nat)
    requires 0 < n <= |ws| && FreshInside(ws, overlap, |text|)
    ensures Reassemble(text, ws[..n], overlap)
         == Reassemble(text, ws[..n - 1], overlap)
             + text[ws[n - 1].start + (if n == 1 then 0 else overlap)..ws[n - 1].end]
  {
    assert ws[..n][..n - 1] == ws[..n - 1];
  }

  lemma {:induction false} JoinAt(text: string, a: nat, b: nat)
    requires a <= b <= |text|
    ensures text[..a] + text[a..b] == text[..b]
  {
  }

  /** Dropping each later window's overlap and joining gives back the text. */
  lemma {:induction false} ReassembleGivesBackText(text: string, size: nat, overlap: nat)
    requires overlap < size
    ensures FreshInside(WindowsOf(|text|, size, overlap), overlap, |text|)
    ensures Reassemble(text, WindowsOf(|text|, size, overlap), overlap) == text
  {
    WindowsAreFresh(|text|, size, overlap);
    var ws := WindowsOf(|text|, size, overlap);
    assert ws[..|ws|] == ws;
    WindowsAreChain(|text|, size, overlap);
    ReassemblePrefix(text, ws, overlap, |ws|);
    if |text| > 0 {
      LastWindow(|text|, size, overlap);
      WindowChain(|text|, size, overlap, |ws| - 1);
    }
    assert text[..|text|] == text;
  }
}
