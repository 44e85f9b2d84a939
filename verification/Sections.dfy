/** `decision_agent/ingestion/clause_aware_chunking.py`: business sections, heading paths and
    clauses.  The matches of the heading and marker patterns are given in text order. */
module Sections {
  import opened Texts

  datatype Heading = Heading(start: nat, level: nat, title: string)

  datatype Marker = Marker(clauseId: string, start: nat)

  datatype Section = Section(start: nat, end: nat, path: string, nearestHeading: string)

  datatype Clause = Clause(clauseId: string, start: nat, end: nat)

  /** What `_HEADING.finditer(content)` can give: starts strictly increase inside the content. */
  predicate HeadingMatches(hs: seq<Heading>, length: nat)
  {
    && (forall i :: 0 <= i < |hs| ==> hs[i].start < length && 1 <= hs[i].level <= 6)
    && (forall i, j :: 0 <= i < j < |hs| ==> hs[i].start < hs[j].start)
  }

  /** What `_CLAUSE_MARKER.finditer(content)` can give; a match begins with a non-blank character. */
  predicate MarkerMatches(ms: seq<Marker>, content: string)
  {
    && (forall i :: 0 <= i < |ms| ==> ms[i].start < |content| && !IsSpace(content[ms[i].start]))
    && (forall i, j :: 0 <= i < j < |ms| ==> ms[i].start < ms[j].start)
  }

  // ---------------------------------------------------------------- heading paths

  /** The chain of headings that encloses the end of `hs`: a heading is in it when every later one
      is nested more deeply. */
  function Ancestors(hs: seq<Heading>): seq<Heading>
  {
    if hs == [] then []
    else if Nests(hs[0], hs[1..]) then [hs[0]] + Ancestors(hs[1..])
    else Ancestors(hs[1..])
  }

  predicate Nests(h: Heading, later: seq<Heading>)
  {
    forall j :: 0 <= j < |later| ==> later[j].level > h.level
  }

  function Below(hs: seq<Heading>, level: nat): seq<Heading>
  {
    if hs == [] then []
    else if hs[0].level < level then [hs[0]] + Below(hs[1..], level)
    else Below(hs[1..], level)
  }

  function UpTo(hs: seq<Heading>, position: nat): seq<Heading>
  {
    if hs == [] || hs[0].start > position then [] else [hs[0]] + UpTo(hs[1..], position)
  }

  function Titles(hs: seq<Heading>): seq<string>
  {
    if hs == [] then [] else [Strip(hs[0].title)] + Titles(hs[1..])
  }

  function PathAt(hs: seq<Heading>, position: nat): string
  {
    Join(" > ", Titles(Ancestors(UpTo(hs, position))))
  }

  predicate Deepening(hs: seq<Heading>)
  {
    forall i, j :: 0 <= i < j < |hs| ==> hs[i].level < hs[j].level
  }

  lemma {:induction false} AncestorsDeepen(hs: seq<Heading>)
    ensures Deepening(Ancestors(hs))
    ensures forall h :: h in Ancestors(hs) ==> h in hs
  {
    if hs != [] {
      AncestorsDeepen(hs[1..]);
      var rest := Ancestors(hs[1..]);
      if Nests(hs[0], hs[1..]) {
        forall k | 0 <= k < |rest| ensures hs[0].level < rest[k].level {
          assert rest[k] in hs[1..];
        }
      }
    }
  }

  /** A new heading replaces everything at its level or deeper. */
  lemma {:induction false} NextAncestors(hs: seq<Heading>, h: Heading)
    ensures Ancestors(hs + [h]) == Below(Ancestors(hs), h.level) + [h]
  {
    if hs == [] {
      assert Ancestors([h]) == [h] + Ancestors([]);
    } else {
      var all := hs + [h];
      assert all[1..] == hs[1..] + [h];
      NextAncestors(hs[1..], h);
      NestsPlus(hs[0], hs[1..], h);
      assert all[0] == hs[0];
      if Nests(hs[0], hs[1..]) {
        var chain := Ancestors(hs);
        assert chain[0] == hs[0] && chain[1..] == Ancestors(hs[1..]);
        if hs[0].level < h.level {
          assert Ancestors(all) == [hs[0]] + Ancestors(all[1..]);
        } else {
          assert Ancestors(all) == Ancestors(all[1..]);
        }
      } else {
        assert Ancestors(all) == Ancestors(all[1..]);
      }
    }
  }

  lemma {:induction false} NestsPlus(g: Heading, later: seq<Heading>, h: Heading)
    ensures Nests(g, later + [h]) <==> Nests(g, later) && h.level > g.level
  {
    if Nests(g, later + [h]) {
      forall j | 0 <= j < |later| ensures later[j].level > g.level { assert (later + [h])[j] == later[j]; }
      assert (later + [h])[|later|] == h;
    }
  }

  ghost predicate StackHolds(stack: map<nat, string>, chain: seq<Heading>)
  {
    && (forall l :: l in stack ==> exists i :: 0 <= i < |chain| && chain[i].level == l)
    && (forall i :: 0 <= i < |chain| ==> chain[i].level in stack && stack[chain[i].level] == Strip(chain[i].title))
  }

  lemma {:induction false} BelowCuts(hs: seq<Heading>, level: nat, n: nat)
    requires n <= |hs|
    requires forall i :: 0 <= i < n ==> hs[i].level < level
    requires forall i :: n <= i < |hs| ==> hs[i].level >= level
    ensures Below(hs, level) == hs[..n]
  {
    if hs != [] {
      if n == 0 {
        BelowCuts(hs[1..], level, 0);
      } else {
        BelowCuts(hs[1..], level, n - 1);
        assert hs[..n] == [hs[0]] + hs[1..][..n - 1];
      }
    }
  }

  lemma {:induction false} CutPoint(chain: seq<Heading>, level: nat) returns (n: nat)
    requires Deepening(chain)
    ensures n <= |chain|
    ensures forall i :: 0 <= i < n ==> chain[i].level < level
    ensures forall i :: n <= i < |chain| ==> chain[i].level >= level
  {
    n := 0;
    while n < |chain| && chain[n].level < level
      invariant n <= |chain|
      invariant forall i :: 0 <= i < n ==> chain[i].level < level
    {
      n := n + 1;
    }
  }

  /** Where a level stands in a chain whose levels strictly increase. */
  lemma {:induction false} ChainCut(chain: seq<Heading>, level: nat) returns (n: nat)
    requires Deepening(chain)
    ensures n <= |chain|
    ensures forall i :: 0 <= i < n ==> chain[i].level < level
    ensures forall i :: n <= i < |chain| ==> chain[i].level >= level
    ensures Below(chain, level) == chain[..n]
    ensures Below(chain, level + 1) == if n < |chain| && chain[n].level == level then chain[..n + 1] else chain[..n]
  {
    n := CutPoint(chain, level);
    BelowCuts(chain, level, n);
    if n < |chain| && chain[n].level == level {
      BelowCuts(chain, level + 1, n + 1);
    } else {
      BelowCuts(chain, level + 1, n);
    }
  }

  lemma {:induction false} TitlesConcat(a: seq<Heading>, b: seq<Heading>)
    ensures Titles(a + b) == Titles(a) + Titles(b)
  {
    if a == [] {
      assert a + b == b;
    } else {
      assert (a + b)[1..] == a[1..] + b;
      TitlesConcat(a[1..], b);
    }
  }

  /** What is left of a stack after a heading is pushed and everything deeper is deleted. */
  ghost predicate Pushed(stack: map<nat, string>, h: Heading, after: map<nat, string>)
  {
    && (forall l :: l in after <==> l == h.level || (l < h.level && l in stack))
    && (forall l :: l in after ==> after[l] == if l == h.level then Strip(h.title) else stack[l])
  }

  lemma {:induction false} PushHolds(stack: map<nat, string>, hs: seq<Heading>, h: Heading, after: map<nat, string>)
    requires StackHolds(stack, Ancestors(hs))
    requires Pushed(stack, h, after)
    ensures StackHolds(after, Ancestors(hs + [h]))
  {
    AncestorsDeepen(hs);
    NextAncestors(hs, h);
    var chain := Ancestors(hs);
    var n := ChainCut(chain, h.level);
    PushHoldsChain(stack, chain, n, h, after);
  }

  lemma {:induction false} PushHoldsChain(
    stack: map<nat, string>, chain: seq<Heading>, n: nat, h: Heading, after: map<nat, string>)
    requires StackHolds(stack, chain)
    requires Pushed(stack, h, after)
    requires n <= |chain|
    requires forall i :: 0 <= i < n ==> chain[i].level < h.level
    requires forall i :: n <= i < |chain| ==> chain[i].level >= h.level
    ensures StackHolds(after, chain[..n] + [h])
  {
    var next := chain[..n] + [h];
    forall l | l in after ensures exists i :: 0 <= i < |next| && next[i].level == l {
      if l == h.level {
        assert next[n].level == l;
      } else {
        var i :| 0 <= i < |chain| && chain[i].level == l;
        assert next[i].level == l;
      }
    }
    forall i | 0 <= i < |next| ensures next[i].level in after && after[next[i].level] == Strip(next[i].title) {
      if i < n { assert next[i] == chain[i]; } else { assert next[i] == h; }
    }
  }

  /** The nested loop: delete from the stack every level deeper than the one just set. */
  method DropDeeper(stack: map<nat, string>, level: nat) returns (kept: map<nat, string>)
    ensures forall l :: l in kept <==> l in stack && l <= level
    ensures forall l :: l in kept ==> kept[l] == stack[l]
  {
    kept := stack;
    var nested := stack.Keys;
    while nested != {}
      invariant nested <= stack.Keys
      invariant forall l :: l in kept <==> l in stack && (l <= level || l in nested)
      invariant forall l :: l in kept ==> kept[l] == stack[l]
      decreases nested
    {
      var l :| l in nested;
      nested := nested - {l};
      if l > level {
        kept := kept - {l};
      }
    }
  }

  lemma {:induction false} UpToIsPrefix(hs: seq<Heading>, position: nat, n: nat)
    requires n <= |hs|
    requires forall i :: 0 <= i < n ==> hs[i].start <= position
    requires n < |hs| ==> hs[n].start > position
    ensures UpTo(hs, position) == hs[..n]
  {
    if n > 0 {
      UpToIsPrefix(hs[1..], position, n - 1);
      assert hs[..n] == [hs[0]] + hs[1..][..n - 1];
    }
  }

  /** The stack of open headings, keyed by level, read off in level order. */
  method SectionPath(headings: seq<Heading>, position: nat) returns (path: string)
    requires forall i :: 0 <= i < |headings| ==> 1 <= headings[i].level <= 6
    ensures path == PathAt(headings, position)
  {
    var stack, reached := OpenHeadings(headings, position);
    ghost var chain := Enclosing(headings, position, reached);
    path := JoinByLevel(stack, chain);
  }

  /** The loop over the headings that start before the position. */
  method OpenHeadings(headings: seq<Heading>, position: nat) returns (stack: map<nat, string>, ghost reached: nat)
    ensures reached <= |headings|
    ensures forall k :: 0 <= k < reached ==> headings[k].start <= position
    ensures reached < |headings| ==> headings[reached].start > position
    ensures StackHolds(stack, Ancestors(headings[..reached]))
  {
    stack := map[];
    var i := 0;
    while i < |headings|
      invariant i <= |headings|
      invariant forall k :: 0 <= k < i ==> headings[k].start <= position
      invariant StackHolds(stack, Ancestors(headings[..i]))
    {
      var heading := headings[i];
      if heading.start > position {
        break;
      }
      assert headings[..i + 1] == headings[..i] + [heading];
      stack := PushHeading(stack, headings[..i], heading);
      i := i + 1;
    }
    reached := i;
  }

  method PushHeading(stack: map<nat, string>, ghost hs: seq<Heading>, heading: Heading) returns (kept: map<nat, string>)
    requires StackHolds(stack, Ancestors(hs))
    ensures StackHolds(kept, Ancestors(hs + [heading]))
  {
    kept := DropDeeper(stack[heading.level := Strip(heading.title)], heading.level);
    PushHolds(stack, hs, heading, kept);
  }

  lemma {:induction false} Enclosing(headings: seq<Heading>, position: nat, n: nat) returns (chain: seq<Heading>)
    requires n <= |headings|
    requires forall i :: 0 <= i < |headings| ==> 1 <= headings[i].level <= 6
    requires forall i :: 0 <= i < n ==> headings[i].start <= position
    requires n < |headings| ==> headings[n].start > position
    ensures chain == Ancestors(headings[..n])
    ensures PathAt(headings, position) == Join(" > ", Titles(chain))
    ensures Deepening(chain)
    ensures forall h :: h in chain ==> 1 <= h.level <= 6
  {
    UpToIsPrefix(headings, position, n);
    AncestorsDeepen(headings[..n]);
    chain := Ancestors(headings[..n]);
  }

  /** `" > ".join(stack[level] for level in sorted(stack))` */
  method JoinByLevel(stack: map<nat, string>, ghost chain: seq<Heading>) returns (path: string)
    requires StackHolds(stack, chain) && Deepening(chain)
    requires forall h :: h in chain ==> 1 <= h.level <= 6
    ensures path == Join(" > ", Titles(chain))
  {
    var parts := [];
    BelowCuts(chain, 1, 0);
    for level := 1 to 7
      invariant parts == Titles(Below(chain, level))
    {
      ghost var n := ChainCut(chain, level);
      if level in stack {
        NextTitle(stack, chain, level, n);
        parts := parts + [stack[level]];
      }
    }
    BelowCuts(chain, 7, |chain|);
    assert chain[..|chain|] == chain;
    path := Join(" > ", parts);
  }

  lemma {:induction false} LevelStandsAtCut(chain: seq<Heading>, level: nat, i: nat, n: nat)
    requires Deepening(chain)
    requires i < |chain| && chain[i].level == level
    requires n <= |chain|
    requires forall k :: 0 <= k < n ==> chain[k].level < level
    requires forall k :: n <= k < |chain| ==> chain[k].level >= level
    ensures i == n
  {
    assert n <= i;
    assert chain[n].level >= level;
  }

  lemma {:induction false} NextTitle(stack: map<nat, string>, chain: seq<Heading>, level: nat, n: nat)
    requires StackHolds(stack, chain) && level in stack
    requires n <= |chain|
    requires forall i :: 0 <= i < n ==> chain[i].level < level
    requires forall i :: n <= i < |chain| ==> chain[i].level >= level
    requires Deepening(chain)
    ensures n < |chain| && chain[n].level == level
    ensures Titles(chain[..n + 1]) == Titles(chain[..n]) + [stack[level]]
  {
    var i :| 0 <= i < |chain| && chain[i].level == level;
    LevelStandsAtCut(chain, level, i, n);
    TitlesNext(chain, n);
  }

  lemma {:induction false} TitlesNext(chain: seq<Heading>, n: nat)
    requires n < |chain|
    ensures Titles(chain[..n + 1]) == Titles(chain[..n]) + [Strip(chain[n].title)]
  {
    assert chain[..n + 1] == chain[..n] + [chain[n]];
    TitlesConcat(chain[..n], [chain[n]]);
    assert Titles([chain[n]]) == [Strip(chain[n].title)];
  }

  // ---------------------------------------------------------------- sections

  function MinLevel(hs: seq<Heading>): nat
  {
    if hs == [] then 7
    else if hs[0].level >= 2 && hs[0].level < MinLevel(hs[1..]) then hs[0].level
    else MinLevel(hs[1..])
  }

  /** `min((level for headings with level >= 2), default=1)` */
  function BusinessLevel(hs: seq<Heading>): nat
  {
    if forall h :: h in hs ==> h.level < 2 then 1 else MinLevel(hs)
  }

  lemma {:induction false} MinLevelIsLeast(hs: seq<Heading>)
    requires forall i :: 0 <= i < |hs| ==> 1 <= hs[i].level <= 6
    ensures forall h :: h in hs && h.level >= 2 ==> MinLevel(hs) <= h.level
    ensures MinLevel(hs) < 7 ==> exists h :: h in hs && h.level == MinLevel(hs) >= 2
    ensures MinLevel(hs) <= 7
  {
    if hs != [] { MinLevelIsLeast(hs[1..]); }
  }

  function AtLevel(hs: seq<Heading>, level: nat): seq<Heading>
  {
    if hs == [] then []
    else if hs[0].level == level then [hs[0]] + AtLevel(hs[1..], level)
    else AtLevel(hs[1..], level)
  }

  function Boundaries(hs: seq<Heading>): seq<Heading> { AtLevel(hs, BusinessLevel(hs)) }

  lemma {:induction false} AtLevelMembers(hs: seq<Heading>, level: nat, h: Heading)
    ensures h in AtLevel(hs, level) <==> h in hs && h.level == level
  {
    if hs != [] {
      AtLevelMembers(hs[1..], level, h);
      assert h in hs <==> h == hs[0] || h in hs[1..];
    }
  }

  lemma {:induction false} AtLevelKeepsOrder(hs: seq<Heading>, level: nat, length: nat)
    requires HeadingMatches(hs, length)
    ensures HeadingMatches(AtLevel(hs, level), length)
  {
    if hs != [] {
      assert HeadingMatches(hs[1..], length);
      AtLevelKeepsOrder(hs[1..], level, length);
      if hs[0].level == level {
        var rest := AtLevel(hs[1..], level);
        forall k | 0 <= k < |rest| ensures hs[0].start < rest[k].start {
          AtLevelMembers(hs[1..], level, rest[k]);
        }
      }
    }
  }

  /** The section that begins at boundary `i`; the first one takes in whatever precedes it. */
  function SectionAt(hs: seq<Heading>, bs: seq<Heading>, i: nat, length: nat): Section
    requires i < |bs|
  {
    Section(if i == 0 then 0 else bs[i].start,
            if i + 1 < |bs| then bs[i + 1].start else length,
            PathAt(hs, bs[i].start),
            Strip(bs[i].title))
  }

  function SectionsOf(hs: seq<Heading>, length: nat): seq<Section>
  {
    var bs := Boundaries(hs);
    if bs == [] then [Section(0, length, "", "")]
    else seq(|bs|, i requires 0 <= i < |bs| => SectionAt(hs, bs, i, length))
  }

  method FindSections(hs: seq<Heading>, length: nat) returns (sections: seq<Section>)
    requires forall i :: 0 <= i < |hs| ==> 1 <= hs[i].level <= 6
    ensures sections == SectionsOf(hs, length)
  {
    var boundaries := Boundaries(hs);
    if boundaries == [] {
      return [Section(0, length, "", "")];
    }
    sections := [];
    for i := 0 to |boundaries|
      invariant |sections| == i
      invariant forall k :: 0 <= k < i ==> sections[k] == SectionAt(hs, boundaries, k, length)
    {
      var heading := boundaries[i];
      var start := if i == 0 then 0 else heading.start;
      var end := if i + 1 < |boundaries| then boundaries[i + 1].start else length;
      var path := SectionPath(hs, heading.start);
      sections := sections + [Section(start, end, path, Strip(heading.title))];
    }
  }

  /** Sections are non-empty and follow one another from the first character to the last. */
  predicate SectionsTile(sections: seq<Section>, length: nat)
  {
    && sections != [] && sections[0].start == 0 && sections[|sections| - 1].end == length
    && (forall i :: 0 <= i < |sections| ==> sections[i].start < sections[i].end <= length)
    && (forall i :: 0 < i < |sections| ==> sections[i - 1].end == sections[i].start)
  }

  lemma {:induction false} SectionsTileBlock(hs: seq<Heading>, length: nat)
    requires HeadingMatches(hs, length) && length > 0
    ensures SectionsTile(SectionsOf(hs, length), length)
  {
    AtLevelKeepsOrder(hs, BusinessLevel(hs), length);
    var bs, sections := Boundaries(hs), SectionsOf(hs, length);
    if bs != [] {
      forall i | 0 <= i < |bs| ensures sections[i] == SectionAt(hs, bs, i, length) {}
      SectionsAtTile(hs, bs, sections, length);
    }
  }

  lemma {:induction false} SectionsAtTile(hs: seq<Heading>, bs: seq<Heading>, sections: seq<Section>, length: nat)
    requires bs != [] && HeadingMatches(bs, length) && |sections| == |bs|
    requires forall i :: 0 <= i < |bs| ==> sections[i] == SectionAt(hs, bs, i, length)
    ensures SectionsTile(sections, length)
  {
  }

  lemma {:induction false} SectionsAscend(sections: seq<Section>, length: nat, i: nat, j: nat)
    requires SectionsTile(sections, length)
    requires i < j < |sections|
    ensures sections[i].end <= sections[j].start
    decreases j
  {
    assert sections[j - 1].end == sections[j].start;
    if i + 1 < j { SectionsAscend(sections, length, i, j - 1); }
  }

  // ---------------------------------------------------------------- clauses

  /** `next(item for item in sections if item.start <= position < item.end)`, or `|sections|`. */
  function SectionIndex(sections: seq<Section>, position: nat): (i: nat)
    ensures i <= |sections|
    ensures i < |sections| ==> sections[i].start <= position < sections[i].end
    ensures forall k :: 0 <= k < i ==> !(sections[k].start <= position < sections[k].end)
  {
    if sections == [] || sections[0].start <= position < sections[0].end then 0
    else 1 + SectionIndex(sections[1..], position)
  }

  lemma {:induction false} SectionExists(sections: seq<Section>, length: nat, position: nat, n: nat)
    requires SectionsTile(sections, length)
    requires n <= |sections|
    requires n > 0 && position < sections[n - 1].end
    ensures SectionIndex(sections, position) < |sections|
  {
    if !(sections[n - 1].start <= position < sections[n - 1].end) {
      assert n > 1;
      SectionExists(sections, length, position, n - 1);
    }
  }

  function ClauseAt(ms: seq<Marker>, sections: seq<Section>, i: nat): Clause
    requires i < |ms|
    requires SectionIndex(sections, ms[i].start) < |sections|
  {
    var end := sections[SectionIndex(sections, ms[i].start)].end;
    Clause(ms[i].clauseId, ms[i].start, if i + 1 < |ms| && ms[i + 1].start < end then ms[i + 1].start else end)
  }

  /** Each marker opens a clause that runs to the next marker or to the end of its section. */
  predicate AreClauses(cs: seq<Clause>, ms: seq<Marker>, sections: seq<Section>)
  {
    && |cs| == |ms|
    && forall i :: 0 <= i < |ms| ==>
         && SectionIndex(sections, ms[i].start) < |sections|
         && cs[i] == ClauseAt(ms, sections, i)
  }

  /** `None` stands for the `StopIteration` of a marker that lies in no section. */
  method FindClauses(ms: seq<Marker>, sections: seq<Section>) returns (r: Option<seq<Clause>>)
    ensures r.Some? <==> forall i :: 0 <= i < |ms| ==> SectionIndex(sections, ms[i].start) < |sections|
    ensures r.Some? ==> AreClauses(r.value, ms, sections)
  {
    var cs := [];
    for i := 0 to |ms|
      invariant |cs| == i
      invariant forall k :: 0 <= k < i ==> SectionIndex(sections, ms[k].start) < |sections|
                                           && cs[k] == ClauseAt(ms, sections, k)
    {
      var s := SectionIndex(sections, ms[i].start);
      if s == |sections| {
        return None;
      }
      var nextMarkerStart := if i + 1 < |ms| then ms[i + 1].start else sections[s].end;
      cs := cs + [Clause(ms[i].clauseId, ms[i].start, Min(nextMarkerStart, sections[s].end))];
    }
    return Some(cs);
  }

  function InSection(section: Section, cs: seq<Clause>): seq<Clause>
  {
    if cs == [] then []
    else
      var c := cs[|cs| - 1];
      InSection(section, cs[..|cs| - 1])
      + (if section.start <= c.start && c.end <= section.end then [c] else [])
  }

  /** The clauses of one section: non-empty, each ending where the next begins, the last one at the
      section's end. */
  predicate ClauseRun(section: Section, cs: seq<Clause>)
  {
    && section.start < section.end
    && (forall i :: 0 <= i < |cs| ==> section.start <= cs[i].start < cs[i].end <= section.end)
    && (forall i :: 0 < i < |cs| ==> cs[i - 1].end == cs[i].start)
    && (cs != [] ==> cs[|cs| - 1].end == section.end)
  }

  /** How many markers start before a position. */
  lemma {:induction false} MarkerCut(ms: seq<Marker>, content: string, position: nat) returns (n: nat)
    requires MarkerMatches(ms, content)
    ensures n <= |ms|
    ensures forall i :: 0 <= i < n ==> ms[i].start < position
    ensures forall i :: n <= i < |ms| ==> ms[i].start >= position
  {
    n := 0;
    while n < |ms| && ms[n].start < position
      invariant n <= |ms|
      invariant forall i :: 0 <= i < n ==> ms[i].start < position
    {
      n := n + 1;
    }
  }

  lemma {:induction false} InSectionIsSlice(section: Section, cs: seq<Clause>, a: nat, b: nat, n: nat)
    requires a <= b <= |cs| && n <= |cs|
    requires forall i :: 0 <= i < |cs| ==> (section.start <= cs[i].start && cs[i].end <= section.end <==> a <= i < b)
    ensures InSection(section, cs[..n]) == cs[Min(a, n)..Min(b, n)]
  {
    if n > 0 {
      InSectionIsSlice(section, cs, a, b, n - 1);
      assert cs[..n][..n - 1] == cs[..n - 1];
      SliceNext(cs, a, b, n);
    }
  }

  lemma {:induction false} SliceNext(cs: seq<Clause>, a: nat, b: nat, n: nat)
    requires a <= b <= |cs| && 0 < n <= |cs|
    ensures cs[Min(a, n)..Min(b, n)] == cs[Min(a, n - 1)..Min(b, n - 1)] + (if a <= n - 1 < b then [cs[n - 1]] else [])
  {
  }

  lemma {:induction false} UniqueSection(sections: seq<Section>, length: nat, s: nat, position: nat)
    requires SectionsTile(sections, length)
    requires s < |sections| && sections[s].start <= position < sections[s].end
    ensures SectionIndex(sections, position) == s
  {
    var t := SectionIndex(sections, position);
    if t < s { SectionsAscend(sections, length, t, s); }
  }

  /** A clause passes the offset test of a section exactly when its marker is in the section. */
  lemma {:induction false} ClauseInSection(
    sections: seq<Section>, length: nat, ms: seq<Marker>, cs: seq<Clause>, s: nat, i: nat)
    requires SectionsTile(sections, length)
    requires AreClauses(cs, ms, sections)
    requires i + 1 < |ms| ==> ms[i].start < ms[i + 1].start
    requires s < |sections| && i < |cs|
    ensures cs[i].start < cs[i].end
    ensures sections[s].start <= cs[i].start && cs[i].end <= sections[s].end
       <==> sections[s].start <= ms[i].start < sections[s].end
    ensures SectionIndex(sections, ms[i].start) == s
       <==> sections[s].start <= ms[i].start < sections[s].end
    ensures sections[s].start <= ms[i].start < sections[s].end ==>
              cs[i].end == if i + 1 < |ms| && ms[i + 1].start < sections[s].end
                           then ms[i + 1].start else sections[s].end
  {
    assert cs[i] == ClauseAt(ms, sections, i);
    if sections[s].start <= ms[i].start < sections[s].end {
      UniqueSection(sections, length, s, ms[i].start);
    }
  }

  /** The filter by offsets in `chunk` finds exactly the clauses whose marker is in the section: a
      slice of the clauses, and a run. */
  lemma {:induction false} SectionClausesRun(
    sections: seq<Section>, content: string, ms: seq<Marker>, cs: seq<Clause>, s: nat)
    returns (a: nat, b: nat)
    requires SectionsTile(sections, |content|)
    requires MarkerMatches(ms, content)
    requires AreClauses(cs, ms, sections)
    requires s < |sections|
    ensures a <= b <= |cs| && InSection(sections[s], cs) == cs[a..b]
    ensures forall i :: 0 <= i < |cs| ==> (SectionIndex(sections, ms[i].start) == s <==> a <= i < b)
    ensures ClauseRun(sections[s], cs[a..b])
  {
    a, b := SectionCut(sections[s], content, ms);
    AllClauseOffsets(sections, content, ms, cs, s, a, b);
    InSectionIsSlice(sections[s], cs, a, b, |cs|);
    assert cs[..|cs|] == cs;
    SliceIsRun(sections[s], ms, cs, a, b);
  }

  /** The markers of a section are those between two indices. */
  lemma {:induction false} SectionCut(section: Section, content: string, ms: seq<Marker>) returns (a: nat, b: nat)
    requires MarkerMatches(ms, content) && section.start < section.end
    ensures a <= b <= |ms|
    ensures forall k :: 0 <= k < |ms| ==> (ms[k].start < section.start <==> k < a)
    ensures forall k :: 0 <= k < |ms| ==> (ms[k].start < section.end <==> k < b)
  {
    a := MarkerCut(ms, content, section.start);
    b := MarkerCut(ms, content, section.end);
    assert b < |ms| ==> ms[b].start >= section.end;
  }

  lemma {:induction false} AllClauseOffsets(
    sections: seq<Section>, content: string, ms: seq<Marker>, cs: seq<Clause>, s: nat, a: nat, b: nat)
    requires SectionsTile(sections, |content|) && MarkerMatches(ms, content) && AreClauses(cs, ms, sections)
    requires s < |sections| && a <= b <= |ms|
    requires forall k :: 0 <= k < |ms| ==> (ms[k].start < sections[s].start <==> k < a)
    requires forall k :: 0 <= k < |ms| ==> (ms[k].start < sections[s].end <==> k < b)
    ensures forall i :: 0 <= i < |cs| ==>
              (sections[s].start <= cs[i].start && cs[i].end <= sections[s].end <==> a <= i < b)
    ensures forall i :: 0 <= i < |cs| ==> (SectionIndex(sections, ms[i].start) == s <==> a <= i < b)
    ensures forall i :: 0 <= i < |cs| ==> cs[i].start < cs[i].end && cs[i].start == ms[i].start
    ensures forall i :: a <= i < b ==> cs[i].end == if i + 1 < b then ms[i + 1].start else sections[s].end
  {
    forall i | 0 <= i < |cs|
      ensures sections[s].start <= cs[i].start && cs[i].end <= sections[s].end <==> a <= i < b
      ensures SectionIndex(sections, ms[i].start) == s <==> a <= i < b
      ensures cs[i].start < cs[i].end && cs[i].start == ms[i].start
      ensures a <= i < b ==> cs[i].end == if i + 1 < b then ms[i + 1].start else sections[s].end
    {
      ClauseOffsets(sections, content, ms, cs, s, a, b, i);
    }
  }

  lemma {:induction false} ClauseOffsets(
    sections: seq<Section>, content: string, ms: seq<Marker>, cs: seq<Clause>, s: nat, a: nat, b: nat, i: nat)
    requires SectionsTile(sections, |content|) && MarkerMatches(ms, content) && AreClauses(cs, ms, sections)
    requires s < |sections| && i < |cs| && a <= b <= |ms|
    requires forall k :: 0 <= k < |ms| ==> (ms[k].start < sections[s].start <==> k < a)
    requires forall k :: 0 <= k < |ms| ==> (ms[k].start < sections[s].end <==> k < b)
    ensures sections[s].start <= cs[i].start && cs[i].end <= sections[s].end <==> a <= i < b
    ensures SectionIndex(sections, ms[i].start) == s <==> a <= i < b
    ensures cs[i].start < cs[i].end && cs[i].start == ms[i].start
    ensures a <= i < b ==> cs[i].end == if i + 1 < b then ms[i + 1].start else sections[s].end
  {
    ClauseInSection(sections, |content|, ms, cs, s, i);
  }

  lemma {:induction false} SliceIsRun(section: Section, ms: seq<Marker>, cs: seq<Clause>, a: nat, b: nat)
    requires section.start < section.end
    requires |ms| == |cs| && a <= b <= |cs|
    requires forall i :: a <= i < b ==> section.start <= cs[i].start && cs[i].end <= section.end
    requires forall i :: 0 <= i < |cs| ==> cs[i].start < cs[i].end && cs[i].start == ms[i].start
    requires forall i :: a <= i < b ==> cs[i].end == if i + 1 < b then ms[i + 1].start else section.end
    ensures ClauseRun(section, cs[a..b])
  {
    var run := cs[a..b];
    forall i | 0 < i < |run| ensures run[i - 1].end == run[i].start {
      assert run[i - 1] == cs[a + i - 1] && run[i] == cs[a + i];
    }
  }

  lemma {:induction false} ClausesDisjoint(
    sections: seq<Section>, content: string, ms: seq<Marker>, cs: seq<Clause>, i: nat, j: nat)
    requires MarkerMatches(ms, content) && AreClauses(cs, ms, sections)
    requires i < j < |cs|
    ensures cs[i].end <= cs[j].start
  {
    assert SectionIndex(sections, ms[i].start) < |sections| && cs[i] == ClauseAt(ms, sections, i);
    assert SectionIndex(sections, ms[j].start) < |sections| && cs[j] == ClauseAt(ms, sections, j);
    EndsBeforeNext(ms, sections, i);
    assert i + 1 < j ==> ms[i + 1].start < ms[j].start;
  }

  lemma {:induction false} EndsBeforeNext(ms: seq<Marker>, sections: seq<Section>, i: nat)
    requires i + 1 < |ms| && SectionIndex(sections, ms[i].start) < |sections|
    ensures ClauseAt(ms, sections, i).end <= ms[i + 1].start
  {
  }

  lemma {:induction false} ClausesFound(sections: seq<Section>, content: string, ms: seq<Marker>)
    requires SectionsTile(sections, |content|)
    requires MarkerMatches(ms, content)
    ensures forall i :: 0 <= i < |ms| ==> SectionIndex(sections, ms[i].start) < |sections|
  {
    forall i | 0 <= i < |ms| ensures SectionIndex(sections, ms[i].start) < |sections| {
      SectionExists(sections, |content|, ms[i].start, |sections|);
    }
  }
}
