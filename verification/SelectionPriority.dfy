/** What a selection takes and leaves out, told from the stored items and the finished selection. */
module SelectionPriority {
  import opened Texts
  import opened ContextSelection
  import opened SelectionTheorems

  // ---------------------------------------------------------------- who comes first

  /** The levels of trust, the most trusted first. */
  const TRUST_ORDER: seq<Trust> := [
    TrustedSystem, VerifiedInternal, TrustedToolResult, UntrustedUser, UntrustedExternal]

  predicate MoreTrusted(a: Trust, b: Trust)
  {
    exists i, j :: 0 <= i < j < |TRUST_ORDER| && TRUST_ORDER[i] == a && TRUST_ORDER[j] == b
  }

  /** Two texts agree up to a place where the first ends or has the smaller character. */
  predicate SmallerText(a: string, b: string)
  {
    exists k :: 0 <= k <= |a| && k < |b| && a[..k] == b[..k] && (k == |a| || a[k] < b[k])
  }

  /** The more trusted comes first, then the older, then the smaller identity. */
  predicate Outranks(a: Item, b: Item)
  {
    || MoreTrusted(a.trust, b.trust)
    || (a.trust == b.trust && a.createdAt < b.createdAt)
    || (a.trust == b.trust && a.createdAt == b.createdAt && SmallerText(a.id, b.id))
  }

  lemma {:induction false} TrustIsListed(a: Trust)
    ensures TRUST_ORDER[TrustPriority(a)] == a && |TRUST_ORDER| == 5
    ensures forall i :: 0 <= i < |TRUST_ORDER| ==> TrustPriority(TRUST_ORDER[i]) == i
  {
  }

  lemma {:induction false} MoreTrustedMeansPriority(a: Trust, b: Trust)
    ensures MoreTrusted(a, b) <==> TrustPriority(a) < TrustPriority(b)
  {
    TrustIsListed(a);
    TrustIsListed(b);
    if TrustPriority(a) < TrustPriority(b) {
      var i, j := TrustPriority(a), TrustPriority(b);
      assert 0 <= i < j < |TRUST_ORDER| && TRUST_ORDER[i] == a && TRUST_ORDER[j] == b;
    }
  }

  lemma {:induction false} LexLessMeansSmaller(a: string, b: string)
    ensures LexLess(a, b) <==> SmallerText(a, b)
  {
    if a == "" || b == "" || a[0] != b[0] {
      if LexLess(a, b) { assert a[..0] == b[..0]; }
      if SmallerText(a, b) { FirstDifference(a, b); }
    } else {
      LexLessMeansSmaller(a[1..], b[1..]);
      SmallerTail(a, b);
    }
  }

  lemma {:induction false} FirstDifference(a: string, b: string)
    requires SmallerText(a, b) && (a == "" || b == "" || a[0] != b[0])
    ensures b != "" && (a == "" || a[0] < b[0])
  {
    var k :| 0 <= k <= |a| && k < |b| && a[..k] == b[..k] && (k == |a| || a[k] < b[k]);
  }

  lemma {:induction false} SmallerTail(a: string, b: string)
    requires a != "" && b != "" && a[0] == b[0]
    ensures SmallerText(a, b) <==> SmallerText(a[1..], b[1..])
  {
    var s, t := a[1..], b[1..];
    if SmallerText(a, b) {
      var k :| 0 <= k <= |a| && k < |b| && a[..k] == b[..k] && (k == |a| || a[k] < b[k]);
      assert k > 0;
      assert s[..k - 1] == a[..k][1..] && t[..k - 1] == b[..k][1..];
      assert s[..k - 1] == t[..k - 1] && (k - 1 == |s| || s[k - 1] < t[k - 1]);
    }
    if SmallerText(s, t) {
      var k :| 0 <= k <= |s| && k < |t| && s[..k] == t[..k] && (k == |s| || s[k] < t[k]);
      assert a[..k + 1] == [a[0]] + s[..k] && b[..k + 1] == [b[0]] + t[..k];
      assert k + 1 == |a| || a[k + 1] < b[k + 1];
    }
  }

  lemma {:induction false} OutranksIsTheSortKey(a: Item, b: Item)
    ensures Outranks(a, b) <==> Precedes(a, b)
  {
    hide SmallerText, LexLess, MoreTrusted;
    MoreTrustedMeansPriority(a.trust, b.trust);
    LexLessMeansSmaller(a.id, b.id);
    TrustIsListed(a.trust);
    TrustIsListed(b.trust);
  }

  // ---------------------------------------------------------------- what is allowed, and what fits

  /** The policy admits the item at that time. */
  predicate Admits(policy: Policy, x: Item, at: int)
  {
    && (x.expiresAt.Some? ==> at < x.expiresAt.value)
    && x.kind in policy.kinds && x.trust in policy.trusts
    && (x.kind == KnowledgeEvidence || x.kind == DataEvidence ==> x.domain.Some? && x.domain.value in policy.domains)
  }

  lemma {:induction false} AdmittedIsEligible(policy: Policy, x: Item, at: int)
    ensures Admits(policy, x, at) <==> Eligible(x, policy, at)
    ensures Admits(policy, x, at) <==> RejectionReason(x, policy, at).None?
    ensures Admits(policy, x, at) <==> Why(x, policy, at) == BudgetExceeded
  {
    ReasonIsFirstViolation(x, policy, at);
  }

  function Tokens(items: seq<Item>): nat
  {
    if items == [] then 0 else items[0].tokens + Tokens(items[1..])
  }

  /** The tokens of the required items and of those that outrank `x`. */
  function TokensAhead(items: seq<Item>, policy: Policy, x: Item): nat
  {
    if items == [] then 0
    else (if items[0].id in policy.required || Outranks(items[0], x) then items[0].tokens else 0)
         + TokensAhead(items[1..], policy, x)
  }

  lemma {:induction false} TokensAppend(a: seq<Item>, b: seq<Item>)
    ensures Tokens(a + b) == Tokens(a) + Tokens(b)
  {
    if a == [] {
      assert a + b == b;
    } else {
      assert (a + b)[1..] == a[1..] + b;
      TokensAppend(a[1..], b);
    }
  }

  lemma {:induction false} TokensAheadAppend(a: seq<Item>, b: seq<Item>, policy: Policy, x: Item)
    ensures TokensAhead(a + b, policy, x) == TokensAhead(a, policy, x) + TokensAhead(b, policy, x)
  {
    if a == [] {
      assert a + b == b;
    } else {
      assert (a + b)[1..] == a[1..] + b;
      TokensAheadAppend(a[1..], b, policy, x);
    }
  }

  lemma {:induction false} SumTokensIsTokens(items: seq<Item>)
    ensures SumTokens(items) == Tokens(items)
  {
    if items != [] {
      var n := |items| - 1;
      SumTokensIsTokens(items[..n]);
      TokensAppend(items[..n], [items[n]]);
      assert items == items[..n] + [items[n]];
      assert Tokens([items[n]]) == items[n].tokens + Tokens([]);
    }
  }

  /** All the items count, or none does. */
  lemma {:induction false} AllAhead(items: seq<Item>, policy: Policy, x: Item)
    ensures (forall i :: 0 <= i < |items| ==> items[i].id in policy.required || Outranks(items[i], x)) ==>
              TokensAhead(items, policy, x) == Tokens(items)
    ensures (forall i :: 0 <= i < |items| ==> items[i].id !in policy.required && !Outranks(items[i], x)) ==>
              TokensAhead(items, policy, x) == 0
  {
    hide Outranks;
    if items != [] { AllAhead(items[1..], policy, x); }
  }

  /** What is taken up to candidate `k` counts ahead of it, and what is taken from it on does not. */
  lemma {:induction false} TakenAhead(
    items: map<string, Item>, policy: Policy, at: int, start: Pass, cs: seq<Item>, n: nat, k: nat)
    requires policy.Valid() && AreCandidates(items, policy, cs)
    requires k <= n <= |cs| && k < |cs|
    ensures TokensAhead(TakenUpTo(start, cs, policy, at, n), policy, cs[k])
         == Tokens(TakenUpTo(start, cs, policy, at, k))
  {
    hide AreCandidates, Outranks, Taken, TokensAhead, Tokens;
    if n == k {
      TakenBefore(items, policy, at, start, cs, k);
    } else {
      TakenAhead(items, policy, at, start, cs, n - 1, k);
      LaterIsNotAhead(items, policy, cs, n - 1, k);
      var before := TakenUpTo(start, cs, policy, at, n - 1);
      var next := if Taken(start, cs, policy, at, n - 1) then [cs[n - 1]] else [];
      TokensAheadAppend(before, next, policy, cs[k]);
      AllAhead(next, policy, cs[k]);
    }
  }

  lemma {:induction false} LaterIsNotAhead(items: map<string, Item>, policy: Policy, cs: seq<Item>, j: nat, k: nat)
    requires AreCandidates(items, policy, cs) && k <= j < |cs|
    ensures cs[j].id !in policy.required && !Outranks(cs[j], cs[k])
  {
    hide Outranks, Precedes;
    OutranksIsTheSortKey(cs[j], cs[k]);
    PrecedesIsStrictTotal(cs[k], cs[j], cs[k]);
  }

  lemma {:induction false} TakenBefore(
    items: map<string, Item>, policy: Policy, at: int, start: Pass, cs: seq<Item>, k: nat)
    requires policy.Valid() && AreCandidates(items, policy, cs) && k < |cs|
    ensures TokensAhead(TakenUpTo(start, cs, policy, at, k), policy, cs[k])
         == Tokens(TakenUpTo(start, cs, policy, at, k))
  {
    hide Outranks, Precedes, Taken;
    var taken := TakenUpTo(start, cs, policy, at, k);
    forall i | 0 <= i < |taken| ensures Outranks(taken[i], cs[k]) {
      TakenMembers(start, cs, policy, at, k, taken[i]);
      OutranksIsTheSortKey(taken[i], cs[k]);
    }
    AllAhead(taken, policy, cs[k]);
  }

  /** The tokens of a pass before candidate `k` are those of the required items and of what was selected
      and outranks it. */
  lemma {:induction false} TokensBeforeCandidate(
    items: map<string, Item>, policy: Policy, at: int, sel: Selection, cs: seq<Item>, k: nat)
    requires IsStore(items) && policy.Valid() && AllPresent(items, policy.required)
    requires Arises(items, policy, at, sel, cs) && k < |cs|
    requires SumTokens(RequiredItems(items, policy.required)) <= policy.budget.Available()
    ensures Greedy(StartOf(items, policy), cs[..k], policy, at).tokens == TokensAhead(sel.selected, policy, cs[k])
  {
    var start := StartOf(items, policy);
    var taken := TakenUpTo(start, cs, policy, at, k);
    GreedyKeepsBudget(start, cs[..k], policy, at);
    GreedySorts(start, cs, policy, at, k);
    SumTokensIsTokens(start.selected + taken);
    TokensAppend(start.selected, taken);
    RequiredAhead(items, policy, cs[k]);
    TakenAhead(items, policy, at, start, cs, |cs|, k);
    TokensAheadAppend(start.selected, TakenUpTo(start, cs, policy, at, |cs|), policy, cs[k]);
  }

  lemma {:induction false} RequiredAhead(items: map<string, Item>, policy: Policy, x: Item)
    requires IsStore(items) && AllPresent(items, policy.required)
    ensures TokensAhead(RequiredItems(items, policy.required), policy, x)
         == Tokens(RequiredItems(items, policy.required))
  {
    AllAhead(RequiredItems(items, policy.required), policy, x);
  }

  // ---------------------------------------------------------------- the finished selection

  /** Behind the required items, the more trusted item comes first, then the older one, then the one with
      the smaller identity. */
  lemma {:induction false} SelectedByPriority(items: map<string, Item>, policy: Policy, at: int)
    requires IsStore(items) && policy.Valid() && Outcome(items, policy, at).Ok?
    ensures var selected, r := Outcome(items, policy, at).value.selected, |policy.required|;
            && r <= |selected|
            && (forall i :: 0 <= i < r ==> policy.required[i] in items && selected[i] == items[policy.required[i]])
            && forall i, j :: r <= i < j < |selected| ==> Outranks(selected[i], selected[j])
  {
    hide Outranks, InOrder, Outcome, Sound;
    SelectionIsSound(items, policy, at);
    var selected, r := Outcome(items, policy, at).value.selected, |policy.required|;
    RequiredThenOrdered(items, policy, at, Outcome(items, policy, at).value);
    forall i, j | r <= i < j < |selected| ensures Outranks(selected[i], selected[j]) {
      OrderedMeansOutranks(selected[r..], i - r, j - r);
    }
  }

  lemma {:induction false} RequiredThenOrdered(items: map<string, Item>, policy: Policy, at: int, sel: Selection)
    requires policy.Valid() && AllPresent(items, policy.required) && Sound(items, policy, at, sel)
    ensures |policy.required| <= |sel.selected| && InOrder(sel.selected[|policy.required|..])
    ensures forall i :: 0 <= i < |policy.required| ==>
              policy.required[i] in items && sel.selected[i] == items[policy.required[i]]
  {
    hide InOrder, Justified, Consistent, Eligible;
    var r := |policy.required|;
    forall i | 0 <= i < r ensures sel.selected[i] == items[policy.required[i]] {
      assert sel.selected[..r][i] == RequiredItems(items, policy.required)[i];
    }
  }

  lemma {:induction false} OrderedMeansOutranks(s: seq<Item>, i: nat, j: nat)
    requires InOrder(s) && i < j < |s|
    ensures Outranks(s[i], s[j])
  {
    hide Outranks, Precedes;
    OutranksIsTheSortKey(s[i], s[j]);
  }

  /** An item that is not required is selected exactly when the policy admits it and it fits beside the
      required items and the selected items that outrank it; if it is admitted and does not fit, it is
      dropped for the budget. */
  lemma {:induction false} SelectedExactlyWhenItFits(items: map<string, Item>, policy: Policy, at: int, id: string)
    requires IsStore(items) && policy.Valid() && Outcome(items, policy, at).Ok?
    requires id in items && id !in policy.required
    ensures var sel, x := Outcome(items, policy, at).value, items[id];
            var available := policy.budget.maxTokens - policy.budget.reserved;
            var fits := TokensAhead(sel.selected, policy, x) + x.tokens <= available;
            && (x in sel.selected <==> Admits(policy, x, at) && fits)
            && (Dropped(id, BudgetExceeded) in sel.dropped <==> Admits(policy, x, at) && !fits)
  {
    hide Outcome, Greedy, Admits, Eligible, RejectionReason;
    SelectionSucceedsIff(items, policy, at);
    var sel, x := Outcome(items, policy, at).value, items[id];
    var cs := OutcomeArises(items, policy, at);
    assert x in Elements(cs);
    var k :| 0 <= k < |cs| && cs[k] == x;
    AdmittedIsEligible(policy, x, at);
    TokensBeforeCandidate(items, policy, at, sel, cs, k);
    CandidateIsSorted(items, policy, at, sel, cs, k);
  }

  lemma {:induction false} CandidateIsSorted(
    items: map<string, Item>, policy: Policy, at: int, sel: Selection, cs: seq<Item>, k: nat)
    requires IsStore(items) && policy.Valid() && AllPresent(items, policy.required)
    requires Arises(items, policy, at, sel, cs) && k < |cs|
    ensures cs[k] in sel.selected <==> Taken(StartOf(items, policy), cs, policy, at, k)
    ensures Dropped(cs[k].id, Why(cs[k], policy, at)) in sel.dropped
       <==> !Taken(StartOf(items, policy), cs, policy, at, k)
    ensures forall reason :: Dropped(cs[k].id, reason) in sel.dropped ==> reason == Why(cs[k], policy, at)
  {
    hide Taken, RejectionReason;
    var start := StartOf(items, policy);
    TakenMembers(start, cs, policy, at, |cs|, cs[k]);
    forall i | 0 <= i < |policy.required| ensures start.selected[i] != cs[k] {
      assert start.selected[i].id == policy.required[i];
    }
    forall reason | Dropped(cs[k].id, reason) in sel.dropped
      ensures reason == Why(cs[k], policy, at) && !Taken(start, cs, policy, at, k)
    {
      DroppedMembers(start, cs, policy, at, |cs|, Dropped(cs[k].id, reason));
    }
    DroppedMembers(start, cs, policy, at, |cs|, Dropped(cs[k].id, Why(cs[k], policy, at)));
  }

  /** Why an item was dropped: the first rule it breaks, or the budget. */
  lemma {:induction false} DroppedForFirstRule(
    items: map<string, Item>, policy: Policy, at: int, id: string, reason: Reason)
    requires IsStore(items) && policy.Valid() && Outcome(items, policy, at).Ok?
    requires Dropped(id, reason) in Outcome(items, policy, at).value.dropped
    ensures id in items && id !in policy.required
    ensures var x := items[id];
            var expired := x.expiresAt.Some? && x.expiresAt.value <= at;
            var allowed := x.kind in policy.kinds && x.trust in policy.trusts;
            var evidence := x.kind == KnowledgeEvidence || x.kind == DataEvidence;
            var foreign := evidence && (x.domain.None? || x.domain.value !in policy.domains);
            && (reason == Expired <==> expired)
            && (reason == KindNotAllowed <==> !expired && x.kind !in policy.kinds)
            && (reason == TrustNotAllowed <==> !expired && x.kind in policy.kinds && x.trust !in policy.trusts)
            && (reason == DomainNotAllowed <==> !expired && allowed && foreign)
            && (reason == BudgetExceeded <==> Admits(policy, x, at))
  {
    hide Outcome, Greedy;
    var cs := OutcomeArises(items, policy, at);
    DroppedMembers(StartOf(items, policy), cs, policy, at, |cs|, Dropped(id, reason));
    var k :| 0 <= k < |cs| && Dropped(id, reason) == Dropped(cs[k].id, Why(cs[k], policy, at));
    assert items[cs[k].id] == cs[k];
  }

  /** The totals of a selection. */
  lemma {:induction false} TotalsAreTokens(items: map<string, Item>, policy: Policy, at: int)
    requires IsStore(items) && policy.Valid() && Outcome(items, policy, at).Ok?
    ensures var sel := Outcome(items, policy, at).value;
            && sel.available == policy.budget.maxTokens - policy.budget.reserved
            && sel.total == Tokens(sel.selected) <= sel.available
  {
    var cs := OutcomeArises(items, policy, at);
    SumTokensIsTokens(Outcome(items, policy, at).value.selected);
  }

  // ---------------------------------------------------------------- the first error

  /** The tokens of the first `n` required items. */
  function RequiredTokens(items: map<string, Item>, policy: Policy, n: nat): nat
    requires n <= |policy.required|
  {
    if n == 0 then 0
    else RequiredTokens(items, policy, n - 1)
         + (if policy.required[n - 1] in items then items[policy.required[n - 1]].tokens else 0)
  }

  /** Nothing stands against the first `n` required items. */
  predicate RequiredFit(items: map<string, Item>, policy: Policy, at: int, n: nat)
    requires n <= |policy.required|
  {
    && (forall i :: 0 <= i < n ==> policy.required[i] in items && Admits(policy, items[policy.required[i]], at))
    && RequiredTokens(items, policy, n) <= policy.budget.maxTokens - policy.budget.reserved
  }

  lemma {:induction false} RequiredTokensAreSum(items: map<string, Item>, policy: Policy, n: nat)
    requires n <= |policy.required| && AllPresent(items, policy.required[..n])
    ensures RequiredTokens(items, policy, n) == SumTokens(RequiredItems(items, policy.required[..n]))
  {
    hide AllPresent, SumTokens, RequiredItems;
    if n == 0 {
      NoRequiredTokens(items, policy);
    } else {
      ShorterPrefix(items, policy.required, n);
      RequiredTokensAreSum(items, policy, n - 1);
      RequiredGrows(items, policy.required, n - 1);
    }
  }

  lemma {:induction false} NoRequiredTokens(items: map<string, Item>, policy: Policy)
    ensures AllPresent(items, policy.required[..0])
    ensures SumTokens(RequiredItems(items, policy.required[..0])) == 0
  {
  }

  lemma {:induction false} ShorterPrefix(items: map<string, Item>, ids: seq<string>, n: nat)
    requires 0 < n <= |ids| && AllPresent(items, ids[..n])
    ensures AllPresent(items, ids[..n - 1]) && ids[n - 1] in items
  {
    assert ids[..n][n - 1] == ids[n - 1];
    assert forall i :: 0 <= i < n - 1 ==> ids[..n][i] == ids[..n - 1][i];
  }

  /** Selection fails at the first required item that is missing, refused, or too much beside those before
      it, and says which. */
  lemma {:induction false} FirstRequiredFailure(items: map<string, Item>, policy: Policy, at: int)
    requires IsStore(items) && policy.Valid() && Outcome(items, policy, at).Err?
    ensures exists n :: 0 <= n < |policy.required| && RequiredFit(items, policy, at, n)
                        && FailsAs(items, policy, at, n, Outcome(items, policy, at).error)
  {
    FirstFailure(items, policy, at, |policy.required|);
  }

  /** What is wrong with required item `n`. */
  ghost predicate FailsAs(items: map<string, Item>, policy: Policy, at: int, n: nat, e: SelectError)
    requires n < |policy.required|
  {
    var id := policy.required[n];
    match e
    case Missing(who) => who == id && id !in items
    case Rejected(who, reason) =>
      who == id && id in items && !Admits(policy, items[id], at)
      && Violates(items[id], policy, at, reason)
      && forall k, j :: 0 <= j < k < |RULES| && RULES[k] == reason ==> !Violates(items[id], policy, at, RULES[j])
    case OverBudget(who) =>
      && who == id && id in items && Admits(policy, items[id], at)
      && RequiredTokens(items, policy, n + 1) > policy.budget.maxTokens - policy.budget.reserved
  }

  lemma {:induction false} FirstFailure(items: map<string, Item>, policy: Policy, at: int, m: nat)
    requires IsStore(items) && policy.Valid() && m <= |policy.required|
    ensures RequiredError(items, policy, at, m).None? <==> RequiredFit(items, policy, at, m)
    ensures RequiredError(items, policy, at, m).Some? ==>
              exists n :: 0 <= n < m && RequiredFit(items, policy, at, n)
                          && FailsAs(items, policy, at, n, RequiredError(items, policy, at, m).value)
  {
    hide Admits, RejectionReason, Violates;
    if m > 0 {
      FirstFailure(items, policy, at, m - 1);
      if RequiredError(items, policy, at, m - 1).None? {
        RequiredStep(items, policy, at, m - 1);
      }
    }
  }

  lemma {:induction false} RequiredStep(items: map<string, Item>, policy: Policy, at: int, n: nat)
    requires IsStore(items) && policy.Valid() && n < |policy.required|
    requires RequiredFit(items, policy, at, n) && RequiredError(items, policy, at, n).None?
    ensures RequiredError(items, policy, at, n + 1).None? <==> RequiredFit(items, policy, at, n + 1)
    ensures RequiredError(items, policy, at, n + 1).Some? ==>
              FailsAs(items, policy, at, n, RequiredError(items, policy, at, n + 1).value)
  {
    hide Admits, RejectionReason, Violates;
    var ids := policy.required;
    assert ids[..n + 1] == ids[..n] + [ids[n]];
    if ids[n] in items {
      AdmittedIsEligible(policy, items[ids[n]], at);
      ReasonIsFirstViolation(items[ids[n]], policy, at);
      RequiredTokensAreSum(items, policy, n + 1);
    }
  }
}
