/** What context selection promises: the result depends only on what is stored, keeps its own
    contract, and is the best the budget allows in priority order. */
module SelectionTheorems {
  import opened Texts
  import opened ContextSelection

  // ---------------------------------------------------------------- insertion order does not matter

  /** The store after adding items one by one; a repeated identity is refused. */
  function StoreOf(added: seq<Item>): map<string, Item>
  {
    if added == [] then map[]
    else
      var before := StoreOf(added[..|added| - 1]);
      var item := added[|added| - 1];
      if item.id in before then before else before[item.id := item]
  }

  lemma {:induction false} StoreHolds(added: seq<Item>)
    requires forall i, j :: 0 <= i < j < |added| ==> added[i].id != added[j].id
    ensures IsStore(StoreOf(added))
    ensures forall id :: id in StoreOf(added) <==> exists i :: 0 <= i < |added| && added[i].id == id
    ensures forall i :: 0 <= i < |added| ==> added[i].id in StoreOf(added) && StoreOf(added)[added[i].id] == added[i]
  {
    if added != [] {
      var n := |added| - 1;
      StoreHolds(added[..n]);
      assert added[n].id !in StoreOf(added[..n]);
      forall i | 0 <= i < |added| ensures added[i].id in StoreOf(added) && StoreOf(added)[added[i].id] == added[i] {
        if i < n { assert added[..n][i] == added[i]; }
      }
    }
  }

  /** Two managers that were given the same items, in any two orders, select alike. */
  lemma {:induction false} InsertionOrderDoesNotMatter(a: seq<Item>, b: seq<Item>, policy: Policy, at: int)
    requires forall i, j :: 0 <= i < j < |a| ==> a[i].id != a[j].id
    requires multiset(a) == multiset(b)
    requires policy.Valid()
    ensures IsStore(StoreOf(a)) && IsStore(StoreOf(b))
    ensures Outcome(StoreOf(a), policy, at) == Outcome(StoreOf(b), policy, at)
  {
    PermutationDistinct(a, b);
    StoreHolds(a);
    StoreHolds(b);
    StoreIncludes(a, b);
    StoreIncludes(b, a);
    assert StoreOf(a) == StoreOf(b);
  }

  /** A manager that is given items one by one holds their store; a repeated identity is refused. */
  method Manager(added: seq<Item>) returns (m: ContextManager)
    ensures fresh(m) && m.Valid() && m.items == StoreOf(added)
  {
    m := new ContextManager();
    for i := 0 to |added|
      invariant fresh(m) && m.Valid() && m.items == StoreOf(added[..i])
    {
      assert added[..i + 1][..i] == added[..i];
      var ok := m.Add(added[i]);
    }
    assert added[..|added|] == added;
  }

  /** Fill two managers with the same items in two orders and select from each. */
  method SelectInBothOrders(a: seq<Item>, b: seq<Item>, policy: Policy, at: int)
    returns (r: Result<Selection, SelectError>, q: Result<Selection, SelectError>)
    requires forall i, j :: 0 <= i < j < |a| ==> a[i].id != a[j].id
    requires multiset(a) == multiset(b) && policy.Valid()
    ensures r == q
  {
    var m := Manager(a);
    var n := Manager(b);
    r := m.Select(policy, at);
    q := n.Select(policy, at);
    InsertionOrderDoesNotMatter(a, b, policy, at);
  }

  lemma {:induction false} StoreIncludes(a: seq<Item>, b: seq<Item>)
    requires forall i, j :: 0 <= i < j < |a| ==> a[i].id != a[j].id
    requires forall i, j :: 0 <= i < j < |b| ==> b[i].id != b[j].id
    requires multiset(a) == multiset(b)
    ensures forall id :: id in StoreOf(a) ==> id in StoreOf(b) && StoreOf(b)[id] == StoreOf(a)[id]
  {
    StoreHolds(a);
    StoreHolds(b);
    forall id | id in StoreOf(a) ensures id in StoreOf(b) && StoreOf(b)[id] == StoreOf(a)[id] {
      var i :| 0 <= i < |a| && a[i].id == id;
      assert a[i] in multiset(a);
      var j :| 0 <= j < |b| && b[j] == a[i];
    }
  }

  lemma {:induction false} PermutationDistinct(a: seq<Item>, b: seq<Item>)
    requires forall i, j :: 0 <= i < j < |a| ==> a[i].id != a[j].id
    requires multiset(a) == multiset(b)
    ensures forall i, j :: 0 <= i < j < |b| ==> b[i].id != b[j].id
  {
    forall i, j | 0 <= i < j < |b| ensures b[i].id != b[j].id {
      assert b[i] in multiset(a) && b[j] in multiset(a);
      var k :| 0 <= k < |a| && a[k] == b[i];
      var l :| 0 <= l < |a| && a[l] == b[j];
      if b[i] == b[j] {
        TwiceInMultiset(b, i, j);
        OnceInMultiset(a, k);
      }
    }
  }

  lemma {:induction false} TwiceInMultiset(s: seq<Item>, i: nat, j: nat)
    requires i < j < |s| && s[i] == s[j]
    ensures multiset(s)[s[i]] >= 2
  {
    assert s == s[..i] + [s[i]] + s[i + 1..j] + [s[j]] + s[j + 1..];
  }

  lemma {:induction false} OnceInMultiset(s: seq<Item>, k: nat)
    requires k < |s| && forall i, j :: 0 <= i < j < |s| ==> s[i].id != s[j].id
    ensures multiset(s)[s[k]] == 1
  {
    assert s == s[..k] + [s[k]] + s[k + 1..];
    assert s[k] !in s[..k] && s[k] !in s[k + 1..];
    assert multiset(s[..k])[s[k]] == 0 && multiset(s[k + 1..])[s[k]] == 0;
  }

  // ---------------------------------------------------------------- when selection succeeds

  lemma {:induction false} SumPrefix(items: seq<Item>, n: nat)
    requires n <= |items|
    ensures SumTokens(items[..n]) <= SumTokens(items)
    decreases |items| - n
  {
    if n < |items| {
      SumPrefix(items, n + 1);
      assert items[..n + 1][..n] == items[..n];
    } else {
      assert items[..n] == items;
    }
  }

  /** Selection succeeds exactly when every required item is stored, breaks no rule, and all of them
      together fit the budget. */
  lemma {:induction false} SelectionSucceedsIff(items: map<string, Item>, policy: Policy, at: int)
    requires IsStore(items) && policy.Valid()
    ensures Outcome(items, policy, at).Ok? <==>
              && AllPresent(items, policy.required)
              && (forall i :: 0 <= i < |policy.required| ==> Eligible(items[policy.required[i]], policy, at))
              && SumTokens(RequiredItems(items, policy.required)) <= policy.budget.Available()
  {
    var ids := policy.required;
    assert ids[..|ids|] == ids;
    RequiredPresent(items, policy, at, |ids|);
    forall i | 0 <= i < |ids| && ids[i] in items
      ensures RejectionReason(items[ids[i]], policy, at).None? <==> Eligible(items[ids[i]], policy, at)
    {
      ReasonIsFirstViolation(items[ids[i]], policy, at);
    }
    if && AllPresent(items, ids)
       && (forall i :: 0 <= i < |ids| ==> Eligible(items[ids[i]], policy, at))
       && SumTokens(RequiredItems(items, ids)) <= policy.budget.Available() {
      NoRequiredError(items, policy, at, |ids|);
    }
  }

  lemma {:induction false} NoRequiredError(items: map<string, Item>, policy: Policy, at: int, n: nat)
    requires IsStore(items) && policy.Valid() && n <= |policy.required|
    requires AllPresent(items, policy.required)
    requires forall i :: 0 <= i < |policy.required| ==> RejectionReason(items[policy.required[i]], policy, at).None?
    requires SumTokens(RequiredItems(items, policy.required)) <= policy.budget.Available()
    ensures RequiredError(items, policy, at, n).None?
  {
    if n > 0 {
      NoRequiredError(items, policy, at, n - 1);
      SumPrefix(RequiredItems(items, policy.required), n);
      assert RequiredItems(items, policy.required[..n]) == RequiredItems(items, policy.required)[..n];
    }
  }

  // ---------------------------------------------------------------- one greedy pass

  function Ids(items: seq<Item>): seq<string> { seq(|items|, i requires 0 <= i < |items| => items[i].id) }

  function DroppedIds(dropped: seq<Dropped>): seq<string>
  {
    seq(|dropped|, i requires 0 <= i < |dropped| => dropped[i].id)
  }

  /** Is candidate `k` taken? */
  predicate Taken(start: Pass, candidates: seq<Item>, policy: Policy, at: int, k: nat)
    requires policy.Valid() && k < |candidates|
  {
    && RejectionReason(candidates[k], policy, at).None?
    && Greedy(start, candidates[..k], policy, at).tokens + candidates[k].tokens <= policy.budget.Available()
  }

  /** The tokens of a pass are those of its items, never more than the budget, and never fewer than
      before. */
  lemma {:induction false} GreedyKeepsBudget(start: Pass, candidates: seq<Item>, policy: Policy, at: int)
    requires policy.Valid() && start.tokens == SumTokens(start.selected) <= policy.budget.Available()
    ensures var pass := Greedy(start, candidates, policy, at);
            && pass.tokens == SumTokens(pass.selected) <= policy.budget.Available()
            && start.tokens <= pass.tokens
            && start.selected <= pass.selected && start.dropped <= pass.dropped
  {
    if candidates != [] {
      var n := |candidates| - 1;
      GreedyKeepsBudget(start, candidates[..n], policy, at);
      var before := Greedy(start, candidates[..n], policy, at);
      assert (before.selected + [candidates[n]])[..|before.selected|] == before.selected;
    }
  }

  lemma {:induction false} GreedyTokensGrow(start: Pass, candidates: seq<Item>, policy: Policy, at: int, k: nat)
    requires policy.Valid() && k <= |candidates|
    ensures Greedy(start, candidates[..k], policy, at).tokens <= Greedy(start, candidates, policy, at).tokens
    decreases |candidates| - k
  {
    if k < |candidates| {
      GreedyTokensGrow(start, candidates, policy, at, k + 1);
      assert candidates[..k + 1][..k] == candidates[..k];
    } else {
      assert candidates[..k] == candidates;
    }
  }

  /** The reason `select` records for a candidate it does not take. */
  function Why(item: Item, policy: Policy, at: int): Reason
  {
    var reason := RejectionReason(item, policy, at);
    if reason.Some? then reason.value else BudgetExceeded
  }

  function TakenUpTo(start: Pass, candidates: seq<Item>, policy: Policy, at: int, n: nat): seq<Item>
    requires policy.Valid() && n <= |candidates|
  {
    if n == 0 then []
    else TakenUpTo(start, candidates, policy, at, n - 1)
         + (if Taken(start, candidates, policy, at, n - 1) then [candidates[n - 1]] else [])
  }

  function DroppedUpTo(start: Pass, candidates: seq<Item>, policy: Policy, at: int, n: nat): seq<Dropped>
    requires policy.Valid() && n <= |candidates|
  {
    if n == 0 then []
    else DroppedUpTo(start, candidates, policy, at, n - 1)
         + (if Taken(start, candidates, policy, at, n - 1) then []
            else [Dropped(candidates[n - 1].id, Why(candidates[n - 1], policy, at))])
  }

  /** The pass sorts the candidates, in their order, into taken and dropped. */
  lemma {:induction false} GreedySorts(start: Pass, candidates: seq<Item>, policy: Policy, at: int, n: nat)
    requires policy.Valid() && n <= |candidates|
    ensures Greedy(start, candidates[..n], policy, at).selected
              == start.selected + TakenUpTo(start, candidates, policy, at, n)
    ensures Greedy(start, candidates[..n], policy, at).dropped
              == start.dropped + DroppedUpTo(start, candidates, policy, at, n)
  {
    if n > 0 {
      GreedySorts(start, candidates, policy, at, n - 1);
      assert candidates[..n][..n - 1] == candidates[..n - 1];
    }
  }

  lemma {:induction false} TakenMembers(start: Pass, candidates: seq<Item>, policy: Policy, at: int, n: nat, x: Item)
    requires policy.Valid() && n <= |candidates|
    ensures x in TakenUpTo(start, candidates, policy, at, n)
       <==> exists k :: 0 <= k < n && candidates[k] == x && Taken(start, candidates, policy, at, k)
  {
    if n > 0 { TakenMembers(start, candidates, policy, at, n - 1, x); }
  }

  lemma {:induction false} DroppedMembers(
    start: Pass, candidates: seq<Item>, policy: Policy, at: int, n: nat, d: Dropped)
    requires policy.Valid() && n <= |candidates|
    ensures d in DroppedUpTo(start, candidates, policy, at, n)
       <==> exists k :: 0 <= k < n && d == Dropped(candidates[k].id, Why(candidates[k], policy, at))
                        && !Taken(start, candidates, policy, at, k)
  {
    if n > 0 { DroppedMembers(start, candidates, policy, at, n - 1, d); }
  }

  lemma {:induction false} TakenInOrder(start: Pass, candidates: seq<Item>, policy: Policy, at: int, n: nat)
    requires policy.Valid() && n <= |candidates| && InOrder(candidates)
    ensures InOrder(TakenUpTo(start, candidates, policy, at, n))
  {
    if n > 0 {
      TakenInOrder(start, candidates, policy, at, n - 1);
      var before := TakenUpTo(start, candidates, policy, at, n - 1);
      forall i | 0 <= i < |before| ensures Precedes(before[i], candidates[n - 1]) {
        assert before[i] in before;
        TakenMembers(start, candidates, policy, at, n - 1, before[i]);
      }
    }
  }

  lemma {:induction false} DroppedDistinct(start: Pass, candidates: seq<Item>, policy: Policy, at: int, n: nat)
    requires policy.Valid() && n <= |candidates|
    requires forall i, j :: 0 <= i < j < |candidates| ==> candidates[i].id != candidates[j].id
    ensures NoDuplicates(DroppedIds(DroppedUpTo(start, candidates, policy, at, n)))
  {
    if n > 0 {
      DroppedDistinct(start, candidates, policy, at, n - 1);
      var before := DroppedUpTo(start, candidates, policy, at, n - 1);
      forall i | 0 <= i < |before| ensures before[i].id != candidates[n - 1].id {
        assert before[i] in before;
        DroppedMembers(start, candidates, policy, at, n - 1, before[i]);
      }
      var all := DroppedUpTo(start, candidates, policy, at, n);
      forall i, j | 0 <= i < j < |all| ensures all[i].id != all[j].id {
        if j < |before| { assert DroppedIds(before)[i] != DroppedIds(before)[j]; }
      }
    }
  }

  // ---------------------------------------------------------------- the finished selection

  /** `ContextSelectionResult._validate_consistency` accepts the selection. */
  predicate Consistent(sel: Selection)
  {
    && NoDuplicates(Ids(sel.selected)) && NoDuplicates(DroppedIds(sel.dropped))
    && (forall id :: id in Ids(sel.selected) ==> id !in DroppedIds(sel.dropped))
    && sel.total == SumTokens(sel.selected)
    && sel.total <= sel.available
  }

  /** Why an item was dropped, told from the finished selection: it breaks a rule, and this is the
      first; or it breaks none, and adding it to what was selected would exceed the budget. */
  ghost predicate Justified(item: Item, reason: Reason, sel: Selection, policy: Policy, at: int)
    requires policy.Valid()
  {
    if reason == BudgetExceeded then Eligible(item, policy, at) && sel.total + item.tokens > policy.budget.Available()
    else RejectionReason(item, policy, at) == Some(reason)
  }

  ghost predicate Sound(items: map<string, Item>, policy: Policy, at: int, sel: Selection)
    requires policy.Valid() && AllPresent(items, policy.required)
  {
    var r := |policy.required|;
    // required items first, in policy order; the rest in priority order
    && r <= |sel.selected| && sel.selected[..r] == RequiredItems(items, policy.required)
    && InOrder(sel.selected[r..])
    // every stored item is selected or dropped, and nothing else is
    && (forall id :: id in items <==> id in Ids(sel.selected) || id in DroppedIds(sel.dropped))
    && (forall x :: x in sel.selected ==> x.id in items && items[x.id] == x && Eligible(x, policy, at))
    && (forall d :: d in sel.dropped ==> d.id in items && Justified(items[d.id], d.reason, sel, policy, at))
    && Consistent(sel)
  }

  lemma {:induction false} OrderedAreDistinct(cs: seq<Item>, items: map<string, Item>, policy: Policy)
    requires IsStore(items) && InOrder(cs) && Elements(cs) == Candidates(items, policy)
    ensures forall i, j :: 0 <= i < j < |cs| ==> cs[i].id != cs[j].id
    ensures forall i :: 0 <= i < |cs| ==> cs[i].id in items && items[cs[i].id] == cs[i] && cs[i].id !in policy.required
  {
    forall i | 0 <= i < |cs| ensures cs[i].id in items && items[cs[i].id] == cs[i] && cs[i].id !in policy.required {
      assert cs[i] in Elements(cs);
    }
    forall i, j | 0 <= i < j < |cs| ensures cs[i].id != cs[j].id {
      PrecedesIsStrictTotal(cs[i], cs[j], cs[i]);
    }
  }

  /** Selection is sound and maximal. */
  lemma {:induction false} SelectionIsSound(items: map<string, Item>, policy: Policy, at: int)
    requires IsStore(items) && policy.Valid()
    requires Outcome(items, policy, at).Ok?
    ensures AllPresent(items, policy.required)
    ensures Sound(items, policy, at, Outcome(items, policy, at).value)
  {
    SelectionSucceedsIff(items, policy, at);
    var sel := Outcome(items, policy, at).value;
    var cs := OutcomeArises(items, policy, at);
    ArisesInOrder(items, policy, at, sel, cs);
    var start := StartOf(items, policy);
    SelectedAreStored(items, policy, at, start, cs, TakenUpTo(start, cs, policy, at, |cs|));
    DroppedAreJustified(items, policy, at, start, cs, sel);
    EverythingIsDecided(items, policy, at, start, cs, sel);
    ArisesConsistent(items, policy, at, sel, cs);
  }

  function StartOf(items: map<string, Item>, policy: Policy): Pass
    requires AllPresent(items, policy.required)
  {
    var chosen := RequiredItems(items, policy.required);
    Pass(chosen, [], SumTokens(chosen))
  }

  /** The candidates in priority order. */
  ghost predicate AreCandidates(items: map<string, Item>, policy: Policy, cs: seq<Item>)
  {
    && InOrder(cs) && Elements(cs) == Candidates(items, policy)
    && (forall i, j :: 0 <= i < j < |cs| ==> cs[i].id != cs[j].id)
    && (forall i :: 0 <= i < |cs| ==> cs[i].id in items && items[cs[i].id] == cs[i] && cs[i].id !in policy.required)
  }

  /** The selection is what the required items and one greedy pass over the candidates leave. */
  ghost predicate Arises(items: map<string, Item>, policy: Policy, at: int, sel: Selection, cs: seq<Item>)
    requires policy.Valid() && AllPresent(items, policy.required)
  {
    var start := StartOf(items, policy);
    && AreCandidates(items, policy, cs)
    && sel.selected == start.selected + TakenUpTo(start, cs, policy, at, |cs|)
    && sel.dropped == DroppedUpTo(start, cs, policy, at, |cs|)
    && sel.total == Greedy(start, cs, policy, at).tokens == SumTokens(sel.selected) <= sel.available
  }

  lemma {:induction false} OutcomeArises(items: map<string, Item>, policy: Policy, at: int) returns (cs: seq<Item>)
    requires IsStore(items) && policy.Valid()
    requires Outcome(items, policy, at).Ok?
    ensures AllPresent(items, policy.required) && Arises(items, policy, at, Outcome(items, policy, at).value, cs)
  {
    SelectionSucceedsIff(items, policy, at);
    CandidatesDistinct(items, policy);
    cs := PriorityOrder(Candidates(items, policy));
    OrderedAreDistinct(cs, items, policy);
    assert policy.required[..|policy.required|] == policy.required;
    assert cs[..|cs|] == cs;
    GreedySorts(StartOf(items, policy), cs, policy, at, |cs|);
    GreedyKeepsBudget(StartOf(items, policy), cs, policy, at);
  }

  lemma {:induction false} ArisesInOrder(
    items: map<string, Item>, policy: Policy, at: int, sel: Selection, cs: seq<Item>)
    requires policy.Valid() && AllPresent(items, policy.required) && Arises(items, policy, at, sel, cs)
    ensures var r := |policy.required|;
            && r <= |sel.selected| && sel.selected[..r] == RequiredItems(items, policy.required)
            && InOrder(sel.selected[r..])
  {
    var start := StartOf(items, policy);
    TakenInOrder(start, cs, policy, at, |cs|);
    assert sel.selected[|policy.required|..] == TakenUpTo(start, cs, policy, at, |cs|);
  }

  lemma {:induction false} ArisesConsistent(
    items: map<string, Item>, policy: Policy, at: int, sel: Selection, cs: seq<Item>)
    requires IsStore(items) && policy.Valid() && AllPresent(items, policy.required)
              && Arises(items, policy, at, sel, cs)
    ensures Consistent(sel)
  {
    var start := StartOf(items, policy);
    DroppedDistinct(start, cs, policy, at, |cs|);
    SelectedDistinct(items, policy, at, start, cs);
    DisjointIds(items, policy, at, start, cs);
  }

  lemma {:induction false} SelectedAreStored(
    items: map<string, Item>, policy: Policy, at: int, start: Pass, cs: seq<Item>, taken: seq<Item>)
    requires IsStore(items) && policy.Valid() && AllPresent(items, policy.required)
    requires forall i :: 0 <= i < |policy.required| ==> Eligible(items[policy.required[i]], policy, at)
    requires forall i :: 0 <= i < |cs| ==> cs[i].id in items && items[cs[i].id] == cs[i]
    requires taken == TakenUpTo(start, cs, policy, at, |cs|)
    ensures forall x :: x in RequiredItems(items, policy.required) + taken ==>
              x.id in items && items[x.id] == x && Eligible(x, policy, at)
  {
    forall x | x in RequiredItems(items, policy.required) + taken
      ensures x.id in items && items[x.id] == x && Eligible(x, policy, at)
    {
      if x in taken {
        TakenMembers(start, cs, policy, at, |cs|, x);
        ReasonIsFirstViolation(x, policy, at);
      }
    }
  }

  lemma {:induction false} DroppedAreJustified(
    items: map<string, Item>, policy: Policy, at: int, start: Pass, cs: seq<Item>, sel: Selection)
    requires policy.Valid()
    requires forall i :: 0 <= i < |cs| ==> cs[i].id in items && items[cs[i].id] == cs[i]
    requires sel.dropped == DroppedUpTo(start, cs, policy, at, |cs|)
    requires sel.total == Greedy(start, cs, policy, at).tokens
    ensures forall d :: d in sel.dropped ==> d.id in items && Justified(items[d.id], d.reason, sel, policy, at)
  {
    forall d | d in sel.dropped ensures d.id in items && Justified(items[d.id], d.reason, sel, policy, at) {
      DroppedMembers(start, cs, policy, at, |cs|, d);
      var k :| 0 <= k < |cs| && d == Dropped(cs[k].id, Why(cs[k], policy, at)) && !Taken(start, cs, policy, at, k);
      ReasonIsFirstViolation(cs[k], policy, at);
      GreedyTokensGrow(start, cs, policy, at, k);
    }
  }

  lemma {:induction false} EverythingIsDecided(
    items: map<string, Item>, policy: Policy, at: int, start: Pass, cs: seq<Item>, sel: Selection)
    requires IsStore(items) && policy.Valid() && AllPresent(items, policy.required)
    requires Elements(cs) == Candidates(items, policy)
    requires forall i :: 0 <= i < |cs| ==> cs[i].id in items && items[cs[i].id] == cs[i]
    requires sel.selected == RequiredItems(items, policy.required) + TakenUpTo(start, cs, policy, at, |cs|)
    requires sel.dropped == DroppedUpTo(start, cs, policy, at, |cs|)
    ensures forall id :: id in items <==> id in Ids(sel.selected) || id in DroppedIds(sel.dropped)
  {
    forall id | id in items ensures id in Ids(sel.selected) || id in DroppedIds(sel.dropped) {
      if id in policy.required {
        var i :| 0 <= i < |policy.required| && policy.required[i] == id;
        assert Ids(sel.selected)[i] == id;
      } else {
        assert items[id] in Elements(cs);
        var k :| 0 <= k < |cs| && cs[k] == items[id];
        if Taken(start, cs, policy, at, k) {
          TakenMembers(start, cs, policy, at, |cs|, cs[k]);
          assert cs[k] in sel.selected;
          IdOfMember(sel.selected, cs[k]);
        } else {
          var d := Dropped(id, Why(cs[k], policy, at));
          DroppedMembers(start, cs, policy, at, |cs|, d);
          var j :| 0 <= j < |sel.dropped| && sel.dropped[j] == d;
          assert DroppedIds(sel.dropped)[j] == id;
        }
      }
    }
    forall id | id in Ids(sel.selected) ensures id in items {
      var i :| 0 <= i < |sel.selected| && sel.selected[i].id == id;
      if i >= |policy.required| {
        assert sel.selected[i] in TakenUpTo(start, cs, policy, at, |cs|);
        TakenMembers(start, cs, policy, at, |cs|, sel.selected[i]);
      }
    }
    forall id | id in DroppedIds(sel.dropped) ensures id in items {
      var i :| 0 <= i < |sel.dropped| && sel.dropped[i].id == id;
      DroppedMembers(start, cs, policy, at, |cs|, sel.dropped[i]);
    }
  }

  lemma {:induction false} IdOfMember(s: seq<Item>, x: Item)
    requires x in s
    ensures x.id in Ids(s)
  {
    var i :| 0 <= i < |s| && s[i] == x;
    assert Ids(s)[i] == x.id;
  }

  lemma {:induction false} SelectedDistinct(
    items: map<string, Item>, policy: Policy, at: int, start: Pass, cs: seq<Item>)
    requires IsStore(items) && policy.Valid() && AllPresent(items, policy.required)
    requires InOrder(cs)
    requires forall i, j :: 0 <= i < j < |cs| ==> cs[i].id != cs[j].id
    requires forall i :: 0 <= i < |cs| ==> cs[i].id in items && items[cs[i].id] == cs[i] && cs[i].id !in policy.required
    ensures NoDuplicates(Ids(RequiredItems(items, policy.required) + TakenUpTo(start, cs, policy, at, |cs|)))
  {
    var taken := TakenUpTo(start, cs, policy, at, |cs|);
    TakenInOrder(start, cs, policy, at, |cs|);
    forall i | 0 <= i < |taken|
      ensures taken[i].id !in policy.required && taken[i].id in items && items[taken[i].id] == taken[i]
    {
      TakenMembers(start, cs, policy, at, |cs|, taken[i]);
    }
    forall i, j | 0 <= i < j < |taken| ensures taken[i].id != taken[j].id {
      PrecedesIsStrictTotal(taken[i], taken[j], taken[i]);
    }
  }

  lemma {:induction false} DisjointIds(items: map<string, Item>, policy: Policy, at: int, start: Pass, cs: seq<Item>)
    requires IsStore(items) && policy.Valid() && AllPresent(items, policy.required)
    requires forall i, j :: 0 <= i < j < |cs| ==> cs[i].id != cs[j].id
    requires forall i :: 0 <= i < |cs| ==> cs[i].id !in policy.required
    ensures forall id :: id in Ids(RequiredItems(items, policy.required) + TakenUpTo(start, cs, policy, at, |cs|)) ==>
              id !in DroppedIds(DroppedUpTo(start, cs, policy, at, |cs|))
  {
    var selected := RequiredItems(items, policy.required) + TakenUpTo(start, cs, policy, at, |cs|);
    var dropped := DroppedUpTo(start, cs, policy, at, |cs|);
    forall i, j | 0 <= i < |selected| && 0 <= j < |dropped| ensures selected[i].id != dropped[j].id {
      DroppedMembers(start, cs, policy, at, |cs|, dropped[j]);
      if i >= |policy.required| {
        assert selected[i] in TakenUpTo(start, cs, policy, at, |cs|);
        TakenMembers(start, cs, policy, at, |cs|, selected[i]);
      }
    }
  }

  // ---------------------------------------------------------------- greedy is lexicographically best

  function Picked(candidates: seq<Item>, picks: seq<bool>, n: nat): nat
    requires n <= |candidates| == |picks|
  {
    if n == 0 then 0 else Picked(candidates, picks, n - 1) + (if picks[n - 1] then candidates[n - 1].tokens else 0)
  }

  lemma {:induction false} PickedGrows(candidates: seq<Item>, picks: seq<bool>, n: nat)
    requires n <= |candidates| == |picks|
    ensures Picked(candidates, picks, n) <= Picked(candidates, picks, |candidates|)
    decreases |candidates| - n
  {
    if n < |candidates| { PickedGrows(candidates, picks, n + 1); }
  }

  lemma {:induction false} GreedyTokensArePicked(
    start: Pass, candidates: seq<Item>, policy: Policy, at: int, picks: seq<bool>, n: nat)
    requires policy.Valid() && n <= |candidates| == |picks|
    requires forall k :: 0 <= k < n ==> (picks[k] <==> Taken(start, candidates, policy, at, k))
    ensures Greedy(start, candidates[..n], policy, at).tokens == start.tokens + Picked(candidates, picks, n)
  {
    if n > 0 {
      GreedyTokensArePicked(start, candidates, policy, at, picks, n - 1);
      assert candidates[..n][..n - 1] == candidates[..n - 1];
    }
  }

  /** No other choice of allowed candidates that fits the budget is better in priority order: at the
      first candidate on which it differs from the greedy pass, the greedy pass takes it. */
  lemma {:induction false} GreedyIsBestInPriorityOrder(
    start: Pass, candidates: seq<Item>, policy: Policy, at: int, picks: seq<bool>, k: nat)
    requires policy.Valid() && k < |candidates| == |picks|
    requires forall i :: 0 <= i < |picks| && picks[i] ==> Eligible(candidates[i], policy, at)
    requires start.tokens + Picked(candidates, picks, |candidates|) <= policy.budget.Available()
    requires forall i :: 0 <= i < k ==> (picks[i] <==> Taken(start, candidates, policy, at, i))
    requires picks[k] != Taken(start, candidates, policy, at, k)
    ensures Taken(start, candidates, policy, at, k)
  {
    GreedyTokensArePicked(start, candidates, policy, at, picks, k);
    PickedGrows(candidates, picks, k + 1);
    ReasonIsFirstViolation(candidates[k], policy, at);
  }
}
