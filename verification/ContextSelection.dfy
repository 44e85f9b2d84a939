/** `decision_agent/context/manager.py`, with the contracts of `decision_agent/context/models.py` and
    `token_budget.py` that it relies on: policy-safe greedy selection under a token budget. */
module ContextSelection {
  import opened Texts
  import opened Listings

  datatype Trust = TrustedSystem | VerifiedInternal | TrustedToolResult | UntrustedUser | UntrustedExternal

  datatype Kind =
    | SystemInstruction | UserRequest | RouterDecision | SkillInstruction | ToolResult
    | KnowledgeEvidence | DataEvidence | StructuredSummary | ConversationMemory

  datatype Domain = Knowledge | Data

  /** What selection reads of an item; instants are integers. */
  datatype Item = Item(
    id: string, kind: Kind, trust: Trust, createdAt: int, expiresAt: Option<int>, tokens: nat, domain: Option<Domain>)

  datatype Reason = Expired | KindNotAllowed | TrustNotAllowed | DomainNotAllowed | BudgetExceeded

  datatype Dropped = Dropped(id: string, reason: Reason)

  datatype Budget = Budget(maxTokens: nat, reserved: nat) {
    predicate Valid() { reserved < maxTokens }

    function Available(): nat
      requires Valid()
    {
      maxTokens - reserved
    }

    predicate CanFit(current: nat, candidate: nat)
      requires Valid()
    {
      current + candidate <= Available()
    }
  }

  datatype Policy = Policy(
    kinds: set<Kind>, trusts: set<Trust>, domains: set<Domain>, budget: Budget, required: seq<string>)
  {
    /** What policy validation has established: a sound budget, and no required identity twice. */
    predicate Valid() { budget.Valid() && NoDuplicates(required) }
  }

  datatype Selection = Selection(selected: seq<Item>, dropped: seq<Dropped>, total: nat, available: nat)

  datatype SelectError = Missing(id: string) | Rejected(id: string, reason: Reason) | OverBudget(id: string)

  predicate NoDuplicates<T(==)>(s: seq<T>)
  {
    forall i, j :: 0 <= i < j < |s| ==> s[i] != s[j]
  }

  // ---------------------------------------------------------------- required identities are deduplicated

  /** The first occurrences, in order. */
  function FirstOccurrences(values: seq<string>): seq<string>
  {
    if values == [] then []
    else
      var last := values[|values| - 1];
      var before := FirstOccurrences(values[..|values| - 1]);
      if last in values[..|values| - 1] then before else before + [last]
  }

  /** Deduplication keeps every value once; it leaves a list without duplicates as it is. */
  lemma {:induction false} FirstOccurrencesAreASet(values: seq<string>)
    ensures NoDuplicates(FirstOccurrences(values))
    ensures forall v :: v in FirstOccurrences(values) <==> v in values
    ensures NoDuplicates(values) ==> FirstOccurrences(values) == values
  {
    if values != [] {
      var n := |values| - 1;
      FirstOccurrencesAreASet(values[..n]);
      assert values == values[..n] + [values[n]];
    }
  }

  /** What is kept are the places whose value does not stand before, in order. */
  lemma {:induction false} KeptAtFirstPlaces(values: seq<string>) returns (at: seq<nat>, marked: seq<bool>)
    ensures ListsMarked(FirstOccurrences(values), at, values, marked)
    ensures |marked| == |values| && forall i :: 0 <= i < |values| ==> (marked[i] <==> values[i] !in values[..i])
  {
    hide ListsMarked;
    if values == [] {
      at, marked := [], [];
      NothingMarked();
    } else {
      var n := |values| - 1;
      at, marked := KeptAtFirstPlaces(values[..n]);
      var first := values[n] !in values[..n];
      NextMarked(FirstOccurrences(values[..n]), at, values[..n], marked, values[n], first);
      at, marked := if first then at + [n] else at, marked + [first];
      assert values == values[..n] + [values[n]];
      assert forall i :: 0 <= i < n ==> values[..n][..i] == values[..i];
      assert FirstOccurrences(values[..n]) + [] == FirstOccurrences(values[..n]);
    }
  }

  /** `_deduplicate_strings`: the policy's lists hold no value twice. */
  method DeduplicateStrings(values: seq<string>) returns (r: Option<seq<string>>)
    ensures r.Some? <==> forall i :: 0 <= i < |values| ==> !Blank(values[i])
    ensures r.Some? ==> r.value == FirstOccurrences(values) && NoDuplicates(r.value)
    ensures r.Some? ==> forall v :: v in r.value <==> v in values
  {
    var result: seq<string> := [];
    var seen: set<string> := {};
    for i := 0 to |values|
      invariant result == FirstOccurrences(values[..i])
      invariant seen == set k | 0 <= k < i :: values[k]
      invariant forall k :: 0 <= k < i ==> !Blank(values[k])
    {
      if Blank(values[i]) {
        return None;
      }
      assert values[..i + 1][..i] == values[..i];
      assert values[i] in seen <==> values[i] in values[..i];
      if values[i] !in seen {
        seen := seen + {values[i]};
        result := result + [values[i]];
      }
    }
    assert values[..|values|] == values;
    FirstOccurrencesAreASet(values);
    return Some(result);
  }

  // ---------------------------------------------------------------- the priority order

  predicate LexLess(a: string, b: string)
  {
    if b == "" then false
    else if a == "" then true
    else if a[0] != b[0] then a[0] < b[0]
    else LexLess(a[1..], b[1..])
  }

  lemma {:induction false} LexTotal(a: string, b: string)
    ensures a == b || LexLess(a, b) || LexLess(b, a)
    ensures !(LexLess(a, b) && LexLess(b, a))
    ensures a == b ==> !LexLess(a, b)
  {
    if a != "" && b != "" && a[0] == b[0] {
      LexTotal(a[1..], b[1..]);
      if a[1..] == b[1..] { assert a == [a[0]] + a[1..] && b == [b[0]] + b[1..]; }
    }
  }

  lemma {:induction false} LexTransitive(a: string, b: string, c: string)
    requires LexLess(a, b) && LexLess(b, c)
    ensures LexLess(a, c)
  {
    if a != "" && a[0] == b[0] && b[0] == c[0] { LexTransitive(a[1..], b[1..], c[1..]); }
  }

  function TrustPriority(t: Trust): nat
  {
    match t
    case TrustedSystem => 0
    case VerifiedInternal => 1
    case TrustedToolResult => 2
    case UntrustedUser => 3
    case UntrustedExternal => 4
  }

  /** The sort key `(trust priority, created_at, item_id)`. */
  predicate Precedes(a: Item, b: Item)
  {
    if TrustPriority(a.trust) != TrustPriority(b.trust) then TrustPriority(a.trust) < TrustPriority(b.trust)
    else if a.createdAt != b.createdAt then a.createdAt < b.createdAt
    else LexLess(a.id, b.id)
  }

  /** A strict total order on items with different identities. */
  lemma {:induction false} PrecedesIsStrictTotal(a: Item, b: Item, c: Item)
    ensures !Precedes(a, a)
    ensures Precedes(a, b) && Precedes(b, c) ==> Precedes(a, c)
    ensures a.id != b.id ==> Precedes(a, b) != Precedes(b, a)
  {
    LexTotal(a.id, a.id);
    LexTotal(a.id, b.id);
    if LexLess(a.id, b.id) && LexLess(b.id, c.id) { LexTransitive(a.id, b.id, c.id); }
  }

  predicate InOrder(s: seq<Item>)
  {
    forall i, j :: 0 <= i < j < |s| ==> Precedes(s[i], s[j])
  }

  predicate DistinctIds(s: set<Item>)
  {
    forall x, y :: x in s && y in s && x != y ==> x.id != y.id
  }

  function Elements(s: seq<Item>): set<Item> { set x | x in s }

  /** Insert into an ordered sequence. */
  function Insert(x: Item, s: seq<Item>): seq<Item>
  {
    if s == [] || Precedes(x, s[0]) then [x] + s else [s[0]] + Insert(x, s[1..])
  }

  /** `sorted(items, key=...)` */
  function Sorted(items: seq<Item>): seq<Item>
  {
    if items == [] then [] else Insert(items[0], Sorted(items[1..]))
  }

  lemma {:induction false} InsertKeepsOrder(x: Item, s: seq<Item>)
    requires InOrder(s) && forall y :: y in s ==> y.id != x.id
    ensures InOrder(Insert(x, s))
    ensures Elements(Insert(x, s)) == Elements(s) + {x}
    ensures |Insert(x, s)| == |s| + 1
  {
    if s != [] {
      if Precedes(x, s[0]) {
        forall j | 0 < j < |s| ensures Precedes(x, s[j]) { PrecedesIsStrictTotal(x, s[0], s[j]); }
      } else {
        InsertKeepsOrder(x, s[1..]);
        PrecedesIsStrictTotal(x, s[0], s[0]);
        var rest := Insert(x, s[1..]);
        forall j | 0 <= j < |rest| ensures Precedes(s[0], rest[j]) {
          assert rest[j] in Elements(rest);
        }
        assert Elements(s) == Elements(s[1..]) + {s[0]};
        assert Elements(Insert(x, s)) == Elements(rest) + {s[0]};
      }
    }
  }

  lemma {:induction false} SortedIsOrdered(items: seq<Item>)
    requires forall i, j :: 0 <= i < j < |items| ==> items[i].id != items[j].id
    ensures InOrder(Sorted(items)) && Elements(Sorted(items)) == Elements(items) && |Sorted(items)| == |items|
  {
    if items != [] {
      SortedIsOrdered(items[1..]);
      forall y | y in Sorted(items[1..]) ensures y.id != items[0].id {
        assert y in Elements(items[1..]);
      }
      InsertKeepsOrder(items[0], Sorted(items[1..]));
      assert Elements(items) == Elements(items[1..]) + {items[0]};
    }
  }

  /** There is only one ordered sequence of given items. */
  lemma {:induction false} OrderIsUnique(a: seq<Item>, b: seq<Item>)
    requires InOrder(a) && InOrder(b) && Elements(a) == Elements(b)
    ensures a == b
  {
    NoElements(a);
    NoElements(b);
    if a != [] {
      SameHead(a, b);
      TailElements(a);
      TailElements(b);
      OrderIsUnique(a[1..], b[1..]);
      assert a == [a[0]] + a[1..] && b == [b[0]] + b[1..];
    }
  }

  lemma {:induction false} NoElements(a: seq<Item>)
    ensures a == [] <==> Elements(a) == {}
  {
    if a != [] { assert a[0] in Elements(a); }
  }

  lemma {:induction false} SameHead(a: seq<Item>, b: seq<Item>)
    requires a != [] && b != [] && InOrder(a) && InOrder(b) && Elements(a) == Elements(b)
    ensures a[0] == b[0]
  {
    assert a[0] in Elements(b) && b[0] in Elements(a);
    var i :| 0 <= i < |b| && b[i] == a[0];
    var j :| 0 <= j < |a| && a[j] == b[0];
    PrecedesIsStrictTotal(a[0], b[0], a[0]);
  }

  lemma {:induction false} TailElements(a: seq<Item>)
    requires a != [] && InOrder(a)
    ensures Elements(a[1..]) == Elements(a) - {a[0]}
  {
    forall j | 0 < j < |a| ensures a[j] != a[0] { PrecedesIsStrictTotal(a[0], a[0], a[0]); }
  }

  /** The items of a set in priority order, whatever order they came in. */
  ghost function PriorityOrder(s: set<Item>): (r: seq<Item>)
    requires DistinctIds(s)
    ensures InOrder(r) && Elements(r) == s
    decreases |s|
  {
    if s == {} then []
    else
      var x :| x in s;
      var rest := PriorityOrder(s - {x});
      assert forall y :: y in rest ==> y in Elements(rest);
      InsertKeepsOrder(x, rest);
      Insert(x, rest)
  }

  // ---------------------------------------------------------------- selection

  predicate ExpiredAt(item: Item, at: int) { item.expiresAt.Some? && at >= item.expiresAt.value }

  predicate IsEvidence(kind: Kind) { kind == KnowledgeEvidence || kind == DataEvidence }

  /** The domain of an item is `None` exactly where no allowlist of domains can contain it. */
  predicate DomainRefused(item: Item, policy: Policy)
  {
    IsEvidence(item.kind) && !(item.domain.Some? && item.domain.value in policy.domains)
  }

  function RejectionReason(item: Item, policy: Policy, at: int): Option<Reason>
  {
    if ExpiredAt(item, at) then Some(Expired)
    else if item.kind !in policy.kinds then Some(KindNotAllowed)
    else if item.trust !in policy.trusts then Some(TrustNotAllowed)
    else if DomainRefused(item, policy) then Some(DomainNotAllowed)
    else None
  }

  /** Does the item break the rule that a reason names? */
  predicate Violates(item: Item, policy: Policy, at: int, reason: Reason)
  {
    match reason
    case Expired => ExpiredAt(item, at)
    case KindNotAllowed => item.kind !in policy.kinds
    case TrustNotAllowed => item.trust !in policy.trusts
    case DomainNotAllowed => DomainRefused(item, policy)
    case BudgetExceeded => false
  }

  const RULES: seq<Reason> := [Expired, KindNotAllowed, TrustNotAllowed, DomainNotAllowed]

  predicate Eligible(item: Item, policy: Policy, at: int)
  {
    forall k :: 0 <= k < |RULES| ==> !Violates(item, policy, at, RULES[k])
  }

  /** The reason is the first rule the item breaks, in the order of the rules. */
  lemma {:induction false} ReasonIsFirstViolation(item: Item, policy: Policy, at: int)
    ensures RejectionReason(item, policy, at).None? <==> Eligible(item, policy, at)
    ensures RejectionReason(item, policy, at).Some? ==>
              exists k :: 0 <= k < |RULES| && RULES[k] == RejectionReason(item, policy, at).value
                          && Violates(item, policy, at, RULES[k])
                          && forall j :: 0 <= j < k ==> !Violates(item, policy, at, RULES[j])
  {
    assert RULES[0] == Expired && RULES[1] == KindNotAllowed && RULES[2] == TrustNotAllowed
        && RULES[3] == DomainNotAllowed;
  }

  function SumTokens(items: seq<Item>): nat
  {
    if items == [] then 0 else SumTokens(items[..|items| - 1]) + items[|items| - 1].tokens
  }

  /** The items of the first `n` required identities. */
  function RequiredItems(items: map<string, Item>, ids: seq<string>): seq<Item>
    requires forall i :: 0 <= i < |ids| ==> ids[i] in items
  {
    seq(|ids|, i requires 0 <= i < |ids| => items[ids[i]])
  }

  /** The first required identity that cannot be taken, and why. */
  function RequiredError(items: map<string, Item>, policy: Policy, at: int, n: nat): Option<SelectError>
    requires policy.Valid() && n <= |policy.required|
  {
    if n == 0 then None
    else if RequiredError(items, policy, at, n - 1).Some? then RequiredError(items, policy, at, n - 1)
    else
      var id := policy.required[n - 1];
      if id !in items then Some(Missing(id))
      else if RejectionReason(items[id], policy, at).Some?
      then Some(Rejected(id, RejectionReason(items[id], policy, at).value))
      else if !AllPresent(items, policy.required[..n])
          || SumTokens(RequiredItems(items, policy.required[..n])) > policy.budget.Available()
      then Some(OverBudget(id))
      else None
  }

  predicate AllPresent(items: map<string, Item>, ids: seq<string>)
  {
    forall i :: 0 <= i < |ids| ==> ids[i] in items
  }

  /** A greedy pass: what is selected and dropped so far, and the tokens taken. */
  datatype Pass = Pass(selected: seq<Item>, dropped: seq<Dropped>, tokens: nat)

  function Decide(pass: Pass, item: Item, policy: Policy, at: int): Pass
    requires policy.Valid()
  {
    var reason := RejectionReason(item, policy, at);
    if reason.Some? then pass.(dropped := pass.dropped + [Dropped(item.id, reason.value)])
    else if policy.budget.CanFit(pass.tokens, item.tokens)
    then pass.(selected := pass.selected + [item], tokens := pass.tokens + item.tokens)
    else pass.(dropped := pass.dropped + [Dropped(item.id, BudgetExceeded)])
  }

  function Greedy(start: Pass, candidates: seq<Item>, policy: Policy, at: int): Pass
    requires policy.Valid()
  {
    if candidates == [] then start
    else Decide(Greedy(start, candidates[..|candidates| - 1], policy, at), candidates[|candidates| - 1], policy, at)
  }

  /** The items a policy does not require. */
  function Candidates(items: map<string, Item>, policy: Policy): set<Item>
  {
    set id | id in items && id !in policy.required :: items[id]
  }

  /** The store maps every identity to an item that bears it. */
  predicate IsStore(items: map<string, Item>)
  {
    forall id :: id in items ==> items[id].id == id
  }

  /** The outcome of selection: a function of what is stored, not of the order of insertion. */
  ghost function Outcome(items: map<string, Item>, policy: Policy, at: int): Result<Selection, SelectError>
    requires IsStore(items) && policy.Valid()
  {
    RequiredPresent(items, policy, at, |policy.required|);
    CandidatesDistinct(items, policy);
    var e := RequiredError(items, policy, at, |policy.required|);
    if e.Some? then Err(e.value)
    else
      var ids := policy.required[..|policy.required|];
      var chosen := RequiredItems(items, ids);
      var pass := Greedy(Pass(chosen, [], SumTokens(chosen)), PriorityOrder(Candidates(items, policy)), policy, at);
      Ok(Selection(pass.selected, pass.dropped, pass.tokens, policy.budget.Available()))
  }

  lemma {:induction false} RequiredPresent(items: map<string, Item>, policy: Policy, at: int, n: nat)
    requires policy.Valid() && n <= |policy.required|
    ensures RequiredError(items, policy, at, n).None? ==>
              && AllPresent(items, policy.required[..n])
              && forall i :: 0 <= i < n ==> RejectionReason(items[policy.required[i]], policy, at).None?
    ensures RequiredError(items, policy, at, n).None? ==>
              SumTokens(RequiredItems(items, policy.required[..n])) <= policy.budget.Available()
  {
    if n > 0 && RequiredError(items, policy, at, n).None? {
      RequiredPresent(items, policy, at, n - 1);
      assert policy.required[..n][..n - 1] == policy.required[..n - 1];
    }
  }

  class ContextManager {
    var items: map<string, Item>
    /** The keys of the dictionary in insertion order. */
    var keys: seq<string>

    ghost predicate Valid()
      reads this
    {
      && IsStore(items) && NoDuplicates(keys)
      && forall id :: id in keys <==> id in items
    }

    constructor ()
      ensures Valid() && items == map[] && keys == []
    {
      items, keys := map[], [];
    }

    /** Add one item, refusing a duplicate identity. */
    method Add(item: Item) returns (ok: bool)
      requires Valid()
      modifies this
      ensures Valid()
      ensures ok <==> item.id !in old(items)
      ensures items == if ok then old(items)[item.id := item] else old(items)
      ensures keys == if ok then old(keys) + [item.id] else old(keys)
    {
      ok := item.id !in items;
      if ok {
        items := items[item.id := item];
        keys := keys + [item.id];
      }
    }

    /** The items outside the required identities, in insertion order. */
    method Unrequired(policy: Policy) returns (others: seq<Item>)
      requires Valid()
      ensures Elements(others) == Candidates(items, policy)
      ensures forall i, j :: 0 <= i < j < |others| ==> others[i].id != others[j].id
    {
      others := [];
      for k := 0 to |keys|
        invariant forall x :: x in others <==>
                    exists i :: 0 <= i < k && keys[i] !in policy.required && x == items[keys[i]]
        invariant forall i, j :: 0 <= i < j < |others| ==> others[i].id != others[j].id
        invariant forall i :: k <= i < |keys| ==> keys[i] in items && forall x :: x in others ==> x.id != keys[i]
      {
        if keys[k] !in policy.required {
          others := others + [items[keys[k]]];
        }
      }
    }

    /** The required items as the policy lists them, then whatever still fits of the rest, by priority. */
    method Select(policy: Policy, at: int) returns (r: Result<Selection, SelectError>)
      requires Valid() && policy.Valid()
      ensures r == Outcome(items, policy, at)
    {
      var selected: seq<Item> := [];
      var currentTokens: nat := 0;
      for n := 0 to |policy.required|
        invariant RequiredError(items, policy, at, n).None?
        invariant AllPresent(items, policy.required[..n])
        invariant selected == RequiredItems(items, policy.required[..n])
        invariant currentTokens == SumTokens(selected)
      {
        var id := policy.required[n];
        RequiredFails(items, policy, at, n + 1);
        if id !in items {
          return Err(Missing(id));
        }
        var item := items[id];
        var reason := RejectionReason(item, policy, at);
        if reason.Some? {
          return Err(Rejected(id, reason.value));
        }
        RequiredGrows(items, policy.required, n);
        if !policy.budget.CanFit(currentTokens, item.tokens) {
          return Err(OverBudget(id));
        }
        selected := selected + [item];
        currentTokens := currentTokens + item.tokens;
      }
      var others := Unrequired(policy);
      SortedIsOrdered(others);
      var candidates := Sorted(others);
      CandidatesDistinct(items, policy);
      OrderIsUnique(candidates, PriorityOrder(Candidates(items, policy)));
      r := SelectCandidates(selected, currentTokens, candidates, policy, at);
    }

    /** The second loop of `select`. */
    static method SelectCandidates(chosen: seq<Item>, tokens: nat, candidates: seq<Item>, policy: Policy, at: int)
      returns (r: Result<Selection, SelectError>)
      requires policy.Valid()
      ensures var pass := Greedy(Pass(chosen, [], tokens), candidates, policy, at);
              r == Ok(Selection(pass.selected, pass.dropped, pass.tokens, policy.budget.Available()))
    {
      var selected, currentTokens: nat := chosen, tokens;
      var dropped: seq<Dropped> := [];
      for k := 0 to |candidates|
        invariant Pass(selected, dropped, currentTokens)
                  == Greedy(Pass(chosen, [], tokens), candidates[..k], policy, at)
      {
        assert candidates[..k + 1][..k] == candidates[..k];
        var item := candidates[k];
        var reason := RejectionReason(item, policy, at);
        if reason.Some? {
          dropped := dropped + [Dropped(item.id, reason.value)];
        } else if policy.budget.CanFit(currentTokens, item.tokens) {
          selected := selected + [item];
          currentTokens := currentTokens + item.tokens;
        } else {
          dropped := dropped + [Dropped(item.id, BudgetExceeded)];
        }
      }
      assert candidates[..|candidates|] == candidates;
      return Ok(Selection(selected, dropped, currentTokens, policy.budget.Available()));
    }
  }

  lemma {:induction false} RequiredFails(items: map<string, Item>, policy: Policy, at: int, n: nat)
    requires policy.Valid() && n <= |policy.required|
    ensures RequiredError(items, policy, at, n).Some? ==>
              RequiredError(items, policy, at, |policy.required|) == RequiredError(items, policy, at, n)
    decreases |policy.required| - n
  {
    if n < |policy.required| { RequiredFails(items, policy, at, n + 1); }
  }

  lemma {:induction false} RequiredGrows(items: map<string, Item>, ids: seq<string>, n: nat)
    requires n < |ids| && AllPresent(items, ids[..n]) && ids[n] in items
    ensures AllPresent(items, ids[..n + 1])
    ensures RequiredItems(items, ids[..n + 1]) == RequiredItems(items, ids[..n]) + [items[ids[n]]]
    ensures SumTokens(RequiredItems(items, ids[..n + 1]))
              == SumTokens(RequiredItems(items, ids[..n])) + items[ids[n]].tokens
  {
    var before := RequiredItems(items, ids[..n]);
    assert RequiredItems(items, ids[..n + 1]) == before + [items[ids[n]]];
    assert (before + [items[ids[n]]])[..|before|] == before;
  }

  lemma {:induction false} CandidatesDistinct(items: map<string, Item>, policy: Policy)
    requires IsStore(items)
    ensures DistinctIds(Candidates(items, policy))
  {}
}
