/** Lists and counts that pick out places of a sequence. */
module Listings {

  /** The list holds the names at the places `at`, which ascend: exactly the places that are marked. */
  predicate ListsMarked(list: seq<string>, at: seq<nat>, names: seq<string>, marked: seq<bool>)
  {
    && |at| == |list| && |marked| == |names|
    && (forall i, j :: 0 <= i < j < |at| ==> at[i] < at[j])
    && (forall i :: 0 <= i < |at| ==> at[i] < |names| && list[i] == names[at[i]] && marked[at[i]])
    && (forall k :: 0 <= k < |names| && marked[k] ==> exists i :: 0 <= i < |at| && at[i] == k)
  }

  lemma {:induction false} NextMarked(
    list: seq<string>, at: seq<nat>, names: seq<string>, marked: seq<bool>, name: string, hit: bool)
    requires ListsMarked(list, at, names, marked)
    ensures ListsMarked(if hit then list + [name] else list + [], if hit then at + [|names|] else at,
                        names + [name], marked + [hit])
  {
    var at' := if hit then at + [|names|] else at;
    forall k | 0 <= k <= |names| && (marked + [hit])[k] ensures exists i :: 0 <= i < |at'| && at'[i] == k {
      if k < |names| {
        var i :| 0 <= i < |at| && at[i] == k;
        assert at'[i] == k;
      } else {
        assert at'[|at|] == k;
      }
    }
  }

  lemma {:induction false} NothingMarked()
    ensures ListsMarked([], [], [], [])
  {
  }

  lemma {:induction false} PlacesMarked(list: seq<string>, at: seq<nat>, names: seq<string>, marked: seq<bool>)
    requires ListsMarked(list, at, names, marked)
    ensures |at| == |list| && forall i, j :: 0 <= i < j < |at| ==> at[i] < at[j]
    ensures forall i :: 0 <= i < |at| ==> at[i] < |names| && list[i] == names[at[i]]
    ensures |marked| == |names| && forall k :: 0 <= k < |names| ==> (k in at <==> marked[k])
  {
    forall k | 0 <= k < |names| && marked[k] ensures k in at {
      var i :| 0 <= i < |at| && at[i] == k;
      assert at[i] in at;
    }
  }

  lemma {:induction false} OneMore<T>(before: set<T>, all: set<T>, x: T, hit: bool)
    requires x !in before && forall y :: y in all <==> y in before || (y == x && hit)
    ensures |all| == |before| + (if hit then 1 else 0)
  {
    assert all == before + (if hit then {x} else {});
  }
}
