/** What the labels of a query say, told by the clause records it names and the order of the chunks. */
module LabelTheorems {
  import opened Texts
  import opened Listings
  import opened ClauseMapping
  import opened Labels

  // ---------------------------------------------------------------- the records by identity

  /** The record of an identity is the last one that bears it. */
  lemma {:induction false} RecordIsLastOfIdentity(clauses: seq<ClauseRecord>, c: string)
    ensures c in ById(clauses) <==> exists i :: 0 <= i < |clauses| && clauses[i].clauseId == c
    ensures c in ById(clauses) ==>
              exists i :: 0 <= i < |clauses| && clauses[i].clauseId == c && ById(clauses)[c] == clauses[i]
                          && forall j :: i < j < |clauses| ==> clauses[j].clauseId != c
  {
    if clauses != [] {
      var n := |clauses| - 1;
      RecordIsLastOfIdentity(clauses[..n], c);
      if clauses[n].clauseId == c {
        assert ById(clauses)[c] == clauses[n];
      } else if c in ById(clauses[..n]) {
        var i :| 0 <= i < n && clauses[..n][i].clauseId == c && ById(clauses[..n])[c] == clauses[..n][i]
                 && forall j :: i < j < n ==> clauses[..n][j].clauseId != c;
        assert clauses[i] == clauses[..n][i];
        forall j | i < j < |clauses| ensures clauses[j].clauseId != c {
          if j < n { assert clauses[j] == clauses[..n][j]; }
        }
      } else {
        forall i | 0 <= i < |clauses| ensures clauses[i].clauseId != c {
          if i < n { assert clauses[i] == clauses[..n][i]; }
        }
      }
    }
  }

  // ---------------------------------------------------------------- which chunks are labelled

  /** One of the clauses is mapped to the parent. */
  predicate ListsParent(clauseIds: seq<string>, records: map<string, ClauseRecord>, x: string)
  {
    exists c :: c in clauseIds && c in records && x in records[c].parentIds
  }

  /** One of the clauses is mapped to the child. */
  predicate ListsChild(clauseIds: seq<string>, records: map<string, ClauseRecord>, x: string)
  {
    exists c :: c in clauseIds && c in records && x in records[c].childIds
  }

  lemma {:induction false} ChunksAreListed(
    clauseIds: seq<string>, records: map<string, ClauseRecord>, x: string)
    ensures x in ChunksOf(clauseIds, records, ParentLevel) <==> ListsParent(clauseIds, records, x)
    ensures x in ChunksOf(clauseIds, records, ChildLevel) <==> ListsChild(clauseIds, records, x)
  {
    if c :| c in clauseIds && c in records && x in records[c].parentIds {
      assert x in IdsAt(records[c], ParentLevel);
    }
    if c :| c in clauseIds && c in records && x in records[c].childIds {
      assert x in IdsAt(records[c], ChildLevel);
    }
  }

  /** A parent of the ordering is relevant exactly when a relevant clause is mapped to it, purely hard
      negative exactly when a hard-negative clause is and no relevant one, overlapping exactly when both are;
      and so for the children. */
  lemma {:induction false} LabelsAreListedChunks(
    query: Query, records: map<string, ClauseRecord>, parentOrder: seq<string>, childOrder: seq<string>, x: string)
    ensures var t := TruthOf(query, records, parentOrder, childOrder).parents;
            var relevant := ListsParent(query.relevantClauses, records, x);
            var hard := ListsParent(query.hardClauses, records, x);
            && (x in t.relevant <==> x in parentOrder && relevant)
            && (x in t.hard <==> x in parentOrder && hard && !relevant)
            && (x in t.overlap <==> x in parentOrder && hard && relevant)
    ensures var t := TruthOf(query, records, parentOrder, childOrder).children;
            var relevant := ListsChild(query.relevantClauses, records, x);
            var hard := ListsChild(query.hardClauses, records, x);
            && (x in t.relevant <==> x in childOrder && relevant)
            && (x in t.hard <==> x in childOrder && hard && !relevant)
            && (x in t.overlap <==> x in childOrder && hard && relevant)
  {
    hide ChunksOf, ListsParent, ListsChild;
    ChunksAreListed(query.relevantClauses, records, x);
    ChunksAreListed(query.hardClauses, records, x);
    ChosenMembers(query, records, parentOrder, ParentLevel, x);
    ChosenMembers(query, records, childOrder, ChildLevel, x);
  }

  lemma {:induction false} ChosenMembers(
    query: Query, records: map<string, ClauseRecord>, ordered: seq<string>, level: Level, x: string)
    ensures var t := LevelTruthOf(query, records, ordered, level);
            var relevant := ChunksOf(query.relevantClauses, records, level);
            var hard := ChunksOf(query.hardClauses, records, level);
            && (x in t.relevant <==> x in ordered && x in relevant)
            && (x in t.hard <==> x in ordered && x in hard && x !in relevant)
            && (x in t.overlap <==> x in ordered && x in hard && x in relevant)
  {
    hide ChunksOf;
    var relevant := ChunksOf(query.relevantClauses, records, level);
    var hard := ChunksOf(query.hardClauses, records, level);
    SelectMembers(ordered, relevant);
    SelectMembers(ordered, hard - relevant);
    SelectMembers(ordered, hard * relevant);
  }

  /** A selection holds every place of the ordering whose identity is chosen, once and in order. */
  lemma {:induction false} SelectedPlaces(ordered: seq<string>, chosen: set<string>)
    returns (at: seq<nat>, marked: seq<bool>)
    ensures ListsMarked(Select(ordered, chosen), at, ordered, marked)
    ensures |marked| == |ordered| && forall k :: 0 <= k < |ordered| ==> (marked[k] <==> ordered[k] in chosen)
  {
    hide ListsMarked;
    if ordered == [] {
      at, marked := [], [];
      NothingMarked();
    } else {
      var n := |ordered| - 1;
      at, marked := SelectedPlaces(ordered[..n], chosen);
      var hit := ordered[n] in chosen;
      NextMarked(Select(ordered[..n], chosen), at, ordered[..n], marked, ordered[n], hit);
      at, marked := if hit then at + [n] else at, marked + [hit];
      assert ordered == ordered[..n] + [ordered[n]];
    }
  }

  // ---------------------------------------------------------------- which error

  /** The clause is the first of the list that has no record. */
  predicate FirstWithoutRecord(clauseIds: seq<string>, records: map<string, ClauseRecord>, c: string)
  {
    exists i :: 0 <= i < |clauseIds| && clauseIds[i] == c && c !in records
                && forall j :: 0 <= j < i ==> clauseIds[j] in records
  }

  lemma {:induction false} FirstUnknownIsFirst(clauseIds: seq<string>, records: map<string, ClauseRecord>)
    requires !AllKnown(clauseIds, records)
    ensures FirstWithoutRecord(clauseIds, records, FirstUnknown(clauseIds, records))
  {
    if clauseIds[0] in records {
      assert forall i :: 0 <= i < |clauseIds| - 1 ==> clauseIds[1..][i] == clauseIds[i + 1];
      FirstUnknownIsFirst(clauseIds[1..], records);
      var i :| 0 <= i < |clauseIds[1..]| && clauseIds[1..][i] == FirstUnknown(clauseIds, records)
               && forall j :: 0 <= j < i ==> clauseIds[1..][j] in records;
      assert clauseIds[i + 1] == FirstUnknown(clauseIds, records);
      forall j | 0 <= j < i + 1 ensures clauseIds[j] in records {
        if j > 0 { assert clauseIds[1..][j - 1] == clauseIds[j]; }
      }
    }
  }

  /** Why a query is refused: a clause without a record, the relevant ones before the hard negatives; an
      answerable query that no parent or no child is relevant to; or an unanswerable one with a relevant
      clause. */
  lemma {:induction false} RefusalsExplained(
    query: Query, records: map<string, ClauseRecord>, parentOrder: seq<string>, childOrder: seq<string>)
    ensures var e := QueryError(query, records, parentOrder, childOrder);
            var known := AllKnown(query.relevantClauses, records) && AllKnown(query.hardClauses, records);
            var parent := exists x :: x in parentOrder && ListsParent(query.relevantClauses, records, x);
            var child := exists x :: x in childOrder && ListsChild(query.relevantClauses, records, x);
            && (e.None? <==> known && if query.answerable then parent && child else query.relevantClauses == [])
            && (e.Some? && !known ==>
                  && e.value.UnknownClause?
                  && (!AllKnown(query.relevantClauses, records) ==>
                        FirstWithoutRecord(query.relevantClauses, records, e.value.clauseId))
                  && (AllKnown(query.relevantClauses, records) ==>
                        FirstWithoutRecord(query.hardClauses, records, e.value.clauseId)))
            && (e.Some? && known ==>
                  e.value == if query.answerable then NoRelevantChunks(query.queryId) else RecordInvalid(query.queryId))
  {
    hide ListsParent, ListsChild, FirstWithoutRecord, AllKnown, LevelTruthOf;
    if !AllKnown(query.relevantClauses, records) {
      FirstUnknownIsFirst(query.relevantClauses, records);
    } else if !AllKnown(query.hardClauses, records) {
      FirstUnknownIsFirst(query.hardClauses, records);
    }
    SomeRelevant(query, records, parentOrder, childOrder);
  }

  lemma {:induction false} SomeRelevant(
    query: Query, records: map<string, ClauseRecord>, parentOrder: seq<string>, childOrder: seq<string>)
    ensures var t := TruthOf(query, records, parentOrder, childOrder);
            && (t.parents.relevant != []
                <==> exists x :: x in parentOrder && ListsParent(query.relevantClauses, records, x))
            && (t.children.relevant != []
                <==> exists x :: x in childOrder && ListsChild(query.relevantClauses, records, x))
  {
    hide ListsParent, ListsChild, TruthOf;
    var t := TruthOf(query, records, parentOrder, childOrder);
    forall x { LabelsAreListedChunks(query, records, parentOrder, childOrder, x); }
    if t.parents.relevant != [] { assert t.parents.relevant[0] in t.parents.relevant; }
    if t.children.relevant != [] { assert t.children.relevant[0] in t.children.relevant; }
  }
}
