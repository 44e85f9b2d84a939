/** `decision_agent/evaluation/enterprise_kb_ground_truth.py`: from clauses to labelled chunks, and the
    checks that `enterprise_retrieval_baseline.py` makes when it loads the labels again. */
module Labels {
  import opened Texts
  import opened ClauseLocation
  import opened ClauseMapping
  import ClauseSpans

  const EXPECTED_QUERY_COUNT: nat := 60

  datatype Level = ParentLevel | ChildLevel

  datatype Query = Query(queryId: string, answerable: bool, relevantClauses: seq<string>, hardClauses: seq<string>)

  /** The chunks of one level that a query calls relevant, purely hard negative, and both. */
  datatype LevelTruth = LevelTruth(relevant: seq<string>, hard: seq<string>, overlap: seq<string>) {
    predicate Coherent()
    {
      && (forall x :: x in overlap ==> x in relevant)
      && (forall x :: x in overlap ==> x !in hard)
    }
  }

  datatype Truth = Truth(
    queryId: string, answerable: bool, relevantClauses: seq<string>, hardClauses: seq<string>,
    parents: LevelTruth, children: LevelTruth)

  datatype LabelError =
    | UnknownClause(clauseId: string) | NoRelevantChunks(queryId: string) | RecordInvalid(queryId: string)
    | WrongQueryCount

  datatype RelevanceLabel = OverlappingLabel | RelevantLabel | HardNegativeLabel | Unlabeled

  function IdsAt(record: ClauseRecord, level: Level): seq<string>
  {
    if level == ParentLevel then record.parentIds else record.childIds
  }

  // ---------------------------------------------------------------- choosing in a fixed order

  /** The members of `chosen`, in the order of `ordered`. */
  function Select(ordered: seq<string>, chosen: set<string>): seq<string>
  {
    if ordered == [] then []
    else
      Select(ordered[..|ordered| - 1], chosen)
      + (if ordered[|ordered| - 1] in chosen then [ordered[|ordered| - 1]] else [])
  }

  lemma {:induction false} SelectMembers(ordered: seq<string>, chosen: set<string>)
    ensures forall x :: x in Select(ordered, chosen) <==> x in ordered && x in chosen
  {
    if ordered != [] {
      var n := |ordered| - 1;
      SelectMembers(ordered[..n], chosen);
      assert ordered == ordered[..n] + [ordered[n]];
    }
  }

  /** Selecting twice keeps what both selections keep. */
  lemma {:induction false} SelectTwice(ordered: seq<string>, a: set<string>, b: set<string>)
    ensures Select(Select(ordered, a), b) == Select(ordered, a * b)
  {
    if ordered != [] {
      var n := |ordered| - 1;
      SelectTwice(ordered[..n], a, b);
      var rest := Select(ordered[..n], a);
      if ordered[n] in a {
        assert (rest + [ordered[n]])[..|rest|] == rest;
      } else {
        assert rest + [] == rest;
      }
    }
  }

  /** Only members of the ordering matter. */
  lemma {:induction false} SelectDependsOnMembers(ordered: seq<string>, a: set<string>, b: set<string>)
    requires forall x :: x in ordered ==> (x in a <==> x in b)
    ensures Select(ordered, a) == Select(ordered, b)
  {
    if ordered != [] {
      SelectDependsOnMembers(ordered[..|ordered| - 1], a, b);
    }
  }

  /** Two disjoint selections split their union: no occurrence is lost or counted twice. */
  lemma {:induction false} SelectSplits(ordered: seq<string>, a: set<string>, b: set<string>)
    requires a !! b
    ensures multiset(Select(ordered, a)) + multiset(Select(ordered, b)) == multiset(Select(ordered, a + b))
  {
    if ordered != [] {
      SelectSplits(ordered[..|ordered| - 1], a, b);
    }
  }

  /** A selection keeps the order: whatever comes later in it comes later in the ordering. */
  lemma {:induction false} SelectKeepsOrder(
    ordered: seq<string>, chosen: set<string>, i: nat, j: nat) returns (p: nat, q: nat)
    requires i < j < |Select(ordered, chosen)|
    ensures p < q < |ordered|
    ensures ordered[p] == Select(ordered, chosen)[i] && ordered[q] == Select(ordered, chosen)[j]
  {
    var n := |ordered| - 1;
    var rest := Select(ordered[..n], chosen);
    if j < |rest| {
      p, q := SelectKeepsOrder(ordered[..n], chosen, i, j);
    } else {
      q := n;
      SelectMembers(ordered[..n], chosen);
      assert rest[i] in ordered[..n];
      p :| 0 <= p < n && ordered[..n][p] == rest[i];
    }
  }

  // ---------------------------------------------------------------- the union over clauses

  /** A dictionary over the records: the last record of an identity wins. */
  function ById(clauses: seq<ClauseRecord>): map<string, ClauseRecord>
  {
    if clauses == [] then map[]
    else ById(clauses[..|clauses| - 1])[clauses[|clauses| - 1].clauseId := clauses[|clauses| - 1]]
  }

  /** The chunks that the clauses map to. */
  function ChunksOf(clauseIds: seq<string>, records: map<string, ClauseRecord>, level: Level): set<string>
  {
    set c, x | c in clauseIds && c in records && x in IdsAt(records[c], level) :: x
  }

  predicate AllKnown(clauseIds: seq<string>, records: map<string, ClauseRecord>)
  {
    forall i :: 0 <= i < |clauseIds| ==> clauseIds[i] in records
  }

  /** The first clause that is not known. */
  function FirstUnknown(clauseIds: seq<string>, records: map<string, ClauseRecord>): (id: string)
    requires !AllKnown(clauseIds, records)
    ensures id in clauseIds && id !in records
  {
    if clauseIds[0] !in records then clauseIds[0] else FirstUnknown(clauseIds[1..], records)
  }

  lemma {:induction false} FirstUnknownAt(clauseIds: seq<string>, records: map<string, ClauseRecord>, i: nat)
    requires i < |clauseIds| && clauseIds[i] !in records
    requires forall j :: 0 <= j < i ==> clauseIds[j] in records
    ensures FirstUnknown(clauseIds, records) == clauseIds[i]
  {
    if i > 0 { FirstUnknownAt(clauseIds[1..], records, i - 1); }
  }

  lemma {:induction false} ChunksOfNext(
    clauseIds: seq<string>, records: map<string, ClauseRecord>, level: Level, i: nat)
    requires i < |clauseIds| && clauseIds[i] in records
    ensures ChunksOf(clauseIds[..i + 1], records, level)
         == ChunksOf(clauseIds[..i], records, level) + set x | x in IdsAt(records[clauseIds[i]], level)
  {
    assert clauseIds[..i + 1] == clauseIds[..i] + [clauseIds[i]];
  }

  method StableUnion(clauseIds: seq<string>, records: map<string, ClauseRecord>, ordered: seq<string>, level: Level)
    returns (r: Result<seq<string>, LabelError>)
    ensures r.Ok? <==> AllKnown(clauseIds, records)
    ensures r.Ok? ==> r.value == Select(ordered, ChunksOf(clauseIds, records, level))
    ensures r.Err? ==> r.error == UnknownClause(FirstUnknown(clauseIds, records))
  {
    var selected: set<string> := {};
    for i := 0 to |clauseIds|
      invariant selected == ChunksOf(clauseIds[..i], records, level)
      invariant forall k :: 0 <= k < i ==> clauseIds[k] in records
    {
      if clauseIds[i] !in records {
        FirstUnknownAt(clauseIds, records, i);
        return Err(UnknownClause(clauseIds[i]));
      }
      ChunksOfNext(clauseIds, records, level, i);
      selected := selected + set x | x in IdsAt(records[clauseIds[i]], level);
    }
    assert clauseIds[..|clauseIds|] == clauseIds;
    var kept := Filter(ordered, selected, true);
    SelectDependsOnMembers(ordered, selected, ChunksOf(clauseIds, records, level));
    return Ok(kept);
  }

  /** The generator expressions that keep, or drop, the members of a set. */
  method Filter(ordered: seq<string>, chosen: set<string>, keep: bool) returns (r: seq<string>)
    ensures r == Select(ordered, if keep then chosen else (set x | x in ordered) - chosen)
  {
    r := [];
    ghost var wanted := if keep then chosen else (set x | x in ordered) - chosen;
    for i := 0 to |ordered|
      invariant r == Select(ordered[..i], wanted)
    {
      assert ordered[..i + 1][..i] == ordered[..i];
      if (ordered[i] in chosen) == keep {
        r := r + [ordered[i]];
      }
    }
    assert ordered[..|ordered|] == ordered;
  }

  // ---------------------------------------------------------------- one query

  /** The labels of one level, each chosen directly from the ordering. */
  function LevelTruthOf(
    query: Query, records: map<string, ClauseRecord>, ordered: seq<string>, level: Level): LevelTruth
  {
    var relevant := ChunksOf(query.relevantClauses, records, level);
    var hard := ChunksOf(query.hardClauses, records, level);
    LevelTruth(Select(ordered, relevant), Select(ordered, hard - relevant), Select(ordered, hard * relevant))
  }

  function TruthOf(
    query: Query, records: map<string, ClauseRecord>, parentOrder: seq<string>, childOrder: seq<string>): Truth
  {
    Truth(query.queryId, query.answerable, query.relevantClauses, query.hardClauses,
          LevelTruthOf(query, records, parentOrder, ParentLevel), LevelTruthOf(query, records, childOrder, ChildLevel))
  }

  /** The first check that a query fails. */
  function QueryError(
    query: Query, records: map<string, ClauseRecord>, parentOrder: seq<string>,
    childOrder: seq<string>): Option<LabelError>
  {
    var truth := TruthOf(query, records, parentOrder, childOrder);
    if !AllKnown(query.relevantClauses, records) then Some(UnknownClause(FirstUnknown(query.relevantClauses, records)))
    else if !AllKnown(query.hardClauses, records) then Some(UnknownClause(FirstUnknown(query.hardClauses, records)))
    else if query.answerable && (truth.parents.relevant == [] || truth.children.relevant == []) then
      Some(NoRelevantChunks(query.queryId))
    else if !query.answerable && query.relevantClauses != [] then Some(RecordInvalid(query.queryId))
    else None
  }

  /** The overlapping and the pure hard negatives, cut out of the raw hard negatives. */
  method SplitHard(
    raw: seq<string>, relevant: seq<string>, ghost ordered: seq<string>, ghost h: set<string>,
    ghost r: set<string>)
    returns (hard: seq<string>, overlap: seq<string>)
    requires raw == Select(ordered, h) && relevant == Select(ordered, r)
    ensures hard == Select(ordered, h - r) && overlap == Select(ordered, h * r)
  {
    var relevantSet := set x | x in relevant;
    overlap := Filter(raw, relevantSet, true);
    hard := Filter(raw, relevantSet, false);
    SelectMembers(ordered, r);
    SelectMembers(ordered, h);
    SelectTwice(ordered, h, relevantSet);
    SelectTwice(ordered, h, (set x | x in raw) - relevantSet);
    SelectDependsOnMembers(ordered, h * relevantSet, h * r);
    SelectDependsOnMembers(ordered, h * ((set x | x in raw) - relevantSet), h - r);
  }

  /** The record's own validator (`validate_disjoint_chunk_sets`). */
  predicate RecordRejected(t: Truth)
  {
    || (exists x :: x in t.parents.relevant && x in t.parents.hard)
    || (exists x :: x in t.children.relevant && x in t.children.hard)
    || (!t.answerable && (t.relevantClauses != [] || t.parents.relevant != [] || t.children.relevant != []))
  }

  /** One step of the loop over the queries. */
  method BuildOne(query: Query, records: map<string, ClauseRecord>, parentOrder: seq<string>, childOrder: seq<string>)
    returns (r: Result<Truth, LabelError>)
    ensures r.Ok? <==> QueryError(query, records, parentOrder, childOrder).None?
    ensures r.Ok? ==> r.value == TruthOf(query, records, parentOrder, childOrder)
    ensures r.Err? ==> QueryError(query, records, parentOrder, childOrder) == Some(r.error)
  {
    var relevantParents, relevantChildren, rawParents, rawChildren;
    var union := StableUnion(query.relevantClauses, records, parentOrder, ParentLevel);
    match union { case Err(e) => return Err(e); case Ok(ids) => relevantParents := ids; }
    union := StableUnion(query.relevantClauses, records, childOrder, ChildLevel);
    match union { case Err(e) => return Err(e); case Ok(ids) => relevantChildren := ids; }
    union := StableUnion(query.hardClauses, records, parentOrder, ParentLevel);
    match union { case Err(e) => return Err(e); case Ok(ids) => rawParents := ids; }
    union := StableUnion(query.hardClauses, records, childOrder, ChildLevel);
    match union { case Err(e) => return Err(e); case Ok(ids) => rawChildren := ids; }
    var hardParents, overlapParents := SplitHard(
      rawParents, relevantParents, parentOrder,
      ChunksOf(query.hardClauses, records, ParentLevel), ChunksOf(query.relevantClauses, records, ParentLevel));
    var hardChildren, overlapChildren := SplitHard(
      rawChildren, relevantChildren, childOrder,
      ChunksOf(query.hardClauses, records, ChildLevel), ChunksOf(query.relevantClauses, records, ChildLevel));
    if query.answerable && (relevantParents == [] || relevantChildren == []) {
      return Err(NoRelevantChunks(query.queryId));
    }
    var truth := Truth(query.queryId, query.answerable, query.relevantClauses, query.hardClauses,
                       LevelTruth(relevantParents, hardParents, overlapParents),
                       LevelTruth(relevantChildren, hardChildren, overlapChildren));
    TruthIsSeparated(query, records, parentOrder, childOrder);
    if RecordRejected(truth) { return Err(RecordInvalid(query.queryId)); }
    return Ok(truth);
  }

  /** The two disjointness checks of the record never fire; only a relevant clause of an unanswerable query does. */
  lemma {:induction false} TruthIsSeparated(
    query: Query, records: map<string, ClauseRecord>, parentOrder: seq<string>, childOrder: seq<string>)
    ensures RecordRejected(TruthOf(query, records, parentOrder, childOrder))
       <==> !query.answerable && query.relevantClauses != []
  {
    LabelsPartition(query, records, parentOrder, ParentLevel);
    LabelsPartition(query, records, childOrder, ChildLevel);
    if query.relevantClauses == [] {
      NothingSelected(parentOrder);
      NothingSelected(childOrder);
      assert ChunksOf([], records, ParentLevel) == {};
      assert ChunksOf([], records, ChildLevel) == {};
    }
  }

  lemma {:induction false} NothingSelected(ordered: seq<string>)
    ensures Select(ordered, {}) == []
  {
    if ordered != [] { NothingSelected(ordered[..|ordered| - 1]); }
  }

  // ---------------------------------------------------------------- all queries

  method BuildQueryGroundTruth(
    queries: seq<Query>, clauses: seq<ClauseRecord>, parentOrder: seq<string>, childOrder: seq<string>)
    returns (r: Result<seq<Truth>, LabelError>)
    ensures r.Ok? <==> && |queries| == EXPECTED_QUERY_COUNT
                       && forall i :: 0 <= i < |queries| ==>
                           QueryError(queries[i], ById(clauses), parentOrder, childOrder).None?
    ensures r.Ok? ==> |r.value| == |queries| && forall i :: 0 <= i < |queries| ==>
                        r.value[i] == TruthOf(queries[i], ById(clauses), parentOrder, childOrder)
    ensures r.Err? ==> FailsWith(r.error, queries, ById(clauses), parentOrder, childOrder)
  {
    var records := IndexClauses(clauses);
    var truths: seq<Truth> := [];
    for i := 0 to |queries|
      invariant |truths| == i
      invariant forall k :: 0 <= k < i ==> QueryError(queries[k], records, parentOrder, childOrder).None?
      invariant forall k :: 0 <= k < i ==> truths[k] == TruthOf(queries[k], records, parentOrder, childOrder)
    {
      var truth := BuildOne(queries[i], records, parentOrder, childOrder);
      match truth {
        case Err(e) => return Err(e);
        case Ok(t) => truths := truths + [t];
      }
    }
    if |truths| != EXPECTED_QUERY_COUNT { return Err(WrongQueryCount); }
    return Ok(truths);
  }

  /** The error is that of the first query that fails, or the count is wrong and no query fails. */
  ghost predicate FailsWith(
    e: LabelError, queries: seq<Query>, records: map<string, ClauseRecord>, parentOrder: seq<string>,
    childOrder: seq<string>)
  {
    || (e == WrongQueryCount && |queries| != EXPECTED_QUERY_COUNT
        && forall k :: 0 <= k < |queries| ==> QueryError(queries[k], records, parentOrder, childOrder).None?)
    || (exists i :: 0 <= i < |queries| && QueryError(queries[i], records, parentOrder, childOrder) == Some(e)
                    && forall k :: 0 <= k < i ==> QueryError(queries[k], records, parentOrder, childOrder).None?)
  }

  method IndexClauses(clauses: seq<ClauseRecord>) returns (records: map<string, ClauseRecord>)
    ensures records == ById(clauses)
  {
    records := map[];
    for i := 0 to |clauses|
      invariant records == ById(clauses[..i])
    {
      assert clauses[..i + 1][..i] == clauses[..i];
      records := records[clauses[i].clauseId := clauses[i]];
    }
    assert clauses[..|clauses|] == clauses;
  }

  // ---------------------------------------------------------------- what the labels satisfy

  /** The labels of a level partition the raw hard negatives: overlap is what is also relevant, hard is
      what is not, and no occurrence is lost. */
  lemma {:induction false} LabelsPartition(
    query: Query, records: map<string, ClauseRecord>, ordered: seq<string>, level: Level)
    ensures var t := LevelTruthOf(query, records, ordered, level);
            && t.Coherent()
            && (forall x :: x in t.hard ==> x !in t.relevant)
            && multiset(t.hard) + multiset(t.overlap)
               == multiset(Select(ordered, ChunksOf(query.hardClauses, records, level)))
  {
    var relevant := ChunksOf(query.relevantClauses, records, level);
    var hard := ChunksOf(query.hardClauses, records, level);
    SelectMembers(ordered, relevant);
    SelectMembers(ordered, hard - relevant);
    SelectMembers(ordered, hard * relevant);
    SelectSplits(ordered, hard - relevant, hard * relevant);
    assert (hard - relevant) + (hard * relevant) == hard;
  }

  /** The checks that reading the labels back makes. */
  predicate LoaderAccepts(t: Truth) { t.children.Coherent() && t.parents.Coherent() }

  /** Every record that is built passes those checks. */
  lemma {:induction false} LoaderNeverRejects(
    query: Query, records: map<string, ClauseRecord>, parentOrder: seq<string>, childOrder: seq<string>)
    ensures LoaderAccepts(TruthOf(query, records, parentOrder, childOrder))
  {
    LabelsPartition(query, records, parentOrder, ParentLevel);
    LabelsPartition(query, records, childOrder, ChildLevel);
  }

  function Label(candidate: string, t: LevelTruth): RelevanceLabel
  {
    if candidate in t.overlap then OverlappingLabel
    else if candidate in t.relevant then RelevantLabel
    else if candidate in t.hard then HardNegativeLabel
    else Unlabeled
  }

  /** On labels that were built, a candidate's tag says exactly which of the raw sets it is in. */
  lemma {:induction false} LabelMeaning(
    query: Query, records: map<string, ClauseRecord>, ordered: seq<string>, level: Level, x: string)
    requires x in ordered
    ensures var tag := Label(x, LevelTruthOf(query, records, ordered, level));
            var relevant := x in ChunksOf(query.relevantClauses, records, level);
            var hard := x in ChunksOf(query.hardClauses, records, level);
            && (tag == OverlappingLabel <==> relevant && hard)
            && (tag == RelevantLabel <==> relevant && !hard)
            && (tag == HardNegativeLabel <==> hard && !relevant)
  {
    var relevant := ChunksOf(query.relevantClauses, records, level);
    var hard := ChunksOf(query.hardClauses, records, level);
    SelectMembers(ordered, relevant);
    SelectMembers(ordered, hard - relevant);
    SelectMembers(ordered, hard * relevant);
  }

  // ---------------------------------------------------------------- labels over mapped clauses

  /** The chunk identities of all documents, in order. */
  function Order(docs: seq<Document>, level: Level): seq<string>
  {
    if docs == [] then []
    else Order(docs[..|docs| - 1], level) + OrderOf(docs[|docs| - 1], level)
  }

  function OrderOf(doc: Document, level: Level): seq<string>
  {
    if level == ParentLevel then seq(|doc.parents|, i requires 0 <= i < |doc.parents| => doc.parents[i].chunkId)
    else seq(|doc.children|, i requires 0 <= i < |doc.children| => doc.children[i].chunkId)
  }

  predicate Labelled(record: ClauseRecord, parentOrder: seq<string>, childOrder: seq<string>)
  {
    && record.parentIds != [] && record.childIds != []
    && (forall x :: x in record.parentIds ==> x in parentOrder)
    && (forall x :: x in record.childIds ==> x in childOrder)
  }

  lemma {:induction false} ParentIdsComeFromParents(doc: Document, n: nat, spans: seq<ClauseSpans.ContentSpan>)
    requires n <= |doc.parents|
    ensures forall x :: x in ParentIdsFor(doc.parents[..n], spans) ==> x in OrderOf(doc, ParentLevel)
  {
    if n > 0 {
      ParentIdsComeFromParents(doc, n - 1, spans);
      assert doc.parents[..n][..n - 1] == doc.parents[..n - 1];
      assert OrderOf(doc, ParentLevel)[n - 1] == doc.parents[n - 1].chunkId;
    }
  }

  lemma {:induction false} ChildIdsComeFromChildren(doc: Document, n: nat, spans: seq<ClauseSpans.ContentSpan>)
    requires n <= |doc.children|
    ensures forall x :: x in ChildIdsFor(doc.parents, doc.children[..n], spans) ==> x in OrderOf(doc, ChildLevel)
  {
    if n > 0 {
      ChildIdsComeFromChildren(doc, n - 1, spans);
      assert doc.children[..n][..n - 1] == doc.children[..n - 1];
      assert OrderOf(doc, ChildLevel)[n - 1] == doc.children[n - 1].chunkId;
    }
  }

  lemma {:induction false} MappedRecordsAreLabelled(docs: seq<Document>, stop: bool)
    requires AllValid(docs)
    requires forall d :: 0 <= d < |docs| ==> Covered(docs[d], stop)
    ensures forall r :: r in AllRecords(docs, stop) ==> Labelled(r, Order(docs, ParentLevel), Order(docs, ChildLevel))
  {
    if docs != [] {
      var n := |docs| - 1;
      var doc := docs[n];
      MappedRecordsAreLabelled(docs[..n], stop);
      forall r | r in RecordsOf(doc, stop) ensures Labelled(r, OrderOf(doc, ParentLevel), OrderOf(doc, ChildLevel)) {
        var i :| 0 <= i < |RecordsOf(doc, stop)| && RecordsOf(doc, stop)[i] == r;
        RecordIsLabelled(doc, stop, i);
      }
    }
  }

  lemma {:induction false} RecordIsLabelled(doc: Document, stop: bool, i: nat)
    requires doc.source.Valid() && MarkersInOrder(doc.source, MarkersOf(doc.source))
    requires Covered(doc, stop) && i < |RecordsOf(doc, stop)|
    ensures Labelled(RecordsOf(doc, stop)[i], OrderOf(doc, ParentLevel), OrderOf(doc, ChildLevel))
  {
    var l := LocatedOf(doc, stop)[i];
    ParentIdsComeFromParents(doc, |doc.parents|, l.spans);
    ChildIdsComeFromChildren(doc, |doc.children|, l.spans);
    assert doc.parents[..|doc.parents|] == doc.parents;
    assert doc.children[..|doc.children|] == doc.children;
  }

  lemma {:induction false} IndexedRecordIsListed(clauses: seq<ClauseRecord>, id: string)
    requires id in ById(clauses)
    ensures ById(clauses)[id] in clauses
  {
    var n := |clauses| - 1;
    if clauses[n].clauseId != id { IndexedRecordIsListed(clauses[..n], id); }
  }

  /** Over the clauses of covered documents, an answerable query that names a known clause always maps
      to chunks: the error for a query without relevant chunks occurs only for a query without clauses. */
  lemma {:induction false} OnlyClauselessQueriesMapToNothing(docs: seq<Document>, stop: bool, query: Query)
    requires AllValid(docs)
    requires forall d :: 0 <= d < |docs| ==> Covered(docs[d], stop)
    ensures QueryError(query, ById(AllRecords(docs, stop)), Order(docs, ParentLevel), Order(docs, ChildLevel))
              == Some(NoRelevantChunks(query.queryId))
       <==> query.answerable && query.relevantClauses == [] && AllKnown(query.hardClauses, ById(AllRecords(docs, stop)))
  {
    var records := ById(AllRecords(docs, stop));
    if query.relevantClauses == [] {
      NothingSelected(Order(docs, ParentLevel));
      assert ChunksOf([], records, ParentLevel) == {};
    } else if AllKnown(query.relevantClauses, records) {
      var id := query.relevantClauses[0];
      MappedRecordsAreLabelled(docs, stop);
      IndexedRecordIsListed(AllRecords(docs, stop), id);
      assert Labelled(records[id], Order(docs, ParentLevel), Order(docs, ChildLevel));
      SomethingSelected(query.relevantClauses, records, ParentLevel, Order(docs, ParentLevel));
      SomethingSelected(query.relevantClauses, records, ChildLevel, Order(docs, ChildLevel));
    }
  }

  lemma {:induction false} SomethingSelected(
    clauseIds: seq<string>, records: map<string, ClauseRecord>, level: Level, ordered: seq<string>)
    requires clauseIds != [] && clauseIds[0] in records
    requires IdsAt(records[clauseIds[0]], level) != []
    requires forall x :: x in IdsAt(records[clauseIds[0]], level) ==> x in ordered
    ensures Select(ordered, ChunksOf(clauseIds, records, level)) != []
  {
    var x := IdsAt(records[clauseIds[0]], level)[0];
    SelectMembers(ordered, ChunksOf(clauseIds, records, level));
    assert x in IdsAt(records[clauseIds[0]], level);
    assert x in ChunksOf(clauseIds, records, level);
  }
}
