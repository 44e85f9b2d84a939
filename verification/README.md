# Verified model of the decision agent's deterministic core

This project models, in Dafny, the deterministic logic of the decision agent and proves what it
promises. To verify: `dafny verify dfyconfig.toml`. Seven parts are covered:

- **Chunking** (`Windowing`, `FixedChunker`, `Sections`, `Packing`, `ClauseChunker`, `ClauseTheorems`,
  `ChunkTheorems`). Text is a sequence of characters with Python's notion of white space. The matches of
  the heading and marker patterns are given, as strictly increasing positions inside the text.
- **Clause ground truth** (`ClauseSpans`, `ClauseLocation`, `ClauseMapping`, `CrossClause`,
  `ClauseCoverage`, `CrossSection`, `MappingTheorems`, `Labels`, `LabelTheorems`). Clauses are located
  across blocks, trimmed, mapped to chunks by interval overlap, and turned into labels. Composed with
  either chunker, it is proved exactly when the error branches for unmapped clauses can be reached.
- **Multi-file writes** (`AtomicWrite`, `AtomicRollback`). The file system is a class that holds a map from
  paths to contents; an oracle decides by number which operation fails, before it takes effect. Operations
  of the rollback and the clean-up can fail too.
- **Context selection** (`ContextSelection`, `SelectionTheorems`, `SelectionPriority`) and **conversation
  memory** (`Neutralization`, `MemoryProjection`, `ProjectionTheorems`): greedy algorithms against a token
  budget, with the total order, the estimator and the marker pattern written out.
- **The agent workflow** (`PlanValidation`, `AgentWorkflow`): a bounded state machine whose planner, skill
  and reviewer may answer anything, raise, or be cancelled.
- **Retrieval scoring** (`RetrievalMetrics`, `MetricAggregation`, `TimingSummary`, `Scoring`,
  `ScoringMeaning`, `StageMetrics`, `ScoringTheorems`), over exact reals.
- **Codecs** (`FrozenJson`, `TurnIdentity`). `Texts` and `Listings` hold what they share.

Code that updates variables, lists or fields step by step is a method with loops, proved against a
specification function or predicate; the properties are lemmas about the specification. Among them are
lemmas that tell it from the inputs alone: by offsets, places in lists, replies, or spelled-out text.

## Where the code differs from what one would expect

- A multi-file write can leave one temporary file behind. With `k` outputs, `e` of which exist, and `d`
  the first operation that fails, counted from 0, that is so exactly when `d < 2k` is odd (writing to a
  new temporary file) or `2k <= d < 2k + 3e` and `d - 2k` leaves 1 when divided by 3 (removing the
  placeholder of a backup name): no variable holds the path yet, so the clean-up never sees it
  (`AtomicRollback.WriteTextFilesAtomically`). Every output and every other path is restored even then, if
  no later operation fails.
- If undoing a failed write fails as well, the clean-up still deletes the remaining backups, so earlier
  files are lost (`AtomicRollback.OneFileIsLost`). Everything is undone exactly when the next so many
  operations after `d` succeed: one for each output installed by then and one for each backup.
- A conversation-memory projection can raise instead of returning: its length limit of 20000 characters is
  met by every projection only for allowances of at most 5000 tokens (`MemoryProjection.NeverRaisesIff`).
- The flag `*_hard_negative_before_relevant` and the list `pure_hard_negative_before_first_relevant` do not
  always name the same queries (`ScoringTheorems.HardBeforeAgreesUnlessLate`).
- The checks of saved query results recompute ranks but not relevance tags. A row that passes them has
  an overlap-before-relevant failure, which no evaluated row has, exactly when a candidate before the
  first relevant one is saved as overlapping and its label says otherwise
  (`ScoringTheorems.OverlapFailsOnlyOnWrongTags`, with such a row in `ASavedRowWithAWrongTag`).
- Over clause-aware chunks a clause "maps to no Child chunk" exactly when the chunker and the ground truth
  share no text of it in the block of its marker (`ClauseCoverage.ClauseAwareCoverage`). That cannot
  happen in a document of one block whose headings they read alike; it does happen when a clause's text
  begins in the next block (`ClauseCoverage.TextInTheNextBlockIsNotMapped`).
- The first section also takes in what precedes its heading, so a clause that opens there runs across
  that heading. The count of children that cross a section is zero exactly when no such clause reaches
  past the heading, or windows do not overlap and one ends there (`CrossSection.NoChildCrossesSections`).
- Thawing leaves a list, and everything inside it, as it is; the round trips hold because frozen values
  contain no lists.

## Model

| member | source | states |
|---|---|---|
| AtomicRollback.WriteTextFilesAtomically | src/decision_agent/evaluation/reporting.py:43-85 | for any failing operations, those of the rollback and the clean-up too, read from the oracle and the disk before the call: the try block succeeds exactly when none of its 3k + 3e operations fails; the first failing one decides the error and, by its number alone, whether one temporary file is left; everything is undone exactly when the next so many operations succeed; then, if the clean-up succeeds, the disk is the old one but for that file, and in every other case it is told what each output holds; after success the clean-up ends exactly when none of the next e operations fails, and the disk is then the old one with exactly the new contents; repeated outputs change nothing |
| AtomicWrite.TryReplace | src/decision_agent/evaluation/reporting.py:53-73 | the three phases stop at the first failing operation, whose number gives the step it reports and how many outputs are backed up and installed; what is on disk is described by what is staged, backed up and installed |
| AtomicWrite.StageAll | src/decision_agent/evaluation/reporting.py:54-55 | stages a temporary file beside each output, without touching any existing path, in two operations each; a failure is told by its number |
| AtomicWrite.BackUpAll | src/decision_agent/evaluation/reporting.py:57-68 | moves exactly the outputs that exist to fresh backup names, in three operations each; a failure is told by its number in the phase, with a third of the operations before it as backups |
| AtomicWrite.InstallAll | src/decision_agent/evaluation/reporting.py:70-73 | moves each staged file to its output, over a backed-up or absent path, one operation each |
| AtomicRollback.RestoreEach | src/decision_agent/evaluation/reporting.py:77-80 | every backup goes back to the path it came from, up to the first move that fails; the outputs after it keep their backups |
| AtomicRollback.Undo | src/decision_agent/evaluation/reporting.py:74-85 | whatever operation of the rollback or the clean-up fails: every output and earlier file is then as the installed outputs not unlinked and the backups not moved back say; undoing comes to its end exactly when none of so many operations fails; a clean-up that ends leaves only what leaked |
| AtomicRollback.EverythingIsBackIff | src/decision_agent/evaluation/reporting.py:74-80 | the earlier files are all back exactly when each output whose backup was not moved back is one that was left installed, with the content it had |
| AtomicRollback.OneFileIsLost | src/decision_agent/evaluation/reporting.py:74-85 | installing one existing file fails and moving its backup back fails: the file is gone, and with the clean-up so is its content |
| Windowing.Windows | src/decision_agent/ingestion/chunking.py:107-116 | the loop terminates and yields the closed form: window `i` starts at `i * (size - overlap)`, and there are 1 + ceil((length - size) / (size - overlap)) of them when the text is longer than a window |
| Windowing.WindowChain | src/decision_agent/ingestion/chunking.py:110-116 | each window starts exactly `overlap` before the end of its predecessor; only the last is short |
| Windowing.WindowsCoverOnce | src/decision_agent/ingestion/chunking.py:107-116 | every offset is in a window, and in only one when there is no overlap |
| Windowing.ReassembleGivesBackText | src/decision_agent/ingestion/chunking.py:107-116 | dropping each later window's overlap and joining gives back the text |
| FixedChunker.Chunker.PostInit | src/decision_agent/ingestion/chunking.py:24-35 | accepts exactly the sizes 0 < child <= parent, 0 <= overlap < child, and names the first size that is wrong |
| FixedChunker.Chunk | src/decision_agent/ingestion/chunking.py:37-105 | the nested loops produce the parents and children of the windows, blank ones dropped |
| FixedChunker.ChunksAreSlices | src/decision_agent/ingestion/chunking.py:45-103 | each chunk is the block's text at its own offsets, within its size; parents are disjoint and in order; a child lies inside the parent it names |
| FixedChunker.NoContentIsLost | src/decision_agent/ingestion/chunking.py:39-80 | every non-blank character is in exactly one parent and in at least one child of that parent |
| ChunkTheorems.ParentsAreWindows | src/decision_agent/ingestion/chunking.py:45-77 | the parents are exactly the non-blank windows at multiples of the parent size, each with its text, offsets, block and document, identified by the hash of exactly these |
| ChunkTheorems.ChildrenAreWindows | src/decision_agent/ingestion/chunking.py:79-103 | the children are exactly the non-blank windows of the parents: the next one starts the child size less the overlap further on, until one reaches the end of the parent; each names its parent and is identified with it |
| ChunkTheorems.FixedChildrenAscend | src/decision_agent/ingestion/chunking.py:45-103 | children come in the order of their text |
| Sections.SectionPath | src/decision_agent/ingestion/clause_aware_chunking.py:156-167 | the dictionary of open headings gives the titles of the chain of enclosing headings |
| Sections.DropDeeper | src/decision_agent/ingestion/clause_aware_chunking.py:164-166 | exactly the deeper levels are deleted |
| Sections.NextAncestors | src/decision_agent/ingestion/clause_aware_chunking.py:159-166 | a new heading replaces the part of the chain at its level or deeper |
| Sections.AncestorsDeepen | src/decision_agent/ingestion/clause_aware_chunking.py:158-167 | levels strictly increase along the chain, so sorting the levels is reading the chain |
| Sections.MinLevelIsLeast | src/decision_agent/ingestion/clause_aware_chunking.py:142-146 | the business level is the least level from two on that occurs |
| ChunkTheorems.BoundariesAreBusinessHeadings | src/decision_agent/ingestion/clause_aware_chunking.py:142-146 | a heading opens a section exactly when it has the least level from two on that occurs, or every heading has level one |
| ChunkTheorems.PathNamesEnclosing | src/decision_agent/ingestion/clause_aware_chunking.py:156-167 | the path at a position names, in order, exactly the headings that start there or before and are not closed by a later one of their level or higher |
| Sections.FindSections | src/decision_agent/ingestion/clause_aware_chunking.py:140-154 | one section for each heading of the business level, or a single one |
| Sections.SectionsTileBlock | src/decision_agent/ingestion/clause_aware_chunking.py:147-154 | sections are non-empty and follow one another from the first character to the last |
| ChunkTheorems.SectionOfHeading | src/decision_agent/ingestion/clause_aware_chunking.py:147-154 | a section begins at its heading, the first one at the start of the text, ends at the next one, and is named after its heading with the path there |
| Sections.FindClauses | src/decision_agent/ingestion/clause_aware_chunking.py:169-183 | each marker opens a clause up to the next marker or the end of its section; `None` exactly when a marker is in no section |
| Sections.ClausesFound | src/decision_agent/ingestion/clause_aware_chunking.py:175 | over the sections of the block every marker is in a section |
| Sections.SectionClausesRun | src/decision_agent/ingestion/clause_aware_chunking.py:63-67 | the offset filter selects exactly the clauses whose marker is in the section, a contiguous slice that abuts and ends where the section ends |
| Sections.ClausesDisjoint | src/decision_agent/ingestion/clause_aware_chunking.py:174-183 | clauses do not overlap, even across sections |
| Packing.ParentRanges | src/decision_agent/ingestion/clause_aware_chunking.py:185-210 | the loop yields the greedy packing, and nothing after it for a section with clauses: the trailing gap never arises |
| Packing.RangesTile | src/decision_agent/ingestion/clause_aware_chunking.py:185-210 | the ranges tile the section and take its clauses in order, each once |
| Packing.ParentsFit | src/decision_agent/ingestion/clause_aware_chunking.py:196-206 | a range holds a single clause or fits the size |
| Packing.PackingStaysAhead | src/decision_agent/ingestion/clause_aware_chunking.py:194-206 | from a clause at or after another's, the greedy packing needs no more pieces than any admissible cut from there |
| Packing.GreedyPackingIsOptimal | src/decision_agent/ingestion/clause_aware_chunking.py:194-208 | the ranges are an admissible cut, and no admissible cut at clause boundaries has fewer pieces |
| Packing.RangesAreGreedy | src/decision_agent/ingestion/clause_aware_chunking.py:194-208 | range by range: each takes the clauses from where the last one ended, one or as many as fit, and the next clause would not fit |
| ClauseChunker.Chunk | src/decision_agent/ingestion/clause_aware_chunking.py:53-138 | the two passes give the specified parents and children for every block; no error is ever raised |
| ClauseChunker.ParentRangesTileBlock | src/decision_agent/ingestion/clause_aware_chunking.py:62-94 | before blank ranges are dropped, the parent ranges of all sections tile the block |
| ClauseChunker.ClauseHasOneParent | src/decision_agent/ingestion/clause_aware_chunking.py:95-110 | every clause lies in exactly one parent, which lists it, so the search never comes up empty |
| ClauseChunker.ParentsAreOrdered | src/decision_agent/ingestion/clause_aware_chunking.py:62-94 | kept parents are non-blank slices, disjoint and in text order |
| ChunkTheorems.ParentsAreRanges | src/decision_agent/ingestion/clause_aware_chunking.py:68-93 | the parents are exactly the non-blank ranges, each with its text, offsets, section data and clauses, identified by the hash of exactly these |
| ChunkTheorems.RangesComeFromSections | src/decision_agent/ingestion/clause_aware_chunking.py:62-68 | the ranges are those of the sections |
| ClauseChunker.CollectChildren | src/decision_agent/ingestion/clause_aware_chunking.py:96-137 | the second pass fails exactly when a clause has no parent, with the error of the first such clause, section by section, and otherwise gives the children section by section |
| ClauseTheorems.ClauseWindowsChain | src/decision_agent/ingestion/clause_aware_chunking.py:212-220 | the windows of a clause run from its start to its end |
| ClauseTheorems.OnlyOverlongClausesSplit | src/decision_agent/ingestion/clause_aware_chunking.py:212-220 | a clause has a single window, the whole of it, exactly when it is no longer than a child |
| ClauseTheorems.ChildrenAreClauseLocal | src/decision_agent/ingestion/clause_aware_chunking.py:95-137 | every child is cut from one clause, names it alone, and names a parent that contains and lists that clause |
| ClauseTheorems.ClauseTextIsKept | src/decision_agent/ingestion/clause_aware_chunking.py:111-137 | every character of a clause is in a child of that clause |
| ChunkTheorems.ChildrenAreClauseWindows | src/decision_agent/ingestion/clause_aware_chunking.py:95-137 | the children are exactly the windows of the clauses, each with its clause, its section and the parent that contains the clause |
| ChunkTheorems.ClauseChildrenAscend | src/decision_agent/ingestion/clause_aware_chunking.py:95-137 | these children too come in the order of their text |
| ClauseTheorems.ParentsStayInSections | src/decision_agent/ingestion/clause_aware_chunking.py:62-93 | no parent crosses a section, and it carries that section's metadata |
| ClauseTheorems.ParentsKeepText | src/decision_agent/ingestion/clause_aware_chunking.py:68-93 | every non-blank character of the block is in exactly one parent |
| ClauseSpans.TrimSegments | src/decision_agent/evaluation/enterprise_kb_ground_truth.py:310-335 | the two popping loops and the filter give the trimmed spans |
| ClauseSpans.DropEmpty | src/decision_agent/evaluation/enterprise_kb_ground_truth.py:331-335 | the closing filter keeps exactly the non-empty spans |
| ClauseSpans.TrimmedTextIsStripped | src/decision_agent/evaluation/enterprise_kb_ground_truth.py:310-335 | the text of the trimmed spans is the strip of the joined text; every span stays inside its block; nothing is left exactly when the text is blank |
| ClauseLocation.MarkersAreInOrder | src/decision_agent/evaluation/enterprise_kb_ground_truth.py:341-352 | collected markers are inside their blocks, in text order and disjoint |
| ClauseLocation.CollectSegments | src/decision_agent/evaluation/enterprise_kb_ground_truth.py:367-393 | the segments of a clause, one for each block up to the next marker's |
| ClauseLocation.LocateClauseSpans | src/decision_agent/evaluation/enterprise_kb_ground_truth.py:338-405 | succeeds exactly when there is a marker, no marker repeats and no clause is blank; the separate test for blank content never fires |
| ClauseLocation.LocatedContentIsTextBetweenMarkers | src/decision_agent/evaluation/enterprise_kb_ground_truth.py:365-404 | without the stop at a heading, the content of a clause is the document's text between its marker line and the next marker, stripped, across blocks |
| ClauseLocation.LocatedContentIsOwnAndLaterText | src/decision_agent/evaluation/enterprise_kb_ground_truth.py:365-404 | with or without the stop, the content is the text in the marker's block, cut at the next business heading if the stop is on, and the later text up to the next marker, stripped; a heading in a later block cuts nothing |
| ClauseLocation.LocatedStartsOnText | src/decision_agent/evaluation/enterprise_kb_ground_truth.py:394-404 | a located clause starts on a non-blank character |
| ClauseMapping.MapClauses | src/decision_agent/evaluation/enterprise_kb_ground_truth.py:417-497 | succeeds exactly when every document can be located, every clause meets a parent and a child and stays in its document, no identity repeats, and the count is as expected; any other error is what is wrong with the first wrong clause of the first wrong document; what a record lists is told by `MappingTheorems.RecordListsWhatItShares` |
| ClauseMapping.MapDocument | src/decision_agent/evaluation/enterprise_kb_ground_truth.py:425-492 | the records of a document, or the error of its first failing clause; what a record lists is told by `MappingTheorems.RecordListsWhatItShares` |
| MappingTheorems.RecordOfMarker | src/decision_agent/evaluation/enterprise_kb_ground_truth.py:425-492 | there is one record for each marker of each document, in order, and no other |
| MappingTheorems.RecordListsWhatItShares | src/decision_agent/evaluation/enterprise_kb_ground_truth.py:431-464 | the parents of a record are, at ascending places, exactly those with a character that is also a character of a span of the clause in one of their blocks; the children are exactly those with such a character in a block of the parent they name; the record keeps the clause's place, spans and text |
| MappingTheorems.ListedExactlyWhenShared | src/decision_agent/evaluation/enterprise_kb_ground_truth.py:431-464 | an identity is listed exactly when a chunk that bears it shares a character with the clause |
| MappingTheorems.MappedSpansStayInDocument | src/decision_agent/evaluation/enterprise_kb_ground_truth.py:467-473 | the spans of a mapped clause lie in blocks of its own document |
| ClauseMapping.FixedChunkingCoversClauses | src/decision_agent/evaluation/enterprise_kb_ground_truth.py:431-466 | over fixed-window chunks every located clause meets a parent and a child, so those two errors cannot occur |
| ClauseCoverage.ClauseAwareCoverage | src/decision_agent/evaluation/enterprise_kb_ground_truth.py:431-466 | over clause-aware chunks of any number of blocks, with headings read in any way: a located clause always meets a parent, and every clause meets a child exactly when each has text that both modules give it in the block of its marker |
| ClauseCoverage.ClauseEndsAgree | src/decision_agent/evaluation/enterprise_clause_aware_ground_truth.py:80-98 | a clause located with business headings ends no later, in its block, than the clause the chunker cut, if every later section starts at such a heading |
| ClauseCoverage.CoveredWhenHeadingsAgree | src/decision_agent/evaluation/enterprise_kb_ground_truth.py:431-466 | then every clause meets a child exactly when each has text in the block of its marker before the next business heading |
| ClauseCoverage.ClauseAwareChunkingCoversClauses | src/decision_agent/evaluation/enterprise_kb_ground_truth.py:431-466 | so the "maps to no chunk" errors cannot occur over clause-aware chunks of a document of one block |
| ClauseCoverage.TextInTheNextBlockIsNotMapped | src/decision_agent/evaluation/enterprise_kb_ground_truth.py:465-466 | a document of two blocks, the text of its clause in the second, is located but not mapped |
| CrossClause.ChildMeetsOnlyItsClause | src/decision_agent/evaluation/enterprise_clause_aware_ground_truth.py:85-95 | a clause-aware child meets no located clause but the one it was cut from, in any number of blocks, with and without the stop at headings, wherever the headings are |
| CrossClause.CrossClauseChildCount | src/decision_agent/evaluation/enterprise_clause_aware_ground_truth.py:80-98 | the nested loops count the children that meet more than one clause |
| MappingTheorems.CrossCountCounts | src/decision_agent/evaluation/enterprise_clause_aware_ground_truth.py:80-98 | the count is the number of children that share a character with two clauses of their document with different identities |
| CrossClause.NoChildCrossesClauses | src/decision_agent/evaluation/enterprise_clause_aware_ground_truth.py:80-98 | over any corpus chunked along clauses the count is zero, as soon as both modules find the same markers |
| CrossSection.CrossSectionChildCount | src/decision_agent/evaluation/enterprise_clause_aware_ground_truth.py:101-116 | the two loops count the children that a business heading of their source falls strictly inside |
| MappingTheorems.SectionCountCounts | src/decision_agent/evaluation/enterprise_clause_aware_ground_truth.py:101-116 | the count is the number of children with a heading of their source behind their first character and before their end |
| CrossSection.SectionCountIsExact | src/decision_agent/evaluation/enterprise_clause_aware_ground_truth.py:101-116 | for a document of one block that count is the number of windows of one clause, the last that opens before the first heading, which that heading falls inside |
| CrossSection.ClauseNotAcross | src/decision_agent/ingestion/clause_aware_chunking.py:212-220 | no window of a clause straddles an offset exactly when the offset is not inside the clause, or windows do not overlap and one ends there |
| CrossSection.NoChildCrossesSections | src/decision_agent/evaluation/enterprise_clause_aware_ground_truth.py:101-116 | the count is zero exactly when there is no heading, no clause opens before the first one, the last that does ends there, or windows do not overlap and one ends there |
| CrossSection.NoChildCrossesAnySection | src/decision_agent/evaluation/enterprise_clause_aware_ground_truth.py:101-116 | over all documents it is zero exactly when that holds of each |
| Labels.StableUnion | src/decision_agent/evaluation/enterprise_kb_ground_truth.py:500-513 | the chunks of the named clauses in the given order, or the first unknown clause |
| Labels.SelectKeepsOrder | src/decision_agent/evaluation/enterprise_kb_ground_truth.py:513 | whatever comes later in a selection comes later in the ordering |
| Labels.BuildQueryGroundTruth | src/decision_agent/evaluation/enterprise_kb_ground_truth.py:516-577 | one record for each query, or the error of the first failing query, or a wrong count; what a record says is told by `LabelTheorems.LabelsAreListedChunks` |
| Labels.BuildOne | src/decision_agent/evaluation/enterprise_kb_ground_truth.py:535-576 | labels chosen step by step through lists and sets equal the direct choice: relevant, hard less relevant, hard and relevant |
| LabelTheorems.LabelsAreListedChunks | src/decision_agent/evaluation/enterprise_kb_ground_truth.py:535-561 | a parent of the ordering is relevant exactly when some relevant clause's record lists it, purely hard negative exactly when a hard-negative clause's does and no relevant one's, overlapping exactly when both do; and so for the children |
| LabelTheorems.SelectedPlaces | src/decision_agent/evaluation/enterprise_kb_ground_truth.py:513 | a selection holds exactly the places of the ordering whose identity is chosen, in order |
| LabelTheorems.RecordIsLastOfIdentity | src/decision_agent/evaluation/enterprise_kb_ground_truth.py:522 | the record of an identity is the last one that bears it |
| LabelTheorems.RefusalsExplained | src/decision_agent/evaluation/enterprise_kb_ground_truth.py:500-576 | which query is refused and with which error, told by the records and the orderings |
| Labels.TruthIsSeparated | src/decision_agent/evaluation/enterprise_kb_ground_truth.py:169-179 | the record's disjointness checks never fire; it is refused exactly when an unanswerable query names a relevant clause |
| Labels.LabelsPartition | src/decision_agent/evaluation/enterprise_kb_ground_truth.py:542-561 | overlap is inside relevant, hard is disjoint from relevant, and together overlap and hard are the raw hard negatives, no occurrence lost |
| Labels.LoaderNeverRejects | src/decision_agent/evaluation/enterprise_retrieval_baseline.py:128-140 | labels that were built pass the checks of loading |
| Labels.LabelMeaning | src/decision_agent/evaluation/enterprise_retrieval_baseline.py:149-156 | a candidate's label says exactly which of the two raw sets it is in |
| Labels.OnlyClauselessQueriesMapToNothing | src/decision_agent/evaluation/enterprise_kb_ground_truth.py:562-565 | over the mapped clauses of covered documents, "maps to no relevant chunks" is raised exactly for an answerable query that names no clause |
| RetrievalMetrics.ComputeQueryMetrics | src/decision_agent/evaluation/retrieval_metrics.py:25-59 | fails exactly on repeated or empty identities, no relevant documents, no K or a K below one, each with its error; otherwise holds exactly the requested metrics: recall times the number of relevant documents is the number of ranks below K with a relevant result, the hit rate says whether there is one, and the reciprocal rank is that of the first |
| RetrievalMetrics.RecallCountsRanks | src/decision_agent/evaluation/retrieval_metrics.py:46-48 | recall times the number of relevant documents is the number of ranks below K with a relevant result |
| RetrievalMetrics.RecallIsOneIff | src/decision_agent/evaluation/retrieval_metrics.py:46-48 | recall is one exactly when every relevant document is among the first K |
| RetrievalMetrics.CutFirstRank | src/decision_agent/evaluation/enterprise_retrieval_baseline.py:144-146 | a deeper cut only adds ranks the shallower one cut off |
| RetrievalMetrics.HitMeansRank | src/decision_agent/evaluation/retrieval_metrics.py:45-57 | the set intersection is non-empty exactly when there is a first relevant rank |
| RetrievalMetrics.RecallIsMonotone | src/decision_agent/evaluation/retrieval_metrics.py:45-48 | recall and hit rate never fall as K grows, and recall stays in [0, 1] |
| RetrievalMetrics.RecallAgreesWithHit | src/decision_agent/evaluation/retrieval_metrics.py:46-48 | recall <= hit rate <= number of relevant documents times recall |
| RetrievalMetrics.MrrLiesBetweenHitRates | src/decision_agent/evaluation/retrieval_metrics.py:47-58 | Hit@1 <= MRR@K <= Hit@K <= K * MRR@K, and MRR never falls as K grows |
| MetricAggregation.AggregateMetrics | src/decision_agent/evaluation/retrieval_metrics.py:62-95 | fails with the first failing check, and otherwise gives the averages overall and for exactly the categories that occur |
| MetricAggregation.AggregableIff | src/decision_agent/evaluation/retrieval_metrics.py:62-83 | it succeeds exactly when there is a row and a metric, and every row has a non-blank category, the metric names of the first row, and values in [0, 1] |
| MetricAggregation.ErrorOfFirstBadRow | src/decision_agent/evaluation/retrieval_metrics.py:72-83 | the error is about the first other row: its category, else its names, else its values |
| MetricAggregation.AveragesAreColumnMeans | src/decision_agent/evaluation/retrieval_metrics.py:84-95 | an average times the number of rows is the sum of the column of the metric, over all rows and over those of each category |
| MetricAggregation.AveragesAreConserved | src/decision_agent/evaluation/retrieval_metrics.py:72-95 | category averages weighted with category counts add up to the number of rows times the overall average, for every metric |
| MetricAggregation.AveragesStayInRange | src/decision_agent/evaluation/retrieval_metrics.py:84-95 | averages of values in [0, 1] stay in [0, 1], overall and in every category |
| TimingSummary.Summarize | src/decision_agent/evaluation/enterprise_retrieval_baseline.py:579-599 | fails exactly on no values or a negative one; the floor and ceiling of the 95% position give the interpolated value |
| TimingSummary.SummaryIsExact | src/decision_agent/evaluation/enterprise_retrieval_baseline.py:584-598 | the total is the sum of the values and their number times the mean; the extremes and the middle values are those of any ascending arrangement; the 95% position between two neighbours weighs each by how near it is |
| TimingSummary.SummaryIsOrdered | src/decision_agent/evaluation/enterprise_retrieval_baseline.py:584-598 | min <= median <= p95 <= max, and the mean is between min and max |
| TimingSummary.SummaryIgnoresOrder | src/decision_agent/evaluation/enterprise_retrieval_baseline.py:583-599 | any permutation of the timings has the same summary |
| Scoring.Failures | src/decision_agent/evaluation/enterprise_retrieval_baseline.py:602-668 | for each failure type, the recorded rows are exactly those whose stored ranks and tags call for it, in order; rows without a failure are not recorded |
| ScoringMeaning.FailuresAreToldByRankings | src/decision_agent/evaluation/enterprise_retrieval_baseline.py:610-651 | of a checked row each of the flags is recorded exactly when the places of relevant results and of tagged candidates in its rankings say so; evidence for an unanswerable query exactly when there is some |
| ScoringMeaning.Top1MissIsZeroHitRate | src/decision_agent/evaluation/enterprise_retrieval_baseline.py:616-621 | a child stage misses at the top exactly when its hit rate at 1 is zero |
| ScoringMeaning.FailingRows | src/decision_agent/evaluation/enterprise_retrieval_baseline.py:605-652 | the rows recorded for a failure type are exactly those, in order |
| ScoringMeaning.RecordsWithType | src/decision_agent/evaluation/enterprise_retrieval_baseline.py:652-667 | the records that carry a type, in order |
| Scoring.ExposureStatistics | src/decision_agent/evaluation/enterprise_retrieval_baseline.py:303-401 | each of the ten lists holds exactly the answerable queries it is about; the hit counts are sums of places among the first five; no answerable query is an error |
| ScoringMeaning.StatisticsAreToldByPlaces | src/decision_agent/evaluation/enterprise_retrieval_baseline.py:320-365 | a ranking counts towards each of the ten statistics exactly when the places of its relevant, hard-negative and overlapping results say so |
| ScoringMeaning.ShowingRows | src/decision_agent/evaluation/enterprise_retrieval_baseline.py:310-401 | each list holds exactly the answerable rows whose rankings it is about, in order |
| ScoringMeaning.AnswerableRowsAreCounted | src/decision_agent/evaluation/enterprise_retrieval_baseline.py:304-363 | the denominator is the number of answerable rows |
| Scoring.CountHits | src/decision_agent/evaluation/enterprise_retrieval_baseline.py:344-355 | comparing two list lengths decides whether every relevant hit overlaps |
| Scoring.CompareStage | src/decision_agent/evaluation/enterprise_retrieval_baseline.py:414-474 | the six lists and the rank gain of two stages |
| ScoringMeaning.ChangesAreToldByPlaces | src/decision_agent/evaluation/enterprise_retrieval_baseline.py:430-452 | a top hit changes by whether a relevant result comes first, a reciprocal rank by how many of the first five places come before the first relevant one |
| ScoringMeaning.ChangedRows | src/decision_agent/evaluation/enterprise_retrieval_baseline.py:425-474 | each list holds exactly the answerable rows with that change, in order |
| ScoringMeaning.RankGainIsPlaces | src/decision_agent/evaluation/enterprise_retrieval_baseline.py:453-474 | the gain is the number of such places under the one stage less that under the other, over all answerable rows |
| Scoring.ReciprocalChangeIsRankChange | src/decision_agent/evaluation/enterprise_retrieval_baseline.py:444-452 | comparing reciprocals of ranks up to five is comparing the ranks, a missing one counting as the sixth |
| StageMetrics.StageMetricsOf | src/decision_agent/evaluation/enterprise_retrieval_baseline.py:273-294 | the numerators are the sums of the metrics of the answerable rows, for ten metrics of the three rankings before the reranker and seven of the others; fails exactly when there is none or one cannot be scored |
| StageMetrics.AggregatesAreValid | src/decision_agent/evaluation/enterprise_retrieval_baseline.py:60-71 | every aggregate meets its own validator |
| ScoringTheorems.BuiltRowsAreChecked | src/decision_agent/evaluation/enterprise_retrieval_baseline.py:735-814 | rows that were just evaluated pass the checks made of saved rows, hold the rankings, and tag each candidate with its label |
| ScoringTheorems.NoRelevantAgrees | src/decision_agent/evaluation/enterprise_retrieval_baseline.py:616-627 | the failure flag, the exposure list and a hit rate at 5 of zero agree on every checked row |
| ScoringTheorems.NoRelevantListsAgree | src/decision_agent/evaluation/enterprise_retrieval_baseline.py:356-357 | the failure records and the exposure list name the same queries in the same order |
| ScoringTheorems.HitRateCountsTheRest | src/decision_agent/evaluation/enterprise_retrieval_baseline.py:287 | the numerator of the hit rate at 5 is the number of answerable queries outside that list |
| ScoringTheorems.RerankerRegressionListsAgree | src/decision_agent/evaluation/enterprise_retrieval_baseline.py:628-631 | the regression flags, from ranks cut at 10 and 5, name exactly the queries whose reciprocal rank at 5 regressed |
| ScoringTheorems.HitChangesAreTheNumeratorChange | src/decision_agent/evaluation/enterprise_retrieval_baseline.py:435-443 | improved minus regressed top hits is the change of the numerator of the hit rate at 1, for any two stages |
| ScoringTheorems.ChangesPartition | src/decision_agent/evaluation/enterprise_retrieval_baseline.py:437-452 | every answerable query is in exactly one list of a comparison |
| ScoringTheorems.OverlapNeverComesFirst | src/decision_agent/evaluation/enterprise_retrieval_baseline.py:387-395 | with overlap inside relevant no evaluated row has an overlap-before-relevant failure |
| ScoringTheorems.OverlapNeverComesFirstInBuiltRows | src/decision_agent/evaluation/enterprise_retrieval_baseline.py:638-651 | in particular for labels built from clauses, whatever the stages returned |
| ScoringTheorems.OverlapFailsOnlyOnWrongTags | src/decision_agent/evaluation/enterprise_retrieval_baseline.py:862-880 | at any stage, a saved row that passes its checks has an overlap-before-relevant failure exactly when the query is answerable and a candidate before the first relevant one is saved as overlapping against its label |
| ScoringTheorems.WrongTagsAreAccepted | src/decision_agent/evaluation/enterprise_retrieval_baseline.py:862-880 | every answerable query whose first dense candidate is not relevant has such a row, with the same ranking |
| ScoringTheorems.ASavedRowWithAWrongTag | src/decision_agent/evaluation/enterprise_retrieval_baseline.py:862-880 | one such row, with labels the loader accepts |
| ScoringTheorems.HitKindCountsAddUp | src/decision_agent/evaluation/enterprise_retrieval_baseline.py:344-357 | only via overlap, with a pure hit, and no relevant hit partition the answerable queries |
| ScoringTheorems.HardBeforeAgreesUnlessLate | src/decision_agent/evaluation/enterprise_retrieval_baseline.py:358-361 | the hard-negative-before-relevant flag and the exposure list agree exactly unless the first relevant rank is 7 to 10, no hard negative is in the top five and one is after it; then only the flag is raised |
| ScoringTheorems.LateHardNegativesOccur | src/decision_agent/evaluation/enterprise_retrieval_baseline.py:644-649 | the disagreement does occur |
| ContextSelection.ContextManager.Add | src/decision_agent/context/manager.py:46-50 | stores the item exactly when its identity is new |
| ContextSelection.ContextManager.Select | src/decision_agent/context/manager.py:73-121 | the loops give the outcome that the theorems of `SelectionPriority` tell from the store and the policy, or the first error of a required item |
| SelectionPriority.SelectedByPriority | src/decision_agent/context/manager.py:25-31 | behind the required items, in policy order, of any two selected items the one whose level of trust is listed first comes first, then the older, then the one with the smaller identity |
| SelectionPriority.SelectedExactlyWhenItFits | src/decision_agent/context/manager.py:99-113 | an item that is not required is selected exactly when the policy admits it and its tokens fit beside those of the required items and of the selected items that outrank it; admitted and not fitting is dropped for the budget |
| SelectionPriority.DroppedForFirstRule | src/decision_agent/context/manager.py:56-71 | the reason of a drop, told by expiry, kind, trust and domain in that order, or the budget |
| SelectionPriority.TotalsAreTokens | src/decision_agent/context/manager.py:115-121 | the total is the tokens of the selected items, within the maximum less the reserve |
| SelectionPriority.FirstRequiredFailure | src/decision_agent/context/manager.py:83-93 | it fails at the first required item that is missing, refused, or too much beside those before it, and says which |
| ContextSelection.PrecedesIsStrictTotal | src/decision_agent/context/manager.py:95-98 | the sort key is a strict total order on items with different identities |
| ContextSelection.ReasonIsFirstViolation | src/decision_agent/context/manager.py:56-71 | the reason is the first rule the item breaks, and there is none exactly for an eligible item |
| ContextSelection.DeduplicateStrings | src/decision_agent/context/models.py:117-125 | every value once, in the order of first occurrences, or nothing if one is blank; what policy validation relies on |
| ContextSelection.KeptAtFirstPlaces | src/decision_agent/context/models.py:117-125 | kept are exactly the places whose value does not stand before, in order |
| SelectionTheorems.Manager | src/decision_agent/context/manager.py:46-50 | a manager that is given items one by one holds the store of those items |
| SelectionTheorems.InsertionOrderDoesNotMatter | src/decision_agent/context/manager.py:46-121 | stores of the same items in any two orders have the same outcome |
| SelectionTheorems.SelectInBothOrders | src/decision_agent/context/manager.py:46-121 | two managers given the same items in any two orders select alike |
| SelectionTheorems.SelectionSucceedsIff | src/decision_agent/context/manager.py:83-93 | succeeds exactly when every required item is stored, eligible, and all of them together fit |
| SelectionTheorems.SelectionIsSound | src/decision_agent/context/models.py:363-379 | required items first, the rest in priority order; selected and dropped partition the store; every drop reason is justified and no budget-dropped item fits the final selection; the result meets its own contract |
| SelectionTheorems.GreedyIsBestInPriorityOrder | src/decision_agent/context/manager.py:99-113 | at the first candidate where another affordable choice differs, the greedy pass takes it and the other does not |
| MemoryProjection.EstimateFollowsWeight | src/decision_agent/context/token_budget.py:25-31 | the estimate is a rounded-up weight, is monotone, and bounds the length by four times itself |
| ProjectionTheorems.EstimateCountsCharacters | src/decision_agent/context/token_budget.py:25-31 | the estimate is the least number of tokens whose quarters pay one for each ASCII character and four for any other |
| MemoryProjection.Render | src/decision_agent/context/conversation_memory.py:81-99 | the loop renders the lines that `ProjectionTheorems.RenderedIsMemoryText` spells out |
| ProjectionTheorems.RenderedIsMemoryText | src/decision_agent/context/conversation_memory.py:81-99 | the text is the opening tag, the neutralized summary between its tags if there is one, every turn in order with the neutralized user and assistant texts between their tags, and the closing tag |
| MemoryProjection.OneMoreTurn | src/decision_agent/context/conversation_memory.py:81-99 | one more turn in front strictly adds weight |
| MemoryProjection.SelectSuffix | src/decision_agent/context/conversation_memory.py:53-63 | stops at the first suffix that does not fit; `None` exactly when the summary alone, or without one the newest turn alone, does not fit |
| MemoryProjection.KeptSuffixIsLongest | src/decision_agent/context/conversation_memory.py:57-63 | a suffix fits exactly when it is no longer than the one kept, for any growing cost |
| MemoryProjection.Project | src/decision_agent/context/conversation_memory.py:46-69 | the projection, or nothing, as `ProjectionTheorems.ProjectionSpelledOut` and `NothingProjectedIff` tell; the last budget check never drops one; the contract's refusal is recorded |
| MemoryProjection.KeepsLongestFittingSuffix | src/decision_agent/context/conversation_memory.py:46-72 | the content is rendered from the summary and the longest fitting suffix of turns |
| ProjectionTheorems.ProjectionSpelledOut | src/decision_agent/context/conversation_memory.py:46-72 | the content, written out, is the text of the summary and of the turns from `k` on, where the text from turn `j` on is within the allowance exactly when `j` is at least `k` |
| ProjectionTheorems.NothingProjectedIff | src/decision_agent/context/conversation_memory.py:48-61 | there is no projection exactly when there is no memory, or the text of the summary alone, or without one of the newest turn alone, exceeds the allowance |
| MemoryProjection.ProjectionHasNoMarker | src/decision_agent/context/conversation_memory.py:24-29 | projected content never carries an evidence marker |
| MemoryProjection.NeverRaisesIff | src/decision_agent/context/conversation_memory.py:21 | the contract accepts every projection exactly when the allowance is at most 5000 tokens |
| MemoryProjection.LargeAllowanceCanRaise | src/decision_agent/context/conversation_memory.py:46-69 | above 5000 tokens one long turn is refused by the length limit |
| Neutralization.NeutralizedHasNoMarker | src/decision_agent/context/conversation_memory.py:75-78 | no marker is left in any text |
| Neutralization.MarkerSpelled | src/decision_agent/context/conversation_memory.py:13 | a marker is a bracket, `D` or `E`, a digit from 1 to 9, further digits, and a bracket |
| Neutralization.DigitIsInRun | src/decision_agent/context/conversation_memory.py:13 | a digit of the pattern is an ASCII digit or one of the ten characters from a listed zero on |
| Neutralization.FirstMarkerIsReplaced | src/decision_agent/context/conversation_memory.py:75-78 | text up to the first marker is kept, the marker gets `historical-` behind its bracket, and so on with the rest |
| Neutralization.NeutralizeIsIdentityWithoutMarkers | src/decision_agent/context/conversation_memory.py:75-78 | text without markers is unchanged |
| Neutralization.NeutralizeIsIdempotent | src/decision_agent/context/conversation_memory.py:75-78 | neutralizing twice is neutralizing once |
| Neutralization.JoinedLinesHaveNoMarker | src/decision_agent/context/conversation_memory.py:99 | joining marker-free lines makes no marker |
| PlanValidation.LoopAcceptsEarlierDependencies | src/decision_agent/agent_workflow/validation.py:56-71 | a plan of any length passes the step loop exactly when every dependency names an earlier step |
| PlanValidation.DependenciesAreAcyclic | src/decision_agent/agent_workflow/validation.py:56-71 | no path of dependencies leads back to its start |
| PlanValidation.LoopStopsAtFirstBadStep | src/decision_agent/agent_workflow/validation.py:56-71 | the loop stops at the first step with a dependency that is no earlier step, as a cycle if it depends on itself and on known steps only |
| PlanValidation.OnlyOneStepPlansAreValid | src/decision_agent/agent_workflow/validation.py:34-89 | the validator admits exactly the one-step plans for the inventory skill within the limits |
| PlanValidation.RefusalsExplained | src/decision_agent/agent_workflow/validation.py:34-89 | which refusal is given, told by version, steps, identities, sequence, dependencies, count and budget |
| AgentWorkflow.ExecutionBudget.ReserveSkillCall | src/decision_agent/agent_workflow/models.py:208-212 | reserves exactly while the cap is not reached, and changes nothing else |
| AgentWorkflow.Execute | src/decision_agent/agent_workflow/executor.py:34-127 | for any budget: reserves before calling, calls the skill at most once, and gives the step its reply leads to: completed or a business failure exactly for a completed or failed result of the skill for the route, with that result, its error code and its memory flag; a technical failure, with its own error, for each exhausted budget, a skill that is not allowed, a raise, and any other answer |
| AgentWorkflow.StepTellsReply | src/decision_agent/agent_workflow/executor.py:34-127 | a step told by the registry and the reply, for any rounds and calls reserved before |
| AgentWorkflow.Review | src/decision_agent/agent_workflow/workflow.py:278-355 | for any budget: at most one reviewer call; every malformed or failing reply ends the run with its own error |
| AgentWorkflow.ConcludeFirst | src/decision_agent/agent_workflow/workflow.py:227-238 | the first decision ends the run, unless it asks for a repair that is allowed |
| AgentWorkflow.ExecuteCore | src/decision_agent/agent_workflow/workflow.py:129-276 | for every planner, skill and reviewer behaviour: the counters, recorded at the start and after every round, review and repair, follow one path as far as the run goes, with reviews <= skill calls = rounds <= repairs + 1; the result lists exactly the executed steps, each telling the reply to its own call, and is decided by the last event; an accepted result was answered by one of the calls that were made, completed and for the route; no budget is ever exhausted; cancelled exactly when the last call was; a second round only after a review that asks for a permitted repair |
| AgentWorkflow.StepsTellReplies | src/decision_agent/agent_workflow/executor.py:60-127 | each executed step tells the reply to the call of its own round |
| AgentWorkflow.AcceptedWasAnswered | src/decision_agent/agent_workflow/workflow.py:447-454 | an accepted result was answered by the skill, completed and for the route |
| AgentWorkflow.AcceptanceIsToldByReplies | src/decision_agent/agent_workflow/workflow.py:224-276 | a finished run is accepted exactly when its last step did not fail technically, some round was completed, and the last reply of the reviewer is an accept of the one step and nothing else; with the result of the latest completed round |
| AgentWorkflow.RoundsAreToldByReplies | src/decision_agent/agent_workflow/workflow.py:227-252 | unanswerable exactly when the last reply says just that; a second round exactly when the first reply asks to repair the one step, whose skill is repairable; the memory flag is that of any step |
| AgentWorkflow.ErrorIsToldByLastReply | src/decision_agent/agent_workflow/workflow.py:211-276 | otherwise the error is that of the last step, or what the last reply was |
| AgentWorkflow.NoBudgetIsExhausted | src/decision_agent/agent_workflow/workflow.py:289-290 | no finished run reports an exhausted budget |
| AgentWorkflow.AcceptedExactlyWhenNamed | src/decision_agent/agent_workflow/workflow.py:436-454 | accepted exactly when the last review is a well-formed accept naming a completed step, and with the result of the latest such step |
| AgentWorkflow.LatestNamedIsLatest | src/decision_agent/agent_workflow/workflow.py:447-454 | the search from the back finds the latest named step, or there is none |
| FrozenJson.FreezeFailsOnlyOnBadValues | src/decision_agent/context/models.py:128-144 | freezing succeeds exactly when no infinite number, foreign object or non-string key occurs at any depth |
| FrozenJson.FreezeRaisesFirst | src/decision_agent/context/models.py:128-144 | the error is that of the first bad value in reading order |
| FrozenJson.FreezeFreezes | src/decision_agent/context/models.py:128-144 | the result is immutable at every depth |
| FrozenJson.FrozenIsFixed | src/decision_agent/context/models.py:128-144 | the frozen values are exactly the fixed points of freezing |
| FrozenJson.FreezeIsIdempotent | src/decision_agent/context/models.py:128-144 | freezing twice is freezing once |
| FrozenJson.RefreezingTheRoot | src/decision_agent/context/models.py:243-245 | freezing again restores a frozen value whose root became a plain dictionary |
| FrozenJson.FreezeUndoesThaw | src/decision_agent/context/models.py:128-152 | freezing a thawed frozen value gives it back |
| FrozenJson.ThawUndoesFreeze | src/decision_agent/context/models.py:128-152 | thawing a frozen value gives the original with tuples as lists, at every depth |
| FrozenJson.FreezeForgetsOnlyTuples | src/decision_agent/context/models.py:128-152 | two values freeze alike exactly when they differ only in lists for tuples |
| TurnIdentity.ReadPayloadUndoesPayload | src/decision_agent/application/turn_identity.py:21-28 | the hash input decodes to its session and request bytes |
| TurnIdentity.PayloadUndoesReadPayload | src/decision_agent/application/turn_identity.py:23-28 | and only hash inputs decode: one for each pair |
| TurnIdentity.NumberOfBigEndian | src/decision_agent/application/turn_identity.py:28 | eight big-endian bytes spell the length they were made from |
| TurnIdentity.PayloadSpelled | src/decision_agent/application/turn_identity.py:21-28 | the hash input byte by byte: the tag, and for each field the digits of its length to the base 256, the highest first, and its bytes |
| TurnIdentity.Utf8IsInjective | src/decision_agent/application/turn_identity.py:21-22 | different texts have different UTF-8 bytes |
| TurnIdentity.SameIdMeansSameTurnOrCollision | src/decision_agent/application/turn_identity.py:11-24 | hash inputs are equal exactly for equal pairs, so two identifiers agree only for the same turn or a hash collision |
| TurnIdentity.RefusedExactlyWhen | src/decision_agent/application/turn_identity.py:17-20 | refused exactly for a blank session or request, or a field longer than eight bytes can say; a blank session is named first |

## Left out

- Regular expressions: match positions of headings and clause markers are given; the evidence-marker pattern is written out as a recursive function.
- Hashing: stable chunk identities and turn identifiers take the hash as a function parameter.
- Chunk fields that are copied unread: document version, page number, source and block metadata.
- AtomicRollback.WriteTextFilesAtomically: the exception of a failing clean-up or rollback is told by `clean` and `undone`, not as an outcome of its own.
- Writes: `exists` is assumed not to fail and temporary names to be fresh; directories, links, flushing and interrupts between two statements are not modelled.
- `write_text_atomically` and `write_json_report_atomically`: the one-file form without backups.
- Which duplicate marker is named: `_locate_clause_spans` reports the least repeated identity, the model that there is one.
- Context items: their field validators, time zones and error texts; times are numbers. `items` and `get` only read.
- An estimator other than the default one: its injection into the projector; the suffix lemmas hold for any growing cost.
- Session memory stores, rolling summaries, retrieval, fusion, routing and security: their code is not part of this model.
- CrossSection: offsets in a file and in its one block are the same, and the business headings are where the chunker's sections start.
- Workflow: trace spans, authorization arguments (the second round, `workflow.py` lines 242-252, is started without them) and review-request contents; `is_applicable` is a fixed answer of the skill.
- Field limits on error codes and step identities in the workflow's records.
- The order of keys in reports: averages and failure types are maps and sets, which the source sorts.
- Floating point: metrics, averages and percentiles are exact reals, so rounding in `0.95 * (n - 1)` and tolerances are not modelled.
- `average_first_relevant_rank_when_found`, `_reranker_movements`, `_group_metrics`, `_evidence_analysis` and the digests: sums and groupings of the same ranks.
- The flags `rrf_regressed_vs_dense` and `rrf_regressed_vs_bm25` are told by the rankings but not compared with a stage comparison: they use different stand-ins for a missing rank.
- Lone surrogates: texts are sequences of Unicode scalar values, so encoding never fails.
- Size and hash checks of the fixed data set, apart from the query count.
