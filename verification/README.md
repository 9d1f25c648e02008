# Verification of the ingestion, retrieval and upload core

This Dafny project models four components of the system and proves what they promise.

- **Chunking.** `construct_hierarchy` turns normalized blocks into parents and overlapping children: the tokenizer,
  four ways of cutting a segment, two queue loops that push remainders back, the overlap pass and the heading prefix.
  `validate_hierarchy` is the independent specification; the main theorems say what its verdict on a constructed
  hierarchy is, and when it accepts. Modules `Tokenization`, `Segments`, `Splitting`, `Tables`, `SegmentSplitting`,
  `Content`, `Headings`, `ParentGrouping`, `ChildPacking`, `ChildOverlap`, `ChildGrouping`, `Hierarchy`, `Validation`,
  `Conservation`, `Correctness`, `PieceClosing`, `ParentClosing` and `ChildClosing` (where pieces, parents and
  children end, without following the loops), `Verdicts` (every check of the validator spelled out), `Placement` and
  `OffsetOrder` (offsets from the blocks to the chunks), `Normalization` (the offsets that blocks start with),
  `ChunkingShortfalls` (inputs that fail).
- **Ingestion and re-index lifecycle, with the retrieval cache.** Each committed transaction is one atomic step over
  documents, chunk rows, jobs, items and index generations; any number of ingestion runs is in flight, and a run that
  takes no further step is a dead worker. Modules `Lifecycle` (the steps), `LifecycleSafety` (what they keep),
  `LifecycleOutcomes` (what consecutive steps come to), `LifecycleMoves` (which changes of status there are at all),
  `Store` (the same transactions as assignments on rows, each of which keeps the invariant; the helpers inside a
  transaction state only what they assign), `RetrievalCache` (readers and writers of the cache beside these
  transactions), `RetrievalHistory` (what each cached answer was computed from, and when a hit is fresh).
- **Resumable uploads.** A request is the list of its file actions and commits; a crash falls between any two of them
  or leaves an append half done. `Uploads` (the plans), `UploadSafety` and `UploadRecovery` (invariants over every run
  of requests, crashes and repairs), `UploadOutcomes` (rows, files and answer after each request), `UploadService`
  (the endpoints, proved to go through exactly their plans, in that order, and to keep the invariant), `UploadClient`
  (the browser's retry loop over an unreliable network).
- **Ranking.** NDCG, reciprocal-rank fusion, duplicate suppression, greedy diversity, the evidence budget and the
  merging of neighbouring passages. Modules `Ndcg`, `Sorting`, `Fusion`, `EvidenceAssembly`, `SelectionReasons` (why a
  candidate is dropped or selected), `MergedText`, `PassageMerging`, `PassageRuns`.

`Wrappers` holds the optional value and the minimum and maximum that all of them use, `Arithmetic` the few facts about
products, quotients and set sizes that several need.

The style is the same throughout. A pure function states what a loop or a transaction computes; lemmas prove what that
function promises, and tell its result apart by properties of the result alone; where the source works by assignments,
a method with loops and invariants, or a class that updates its fields, is proved to compute that function. Text is a
sequence of characters of three classes (white space, ASCII word, other). SHA-256 is a parameter: any function from
bytes to digests. Scores are real numbers.

Where the code does less than its design suggests, the model follows the code. For each of these a lemma gives the
exact condition and a lemma gives an input that fails:

- A row-wise table cut starts a new piece with header and row without measuring again: `Tables.RowSplitFitsExactly`,
  `ChunkingShortfalls.LaterRowIsNotMeasured`. Such a piece can be a parent above its maximum:
  `ChunkingShortfalls.WideRowOverflows`.
- Blank blocks are chunked but do not count as sources, so the coverage check fails: `Correctness.CoverageExactly`,
  `ChunkingShortfalls.BlankBlockIsNotCovered`.
- With a child maximum of one token a heading overflows every embedded text: `Headings.OneTokenMaximumOverflows`, which
  is the condition and covers every failing input.
- Merging drops a candidate that the cuts of its run do not reach, even the best one: `PassageRuns.KeptExactly`,
  `PassageMerging.BestCandidateCanBeLost`.
- The confirmed bytes of an open session are gone after a removal that a crash cut off, and only then:
  `UploadRecovery.OpenSessionsHold`, `UploadRecovery.OnlyCrashesDiscard`, `UploadRecovery.InterruptedCancelLosesBytes`.
- With a cap per document, a limit of zero selects as if there were none: `Fusion.LimitHoldsExactly`, which covers
  every failing input. The configuration asks for a limit of at least one, so only a direct call gets there.
- A parent leaves room for the heading path with the most parts, not for the one with the most tokens, so a child under
  another path can be too long to embed: `ChunkingShortfalls.ShorterPathOverflows`. The room of one path is enough for
  every content under another exactly when the prefix of the other is not longer: `Headings.LeavesEnoughExactly`.
  `Correctness.SizesAreBounded` asks this of the paths in every parent; they have it when the path changes only at
  headings (`Correctness.SteadyPathsLeaveRoom`).
- A re-index claim, or its release as stale, changes what a Knowledge Base shows without a new generation, and a cached
  answer can then differ from every fresh one: `RetrievalCache.ResetMakesHitsStale`. In every run
  hits are fresh exactly when the entry was computed from what is shown now: `RetrievalHistory.HitsAreFreshExactly`,
  over all pipelines whose answers the digest determines. Nothing but a claim has this effect
  (`RetrievalCache.OnlyClaimsDisturb`), so undisturbed hits are fresh (`RetrievalHistory.HitsAreFresh`); a disturbance
  that is undone does no harm (`RetrievalHistory.DisturbedHitsCanBeFresh`).

For one a condition that suffices is proved, and inputs that fail without it, but no condition that is exact:

- Start offsets run backwards where sentences are rejoined differently from the text, and where a table piece is cut
  inside. `OffsetOrder.OffsetsStayInOrder` keeps them in order when the blocks' offsets are (as normalization makes
  them), sentences that may be cut are separated by one space, and tables leave room for a heading;
  `ChunkingShortfalls.RejoinedSentencesRunBack` and `ChunkingShortfalls.TablePiecesRunBack` are rejected by the
  validator. For one sentence split alone the condition is exact: `Placement.SentencesStandExactly`.

Check the project with `dafny verify dfyconfig.toml --resource-limit 2000000`.

## Model

| member | source | states |
|---|---|---|
| Tokenization.TokenSpans | backend/app/ingestion/tokenization.py:65-80 | the loop over words and single characters finds exactly the spans of the specification |
| Tokenization.SplitText | backend/app/ingestion/tokenization.py:33-47 | the loop of `split` gives the pieces of the specification |
| Tokenization.TokensConcat | backend/app/ingestion/tokenization.py:30-31 | the tokens of two texts add up when no word runs across the joint |
| Tokenization.TokensJoin | backend/app/ingestion/tokenization.py:30-31 | counts are exactly additive over any white-space join |
| Tokenization.SliceTokens | backend/app/ingestion/tokenization.py:65-80 | cutting at token boundaries, even inside a word, re-tokenizes to exactly the tokens in between |
| Tokenization.PieceTokens | backend/app/ingestion/tokenization.py:33-47 | a piece is a verbatim slice with exactly its tokens |
| Tokenization.SplitPieces | backend/app/ingestion/tokenization.py:33-47 | ceil(count / n) pieces, all but the last of exactly n tokens, whose tokens concatenate to the text's |
| Tokenization.TailTokens | backend/app/ingestion/tokenization.py:49-56 | the tail has min(n, count) tokens and is that suffix of the token sequence |
| Tokenization.TokensKeepCharacters | backend/app/ingestion/tokenization.py:65-80 | the tokens hold all non-space characters in order and nothing else |
| Tokenization.BlankIsTokenless | backend/app/ingestion/tokenization.py:30-31 | a text strips to nothing exactly when it has no token |
| Tokenization.TokenShapes | backend/app/ingestion/tokenization.py:65-80 | every token is up to four word characters, fewer only where the word ends, or one other character, and between tokens there is only white space |
| Segments.JoinSegmentsTokens | backend/app/ingestion/hierarchical_chunking.py:654-661 | whatever the separators, joined segments have the tokens of the segments in order |
| Segments.JoinSegmentsConcat | backend/app/ingestion/hierarchical_chunking.py:654-661 | joining two lists of segments puts a space between parts of one block and a blank line between blocks, and nothing else |
| Splitting.SegmentsForTextPieces | backend/app/ingestion/hierarchical_chunking.py:265-292 | the loop with its cursor places the pieces as specified |
| Splitting.LocatedPiecesParts | backend/app/ingestion/hierarchical_chunking.py:265-292 | placed pieces keep block, pages and text, and each starts no earlier than the one before ended |
| Splitting.HardSplitConserves | backend/app/ingestion/hierarchical_chunking.py:257-262 | hard splits lose no token, and every piece has between one and the maximum |
| Splitting.HardSplitOffsets | backend/app/ingestion/hierarchical_chunking.py:257-292 | the offsets of a hard-split part are exactly those of its first and last token, despite look-alikes |
| Splitting.SplitSentences | backend/app/ingestion/hierarchical_chunking.py:195-225 | the sentence loop gives the pieces of the specification |
| Splitting.SentenceSplitConserves | backend/app/ingestion/hierarchical_chunking.py:195-225 | sentence splits lose no token, and every piece has between one and the maximum |
| Tables.SplitTable | backend/app/ingestion/hierarchical_chunking.py:228-254 | the row loop gives the pieces of the specification |
| Tables.RowsHoldAllTokens | backend/app/ingestion/hierarchical_chunking.py:228-232 | the non-blank lines of a table carry all its tokens in order |
| Tables.RowSplitConserves | backend/app/ingestion/hierarchical_chunking.py:228-254 | every piece starts with the header, row tokens are kept in order, the first piece fits, and all fit the maximum or header plus longest row |
| Tables.RowSplitFitsExactly | backend/app/ingestion/hierarchical_chunking.py:240-247 | all pieces fit if and only if no overlong row directly follows a row that fits |
| SegmentSplitting.SplitSegmentParts | backend/app/ingestion/hierarchical_chunking.py:175-192 | any cut makes at least one part, all of the same block, the first within the maximum |
| SegmentSplitting.SplitSegmentConserves | backend/app/ingestion/hierarchical_chunking.py:175-192 | outside row-wise cuts no token is lost, added or moved |
| SegmentSplitting.SplitSegmentSafe | backend/app/ingestion/hierarchical_chunking.py:175-254 | a segment whose header and any row fit is cut into parts within the maximum that are again safe to cut |
| SegmentSplitting.SplitSegmentNoLarger | backend/app/ingestion/hierarchical_chunking.py:175-192 | no part is larger than both the maximum and the segment |
| SegmentSplitting.SplitSegmentOffsets | backend/app/ingestion/hierarchical_chunking.py:175-292 | the offsets of every part span at least its text |
| PieceClosing.SentencesEndAtMarks | backend/app/ingestion/hierarchical_chunking.py:11-205 | no sentence goes on after a full stop, an exclamation or a question mark, or their full-width forms |
| PieceClosing.SentencePiecesExactly | backend/app/ingestion/hierarchical_chunking.py:195-225 | the pieces are the sentence pieces if and only if each is as many whole sentences as fit, or a part of one that is too long itself |
| PieceClosing.RowsAreSingleLines | backend/app/ingestion/hierarchical_chunking.py:228-232 | no row of a table holds a line break |
| PieceClosing.TablePiecesExactly | backend/app/ingestion/hierarchical_chunking.py:228-254 | the pieces are the table pieces if and only if each is the header with as many rows as fit, first rows after the first piece unmeasured, or with a part of a first row that does not fit |
| PieceClosing.CutByKind | backend/app/ingestion/hierarchical_chunking.py:175-192 | which cut is used: rows for a table of more than two rows with a short header, sentences for text of several sentences, tokens otherwise |
| Headings.HeadingPrefixBound | backend/app/ingestion/hierarchical_chunking.py:673-682 | the bounded prefix is the end of the path and leaves a token free unless the maximum is one |
| Headings.HeadingPathExactly | backend/app/ingestion/hierarchical_chunking.py:664-666 | the path of a group is the first of those with the most parts |
| Headings.EnrichedIs | backend/app/ingestion/hierarchical_chunking.py:113-123 | what is embedded below two headings: both with an angle bracket between them, a blank line, and the text |
| Headings.EnrichedBound | backend/app/ingestion/hierarchical_chunking.py:113-123 | prefix and content together stay within the child maximum |
| Headings.OneTokenMaximumOverflows | backend/app/ingestion/hierarchical_chunking.py:673-682 | with a maximum of one token, a heading makes every embedded text too long |
| ParentGrouping.GroupParents | backend/app/ingestion/hierarchical_chunking.py:295-356 | the queue loop computes the specified parents and terminates |
| ParentGrouping.StepDecreases | backend/app/ingestion/hierarchical_chunking.py:312-356 | every turn lowers (2 x queued headings + open heading, queue length, non-empty current), though remainders go back |
| ParentGrouping.ParentsShape | backend/app/ingestion/hierarchical_chunking.py:295-356 | no parent is empty and a heading is only ever first |
| ParentGrouping.ParentsWithinMax | backend/app/ingestion/hierarchical_chunking.py:331-350 | no parent exceeds the parent maximum |
| ParentGrouping.ParentsConserve | backend/app/ingestion/hierarchical_chunking.py:295-356 | when no table has to be cut, the parents hold the input's tokens in order, each with its source block |
| ParentGrouping.ParentsKeepOrders | backend/app/ingestion/hierarchical_chunking.py:295-356 | parents draw on exactly the source blocks of the input |
| ParentGrouping.ParentsHaveSamePath | backend/app/ingestion/hierarchical_chunking.py:312-356 | a path that changes only at headings is constant inside each parent |
| ParentClosing.ParentsExactly | backend/app/ingestion/hierarchical_chunking.py:295-356 | the parents are the one grouping in which each is filled from below its target within the maximum, across no heading, and closed no earlier than it has to be; a heading whose body does not fit takes its first part |
| ParentClosing.ParentsAreFilledFromBelow | backend/app/ingestion/hierarchical_chunking.py:318-327 | no overfilling: a parent that took one more segment was below the target, or a lone heading |
| ParentClosing.ParentsCloseLate | backend/app/ingestion/hierarchical_chunking.py:312-356 | no early closing: the next parent starts with a heading, or the target is reached, or the next segment does not fit, or it is the rest of a body that was cut after its heading |
| ChildPacking.PackChildGroups | backend/app/ingestion/hierarchical_chunking.py:400-462 | the packing loop computes the specified base groups and terminates |
| ChildPacking.StepDecreases | backend/app/ingestion/hierarchical_chunking.py:420-455 | every turn lowers the heading weight or the queue, although table parts bring their headers back |
| ChildPacking.RemainderWeight | backend/app/ingestion/hierarchical_chunking.py:436-449 | what goes back to the queue weighs less than the segment it was cut from |
| ChildPacking.PlaceKeepsSizes | backend/app/ingestion/hierarchical_chunking.py:408-455 | the counter equals the queued tokens, and a split after headings always has room for a token |
| ChildPacking.BaseGroupsWithinMax | backend/app/ingestion/hierarchical_chunking.py:400-462 | no base group exceeds the content maximum |
| ChildPacking.BaseGroupsConserve | backend/app/ingestion/hierarchical_chunking.py:400-462 | when no table has to be cut, the base groups hold the tokens in order |
| ChildPacking.BaseGroupsOrders | backend/app/ingestion/hierarchical_chunking.py:400-462 | base groups draw on exactly the source blocks of the segments |
| ChildClosing.BaseGroupsExactly | backend/app/ingestion/hierarchical_chunking.py:400-462 | the base groups are the one packing in which each group is filled while it is below the target or what is left is a small tail that fits, and closed no earlier, with a last group below the minimum joined to its neighbour if both fit |
| ChildClosing.BasesCloseLate | backend/app/ingestion/hierarchical_chunking.py:400-462 | a base group ends at its target, where the next segment does not fit, or as headings with the first part of a body |
| ChildOverlap.CollectTail | backend/app/ingestion/hierarchical_chunking.py:492-520 | the backward loop collects the specified tail |
| ChildOverlap.ApplyOverlap | backend/app/ingestion/hierarchical_chunking.py:465-489 | the overlap loop computes the specified children |
| ChildOverlap.NeverShrinks | backend/app/ingestion/hierarchical_chunking.py:481-486 | the shrinking loop never takes a turn |
| ChildOverlap.ChildTokens | backend/app/ingestion/hierarchical_chunking.py:465-489 | child i is the last min(overlap, free room, size of group i-1) tokens of base group i-1, then base group i |
| ChildOverlap.ChildrenWithinMax | backend/app/ingestion/hierarchical_chunking.py:465-489 | overlap never pushes a child over the maximum |
| ChildOverlap.OverlapIsErasable | backend/app/ingestion/hierarchical_chunking.py:465-520 | erasing the repeated tokens of the children gives the base groups back |
| ChildOverlap.OverlapExactly | backend/app/ingestion/hierarchical_chunking.py:465-489 | a child repeats the overlap, or all of the group before, or as much as there is room for; nothing before the first child and before tables and code |
| ChildOverlap.TailStandsExactly | backend/app/ingestion/hierarchical_chunking.py:492-520 | a segment of which only the last tokens are repeated starts exactly at the first of them, despite look-alikes in its text |
| ChildGrouping.GroupChildren | backend/app/ingestion/hierarchical_chunking.py:359-397 | the children of a parent are those of the specification |
| ChildGrouping.ChildrenFit | backend/app/ingestion/hierarchical_chunking.py:359-397 | every child fits the room that the heading prefix leaves |
| ChildGrouping.ChildrenEraseToParent | backend/app/ingestion/hierarchical_chunking.py:359-520 | without their overlap the children are the token sequence of their parent |
| ChildGrouping.ChildrenCoverOrders | backend/app/ingestion/hierarchical_chunking.py:359-397 | the children of a parent draw on all its source blocks |
| ChildGrouping.ChildrenSources | backend/app/ingestion/hierarchical_chunking.py:359-397 | children are made of sound parts of the parent's segments |
| ChildClosing.ChildrenOfParent | backend/app/ingestion/hierarchical_chunking.py:359-397 | the children of a parent are packed from its segments cut to the room of the heading prefix, with the target and minimum of the configuration as far as the room allows them |
| Hierarchy.SegmentsForBlocks | backend/app/ingestion/hierarchical_chunking.py:142-172 | every block becomes the parts of its segment, in order |
| Hierarchy.ConstructHierarchy | backend/app/ingestion/hierarchical_chunking.py:84-139 | the construction loop gives the specified parents and children |
| Conservation.DocumentIsConserved | backend/app/ingestion/hierarchical_chunking.py:84-172 | when no table has to be cut, the parents' texts carry exactly the tokens of the document's blocks |
| Correctness.OrdinalsAreConsecutive | backend/app/ingestion/validation.py:60-64 | ordinals count up from zero on every document |
| Correctness.ParentFieldsExactly | backend/app/ingestion/hierarchical_chunking.py:84-112 | the chunk of a parent has the text, tokens, heading path, first and last page and offset, and source blocks of its segments |
| Correctness.ChildFieldsExactly | backend/app/ingestion/hierarchical_chunking.py:113-139 | so has the chunk of a child, and its text is embedded below its own heading path |
| Verdicts.VerdictExactly | backend/app/ingestion/validation.py:26-174 | valid if and only if every check, spelled out over the fields of the chunks, passes; rejected for a problem if and only if that is the first check in order that fails |
| Correctness.RangesAreValid | backend/app/ingestion/validation.py:67-93 | page and offset ranges of every chunk pass the check whenever those of the blocks make sense, whatever headings and tables are |
| Headings.LeavesEnoughExactly | backend/app/ingestion/hierarchical_chunking.py:365-371 | whatever fits the room that one heading path leaves can be embedded under another if and only if the prefix of the other has no more tokens (or none, at a maximum of one) |
| Correctness.SteadyPathsLeaveRoom | backend/app/ingestion/hierarchical_chunking.py:664-666 | when the heading path changes only at headings, every parent takes the path with the longest prefix |
| Correctness.SizesAreBounded | backend/app/ingestion/validation.py:102-126 | when every parent takes the path with the longest prefix and tables fit beside it, every parent, child and embedded text is within its token maximum and counted correctly |
| Correctness.LinksAreValid | backend/app/ingestion/validation.py:129-153 | every parent has children, which stay within its blocks and pages, under the same assumption only |
| Correctness.ChunksCoverAllBlocks | backend/app/ingestion/validation.py:156-174 | parents draw on exactly the block orders, and so do children |
| Correctness.CoverageExactly | backend/app/ingestion/validation.py:156-174 | the coverage check passes if and only if every blank block shares its order with one that is not blank |
| Correctness.ConstructionIsValid | backend/app/ingestion/validation.py:26-57 | for every sound document of non-blank blocks whose parents take the path with the longest prefix the verdict is valid, or start offsets out of order, and nothing else |
| Placement.SentencePiecesLaid | backend/app/ingestion/hierarchical_chunking.py:195-225 | when one space separates the sentences, the pieces of the sentence loop are slices of the text, one after the other |
| Placement.LaidPiecesAreFound | backend/app/ingestion/hierarchical_chunking.py:265-292 | such pieces are all found by the search from the cursor, at places one after the other, although it may find an earlier copy |
| Placement.SentencesStandExactly | backend/app/ingestion/hierarchical_chunking.py:195-292 | whatever the maximum, all parts of a sentence split stand verbatim at their offsets if and only if one space separates the sentences |
| Placement.SplitKeepsPlaces | backend/app/ingestion/hierarchical_chunking.py:175-292 | a cut to at least the room keeps the parts of such a segment in order and within it, and the pieces of a table in the place of the table |
| OffsetOrder.ReplacedAligned | backend/app/ingestion/hierarchical_chunking.py:331-348 | putting parts within a segment in its place keeps a list in order |
| OffsetOrder.ParentsAligned | backend/app/ingestion/hierarchical_chunking.py:295-356 | grouping into parents, with remainders going back to the queue, keeps the order |
| OffsetOrder.BasesAligned | backend/app/ingestion/hierarchical_chunking.py:359-462 | so does packing a parent into base groups, in the middle of the document |
| OffsetOrder.WindowStartsOrdered | backend/app/ingestion/hierarchical_chunking.py:465-520 | children that repeat the end of the group before them still start in order |
| OffsetOrder.OffsetsStayInOrder | backend/app/ingestion/validation.py:96-99 | both offset checks pass on every document whose blocks are in order and can be cut in order |
| OffsetOrder.ConstructionIsAccepted | backend/app/ingestion/validation.py:26-57 | the verdict on the construction from such blocks is valid |
| Normalization.AssignOffsetsAndOrder | backend/app/ingestion/normalization.py:140-150 | the loop numbers the blocks and lays their offsets out as specified |
| Normalization.NormalizedBlocksInOrder | backend/app/ingestion/normalization.py:140-150 | after it the blocks are in order, as the offset theorem asks, with offsets that fit their texts |
| Normalization.NormalizedBlocksExactly | backend/app/ingestion/normalization.py:140-150 | block i has number i and starts after the texts before it, with two characters behind each |
| ChunkingShortfalls.RejoinedSentencesRunBack | backend/app/ingestion/hierarchical_chunking.py:195-275 | sentence marks without a space between them: rejoined pieces outgrow the block and the verdict is child offsets out of order |
| ChunkingShortfalls.TablePiecesRunBack | backend/app/ingestion/hierarchical_chunking.py:254 | a table piece that does not fit after its heading: its parts move on, the next piece is back at the table, and the verdict is child offsets out of order |
| ChunkingShortfalls.ShorterPathOverflows | backend/app/ingestion/hierarchical_chunking.py:664-666 | two paragraphs under different heading paths: the parent takes the one with more parts and fewer tokens, and the verdict is sizes |
| ChunkingShortfalls.LaterRowIsNotMeasured | backend/app/ingestion/hierarchical_chunking.py:240-247 | a table of which a piece has three tokens at a maximum of two |
| ChunkingShortfalls.WideRowOverflows | backend/app/ingestion/hierarchical_chunking.py:240-247 | a table with a row of nine tokens: its second parent has ten at a maximum of eight, and the verdict is sizes |
| ChunkingShortfalls.BlankBlockIsNotCovered | backend/app/ingestion/validation.py:156-174 | a document with a blank block that fails the coverage check in every configuration |
| LifecycleSafety.ApplyKeeps | backend/app/ingestion/reindexing.py:72-293 | every transaction of workers and administrators keeps the invariant |
| LifecycleSafety.ClaimBatchKeeps | backend/app/ingestion/reindexing.py:72-170 | releasing stale items and claiming pending ones keeps it, whatever rows the queries return |
| LifecycleSafety.FinishItemKeeps | backend/app/ingestion/reindexing.py:173-240 | so does finishing an item, even one that was reclaimed meanwhile |
| LifecycleSafety.PublishKeeps | backend/app/ingestion/tasks.py:348-376 | so does the publication of a slow run with another target version |
| LifecycleSafety.AddJobKeeps | backend/app/api/rollout.py:259-319 | so does a new job over documents that have chunks |
| LifecycleSafety.AtMostOneActiveJob | backend/app/api/rollout.py:269-285 | in every run at most one job is queued, running or paused |
| LifecycleSafety.CompletedItemsHold | backend/app/ingestion/reindexing.py:72-226 | in every run a completed item of the active job has a document that is being deleted, or ready with chunks of the target version only |
| LifecycleSafety.JobCompletionHolds | backend/app/ingestion/reindexing.py:243-278 | at the step where a job becomes completed, that holds of every item it still lists |
| LifecycleSafety.PublicationIsAtomic | backend/app/ingestion/tasks.py:345-376 | in every run a ready document holds exactly one run's whole non-empty batch, of the version it records |
| LifecycleSafety.DeletingStays | backend/app/ingestion/tasks.py:444-458 | no transaction takes a document out of deletion or touches its chunks, except the purge of row, chunks and items |
| LifecycleSafety.AttemptsAndCountersBounded | backend/app/ingestion/reindexing.py:143-170 | in every run attempts stay within the maximum and job counters within the total |
| LifecycleSafety.ReplacedRows | backend/app/ingestion/persistence.py:216-244 | replacing chunks gives a document exactly the new rows and leaves all others alone |
| LifecycleOutcomes.FailedAttempt | backend/app/ingestion/reindexing.py:173-240 | a run that fails and then the end of its item: pending again if and only if it failed while embedding or persisting and attempts are left, failed otherwise; the whole state after both |
| LifecycleOutcomes.PublishedAttempt | backend/app/ingestion/reindexing.py:173-226 | a run that publishes and then the end of its item: completed if and only if the run had the version of the job |
| LifecycleOutcomes.DeletedAttempt | backend/app/ingestion/reindexing.py:216-226 | an item whose document is deleted meanwhile fails |
| LifecycleOutcomes.RetriedDocument | backend/app/api/documents.py:60-85 | failure, retry and a new claim: the document is processed again without its error, in its old version |
| LifecycleOutcomes.ClaimedBatch | backend/app/ingestion/reindexing.py:72-170 | what claiming a batch makes of every item and its document, whatever the two queries answer: completed, pending again, failed, or processing with one more attempt |
| LifecycleOutcomes.NextAttempt | backend/app/ingestion/reindexing.py:72-240 | failure, end of the item, and the next batch that picks it: one more attempt, or a failed item |
| LifecycleOutcomes.PausedJobWaits | backend/app/api/rollout.py:117-157 | a paused job takes and ends nothing until it is resumed, and is queued then |
| LifecycleOutcomes.OnlyPausedResumes | backend/app/api/rollout.py:117-157 | resuming another job, or pausing one that does not wait or run, changes nothing |
| LifecycleOutcomes.CancelledJobIsOver | backend/app/api/rollout.py:160-187 | cancelling ends exactly the pending items of the job, and no later request changes it |
| LifecycleOutcomes.RefreshedJob | backend/app/ingestion/reindexing.py:243-293 | the counters are the numbers of completed and failed items; a running job without open items ends, as failed if and only if an item failed |
| LifecycleOutcomes.AddedDocument | backend/app/api/uploads.py:530-556 | a new document waits for its first run |
| LifecycleOutcomes.DeletedAndPurged | backend/app/ingestion/tasks.py:509-534 | deletion and purge leave no row, chunk or item of the document and nothing else changed but the generation, which moved twice |
| LifecycleMoves.JobMoves | backend/app/api/rollout.py:117-187 | all changes of a job: its status only by these requests, its target, size and batch never |
| LifecycleMoves.DocMoves | backend/app/ingestion/tasks.py:90-127 | all changes of a document: its status only by these transactions, its version only by a publishing run, its Knowledge Base never |
| LifecycleMoves.ItemMoves | backend/app/ingestion/reindexing.py:72-240 | all changes of an item: its status only by these transactions, an attempt more only when it is taken |
| LifecycleMoves.RunStarts | backend/app/ingestion/tasks.py:90-127 | a run starts if and only if the document waits, has failed, or is processed by a run that is called stale |
| LifecycleMoves.CreatedJob | backend/app/api/rollout.py:82-105 | a new job has exactly the selected documents, pending without an attempt; there is none without documents, with one that cannot take part, or beside an active job |
| LifecycleMoves.RolledBackJob | backend/app/api/rollout.py:195-232 | a rollback has exactly the documents that the job completed and that are still ready, for the old version |
| LifecycleMoves.NothingToRollBack | backend/app/api/rollout.py:195-232 | only a completed hierarchical job can be rolled back |
| Store.Database.Claim | backend/app/ingestion/tasks.py:90-127 | the conditional update claims exactly when the status allows it |
| Store.Database.PublishRun | backend/app/ingestion/tasks.py:345-376 | the publishing transaction commits the specified state |
| Store.Database.ReplaceDocumentChunks | backend/app/ingestion/persistence.py:216-244 | delete and insert give the specified rows |
| Store.Database.MarkFailed | backend/app/ingestion/tasks.py:444-458 | only a document in processing is marked failed |
| Store.Database.Purge | backend/app/ingestion/tasks.py:509-534 | only a document in deletion is purged, with a new generation |
| Store.Database.Retry | backend/app/api/documents.py:60-85 | only a failed document is retried |
| Store.Database.Delete | backend/app/api/documents.py:93-120 | the first deletion moves the generation, a second changes nothing |
| Store.Database.Create | backend/app/api/rollout.py:259-319 | a job is created only when no other is active and documents were selected |
| Store.Database.CreateForEligible | backend/app/api/rollout.py:82-105 | every selected document was eligible |
| Store.Database.Rollback | backend/app/api/rollout.py:195-232 | a rollback covers what the source job completed and is still ready |
| Store.Database.Pause | backend/app/api/rollout.py:117-133 | queued and running jobs pause, also after a lost queue |
| Store.Database.Resume | backend/app/api/rollout.py:136-157 | only a paused job resumes |
| Store.Database.Cancel | backend/app/api/rollout.py:160-187 | a job that is not terminal is cancelled with its pending items |
| Store.Database.ReleaseStale | backend/app/ingestion/reindexing.py:104-142 | one stale item: completed, failed or pending again, its document ready again |
| Store.Database.TakeItem | backend/app/ingestion/reindexing.py:155-168 | one pending item: claimed with one more attempt, or failed |
| Store.Database.TakeBatch | backend/app/ingestion/reindexing.py:72-170 | both loops commit the specified state and claim at most a batch |
| Store.Database.Finish | backend/app/ingestion/reindexing.py:173-240 | the item is completed, pending again or failed as specified |
| Store.Database.Refresh | backend/app/ingestion/reindexing.py:243-293 | counters and status as specified; the answer says whether work is left |
| RetrievalCache.LoadCachedCandidates | backend/app/rag/retrieval.py:358-410 | the loading loop gives the specified answer |
| RetrievalCache.ServedChunksAreReady | backend/app/rag/retrieval.py:366-410 | an entry is served if and only if it is short, without repeated ids, and all its chunks belong to ready documents of this Knowledge Base that match the filters; the answer has them in stored order |
| RetrievalCache.WrittenIsReadBack | backend/app/rag/retrieval.py:328-410 | round trip: at an unchanged view, what is read back is what was written |
| RetrievalCache.ViewExactly | backend/app/rag/retrieval.py:381-388 | a Knowledge Base shows exactly the chunks of its ready documents |
| RetrievalCache.IdsAreUnique | backend/app/ingestion/persistence.py:247-253 | in every reachable state the stable id determines the chunk row |
| RetrievalCache.GenerationGrows | backend/app/api/documents.py:101-110 | no transaction lowers a generation |
| RetrievalCache.ViewChangesBump | backend/app/ingestion/tasks.py:369-374 | except for a re-index claim, a transaction that changes what a Knowledge Base shows moves its generation by one |
| RetrievalCache.OnlyClaimsDisturb | backend/app/ingestion/reindexing.py:128-162 | only a re-index claim changes what is shown within a generation |
| RetrievalCache.ResetMakesHitsStale | backend/app/ingestion/reindexing.py:124-128 | after a stale release a hit can differ from every fresh answer |
| RetrievalHistory.ReaderHistory | backend/app/rag/retrieval.py:178-330 | in every run a reader has a result if and only if a view is recorded behind it, and the result is what the pipeline makes of that view |
| RetrievalHistory.EntryHistory | backend/app/rag/retrieval.py:124-176 | in every run there is an entry if and only if a view is recorded behind it, and the entry holds the answer from that view to a request with its digest, however late it was written |
| RetrievalHistory.SameEntryView | backend/app/rag/retrieval.py:124-176 | what is behind an entry does not depend on what the pipeline answers |
| RetrievalHistory.WrittenIsServed | backend/app/rag/retrieval.py:124-356 | in every run, right after a reader has written its answer the cache serves exactly this answer, up to a hundred candidates without repetition |
| RetrievalHistory.HitsAreFreshExactly | backend/app/rag/retrieval.py:124-176 | in every run of readers, writers, evictions and transactions: hits on the current key are fresh for all pipelines whose answers the digest determines, if and only if there is no entry under it or the view behind the entry is the view of now |
| RetrievalHistory.UndisturbedIsCurrent | backend/app/ingestion/tasks.py:369-374 | in every run, if no claim changed what is shown since the generation moved, the view of now is behind everything of this generation |
| RetrievalHistory.HitsAreTransparent | backend/app/rag/retrieval.py:124-176 | in every run an undisturbed hit at the current generation is the fresh answer to a request with the same digest, for every pipeline |
| RetrievalHistory.HitsAreFresh | backend/app/rag/retrieval.py:124-176 | when requests with the same digest have the same answers, such a hit is the fresh answer to the request itself |
| RetrievalHistory.DisturbedHitsCanBeFresh | backend/app/ingestion/reindexing.py:124-162 | a claim that is released again disturbs the generation, and yet the hit is fresh |
| UploadSafety.AllowedKeeps | backend/app/uploads/storage.py:23-38 | every single file action that the plans use keeps the invariant of sessions and Documents |
| UploadSafety.SafePlanKeeps | backend/app/uploads/storage.py:23-38 | a safe plan keeps the invariant to its end and wherever it is cut off, also inside an append |
| UploadSafety.PutIsSafe | backend/app/api/uploads.py:355-438 | uploading a part is safe, in the replay, next-part, refusal, expiry and too-short-file branches |
| UploadSafety.TilesGrow | backend/app/api/uploads.py:389-431 | a further receipt continues the tiling, with length and checksum of exactly its bytes |
| UploadSafety.CompleteIsSafe | backend/app/api/uploads.py:446-590 | completion is safe in all its failure branches and when its commit succeeds, meets a conflict, or fails without effect |
| UploadSafety.FailIsSafe | backend/app/api/uploads.py:145-159 | the terminal failure is safe |
| UploadSafety.CancelIsSafe | backend/app/api/uploads.py:605-623 | cancellation is safe |
| UploadSafety.ExpireIsSafe | backend/app/api/uploads.py:121-132 | deleting an expired session is safe and keeps the final file of a completed one |
| UploadRecovery.ReconcileIsSafe | backend/app/uploads/cleanup.py:39-113 | reconciliation is safe over any sessions, also when it dies half-way |
| UploadRecovery.ReconcileRestores | backend/app/uploads/cleanup.py:60-101 | afterwards an open session's checkpoint file holds exactly the confirmed bytes with no final file left; a session fails exactly when confirmed bytes are missing; completed final files stay |
| UploadRecovery.ApplyKeeps | backend/app/api/uploads.py:355-623 | every request keeps the invariant, to its end or to any crash |
| UploadRecovery.OpenSessionsHold | backend/app/api/uploads.py:373-438 | in every run the receipts of an open session tile its received bytes, and once there are any, those bytes are on disk if and only if no removal has taken them away |
| UploadRecovery.OnlyCrashesDiscard | backend/app/api/uploads.py:121-159 | a request that is served to its end takes confirmed bytes from no session that stays open |
| UploadRecovery.BytesStayWithoutCrashes | backend/app/api/uploads.py:355-623 | in every run without a crash the confirmed bytes of every open session are on disk |
| UploadRecovery.CompletedSessionsHold | backend/app/api/uploads.py:503-590 | in every run a Document that came from a session is its only one, and unless it is being deleted its final file is the confirmed bytes with declared length and checksum |
| UploadRecovery.CompletedSessionsAreLinked | backend/app/api/uploads.py:503-590 | in every run a completed session has its Document, unless an earlier request of the run began to purge that Document |
| UploadRecovery.MisreportedCommitLosesFile | backend/app/api/uploads.py:571-581 | why the outcomes leave one out: a commit that took effect but is reported as failed leaves a Document whose file the next reconciliation removes |
| UploadRecovery.DocumentFilesStay | backend/app/uploads/cleanup.py:61-101 | no request, crash or reconciliation changes the file of a Document that nobody deletes |
| UploadRecovery.ReplayChangesNothing | backend/app/api/uploads.py:376-391 | a part at a confirmed offset changes no byte and no row |
| UploadRecovery.InterruptedCancelLosesBytes | backend/app/api/uploads.py:619-622 | a cancellation that dies after its first removal leaves an open session without its confirmed bytes |
| UploadOutcomes.PartsExactly | backend/app/api/uploads.py:355-438 | rows, files and answer of every part: confirmed if and only if it repeats a confirmed one or is the one that is due and the checkpoint file reaches up to it |
| UploadOutcomes.DefectiveIsGivenUp | backend/app/api/uploads.py:474-523 | a file of the wrong size, checksum or format, at the capacity limit, or with a Document already, makes no Document: the session fails without receipts and files |
| UploadOutcomes.FaultlessIsDelivered | backend/app/api/uploads.py:525-556 | otherwise an accepted completion makes the Document with the declared digest and size, and moves the file |
| UploadOutcomes.UnavailableChangesNothing | backend/app/api/uploads.py:571-581 | when the database is unavailable, rows and files are as before |
| UploadOutcomes.ConflictIsGivenUp | backend/app/api/uploads.py:557-570 | on a conflict the session fails without receipts and files |
| UploadOutcomes.OtherCompletions | backend/app/api/uploads.py:446-474 | an expired session goes, and a completion of any other session changes nothing |
| UploadOutcomes.DeliveredExactly | backend/app/api/uploads.py:446-590 | the answer is a new Document if and only if it is there afterwards with this file, and if and only if the session was open, whole, not expired, without defect and accepted |
| UploadOutcomes.CancelledExactly | backend/app/api/uploads.py:605-623 | a cancelled session is gone with both files; a completed or unknown one stays |
| UploadOutcomes.CreatedExactly | backend/app/api/uploads.py:203-332 | a session is opened if and only if the file has no Document and no open session, the limit is not reached and the id is unused |
| UploadOutcomes.BrokenExactly | backend/app/uploads/cleanup.py:60-101 | reconciliation gives up exactly the open sessions from which a removal took confirmed bytes |
| UploadOutcomes.ReconciledElsewhere | backend/app/uploads/cleanup.py:39-113 | reconciliation changes no Document and nothing of a session that it did not go over |
| UploadOutcomes.PurgedExactly | backend/app/ingestion/tasks.py:509-534 | a purge removes the row, the file and the link from the session, and nothing else |
| UploadService.Service.AppendPart | backend/app/uploads/storage.py:23-38 | creates, cuts or refuses, then appends, in that order |
| UploadService.Service.PutPart | backend/app/api/uploads.py:355-438 | goes through exactly the planned actions, gives the specified answer, and keeps the invariant |
| UploadService.Service.CompleteSession | backend/app/api/uploads.py:446-590 | goes through exactly the planned actions, gives the specified answer, and keeps the invariant |
| UploadService.Service.CancelSession | backend/app/api/uploads.py:605-623 | goes through exactly the planned actions and keeps the invariant |
| UploadService.Service.FailSession | backend/app/api/uploads.py:145-159 | goes through exactly the planned actions |
| UploadService.Service.DeleteExpired | backend/app/api/uploads.py:121-132 | goes through exactly the planned actions |
| UploadService.Service.CreateSession | backend/app/api/uploads.py:203-332 | opens a session if and only if there is no Document or open session for the file and the limit is not reached; otherwise resumes the one open session of the file, or refuses when size or source differ; keeps the invariant |
| UploadService.Service.RepairSession | backend/app/uploads/cleanup.py:60-101 | one turn of the repair loop goes through the planned actions and touches no other session's files |
| UploadService.Service.ReconcileSessions | backend/app/uploads/cleanup.py:39-113 | all repairs, then one commit with the specified rows; keeps the invariant |
| UploadClient.EventAgrees | frontend/src/uploads.ts:43-87 | nothing that happens between two attempts takes confirmed bytes back or mixes in others |
| UploadClient.ConfirmationAdvances | frontend/src/uploads.ts:51-81 | a confirmation moves the client strictly forward to a part boundary that the server has confirmed |
| UploadClient.RetriesAreConfirmed | frontend/src/uploads.ts:56-79 | while the session stays open, every delivered attempt is confirmed, also the retry of a part whose answer was lost |
| UploadClient.CompletionDelivers | frontend/src/uploads.ts:82-86 | an answered completion, whatever the format check and the capacity say, leaves one Document whose file is the uploaded file |
| UploadClient.OwnPartKeepsWaiting | backend/app/api/uploads.py:355-438 | a part of the file, served or cut off by a crash, leaves the session open with its bytes on disk |
| UploadClient.CompletionSucceeds | backend/app/api/uploads.py:446-590 | with all parts confirmed and nothing against the Document, completion answers with it |
| UploadClient.TransferUpload | frontend/src/uploads.ts:43-87 | for every network and every crash the offsets only grow, and success means one Document with exactly the file; when nobody interferes, one of any four attempts is answered and there are four for each part and one more, every part gets confirmed, and if all are answered the new Document results |
| Ndcg.GainsStayBelow | backend/app/evaluation/metrics.py:354-363 | the first k gains of a ranking without repetitions sum to at most the k greatest grades |
| Ndcg.DiscountKeepsOrder | backend/app/evaluation/metrics.py:358-362 | summation by parts: prefix sums that stay below keep discounted sums below |
| Ndcg.NdcgIsBounded | backend/app/evaluation/metrics.py:354-363 | the metric is between zero and one for every falling positive discount |
| Ndcg.NdcgIsOneExactly | backend/app/evaluation/metrics.py:354-363 | it is one if and only if nothing is graded, or some grade is positive and the first ten passages have all grades in falling order, zeros aside |
| Ndcg.OnlyTenCount | backend/app/evaluation/metrics.py:354-363 | what is ranked below the tenth place makes no difference |
| Ndcg.OneRelevant | backend/app/evaluation/metrics.py:354-363 | with one relevant passage the metric is the discount of its rank over that of the first, and zero from the eleventh place on |
| Ndcg.SwappedPair | backend/app/evaluation/metrics.py:354-363 | gains are the grades themselves: the value for two passages in the wrong order |
| Ndcg.ScoredRankingIsBounded | backend/app/evaluation/runner.py:432 | what the evaluation scores has no repetitions, so the bound holds for every list of retrieved items |
| Ndcg.UniqueKeepsOrder | backend/app/evaluation/runner.py:432 | removing repetitions keeps the order of the first occurrences |
| Ndcg.RepetitionsExceedOne | backend/app/evaluation/metrics.py:354-363 | why the bound asks for rankings without repetitions: the only relevant passage ranked twice would score above one |
| Sorting.SortedHolds | backend/app/rag/fusion.py:59-67 | the sort is ordered and has the same elements |
| Sorting.SortedIsStable | backend/app/rag/fusion.py:59-67 | elements of equal rank keep their order |
| Fusion.AddLeg | backend/app/rag/fusion.py:50-57 | the loop over a leg combines candidates as specified |
| Fusion.Fuse | backend/app/rag/fusion.py:38-80 | combination, sort and capped selection as specified |
| Fusion.FusedScores | backend/app/rag/fusion.py:49-57 | one candidate per id of either leg, with exactly the sum of what both legs are worth to it |
| Fusion.RankedCandidate | backend/app/rag/fusion.py:49-57 | each ranked candidate, exactly: the values of both legs, and the sum of weight / (k + rank) over the legs it is in |
| Fusion.RankedInOrder | backend/app/rag/fusion.py:59-67 | of two ranked candidates the first has the higher score, then the higher similarity, then no lower lexical score, with -2 and -1 for unknown ones |
| Fusion.FusionRespectsDominance | backend/app/rag/fusion.py:49-57 | a candidate in every leg the other is in, at no worse a rank, never has the lower score |
| Fusion.RankedHolds | backend/app/rag/fusion.py:59-67 | the ranking has each id of either leg once, and no candidate before a better one |
| Fusion.SingleLegKeepsOrder | backend/app/rag/fusion.py:30-36 | a single leg of positive weight, semantic or lexical, keeps its order |
| Fusion.CapExplainsOmissions | backend/app/rag/fusion.py:71-80 | the cap and the limit hold, and a candidate is missing only because the limit came first or its document had its share from better or equal ranks |
| Fusion.LimitHoldsExactly | backend/app/rag/fusion.py:68-80 | with a cap the limit holds if and only if it is positive, or the cap is zero, or both legs are empty |
| Fusion.UncappedIsFront | backend/app/rag/fusion.py:68-69 | without a cap the selection is the front of the ranking, as long as the limit allows |
| EvidenceAssembly.SuppressDuplicates | backend/app/rag/evidence_assembly.py:41-53 | the loop keeps what the specification keeps |
| EvidenceAssembly.SuppressionHolds | backend/app/rag/evidence_assembly.py:41-53 | what is left is free of duplicates, and every dropped candidate has an earlier one that stands for it |
| EvidenceAssembly.SuppressionKeepsOrder | backend/app/rag/evidence_assembly.py:41-53 | the result is the input at increasing places |
| EvidenceAssembly.SuppressionIsIdempotent | backend/app/rag/evidence_assembly.py:41-53 | suppressing twice changes nothing more |
| SelectionReasons.KeptExactly | backend/app/rag/evidence_assembly.py:41-53 | the next candidate is kept if and only if no earlier one, kept or not, has its content, and none that was kept overlaps it |
| SelectionReasons.KeptAreApart | backend/app/rag/evidence_assembly.py:41-53 | no two candidates that are left have the same content, or overlap by nine tenths of the shorter |
| SelectionReasons.DroppedForReason | backend/app/rag/evidence_assembly.py:41-53 | a candidate is dropped only because an earlier one has its content or one kept before overlaps it so |
| EvidenceAssembly.ApplyAdaptiveDiversity | backend/app/rag/evidence_assembly.py:13-38 | the greedy loop selects what the specification selects |
| EvidenceAssembly.DiversityHolds | backend/app/rag/evidence_assembly.py:13-38 | over non-negative scores the adjusted scores of the selections never rise, and min(limit, distinct candidates) are selected |
| EvidenceAssembly.DiversityAfterSuppression | backend/app/rag/evidence_assembly.py:19 | a prior suppression makes no difference |
| EvidenceAssembly.NoPenaltySortsByScore | backend/app/rag/evidence_assembly.py:13-38 | at penalty zero the selection is the front of the stable descending sort |
| EvidenceAssembly.PenaltyGrows | backend/app/rag/evidence_assembly.py:153-162 | a further selection never raises an adjusted score |
| SelectionReasons.SelectedForScore | backend/app/rag/evidence_assembly.py:13-38 | every selection has the greatest score among those left, divided by one plus the penalty for each earlier selection of its document and half of it for each of its parent |
| SelectionReasons.UnusedDocumentsFirst | backend/app/rag/evidence_assembly.py:153-162 | a further candidate of a document is only selected when its score exceeds those of unused documents by the penalty |
| EvidenceAssembly.AssembleEvidence | backend/app/rag/evidence_assembly.py:126-150 | items and tokens stay within both limits, and every candidate is selected or counted as dropped for the reason that held when its turn came |
| EvidenceAssembly.TakenHolds | backend/app/rag/evidence_assembly.py:138-149 | a candidate is selected if and only if what was selected before it leaves room for one more item and for its tokens |
| MergedText.MergeTexts | backend/app/rag/evidence_assembly.py:191-206 | the descending search for the overlap gives the specified text |
| MergedText.MergedWords | backend/app/rag/evidence_assembly.py:191-206 | the words of the left, then those of the right without the longest shared run of up to 256 words |
| MergedText.MergedWordsExactly | backend/app/rag/evidence_assembly.py:191-206 | the shared run is the longest of up to 256 words that ends the left and begins the right |
| MergedText.MergedTextIs | backend/app/rag/evidence_assembly.py:202-206 | without shared words a blank line stands between both sides, otherwise one space before the rest of the right, if there is any |
| MergedText.MergedCount | backend/app/rag/evidence_assembly.py:110-121 | a merged text has at least the tokens of its left side, and never more than both sides together |
| PassageMerging.MergeAdjacent | backend/app/rag/evidence_assembly.py:72-123 | the loops over seeds, runs and merges compute the specified passages |
| PassageMerging.MergingHolds | backend/app/rag/evidence_assembly.py:72-123 | a passage is a run of neighbours in one parent with the joined text, within the size unless single; no chunk is in two passages |
| PassageMerging.RunIsMaximal | backend/app/rag/evidence_assembly.py:83-108 | a run leaves out no candidate of the parent that stands next to a member |
| PassageMerging.MembersBelongTogether | backend/app/rag/evidence_assembly.py:182-188 | candidates that share a passage are child chunks of one parent in one document |
| PassageMerging.PassagesAreRanked | backend/app/rag/evidence_assembly.py:109-123 | passages have the score of their best member and come in falling order of it |
| PassageMerging.SeedIsKeptExactly | backend/app/rag/evidence_assembly.py:111-121 | a seed is in the passage it starts if and only if every front of its run up to it fits |
| PassageMerging.BestCandidateCanBeLost | backend/app/rag/evidence_assembly.py:118-119 | two neighbours that do not fit together, of which the better one is lost |
| PassageRuns.RunIsRest | backend/app/rag/evidence_assembly.py:83-108 | what a seed finds of its run is everything that is not consumed, still in one piece, because runs are consumed from the left |
| PassageRuns.PassageIsCut | backend/app/rag/evidence_assembly.py:72-123 | the passage of a seed is the longest fitting front of that rest, wherever the seed stands in it |
| PassageRuns.KeptExactly | backend/app/rag/evidence_assembly.py:72-123 | a candidate is in some passage if and only if the cuts of its run reach it: one from the left for every candidate, in rank order, that still stands in it |
| PassageRuns.RunsArePassagesExactly | backend/app/rag/evidence_assembly.py:72-123 | every maximal run is one passage if and only if every run of several candidates fits as joined text |
| PassageRuns.NothingIsLost | backend/app/rag/evidence_assembly.py:72-123 | when every run of several candidates fits as joined text, every candidate is in some passage |

## Left out

- Locator merging, content types and content hashes of constructed chunks, and the configuration hash: plumbing around the chunk texts.
- The chunking-version and tokenizer-name checks of the validator, and its limits on characters: one comparison each.
- Character widths: a word character is an ASCII word character, every other non-space character is one token; Unicode normalization and extraction come before the model.
- Two-character line ends: the two characters count as two breaks with an empty, hence dropped, row between them, which gives the same rows.
- OffsetOrder.OffsetsStayInOrder: goes one way. Its conditions on sentences and on table room are each shown to be needed by a rejected document, but a document can also pass without them, when no maximum happens to cut where it would show.
- Splitting.HardSplitOffsets: is about hard splits only; for sentence splits see Placement.SentencesStandExactly.
- The legacy chunkers and the summary builders, which write rows of the same shape.
- Writes after a failed enqueue, ingestion progress fields, row races inside one transaction, and the fields of documents that no guard reads.
- Store.Database.Create: two creations at the same time are not modelled, because each transaction is one step.
- The status writes of the demo seed and of evaluation workspaces.
- Attribute filters, query embedding and the expiry of cache entries by age: a request has one document filter and one digest, and any entry can be evicted at any time.
- RetrievalHistory.HitsAreTransparent: takes the computation of an answer as one read of the database; its several queries under a changing view are not modelled.
- RetrievalHistory.HitsAreFresh: assumes that requests with the same digest have the same answers; the digest folds case and white space of the query while the computation uses it as typed, so without that assumption only RetrievalHistory.HitsAreTransparent holds.
- Orphan removal of temporary files, expiry times, HTTP, the race of two creations for one file, and the row locks themselves: requests for one session are serialized.
- UploadSafety.CompleteIsSafe: assumes that a commit reported as an error did not take effect; UploadRecovery.MisreportedCommitLosesFile shows what happens otherwise.
- UploadService.Service.CreateSession: compares the source metadata of an open session by a parameter; suffix and size limits of a file are not modelled, and the reconciliation before it is a request of its own.
- UploadClient.TransferUpload: abort signals and waiting times are not modelled; the end of the network trace stands for a pause.
- Recall, reciprocal rank, percentiles and bootstrap intervals: single expressions, or sampling.
- Rounding of floating-point scores; the overlap test of nine tenths is done on integers.
- EvidenceAssembly.AssembleEvidence: the token count of a candidate is given; whether it was stored or counted is not modelled.
- PassageMerging.MergingHolds: pages, offsets and locators of merged passages are not modelled.
- Reranking, context expansion and the answer generation that follows.
