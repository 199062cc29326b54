# A verified model of the context workspace

The repository keeps a language model's context window like a small cache: it splits source
files into chunks, indexes them, recalls the relevant ones into a bounded workspace, lets
their relevance decay, evicts what has gone stale, and leaves notes behind. This project
models the parts of it where state, order or arithmetic is easy to get wrong, and proves what
callers rely on, for every input, every run and every schedule.

The parts, each in the file of the same name:

* `Workspace`, `Admission`, `Upgrades`, `Eviction`, `WorkspaceRuns`, `Staleness`, `Relevance`,
  `Orchestrator`: the recall workspace. `Orchestrator.DynamicRecall` is the object with its four structures updated side
  by side (fragment list, identifier set, per-source counters, scores); every method is proved
  equal to a step on a plain value in which the last three are derived from the list. The
  theorems are about those steps: safety of every interleaving, the exact meaning of an
  eviction pass, a bound on how long an unused fragment can stay.
* `Utf8`, `Chunking`, `Documents`, `Geometry`: the chunker, byte by byte, after sections 3 and 4
  of RFC 3629, and the way back from a line number to a chunk.
* `ReindexQueue` (modules `ReindexQueue` and `ReindexProtocol`): the reindex queue as an object,
  and as a step relation over any number of producer and receiver threads, with spurious
  wakeups and receivers that overtake woken ones.
* `Bm25`, `Bm25Weights`, `Hybrid`, `FusedRanking`, `Expansion`, `Coverage`: retrieval. Fast forms are proved equal to plain
  per-document definitions, and answers computed by walking unordered maps are proved
  independent of the walk, or it is said exactly when they are not.
* `StepStream`, `JsonExtract`, `Locator`, `LineRanges`, `SessionLog`, `Calendar`: parsers, printers
  and date arithmetic, with their round trips.
* `Scheduler`, `RecallAdmission`, `Health`: the greedy scheduler inside its turn loop, and component
  health.
* `PromptBudget`, `Sweep`: cutting a prompt to a budget, and planning a parameter sweep.
* `Ordering`, `Text`: sorting, string search, splitting, trimming, numerals.

Scores are real numbers. The retriever, the tokenizer, the note synthesizer, the term overlap
and the logarithm are parameters. What the repository's own retriever guarantees is stated as
`Workspace.Honours`: a read returns the fragment asked for, labelled as that retriever labels it,
under a path fixed for the identifier that is never the marker of session history.

## Where the code and its description differ

The model follows the code. Each point is a theorem.

* A line past the end of a file is said to map to the last chunk. It maps to the chunk where
  the last line starts, which need not be the last one (`Geometry.PastTheEnd`).
* A failed turn is said to read back as a placeholder. It does exactly when what its sample
  shows before the first separator is not blank; otherwise it reads back as an answer
  (`SessionLog.FailedReadsUnanswered`).
* A session log is said to read back turn by turn. The first turn of every file is lost, so a
  log reads back whole exactly when it is empty or its first turn asks nothing
  (`SessionLog.ReadsBackWhole`).
* The notes header put on at admission is said to come off at eviction. It does exactly when
  the notes shown do not contain the mark that closes the header
  (`Eviction.StripUndoesWithNotes`).
* Lines that model output refers to are said to be loaded. What a line reference newly admits
  has no score, so the eviction pass that ends the same iteration takes it out again, unless
  the unload threshold is zero or less (`Admission.LineReferencesDoNotOutlive`).
* A line reference is said to load the lines it names. The range is applied to the text of one
  chunk, counted from that chunk's start, and the bare number of a single line is no range at
  all. Several lines are read exactly when chunk and file number them alike, a single line
  exactly when the chunk is that line and no more (`LineRanges.ReferenceReadsItsLines`).
* A reasoning block written inline is said to be followed until it closes. Unless it closes in
  the message that opens it, the stream is abandoned there; only a reasoning field that is
  present but empty keeps it going (`StepStream.InlineBlock`, `StepStream.InlineBlockStopsAtOnce`).
* Reasoning steps are said to end where the answer begins. They are those of the reasoning
  alone exactly when the message that ends it adds nothing but blanks before a closing tag
  (`StepStream.AnswerTextLeaks`).
* The expansion plan is sorted by score only. Which neighbours it admits depends on the
  iteration order of a hash map exactly when a tie reaches into the plan
  (`Expansion.PlanUniqueWithoutTies`).
* A neighbour is said never to be more relevant than the hit that pulled it in. That is so
  exactly when the hit scores zero, or discount times edge weight is at most one for a positive
  score and at least one for a negative (`Expansion.NeverAboveItsSeed`).
* A truncated prompt is said to fit its budget. It does unless the budget is nothing, since
  even the empty text counts as one token (`PromptBudget.TruncateToBudget`).

## Model

| member | source | states |
|---|---|---|
| `WorkspaceRuns.SafeForever` | crates/caw-orchestrator/src/dynamic.rs:1148-1708 | from the empty workspace, after any interleaving of admission, upgrade, line references, decay, refresh, eviction, annotation and reset: identifiers are distinct, tokens, fragment count and history tokens respect their ceilings, and only resident fragments have scores |
| `WorkspaceRuns.RunInv` | crates/caw-orchestrator/src/dynamic.rs:1148-1708 | the same invariant is kept by every run from any state that satisfies it |
| `WorkspaceRuns.LoadInv` | crates/caw-orchestrator/src/dynamic.rs:1417-1603 | an admission pass drops nothing, keeps every ceiling, and lifts no source above the larger of its old count and the per-source cap |
| `WorkspaceRuns.FollowInv` | crates/caw-orchestrator/src/dynamic.rs:1148-1235 | line references drop nothing and keep every ceiling, though they bypass the per-source cap and create no score |
| `WorkspaceRuns.UpgradeInv` | crates/caw-orchestrator/src/dynamic.rs:1610-1678 | an upgrade in place changes neither the resident identifiers nor any per-source count and stays within the token ceiling |
| `WorkspaceRuns.EvictInv` | crates/caw-orchestrator/src/dynamic.rs:1304-1405 | an eviction pass keeps every ceiling and the bookkeeping |
| `WorkspaceRuns.UpgradePins` | crates/caw-orchestrator/src/dynamic.rs:1664-1675 | an upgrade that finds its body leaves that body resident with a score above the eviction floor and unpins no other fragment |
| `WorkspaceRuns.PinnedSurvives` | crates/caw-orchestrator/src/dynamic.rs:1334-1344 | a pinned fragment outlives an eviction pass with its score unchanged, because the budget invariant rules out the over-budget branch |
| `WorkspaceRuns.UpgradedSurvives` | crates/caw-orchestrator/src/dynamic.rs:727-761 | a stub upgraded to its body is still resident and above the unload threshold after the eviction pass of the same refinement iteration, whatever recall, line references and annotations come between |
| `Upgrades.UpgradeExactly` | crates/caw-orchestrator/src/dynamic.rs:1610-1678 | a resident stub whose body can be read is exchanged for what is shown of it exactly when that fits beside the other residents, and is then pinned; else nothing changes |
| `Upgrades.ClipShows` | crates/caw-orchestrator/src/dynamic.rs:1624-1637 | a body within the inline limit is shown whole; a longer one as its first three characters for each token of the limit and a notice of the tokens not shown, counted again |
| `Upgrades.UnreadableStays` | crates/caw-orchestrator/src/dynamic.rs:1610-1622 | a body that cannot be read leaves the stub as it is |
| `Upgrades.NotesShown` | crates/caw-orchestrator/src/dynamic.rs:1521-1536 | up to two notes are listed as they are; of more the last two, after a line that counts the others |
| `Upgrades.ReferenceMeans` | crates/caw-orchestrator/src/dynamic.rs:1156-1181 | a line reference means the first resident fragment whose path matches it; none matches when it resolves elsewhere |
| `Upgrades.NamesMeaning` | crates/caw-orchestrator/src/dynamic.rs:1160-1173 | paths match exactly when one is the tail of the other, leading current-directory marks aside |
| `Upgrades.FollowExactly` | crates/caw-orchestrator/src/dynamic.rs:1184-1235 | a reference to something absent adds what is read exactly when there is room, without a score; to a resident stub it is an upgrade, to a resident body nothing |
| `Upgrades.HistoryShareIs` | crates/caw-orchestrator/src/dynamic.rs:1424-1425 | the history share is the largest whole number of tokens within its fraction of the budget |
| `Admission.AdmittedExactly` | crates/caw-orchestrator/src/dynamic.rs:1460-1600 | a hit on something absent is admitted exactly when it is good enough, readable, and there is room in fragments, tokens and, outside history, under the source's cap |
| `Admission.LoadAdmitsGood` | crates/caw-orchestrator/src/dynamic.rs:1434-1600 | whatever a pass newly admits was a hit at or above the load threshold and ends the pass with a score there or higher |
| `Admission.LoadOnlyRises` | crates/caw-orchestrator/src/dynamic.rs:1434-1600 | an admission pass takes nothing resident out and lowers no score |
| `Admission.RehitInStubMode` | crates/caw-orchestrator/src/dynamic.rs:1434-1443 | a hit in stub mode on a resident scored fragment leaves it with the larger of the two scores and changes nothing else |
| `Admission.RehitInFullMode` | crates/caw-orchestrator/src/dynamic.rs:1434-1458 | in full mode its score ends at or above both, whether or not its stub is exchanged for the body |
| `Admission.HitAgainStays` | crates/caw-orchestrator/src/dynamic.rs:1434-1458 | a fragment hit again at or above the unload threshold, with only resident fragments hit before it, outlives the pass and the eviction after it |
| `Admission.PassGoesOn` | crates/caw-orchestrator/src/dynamic.rs:1460-1530 | a full workspace ends the pass at the first absent hit, a full budget at the first good one; a poor hit is passed over; a failed read is reported |
| `Admission.AdmittedFragment` | crates/caw-orchestrator/src/dynamic.rs:1478-1600 | what a hit newly admits: the turn itself within the history share, or what is read, headed by the stored notes and counted again |
| `Admission.LineReferencesDoNotOutlive` | crates/caw-orchestrator/src/dynamic.rs:750-761 | what line references newly admit outlives the eviction pass of the same iteration exactly when the unload threshold is zero or less, however much room there is |
| `Admission.ReferenceComesAndGoes` | crates/caw-orchestrator/src/dynamic.rs:1148-1235 | one reference into an empty workspace with room to spare is admitted, and gone after that pass |
| `Eviction.EvictMeaning` | crates/caw-orchestrator/src/dynamic.rs:1304-1405 | from any workspace, even over budget: survivors score at least the unload threshold and fit the budget, they are the resident list in order less a shortest prefix of the eviction order, survivors and victims together are the old list, and each victim leaves exactly one note |
| `Eviction.CutShortest` | crates/caw-orchestrator/src/dynamic.rs:1334-1344 | no shorter prefix of the eviction order would leave a workspace above the threshold and within budget |
| `Eviction.SafeExactly` | crates/caw-orchestrator/src/dynamic.rs:1334-1344 | stopping at a position of the order is safe exactly when the fragment there and the tokens left may stay |
| `Eviction.QueueIndices` | crates/caw-orchestrator/src/dynamic.rs:1309-1331 | the order holds every resident position once, least relevant first, then older first where only the latest run is wanted, then by position |
| `Eviction.EvictWithinBudget` | crates/caw-orchestrator/src/dynamic.rs:1334-1344 | within budget the pass removes nothing that scores at least the threshold |
| `Eviction.EvictIds` | crates/caw-orchestrator/src/dynamic.rs:1346-1358 | the old identifiers split into survivors and victims, without overlap |
| `Eviction.ScoresMatchSurvivors` | crates/caw-orchestrator/src/dynamic.rs:1319-1363 | with a positive threshold the scores afterwards belong to exactly the survivors and are unchanged |
| `Eviction.Remaining` | crates/caw-orchestrator/src/dynamic.rs:1334-1344 | the running subtraction equals the tokens still resident at every step and never goes below zero |
| `Eviction.KeepRemove` | crates/caw-orchestrator/src/dynamic.rs:1346-1349 | removal by descending position never disturbs a position still to be removed |
| `Eviction.KeepAndRemoved` | crates/caw-orchestrator/src/dynamic.rs:1346-1349 | what is kept and what is removed are together the old list as a multiset |
| `Eviction.RetireLedger` | crates/caw-orchestrator/src/dynamic.rs:1365-1403 | the ledger grows by one note per victim, in order |
| `Eviction.EvictionNotes` | crates/caw-orchestrator/src/dynamic.rs:1365-1403 | each note of a pass is made from its victim's text without the header of earlier notes, the query, the score before removal, the source, and the notes kept of it so far; earlier notes stay |
| `Eviction.RetireNotes` | crates/caw-orchestrator/src/dynamic.rs:1365-1403 | the same for any list of victims, each note made from the ledger as it was before the pass |
| `Eviction.StripUndoesWithNotes` | crates/caw-orchestrator/src/dynamic.rs:1756-1765 | taking the notes header off restores the content that admission decorated exactly when the shown notes lack the closing mark |
| `Eviction.QuotedMarkStays` | crates/caw-orchestrator/src/dynamic.rs:1756-1765 | a note that quotes the mark leaves its rest and the header's end in front of the content |
| `Staleness.StaleLeaves` | crates/caw-orchestrator/src/dynamic.rs:1273-1344 | in any run that never engages a fragment again, it is gone after the first eviction pass preceded by as many decays as the closed-form bound |
| `Staleness.StaleWithinPasses` | crates/caw-orchestrator/src/dynamic.rs:1273-1344 | left alone, a fragment with score s is evicted within floor((s/u - 1) r/(1 - r)) + 1 decay-then-evict passes |
| `Staleness.UnhitLoadDoesNotEngage` | crates/caw-orchestrator/src/dynamic.rs:1417-1603 | an admission pass whose hits do not name a fragment neither admits it nor raises its score |
| `DecayMath.Bernoulli` | crates/caw-orchestrator/src/dynamic.rs:1273-1278 | n multiplicative decays shrink a score at least as fast as a harmonic bound |
| `DecayMath.DecayedBelow` | crates/caw-orchestrator/src/dynamic.rs:1273-1278 | once the bound is reached a decayed score is below the threshold |
| `Relevance.RefreshExact` | crates/caw-orchestrator/src/dynamic.rs:1283-1298 | a refresh raises a score to its overlap exactly when the overlap beats it by the margin, and lowers none |
| `Relevance.RefreshIdempotent` | crates/caw-orchestrator/src/dynamic.rs:1283-1298 | refreshing twice against the same output is refreshing once |
| `Relevance.DecayThenRefresh` | crates/caw-orchestrator/src/dynamic.rs:1273-1298 | a refresh undoes a decay exactly for fragments whose overlap beats the decayed score by the margin |
| `Orchestrator.DynamicRecall.LoadFragments` | crates/caw-orchestrator/src/dynamic.rs:1417-1603 | the in-place pass changes list, identifier set, counters and scores as the admission step on values does, and stays in step |
| `Orchestrator.DynamicRecall.LoadHit` | crates/caw-orchestrator/src/dynamic.rs:1434-1600 | one hit of it, with the running history total kept exact |
| `Orchestrator.DynamicRecall.UpgradeStubToBody` | crates/caw-orchestrator/src/dynamic.rs:1610-1678 | the in-place upgrade is the upgrade on values, the counters being unaffected |
| `Orchestrator.DynamicRecall.ProcessLineReferences` | crates/caw-orchestrator/src/dynamic.rs:1148-1235 | following references in place is following them on values |
| `Orchestrator.DynamicRecall.DecayRelevanceScores` | crates/caw-orchestrator/src/dynamic.rs:1273-1278 | every score is multiplied by the rate and nothing else changes |
| `Orchestrator.DynamicRecall.RefreshRelevanceScores` | crates/caw-orchestrator/src/dynamic.rs:1283-1298 | the loop over resident fragments is the refresh on values |
| `Orchestrator.DynamicRecall.EvictStaleFragments` | crates/caw-orchestrator/src/dynamic.rs:1304-1405 | sorting, cutting and removing by index in place is the eviction pass on values, and the counters end exact with no zero entries |
| `Orchestrator.DynamicRecall.SelectVictims` | crates/caw-orchestrator/src/dynamic.rs:1309-1344 | the first loop collects exactly the victims of the order's cut |
| `Orchestrator.DynamicRecall.RemoveVictims` | crates/caw-orchestrator/src/dynamic.rs:1346-1403 | the second loop leaves the others in order and one note per victim |
| `Orchestrator.DynamicRecall.ResetSession` | crates/caw-orchestrator/src/dynamic.rs:1701-1708 | a reset gives the empty workspace |
| `Orchestrator.CountsExact` | crates/caw-orchestrator/src/dynamic.rs:1571-1586 | the counters hold the exact number of fragments of each source, leave out session history, and have no zero entries |
| `Orchestrator.CountsRemove` | crates/caw-orchestrator/src/dynamic.rs:1350-1358 | decrementing, and dropping an entry at zero, keeps the counters exact |
| `Coverage.CoversMost` | crates/caw-orchestrator/src/dynamic.rs:1711-1731 | however many hits are taken from the front, no other arrangement of the hits covers more sources |
| `Coverage.OrderReaches` | crates/caw-orchestrator/src/dynamic.rs:1711-1731 | every prefix of the order holds as many different sources as it has room for |
| `Coverage.EachSourceKeepsItsOrder` | crates/caw-orchestrator/src/dynamic.rs:1711-1731 | the hits of one source keep their relative order |
| `Coverage.ReorderedIsPermutation` | crates/caw-orchestrator/src/dynamic.rs:1711-1731 | no hit is lost or added |
| `Coverage.CoverageFirstOrder` | crates/caw-orchestrator/src/dynamic.rs:1716-1731 | the two-list loop computes that order |
| `Utf8.FloorCharBoundary` | crates/caw-ingest/src/chunking.rs:469-477 | the last character boundary at or before the offset, at most three bytes back |
| `Utf8.SplitValid` | crates/caw-ingest/src/chunking.rs:467-477 | a well-formed text cut at a boundary gives two well-formed texts |
| `Chunking.NextCut` | crates/caw-ingest/src/chunking.rs:407-427 | after the first line feed at or past the target, else after the last before the cap, else at the cap, always a boundary, always progress |
| `Chunking.ChunkByLines` | crates/caw-ingest/src/chunking.rs:385-437 | the pieces tile the text within the cap, every cut is the line cut, and each text is its body behind exactly its overlap prefix |
| `Chunking.OverlapPrefix` | crates/caw-ingest/src/chunking.rs:444-465 | none on the first chunk or without overlap; else the text before the body from the start of the line one overlap back, or two overlaps back where that is nearer, ended with a line feed where it lacks one |
| `Chunking.OverlapBounded` | crates/caw-ingest/src/chunking.rs:444-465 | an overlap reaches back twice its size and two characters at most |
| `Chunking.SplitOversized` | crates/caw-ingest/src/chunking.rs:188-229 | re-splitting tiles the range: line pieces by the tightened sizes, each kept if within the ceiling and re-split again if not, three times at most |
| `Chunking.Resettle` | crates/caw-ingest/src/chunking.rs:141-160 | a text within the token ceiling is kept whole, any other range is re-split |
| `Chunking.SettledInside` | crates/caw-ingest/src/chunking.rs:188-229 | every piece of a settled list is a line piece within the ceiling, unchanged, or lies inside one that is not |
| `Chunking.SettledKeeps` | crates/caw-ingest/src/chunking.rs:188-229 | every line piece within the ceiling is one of the pieces |
| `Chunking.EffectiveSizes` | crates/caw-ingest/src/chunking.rs:385-388 | a positive target, a cap no smaller and an overlap below the cap are taken as configured; any other to the nearest that fits |
| `Chunking.TightenedSizes` | crates/caw-ingest/src/chunking.rs:203-210 | three tightenings divide every size by eight, down to its floor |
| `Chunking.TilesRebuild` | crates/caw-ingest/src/chunking.rs:57-66 | bodies re-read by their offsets concatenate to the tiled stretch |
| `Documents.OpensAtFirstOverflow` | crates/caw-ingest/src/chunking.rs:251-263 | a chunk closes exactly at the first item after which it would exceed the target |
| `Documents.BoundariesExactly` | crates/caw-ingest/src/chunking.rs:251-264 | the boundaries are the start of the file, the start of each first item past the target of the chunk before it, and the end of the file, once each |
| `Documents.ItemBoundaries` | crates/caw-ingest/src/chunking.rs:251-265 | the boundaries run from 0 to the length, increasing, all between characters |
| `Documents.HeaderBound` | crates/caw-ingest/src/chunking.rs:315-333 | an item header exceeds its limit by one byte at most, unless one item's own line is longer |
| `Documents.HeaderListsItems` | crates/caw-ingest/src/chunking.rs:315-333 | the header of a tile is the lines of the items that begin in it, in order, signature and documentation, as many as fit |
| `Documents.ChunkByItems` | crates/caw-ingest/src/chunking.rs:241-310 | item tiles cover the file; each is one headed piece if that fits, else its line pieces, the first of them headed, each kept or re-split in turn |
| `Documents.ChunkDocument` | crates/caw-ingest/src/chunking.rs:96-181 | small files are one chunk; without an outline every line piece within the ceiling is a chunk with its cuts and overlap, and every hotter one is re-split in turn; with an outline the item tiles are; all are numbered, counted and within the cap |
| `Documents.ChunksTileTheFile` | crates/caw-ingest/src/chunking.rs:57-66 | the first body starts at 0, each ends where the next starts, the last ends the file, every body is well-formed text within the cap, and together they are the file |
| `Documents.CapBelowFourCutsACharacter` | crates/caw-ingest/src/chunking.rs:408-427 | with a cap below four bytes there is a text for which the splitter's rule allows no cut, and the one byte it is pushed on falls inside a character |
| `Geometry.LineStartOffsets` | crates/caw-index/src/graph_edges.rs:280-288 | the loop computes the line starts |
| `Geometry.StartsMeaning` | crates/caw-index/src/graph_edges.rs:276-288 | line k starts after exactly k - 1 line feeds, just behind the last of them, and starts increase |
| `Geometry.StubForByteOnTiling` | crates/caw-index/src/graph_edges.rs:301-314 | on a tiling a byte goes to the one chunk that holds it and a byte past the end to the last chunk |
| `Geometry.StubForByteMeaning` | crates/caw-index/src/graph_edges.rs:301-314 | whatever the chunks, a byte goes to the first that covers it, one that none covers to the last start at or before it, and to none if all start later |
| `Geometry.LineToChunk` | crates/caw-index/src/graph_edges.rs:290-314 | a line goes to the unique chunk holding its first byte, and later lines never to earlier chunks |
| `Geometry.ChunkerGivesTiling` | crates/caw-ingest/src/chunking.rs:57-66 | what the chunker emits is a tiling in the sense the line lookup needs |
| `Geometry.PastTheEnd` | crates/caw-index/src/graph_edges.rs:290-314 | a line past the end goes to the last chunk exactly when the last line starts there |
| `Geometry.PastTheEndCanMissTheLastChunk` | crates/caw-index/src/graph_edges.rs:290-314 | a long last line cut in two sends it elsewhere |
| `ReindexQueue.ChannelReindexQueue.Enqueue` | crates/caw-core/src/reindex.rs:107-116 | an open queue takes a path that is not pending and notifies, and the pending set stays the contents of a queue without repetitions |
| `ReindexQueue.ChannelReindexQueue.Close` | crates/caw-core/src/reindex.rs:93-97 | closing keeps what is queued |
| `ReindexQueue.ChannelReindexQueue.Poll` | crates/caw-core/src/reindex.rs:126-138 | one pass of a receiver under the lock: deliver the front, finish if closed and empty, else wait |
| `ReindexQueue.ChannelReindexQueue.RunWorker` | crates/caw-core/src/reindex.rs:160-167 | on a closed queue a worker handles exactly what was queued, in order, and stops |
| `ReindexProtocol.RunInv` | crates/caw-core/src/reindex.rs:93-139 | under every schedule: pending mirrors the queue, while anyone waits there are at least as many woken receivers as queued paths, and nobody waits after close |
| `ReindexProtocol.NoLostWakeup` | crates/caw-core/src/reindex.rs:107-138 | a queued path never sits behind sleeping receivers only |
| `ReindexProtocol.NobodyWaitsAfterClose` | crates/caw-core/src/reindex.rs:93-97 | after close nobody waits and nobody parks again |
| `ReindexProtocol.FifoExactlyOnce` | crates/caw-core/src/reindex.rs:107-138 | accepted paths are the delivered ones followed by the queue, in order |
| `ReindexProtocol.EveryRequestServed` | crates/caw-core/src/reindex.rs:107-138 | every request before close, even one folded into a pending one, is followed by a delivery of its path in any run that drains |
| `ReindexProtocol.DrainAfterClose` | crates/caw-core/src/reindex.rs:93-138 | after close the queue shrinks by one for each delivery and never grows |
| `Bm25.Index.Add` | crates/caw-index/src/bm25.rs:33-50 | after any sequence of additions every posting list, length and the average are those of the documents added |
| `Bm25.Index.Search` | crates/caw-index/src/bm25.rs:52-81 | term-at-a-time accumulation returns the top k of the per-document scores, score descending then name ascending |
| `Bm25.AddToken` | crates/caw-index/src/bm25.rs:58-70 | walking one posting list adds that token's contribution to exactly the documents that contain it |
| `Bm25.TallyStep` | crates/caw-index/src/bm25.rs:56-70 | the score map always holds the per-document sums over the query tokens so far |
| `Bm25.PostingsExact` | crates/caw-index/src/bm25.rs:33-50 | a posting list is exactly the pairs of document and term frequency of the documents that contain the term |
| `Bm25.ResultsExact` | crates/caw-index/src/bm25.rs:52-81 | the listing names every matching document, and nothing else, with its own score |
| `Bm25Weights.ScoreRises` | crates/caw-index/src/bm25.rs:52-70 | with an increasing logarithm, a document that has every query token at least as often as another and is no longer scores at least as high, and higher if it has one more often, or has one and is shorter |
| `Bm25Weights.RarerTermScoresHigher` | crates/caw-index/src/bm25.rs:58-70 | at no lower frequency in a document the term that fewer documents have scores higher |
| `Bm25Weights.OnceAtAverageLength` | crates/caw-index/src/bm25.rs:58-70 | a term that occurs once in a document of average length scores exactly its inverse document frequency |
| `Bm25Weights.TfSaturates` | crates/caw-index/src/bm25.rs:64-67 | however often a term occurs, its factor stays positive and below the saturation constant plus one |
| `Ordering.TopKMeaning` | crates/caw-index/src/bm25.rs:71-80 | the top k depends on the collection alone, is ranked, and nothing left out ranks above anything kept |
| `Hybrid.Search` | crates/caw-index/src/lib.rs:280-352 | walking the fusion map in any order gives the one deterministic ranking of the fused names that have a stub |
| `Hybrid.RankingUnique` | crates/caw-index/src/lib.rs:312-351 | any two listings of the fused names give the same answer |
| `Hybrid.CombinedIsSum` | crates/caw-index/src/lib.rs:286-325 | the fused names are those of either list and each score is the sum of its weighted shares |
| `Hybrid.NormalizedUnit` | crates/caw-index/src/lib.rs:288-318 | min-max normalisation lands in the unit interval whatever the signs of the scores |
| `Hybrid.FusedScoreUnit` | crates/caw-index/src/lib.rs:325-331 | with distinct names per list and positive weights every fused score lies in the unit interval |
| `FusedRanking.FusedRises` | crates/caw-index/src/lib.rs:288-325 | of two names in both lists the one that scores no lower in each has no lower fused score, and a higher one if it scores higher in either |
| `FusedRanking.BetterIsFoundFirst` | crates/caw-index/src/lib.rs:280-345 | a name that does better than another is returned whenever the other is, and before it |
| `FusedRanking.OneListKeepsItsOrder` | crates/caw-index/src/lib.rs:280-345 | when one list is empty the other is returned in its own order, cut to the wanted length |
| `FusedRanking.EndsOfAList` | crates/caw-index/src/lib.rs:288-325 | the lowest entry of a list adds nothing to a fused score, and the highest, if it is not negative and above the lowest by more than rounding, the whole weight of the list |
| `FusedRanking.BetweenTheEnds` | crates/caw-index/src/lib.rs:288-325 | between them a list adds in proportion to the score |
| `FusedRanking.HitsMeaning` | crates/caw-index/src/lib.rs:320-345 | every hit is a found name with a stub to show, scored by its fused score out of the total weight |
| `Expansion.PlanExpansion` | crates/caw-index/src/graph_edges.rs:331-374 | the plan is the candidates listed in some order, sorted by score, truncated |
| `Expansion.BestMeaning` | crates/caw-index/src/graph_edges.rs:339-364 | candidates are exactly the neighbours some hit reaches that are not hits, each through the first of its best edges |
| `Expansion.ScoresDetermined` | crates/caw-index/src/graph_edges.rs:366-373 | the scores of the plan do not depend on the order of the map |
| `Expansion.PlanUniqueWithoutTies` | crates/caw-index/src/graph_edges.rs:366-373 | the plan itself does not exactly when no two candidates tie at a score that fewer than the cap exceed |
| `Expansion.TiedNeighbors` | crates/caw-index/src/graph_edges.rs:366-373 | two neighbours that tie for one place: either may be admitted |
| `Expansion.NeverAboveItsSeed` | crates/caw-index/src/graph_edges.rs:70-73 | a neighbour scores no more than its hit exactly when the hit scores zero, or discount times weight is at most one above zero and at least one below |
| `Expansion.NegativeHitsAreOutranked` | crates/caw-index/src/graph_edges.rs:351-352 | the default discount lifts the neighbour of a hit with a negative score above it |
| `StepStream.FlushSteps` | crates/caw-adapters/src/ollama.rs:507-516 | draining the buffer yields the closed paragraphs of a batch split and leaves its last element |
| `StepStream.CutMore` | crates/caw-adapters/src/llama_cpp.rs:640-658 | cutting more text only needs the paragraph still open |
| `StepStream.RunThinkingSteps` | crates/caw-adapters/src/llama_cpp.rs:625-660 | however the text is cut into pieces the callback sees the closed paragraphs of the whole, up to the first it refuses, and the open one is left |
| `StepStream.ReplaySteps` | crates/caw-core/src/lib.rs:1331-1348 | the default adapter replays the batch split up to the first refusal |
| `StepStream.StreamVersusReplay` | crates/caw-adapters/src/llama_cpp.rs:640-658 | streaming and replay show the same steps except the last paragraph, which no boundary closes |
| `StepStream.CollectSteps` | crates/caw-adapters/src/ollama.rs:518-582 | the stream loop collects what its state machine does |
| `StepStream.IdleBefore` | crates/caw-adapters/src/ollama.rs:539-549 | until reasoning begins, messages without an opening tag are passed over |
| `StepStream.CollectedExactly` | crates/caw-adapters/src/ollama.rs:518-582 | the steps of every stream that begins with reasoning, for every message that can end it, whatever fields the messages carry |
| `StepStream.StreamBreaksOff` | crates/caw-adapters/src/ollama.rs:518-582 | a stream that breaks off yields the closed paragraphs only |
| `StepStream.StopsAtCloseTag` | crates/caw-adapters/src/ollama.rs:550-559 | a closing tag in the open paragraph ends the stream with what came before it as the last step |
| `StepStream.CollectedIsBatch` | crates/caw-adapters/src/ollama.rs:518-582 | without a closing tag the steps are one batch split of the reasoning followed by the text of the message that ends it |
| `StepStream.AnswerTextLeaks` | crates/caw-adapters/src/ollama.rs:561-569 | the steps are those of the reasoning alone exactly when that message adds nothing but blanks before a closing tag |
| `StepStream.AnswerTakenForReasoning` | crates/caw-adapters/src/ollama.rs:561-569 | one piece of reasoning and one of answer become one step |
| `StepStream.InlineBlock` | crates/caw-adapters/src/ollama.rs:540-571 | what a block opened inside a message yields: up to a closing tag in that message, else all of that message's part and no more, except behind an empty reasoning field |
| `StepStream.InlineBlockStopsAtOnce` | crates/caw-adapters/src/ollama.rs:540-571 | later messages matter exactly when the block does not close in the message that opens it, the message is not the last, and it carries an empty reasoning field |
| `StepStream.SpreadBlockIsCut` | crates/caw-adapters/src/ollama.rs:540-571 | a block spread over two messages loses the second |
| `StepStream.EmptyFieldGoesOn` | crates/caw-adapters/src/ollama.rs:531-571 | behind an empty reasoning field the second is taken in |
| `JsonExtract.ObjectExtracted` | crates/caw-core/src/lib.rs:1131-1174 | any JSON object in prose without a quote or opening brace before it is extracted exactly, however it is spelled and spaced and whatever follows |
| `JsonExtract.ExtractJsonObject` | crates/caw-core/src/lib.rs:1131-1174 | the scanner loop; a result is a slice of the input that opens and closes with a brace |
| `JsonExtract.ValuePasses` | crates/caw-core/src/lib.rs:1131-1174 | every JSON value leaves the scanner's depth and string state as it found them |
| `Locator.NormalisationStable` | crates/caw-core/src/lib.rs:253-307 | for every text, parsing what a parsed locator prints gives that locator |
| `Locator.RoundTrip` | crates/caw-core/src/lib.rs:253-307 | a range survives printing and parsing exactly when it is canonical: heading parts tight and without a slash, custom text tight and not readable as another range |
| `Locator.CanonicalReachable` | crates/caw-core/src/lib.rs:253-295 | the canonical ranges are exactly those some text denotes |
| `Locator.LinesRoundTrip` | crates/caw-core/src/lib.rs:284-303 | a line range reads back, or as custom text when a number overflows the machine word |
| `Locator.MarkedLinesRead` | crates/caw-core/src/lib.rs:279-287 | a line range reads the same with a line mark on its start, or on both its ends |
| `Locator.PairMeaning` | crates/caw-core/src/lib.rs:266-292 | splitting at the first separator finds two numbers exactly when the text is two numerals around one |
| `LineRanges.ReferenceReadsItsLines` | crates/caw-core/src/lib.rs:309-330 | several lines are read exactly when the file lacks the first, or the chunk begins in the file's first line, at its very start if that line is asked for, and reaches the end of the last; a single line exactly when the chunk is that line without a line end |
| `LineRanges.ReadGivesText` | crates/caw-index/src/lib.rs:166-168 | applying the parsed range to the chunk gives the text of that stretch of the file: the chunk as it stands for a single line, joined lines with plain line feeds for more |
| `LineRanges.ParseOfReference` | crates/caw-orchestrator/src/dynamic.rs:1184-1188 | the range text of several lines is a line range, the bare number of a single line is not |
| `LineRanges.LaterChunkMisses` | crates/caw-core/src/lib.rs:313-321 | lines 2 and 3 asked of the chunk that holds line 2: nothing is read |
| `LineRanges.ShortChunkMisses` | crates/caw-core/src/lib.rs:313-321 | lines 1 and 2 asked of a chunk that ends after line 1: only line 1 is read |
| `LineRanges.SingleLineReadsTheChunk` | crates/caw-core/src/lib.rs:327-328 | line 1 asked of a chunk of two lines: both are read |
| `SessionLog.LogReadsBack` | crates/caw-orchestrator/src/session.rs:31-217 | a log of turns free of separators reads back as every turn after the first, in order, failed and blank answers as unanswered, turns without a question dropped |
| `SessionLog.AppendKeepsRecall` | crates/caw-orchestrator/src/session.rs:31-217 | appending a clean turn adds what it should recall and disturbs nothing |
| `SessionLog.FailedReadsUnanswered` | crates/caw-orchestrator/src/session.rs:40-217 | a failed turn with any sample, appended to a clean log, reads back as unanswered exactly when its sample shows more than blanks before its first separator; earlier turns stay, and only a section break in the sample adds others |
| `SessionLog.SamplesTakenForAnswers` | crates/caw-orchestrator/src/session.rs:177-217 | an empty sample, a blank one, and one that begins with a turn end read back as answers |
| `SessionLog.ReadsBackWhole` | crates/caw-orchestrator/src/session.rs:177-199 | a clean log reads back whole exactly when it is empty or its first turn has a blank question |
| `SessionLog.OneTurnIsLost` | crates/caw-orchestrator/src/session.rs:177-199 | a log of one turn reads back as nothing |
| `SessionLog.SessionFile.WriteTurn` | crates/caw-orchestrator/src/session.rs:31-34 | the file grows by the formatted turn, which is also returned |
| `SessionLog.SessionFile.WriteDegenerateTurn` | crates/caw-orchestrator/src/session.rs:40-45 | the same with the sentinel before the sample |
| `SessionLog.ParseSessionTurns` | crates/caw-orchestrator/src/session.rs:177-199 | the loop over sections computes the parse |
| `SessionLog.UserField` | crates/caw-orchestrator/src/session.rs:205-217 | the user field of a clean turn stops at the answer, whatever the answer holds |
| `SessionLog.AssistantField` | crates/caw-orchestrator/src/session.rs:205-217 | the answer of a clean turn stops at the rule that closes the turn |
| `SessionLog.FieldStopsFirst` | crates/caw-orchestrator/src/session.rs:210-216 | a field stops at whichever separator comes first, or at the end of its section |
| `Calendar.DaysToYmd` | crates/caw-orchestrator/src/session.rs:251-290 | the one valid Gregorian date with the given day number |
| `Calendar.ClosedFormCountsDays` | crates/caw-orchestrator/src/session.rs:250-290 | the closed form is 0 on 1970-01-01 and grows by one each time the calendar moves to the next day (ISO 8601:2004, section 3.2.1) |
| `Calendar.NumbersFollowDates` | crates/caw-orchestrator/src/session.rs:251-290 | dates are ordered as their day numbers, and equal when those are |
| `Calendar.LaterDaysLaterDates` | crates/caw-orchestrator/src/session.rs:251-290 | every valid date has a day number, and a later day a later date |
| `Scheduler.NeverEvicts` | crates/caw-core/src/scheduler.rs:29-97 | from a workspace it admitted, with load at least unload, the scheduler evicts nothing, only appends, stays within budget and keeps identifiers distinct |
| `Scheduler.RefusedForRoom` | crates/caw-core/src/scheduler.rs:56-74 | an offer that is good enough and not loaded is refused only for lack of room |
| `RecallAdmission.DecideKeepsExactly` | crates/caw-core/src/scheduler.rs:29-97 | a loaded fragment stays exactly when its remembered score, or one if it has none, is at or above the unload threshold and it fits into what those kept before it leave; otherwise it is evicted and its score forgotten |
| `RecallAdmission.RecallAdmitsExactly` | crates/caw-orchestrator/src/lib.rs:163-232 | a hit on something not loaded is loaded by a recall exactly when it is at or above both load thresholds and fits, beside what is reserved, into what the hits before it leave |
| `RecallAdmission.NewlyLoadedWereHits` | crates/caw-orchestrator/src/lib.rs:163-232 | whatever a recall newly loads was read for such a hit; a recall fails, and then changes nothing, exactly when a hit it asks for cannot be read |
| `Scheduler.GreedyBudgetScheduler.Schedule` | crates/caw-core/src/scheduler.rs:29-97 | the loops compute the decision and leave the remembered scores of what stays |
| `Scheduler.RecallKeeps` | crates/caw-orchestrator/src/lib.rs:163-232 | one recall only appends, reports whether it did, and remembers what it admitted |
| `Scheduler.TurnKeeps` | crates/caw-orchestrator/src/lib.rs:67-156 | a whole turn evicts nothing, leaves room for what is reserved, admits no identifier twice, counts no iteration only if it was not to think, and all but one of its thinking iterations admitted something |
| `Scheduler.SessionOnlyAppends` | crates/caw-orchestrator/src/lib.rs:67-156 | over a session from the empty workspace every later workspace extends every earlier one, within budget |
| `Scheduler.RecallOrchestrator.DoRecall` | crates/caw-orchestrator/src/lib.rs:163-232 | the filtering loop and the decision compute one recall; a failed search or read changes nothing |
| `Scheduler.RecallOrchestrator.RunTurn` | crates/caw-orchestrator/src/lib.rs:67-156 | the restart loop computes the turn |
| `Health.ComponentHealth.RecordCall` | crates/caw-orchestrator/src/degradation.rs:83-122 | one call counts, then moves the status as the state machine does |
| `Health.NoJump` | crates/caw-orchestrator/src/degradation.rs:97-122 | one call never takes health between healthy and down |
| `Health.RecoveryCostsTwoStreaks` | crates/caw-orchestrator/src/degradation.rs:83-122 | from entering down to healthy takes at least twice the threshold in successes, the last threshold of them unbroken |
| `Health.UnbrokenClimb` | crates/caw-orchestrator/src/degradation.rs:83-122 | unbroken successes of any latency lead from down to healthy after exactly twice the threshold less the streak already held |
| `Health.TwoStreaksSuffice` | crates/caw-orchestrator/src/degradation.rs:83-122 | after any history at most two streaks of successes reach healthy |
| `Health.StaysHealthy` | crates/caw-orchestrator/src/degradation.rs:97-131 | a component is healthy throughout exactly when no call was slow and at no time too many of enough calls had failed |
| `Health.GoesDownExactly` | crates/caw-orchestrator/src/degradation.rs:105-139 | a degraded component goes down exactly on a failed call after which enough calls were made and more than twice the tolerated part of them failed |
| `Health.StreakIsSpent` | crates/caw-orchestrator/src/degradation.rs:105-121 | away from healthy the streak stays below the threshold |
| `Health.WindowExact` | crates/caw-orchestrator/src/degradation.rs:180-202 | with a clock that never runs backwards the limiter holds exactly the probes of the whole history inside the window |
| `Health.ThrottledExactly` | crates/caw-orchestrator/src/degradation.rs:180-202 | probing is throttled exactly when the last so many probes of the whole history all lie within the window of the latest |
| `Health.ProbeRateLimiter.RecordProbeAt` | crates/caw-orchestrator/src/degradation.rs:180-202 | the queue grows by the probe and loses its expired front |
| `Health.WorseNeverHelps` | crates/caw-orchestrator/src/degradation.rs:268-281 | worse parts never give a better operating tier, stubs stop exactly when the summary service is down, and recall is full exactly when nothing is amiss |
| `Health.RecallReturnsAfterStreak` | crates/caw-orchestrator/src/degradation.rs:97-281 | automatic recall lost to the embedding service returns only after a full streak of its successes |
| `PromptBudget.TruncateToBudget` | crates/caw-curation/src/prompt_budget.rs:103-129 | the prompt if it fits, else the longest run of leading sentences whose counts add up to the budget, itself in budget; the drop count misses exactly the words split by cuts and the blank sentences |
| `PromptBudget.SentencesExact` | crates/caw-curation/src/prompt_budget.rs:113 | the prompt is cut behind every full stop and every line feed, and nowhere else |
| `PromptBudget.CountedExceeds` | crates/caw-curation/src/prompt_budget.rs:113-127 | counting sentence by sentence exceeds counting the whole by the words the cuts split and the blank sentences |
| `PromptBudget.WordsOfJoin` | crates/caw-core/src/lib.rs:1860-1864 | joining two texts loses a word exactly when the seam joins two words |
| `Sweep.PlanCells` | crates/caw-bench/src/bin/sweep.rs:142-179 | the nested loops compute the plan |
| `Sweep.CellAt` | crates/caw-bench/src/bin/sweep.rs:142-179 | there are as many cells as combinations, and cell i is the merge picked by the mixed-radix digits of i |
| `Sweep.EveryChoiceOnce` | crates/caw-bench/src/bin/sweep.rs:155-176 | every choice of entries is the digits of some cell |
| `Sweep.DigitsInjective` | crates/caw-bench/src/bin/sweep.rs:155-176 | different cells come from different choices |
| `Sweep.LastAxisWins` | crates/caw-bench/src/bin/sweep.rs:164-173 | a parameter has the value of the last axis that sets it, or its fixed value when none does |

## Left out

- Network, process and foreign-function adapters, prompt dumps, the command line, the server, logging and tracing: input and output.
- Embeddings, the vector index, the outline parser, the byte-pair tokenizer, the regular expressions and the database: libraries that are not part of this model; they are parameters, with the contracts named above.
- Floating-point rounding, infinities and NaN: scores are real numbers, so `total_cmp` and `partial_cmp` are the order of the reals, and the machine epsilon is the constant it stands for.
- Machine integers other than those the locator parser reads: token counts, offsets and day numbers are unbounded.
- Word splitting for the keyword index: the index takes token sequences, so identifier splitting and lower-casing are not modelled.
- The logarithm in the inverse document frequency: a parameter, increasing where a theorem needs it.
- The ledger records consolidation notes only; the records of which fragment was recalled when, the session evaluator and time stamps are not kept.
- The persistent note store is a parameter of each admission pass; that eviction notes reach it is not modelled.
- Notes are synthesized by a parameter that includes the fallback text, so the wording of notes is not modelled.
- Generation with injected fragments: its count of used key-value slots is not kept by an invariant, the cap being fixed before fragments are injected.
- The refinement loop around the workspace is represented by the operations it performs in any order; when it stops and which answer it keeps is not modelled.
- `Orchestrator.DynamicRecall.UpgradeStubToBody`: takes a resident stub, as both callers check before the call.
- `Chunking.ChunkByLines`: needs an effective cap of at least four bytes, the longest character; below that the splitter can be forced inside a character (`Documents.CapBelowFourCutsACharacter`).
- `Documents.ChunkDocument`: outline entries attached to chunks are not modelled, nor chunk summaries.
- `Documents.HeaderBound`: states the bound in bytes, as the code measures it.
- `Chunking.OverlapPrefix`: that the overlap starts on a line is not claimed, since a very long line is cut inside.
- `ReindexProtocol.RunInv`: poisoned locks and the panics behind them are not modelled; progress is stated as enabled steps and drained runs, not as fairness.
- `ReindexQueue.ChannelReindexQueue.RunWorker`: the object is used by one thread and on a closed queue; waiting is in the step relation.
- `Hybrid.Search`: weights that sum to zero, by which the code divides into infinities and NaN, are excluded; a result list that repeats a name is fused as the code does, but the unit interval is claimed for distinct names only.
- `StepStream.RunThinkingSteps`: the sampler is the sequence of pieces it produces, and the trimming of the left-over text at chat markers is not modelled.
- `StepStream.CollectSteps`: one decoded message at a time; splitting the byte stream into messages is not modelled.
- `LineRanges.ReadGivesText`: headings and token windows are selected by a parameter; references have their end no smaller than their start, as the extractor (crates/caw-transform/src/recall.rs:143) makes them.
- `LineRanges.ReferenceReadsItsLines`: compares stretches of the file, not texts, so that it tells apart lines that happen to read the same.
- `SessionLog.LogReadsBack`: texts that contain separators are outside the claim, as the format does not escape them; compression of recalled answers is not modelled.
- `Calendar.DaysToYmd`: the clock and the time of day are left out.
- `Scheduler.TurnKeeps`: searches return each identifier once and reads return the identifier asked for; the provenance record and the model's final answer are not modelled.
- `Health.RecoveryCostsTwoStreaks`: recovery is stated for a component, not for the whole turn loop, where an unhealthy monitor keeps the calls from being made.
- `PromptBudget.TruncateToBudget`: the warning threshold is not modelled.
- `Sweep.PlanCells`: axes come as a sequence in the order of their names; parsing the configuration and rendering arguments are not modelled.
- Prompt text, intent guidance, summarizers, benchmark reports and workload loaders: no property that spans operations.
