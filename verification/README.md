# Mnemostroma: verified models of its hard cores

Mnemostroma is a local memory daemon for language-model agents. These Dafny modules model
the parts of it whose correctness is not visible in any single function, and prove what
those parts promise, over every input and every run.

- **Session index** (`SessionIndex`, `SessionRuns`, `SessionSearch`, `SessionFaithful`,
  `RowUniqueness`, `Eviction`, `SystemContext`). A session owns one summary vector and any number of chunk vectors, each
  under an integer label. Three maps, a counter, the vector matrix and RAM must agree through
  hydration, writing, loading, releasing, evicting and rebuilding. The tables are a value
  (`Tables`), every operation is a function on it, and the class `SystemContext` carries out
  the same operations on mutable fields: its `Valid()` is the invariant the run lemmas prove,
  and each method's `ensures` equates its new state with the function.
- **Chunker** (`Text`, `Packing`, `Chunker`). Recursive splitting, greedy packing and overlap,
  for an arbitrary token counter. Losslessness is stated on the non-whitespace characters;
  the size bound is the one the code gives.
- **Entity decoding** (`SpanDecode`, `SpanStitch`, `BioDecode`). Greedy conflict resolution,
  stitching, the subtoken mask and the whole extraction pipeline of the span model, and the
  BIO state machine of the token model.
- **IPC and breaker** (`IpcPool`, `IpcServer`, `Breaker`, `Trials`). The request/reply protocol over
  shared connections as a state machine of single steps, in every interleaving; the circuit
  breaker as a class and as a function of its history.
- **Outbox and tunnel** (`Outbox`, `OutboxRuns`, `Tunnel`, `Relays`). The retry queue, its
  worker and its cleanup in arbitrary order; the idle watchdog over timed runs; slot
  accounting; the supervision of the two relays of a tunnel.
- **Registry, injection, recalibration** (`Registry`, `Inject`, `Recalibrator`). Host
  resolution that does not depend on order because of validation, a text round trip, and
  weight projection over exact reals.

`Sorting` holds stable sorting and a little sequence vocabulary shared by the others.

## Where the code differs from what it says of itself

- The chunk target is documented as an upper bound for a chunk (`src/mnemostroma/models/embedding_utils.py:152`).
  It is one only under the condition of `Packing.DocumentedBoundExact`; the shipped
  defaults do not meet it (`Packing.DefaultsOverflow`).
- Oversized words are said always to be cut (`src/mnemostroma/models/embedding_utils.py:66-67`). Only a leading run of them is:
  `Chunker.OnlyLeadingWordsAreCut`, `Chunker.LongWordUncut`.
- The declared weight floor and ceiling (`src/mnemostroma/feedback/recalibrator.py:23-25`) do not survive
  renormalisation: `Recalibrator.DeclaredBoundsExact` says exactly when they do, and
  `Recalibrator.CyclesSaturate` where repeated cycles end.
- Index labels are meant to be unique. A second observation of a known session, or its reload
  after leaving RAM without a release (`src/mnemostroma/tools/bridge.py:71-79`), adds a second row under the
  same label: `RowUniqueness.ObservedTwice` and `RowUniqueness.ReloadedAfterDisplacement`
  reach it from an empty context, `RowUniqueness.RunUnique` says exactly which runs do, and a
  rebuild restores uniqueness.
- A repository load labels a session without adding a row, so the session stays unfindable:
  `SessionFaithful.StepFaithful` gives the exact guard of every operation.
- Hydration takes chunk rows of sessions without an embedding, which a rebuild drops, and
  misses embeddings that storage does not return: `SessionFaithful.HydrationMatchesRebuild` is
  the exact condition.
- An observation writes the index and stores its brief with awaits in between, and a load
  checks RAM before an await and does not check again. An eviction in the first gap loses the
  session for search (`SessionFaithful.EvictedMidway`), a second load in the other duplicates
  its row (`RowUniqueness.LoadedTwice`).
- A second eviction check can evict again: `Eviction.SecondCheckEvictsNothing`,
  `Eviction.SecondCheckEvictsMore`.
- A pool connection is misaligned by a call cancelled between its write and its read:
  `IpcPool.CancelExact` and `IpcPool.CancelledReplyIsMisdelivered`. `IpcPool.RunAligned`
  therefore carries the absence of such cancellations as its hypothesis.
- HALF_OPEN admits any number of concurrent calls, not one trial: `Trials.TwoTrials` and
  `Trials.TrialsPileUp` show it, `Trials.SingleTrialExact` says exactly when there is only one.
- A relay treats a connection reset or a broken pipe as a clean end, so `Relays` counts them
  as one.
- Stitching leaves no joinable pair among disjoint spans, but can among nested ones
  (`SpanStitch.NestedLeavesJoinable`); `SpanStitch.StitchedJoinsAll` says exactly when.
- Undoing an injection restores the file exactly only when it ended in one newline:
  `Inject.UndoRestoresExactly`.
- Undo is said to remove what stands between marker lines. A marker line that has lost its end
  line makes it drop the rest of the file: `Inject.UnclosedBlockDropsRest`.

## Model

| member | source | states |
|---|---|---|
| `SessionRuns.RunKeepsInv` | src/mnemostroma/core/__init__.py:301-339 | In every interleaving of index writes, RAM stores, lookups, cold loads, displacements, releases and evictions, each a stretch without await, the label maps agree, every label is below the counter, no label is held twice, and RAM holds each session once |
| `SessionRuns.ReleasedLabelStaysDead` | src/mnemostroma/core/__init__.py:324-339 | A label a release drops never resolves again in any run without a rebuild |
| `SessionRuns.DeadLabelStaysDead` | src/mnemostroma/core/__init__.py:301-322 | The same for every label below the counter that does not resolve: the counter never hands it out again |
| `SessionRuns.EvictReindexes` | src/mnemostroma/memory/dissolver.py:74-90 | An eviction that removes anyone leaves labels exactly 0..next-1, each row exactly one summary or chunk vector of a remaining brief, every session's labels leading to its own vectors |
| `SessionRuns.VictimGone` | src/mnemostroma/memory/dissolver.py:74-90 | An evicted session is gone from RAM and holds no label |
| `SessionRuns.HydrationLayout` | src/mnemostroma/conductor.py:301-339 | Cold hydration leaves consistent maps; max label + 1 is the counter itself; rows are unique iff storage returned each session once, and then row i is embedding i, followed by the chunk rows of sessions in RAM |
| `SessionRuns.LoadedBriefs` | src/mnemostroma/conductor.py:290-292 | Of several stored briefs of one session RAM keeps the last, and it holds no session that is not stored |
| `SessionRuns.PutInPlace` | src/mnemostroma/conductor.py:291-292 | Storing a known session replaces its entry where it stands, a new one goes to the end; no other entry moves or changes |
| `SessionRuns.DisplaceExact` | src/mnemostroma/tools/bridge.py:88-103 | A displaced session leaves RAM with its labels and rows left behind, and everybody else stays |
| `SessionRuns.HydratedInv` | src/mnemostroma/conductor.py:281-339 | What hydration leaves satisfies the invariant all runs keep |
| `SessionRuns.AttachedChunks` | src/mnemostroma/conductor.py:325-334 | After hydration each brief in RAM carries its stored chunk vectors in stored order, and nothing else changes |
| `SessionIndex.LabelNamesOneSession` | src/mnemostroma/core/__init__.py:301-322 | In consistent tables no label belongs to two sessions |
| `SessionIndex.ReleaseExact` | src/mnemostroma/core/__init__.py:324-339 | A release leaves the session without labels, its labels unresolved, every other session untouched, and the maps in agreement |
| `SessionIndex.IndexSessionConsistent` | src/mnemostroma/observer/steps/persist_step.py:183-187 | Indexing any session, new or already known, keeps the maps in agreement |
| `SessionIndex.IndexSessionUnique` | src/mnemostroma/observer/steps/persist_step.py:183-187 | Index labels stay unique iff the session being indexed has no row yet (a second observation of a session duplicates its summary label) |
| `RowUniqueness.StepUnique` | src/mnemostroma/observer/steps/persist_step.py:183-187 | One such step leaves unique rows iff it rebuilds, or they were unique and it adds no summary row for a session that has one |
| `RowUniqueness.RunUnique` | src/mnemostroma/observer/steps/persist_step.py:183-187 | In every interleaving rows end unique iff nothing was repeated since the last rebuild, or since a unique start |
| `RowUniqueness.RepeatFreeUnique` | src/mnemostroma/observer/steps/persist_step.py:183-187 | A run without repeats keeps unique rows unique |
| `RowUniqueness.ObservedTwice` | src/mnemostroma/observer/steps/persist_step.py:183-187 | Witness: one session observed twice from an empty context leaves labels 0, 0 |
| `RowUniqueness.LoadedTwice` | src/mnemostroma/tools/bridge.py:56-83 | Witness: two interleaved loads of one session, both past the RAM check, leave labels 0, 0 |
| `RowUniqueness.ReloadedAfterDisplacement` | src/mnemostroma/tools/bridge.py:71-103 | Witness: a session displaced from RAM by a load and loaded again leaves labels 0, 1, 0 |
| `SessionIndex.ChunksConsistent` | src/mnemostroma/core/__init__.py:309-322 | Allocating any number of chunk labels keeps the maps in agreement |
| `SessionIndex.RebuiltLayout` | src/mnemostroma/memory/dissolver.py:199-235 | After a rebuild the labels are exactly 0..next-1, unique, row i is the i-th summary or chunk vector of RAM, and exactly the sessions with an embedding are labelled |
| `SessionIndex.EntryIffVector` | src/mnemostroma/memory/dissolver.py:213-232 | A (session, vector) pair is indexed by a rebuild iff it is the summary or a chunk vector of a brief with an embedding |
| `SessionIndex.RebuiltFiled` | src/mnemostroma/memory/dissolver.py:213-232 | A session's labels after a rebuild, summary first, lead to its own vectors in order |
| `SessionSearch.SearchRefinesScan` | src/mnemostroma/memory/search.py:50-61 | k-nearest rows plus first-occurrence deduplication is a prefix of a full ranking of the RAM sessions by their least distance over all their rows, however ties are broken; with k at least the row count it is the whole ranking |
| `SessionSearch.FindsTheNearest` | src/mnemostroma/memory/search.py:50-61 | Every RAM session with a row that fewer than k other rows are as near as is found, and every session found has a row with fewer than k rows strictly nearer |
| `SessionSearch.LeftOutIsFarther` | src/mnemostroma/memory/search.py:50-61 | Every row of a RAM session left out is at least as far as every row the k-nearest query returned |
| `SessionSearch.FaithfulNearest` | src/mnemostroma/memory/search.py:50-61 | Where a session's rows hold exactly its brief's vectors, it is findable iff the brief has an embedding, at the least distance over its own summary and chunk vectors |
| `SessionSearch.FaithfulSearchRanksBriefs` | src/mnemostroma/memory/search.py:50-61 | Where the index is faithful to RAM, candidates come in the order of the briefs' own distances, and an embedded brief is missing only if it is no closer than each candidate |
| `SessionSearch.RebuiltFaithful` | src/mnemostroma/memory/dissolver.py:199-235 | A rebuild makes the index faithful to RAM, whatever it was before |
| `SessionFaithful.StepFaithful` | src/mnemostroma/observer/steps/persist_step.py:183-187 | From a faithful index each step leaves a faithful one iff its guard holds: an index write adds only vectors a brief of that session in RAM has, a stored brief is indexed as it is, a load finds only rows and chunks that fit, a released session has no embedding in RAM |
| `SessionFaithful.RunFaithful` | src/mnemostroma/observer/steps/persist_step.py:183-187 | From a faithful start the index is faithful at every state of a run iff every guard holds |
| `SessionFaithful.RunSearchRanksBriefs` | src/mnemostroma/memory/search.py:50-61 | After every such run search ranks the sessions by the distances of their own vectors |
| `SessionFaithful.ObservationFits` | src/mnemostroma/observer/steps/persist_step.py:183-280 | An undisturbed first observation meets its guards |
| `SessionFaithful.EvictedMidway` | src/mnemostroma/observer/steps/persist_step.py:183-280 | An eviction between the index write and the RAM store of an observation leaves the session in RAM without label or row |
| `SessionFaithful.EvictedMidwayReached` | src/mnemostroma/observer/steps/persist_step.py:183-280 | That run exists from an empty context with one evictable session |
| `SessionFaithful.EvictMakesFaithful` | src/mnemostroma/memory/dissolver.py:74-90 | An eviction that removes anyone makes the index faithful |
| `SessionFaithful.LookupLeavesUnindexed` | src/mnemostroma/tools/read.py:108-116 | Witness: a repository load of an embedded session gives it a label and no row |
| `SessionFaithful.HydratedHolds` | src/mnemostroma/conductor.py:300-339 | Hydration indexes exactly the stored embeddings and the chunk rows of sessions in RAM, and nothing when no embedding is stored |
| `SessionFaithful.HydrationMatchesRebuild` | src/mnemostroma/conductor.py:300-339 | For a session in RAM, hydration and a rebuild from the RAM it leaves index the same vectors iff storage and brief agree: without an embedding nothing is stored for it; with one, it and every chunk on the brief are stored, and every stored embedding is one of its vectors |
| `SessionFaithful.ChunkWithoutEmbedding` | src/mnemostroma/conductor.py:325-334 | Witness: a stored chunk row of a session in RAM without an embedding is indexed by hydration and dropped by a rebuild |
| `SessionFaithful.WithheldEmbedding` | src/mnemostroma/conductor.py:301-314 | An embedding storage does not return is missing after hydration and present in the rebuilt tables |
| `SessionSearch.PickKeepsNearest` | src/mnemostroma/memory/hnsw.py:87-120 | Reading the rows in sorted order changes neither which sessions appear nor their least distances |
| `Eviction.EvictionExact` | src/mnemostroma/memory/dissolver.py:55-90 | Eviction removes only unprotected sessions, exactly min(n, evictable) of them, none of higher priority than an evictable survivor, and everyone else stays |
| `Eviction.ProtectedStay` | src/mnemostroma/memory/dissolver.py:158-196 | A principle, a conflict, a deadline still to come and, below 90% of the hard limit, a critical session stay through every eviction; with room for all, any other session goes |
| `Eviction.CountRuleLands` | src/mnemostroma/memory/dissolver.py:30-37 | When the count rule fires, RAM lands on max(ceil(7 * window / 10), number protected) |
| `Eviction.MemoryRuleEvicts` | src/mnemostroma/memory/dissolver.py:39-53 | When the memory rule fires, RAM lands on max(count - max(1, count / 10), number protected) |
| `Eviction.QuietCheck` | src/mnemostroma/memory/dissolver.py:23-53 | With RAM at most 80% full and the process within its soft limit a check changes nothing |
| `Eviction.SecondCheckEvictsNothing` | src/mnemostroma/memory/dissolver.py:23-53 | After the count rule fired, a second check under the same readings changes nothing iff the protected sessions reach 70% of the window, or the memory rule is silent, or 70% rounded up exceeds the 80% threshold |
| `Eviction.SecondCheckEvictsMore` | src/mnemostroma/memory/dissolver.py:23-53 | Witness: nine ordinary sessions, a window of ten and memory above the soft limit go to seven, then six |
| `Eviction.SurvivorsProtected` | src/mnemostroma/memory/dissolver.py:158-196 | Eviction never changes the number of protected sessions |
| `Eviction.PriorityMonotone` | src/mnemostroma/memory/dissolver.py:142-155 | A more intense, more important and newer session never has lower priority (below intensity -1 only intensity counts that way), and at 90 days priority is exactly 0 |
| `Eviction.RankDecides` | src/mnemostroma/memory/dissolver.py:133-139 | Of two sessions alike in everything else the lower ranking one has strictly lower priority: principle, critical, important, all others |
| `Eviction.PriorityExact` | src/mnemostroma/memory/dissolver.py:142-155 | Priority is linear in intensity, and a new session of no intensity has the weight of its rank |
| `Eviction.DailyDecay` | src/mnemostroma/memory/dissolver.py:152-155 | A session loses a ninetieth of its first priority every day until none is left |
| `SystemContext.ArgSort` | src/mnemostroma/memory/hnsw.py:117 | An ordering of all row numbers by ascending distance |
| `SystemContext.MatrixSearch.constructor` | src/mnemostroma/memory/hnsw.py:42-50 | Starts empty |
| `SystemContext.MatrixSearch.AddItems` | src/mnemostroma/memory/hnsw.py:52-63 | Appends the rows and their labels |
| `SystemContext.MatrixSearch.Clear` | src/mnemostroma/memory/hnsw.py:126-129 | Empties the matrix |
| `SystemContext.MatrixSearch.KnnQuery` | src/mnemostroma/memory/hnsw.py:87-120 | Returns labels and distances of the first rows of an ascending ordering by distance: k of them, or all when there are fewer; for negative k all but the last -k |
| `SystemContext.SystemContext.constructor` | src/mnemostroma/core/__init__.py:135-252 | Starts with empty maps, which satisfy the invariant |
| `SystemContext.SystemContext.GetSessionLabel` | src/mnemostroma/core/__init__.py:301-307 | The session's label if it has one, else the next of the counter; records nothing else |
| `SystemContext.SystemContext.AllocateChunkLabel` | src/mnemostroma/core/__init__.py:309-322 | A fresh label, recorded in both directions |
| `SystemContext.SystemContext.ReleaseSessionLabels` | src/mnemostroma/core/__init__.py:324-339 | Returns exactly the labels the session held, summary first, and forgets all of them |
| `SystemContext.SystemContext.IndexChunkVectors` | src/mnemostroma/observer/steps/persist_step.py:52-64 | One fresh label and one row per chunk vector |
| `SystemContext.SystemContext.IndexSessionVectors` | src/mnemostroma/observer/steps/persist_step.py:183-187 | A writer's indexing of a session: keeps the class invariant, new tables as specified by the table function |
| `SystemContext.SystemContext.RebuildSessionIndex` | src/mnemostroma/memory/dissolver.py:199-235 | Establishes the class invariant, with the tables a rebuild of the current RAM has, whatever they were before |
| `SystemContext.SystemContext.EvictNOldest` | src/mnemostroma/memory/dissolver.py:55-90 | Keeps the class invariant; RAM and tables become exactly the specified state; reports how many went |
| `SystemContext.SystemContext.CheckAndEvict` | src/mnemostroma/memory/dissolver.py:23-53 | Keeps the class invariant; evicts the specified quota, by the count rule before the memory rule |
| `SystemContext.SystemContext.Hydrate` | src/mnemostroma/conductor.py:281-339 | From an empty context, establishes the class invariant and exactly the hydrated RAM and tables |
| `SystemContext.SystemContext.Deduplicate` | src/mnemostroma/memory/search.py:53-61 | The sessions in RAM named by the labels, each at its first occurrence |
| `SystemContext.SystemContext.SemanticCandidates` | src/mnemostroma/memory/search.py:33-64 | For k >= 0 every RAM session with a row that fewer than k others are as near as is found, and every candidate has a row with fewer than k rows nearer; candidates are an answer in the sense of the refinement theorem; tables and RAM unchanged; the intent is recorded iff the index is not empty |
| `Sorting.SortSorted` | src/mnemostroma/memory/dissolver.py:72 | Sorting orders any list by a total preorder |
| `Sorting.SortStable` | src/mnemostroma/models/gliner_decode.py:167 | and keeps equal elements in their original order |
| `Text.StripKeepsSolid` | src/mnemostroma/models/embedding_utils.py:105-111 | Stripping loses only whitespace, and leaves nothing iff there was nothing else |
| `Text.StripExact` | src/mnemostroma/models/embedding_utils.py:105-111 | A stripped text is the text without whitespace at either end, and has none there |
| `Text.SplitKeepsSolid` | src/mnemostroma/models/embedding_utils.py:91-104 | Splitting at a pattern that matches only whitespace loses no other character |
| `Text.SplitExact` | src/mnemostroma/models/embedding_utils.py:91-104 | The parts are what is left of the text between the leftmost matches, one after the other, and no other match starts inside a part |
| `Text.WordsConcat` | src/mnemostroma/models/embedding_utils.py:71 | Splitting into words keeps exactly the non-whitespace characters, in words without whitespace |
| `Text.JoinKeepsSolid` | src/mnemostroma/models/embedding_utils.py:76-84 | Joining with whitespace adds no other character |
| `Text.JoinAppend` | src/mnemostroma/models/embedding_utils.py:76-84 | Joining two lists one after the other puts exactly one separator between what they join to |
| `Chunker.BreaksAreSpace` | src/mnemostroma/models/embedding_utils.py:28-35 | All four separators match only whitespace |
| `Chunker.ParagraphBreakExact` | src/mnemostroma/models/embedding_utils.py:28 | A paragraph break is the longest stretch of whitespace at its position between two newlines, and there is one iff there is such a stretch |
| `Chunker.SentenceBreakExact` | src/mnemostroma/models/embedding_utils.py:30 | A sentence break is all the whitespace after a sentence end or a closing quote behind one, and there is one nowhere else |
| `Chunker.CodeBreakExact` | src/mnemostroma/models/embedding_utils.py:32-35 | A code break is one newline in front of a definition keyword and something solid; a line break is any newline |
| `Chunker.SplitOversizedKeepsSolid` | src/mnemostroma/models/embedding_utils.py:63-85 | Cutting an oversized fragment keeps its non-whitespace characters in order |
| `Chunker.SplitOversizedPieces` | src/mnemostroma/models/embedding_utils.py:63-85 | Each piece is below target, or one whole word, or a slice of at most int(3.5 * target) characters |
| `Chunker.OnlyLeadingWordsAreCut` | src/mnemostroma/models/embedding_utils.py:71-83 | Exactly the leading run of oversized words is cut by characters; every later word stays whole |
| `Chunker.WordGroupsKeepWords` | src/mnemostroma/models/embedding_utils.py:71-85 | Greedy word groups concatenate to the words |
| `Chunker.WordGroupsGreedy` | src/mnemostroma/models/embedding_utils.py:71-77 | Grouping is greedy: groups of several words are below target, and the first word of the next group would have reached it |
| `Chunker.SlicesFull` | src/mnemostroma/models/embedding_utils.py:81-83 | All slices of a word but the last have the full length |
| `Chunker.LongWordUncut` | src/mnemostroma/models/embedding_utils.py:77-81 | Witness: a word over the target after a short one comes out whole |
| `Chunker.AtomsLossless` | src/mnemostroma/models/embedding_utils.py:88-113 | Through paragraphs, sentences, lines, words and characters, the atoms carry exactly the input's non-whitespace characters; each is below target, or a whole word of the text, or a slice of at most int(3.5 * target) characters |
| `Chunker.SmallPartsStayWhole` | src/mnemostroma/models/embedding_utils.py:95-100 | When every paragraph or definition is below target, the atoms are exactly those parts, stripped and in order |
| `Chunker.SmallPartInPlace` | src/mnemostroma/models/embedding_utils.py:95-100 | A small part is one atom wherever it stands among parts of any size |
| `Chunker.LargePartInPlace` | src/mnemostroma/models/embedding_utils.py:101-112 | A part too large is replaced, in its place, by its sentences or lines; when those are small, stripped and otherwise unchanged |
| `Chunker.PieceInPlace` | src/mnemostroma/models/embedding_utils.py:107-112 | A small sentence or line is one atom wherever it stands; one too large is cut at its words, only oversized leading words by characters |
| `Chunker.ChunksLossless` | src/mnemostroma/models/embedding_utils.py:132-188 | End to end: dropping carried atoms from the chunks gives the atoms once each in order, hence all non-whitespace characters of the input |
| `Chunker.ChunkSize` | src/mnemostroma/models/embedding_utils.py:132-188 | The true size bound, end to end: a chunk's atoms sum to at most target, or it is its predecessor's bounded carry plus exactly one atom that is below target, a whole word of the text, or a bounded slice |
| `Chunker.ChunksNonEmpty` | src/mnemostroma/models/embedding_utils.py:132-188 | No chunk is empty |
| `Chunker.FittingTextIsOneChunk` | src/mnemostroma/models/embedding_utils.py:132-188 | Parts that are small and sum to at most target make one chunk |
| `Chunker.SmallTextUnchanged` | src/mnemostroma/models/embedding_utils.py:132-188 | End to end: a text below target without a paragraph break, or a definition to cut at, is one chunk, itself stripped |
| `Chunker.CutOversized` | src/mnemostroma/models/embedding_utils.py:63-85 | The loop computes the specified pieces |
| `Chunker.FindAtoms` | src/mnemostroma/models/embedding_utils.py:88-113 | The nested loops compute the specified atoms |
| `Chunker.TailForOverlap` | src/mnemostroma/models/embedding_utils.py:116-129 | The backward loop computes the specified carry |
| `Chunker.PackAtoms` | src/mnemostroma/models/embedding_utils.py:167-188 | The packing loop with its running total computes the joined groups |
| `Chunker.ChunkContent` | src/mnemostroma/models/embedding_utils.py:132-188 | The whole procedure, blank input included, computes the joined chunks |
| `Packing.GroupsLossless` | src/mnemostroma/models/embedding_utils.py:167-182 | Every chunk starts with the carry of its predecessor and adds at least one atom; dropping the carries gives back the atoms exactly once in order |
| `Packing.GroupsBound` | src/mnemostroma/models/embedding_utils.py:171-179 | A chunk sums to at most target, or is the carry of its predecessor, which sums to at most overlap or is a single atom, and exactly one more atom |
| `Packing.GroupsGreedy` | src/mnemostroma/models/embedding_utils.py:171-179 | A chunk ends only where the next atom would take it over the target |
| `Packing.TailExact` | src/mnemostroma/models/embedding_utils.py:116-129 | The carry is a proper suffix within the overlap (or a single atom), could not be one atom longer, and is empty iff overlap is off or the chunk is a single atom or fits the overlap whole |
| `Packing.DocumentedBoundExact` | src/mnemostroma/models/embedding_utils.py:132-160 | Target bounds the sum of atom token counts of every chunk, for all atoms below it, iff overlap <= 0, or overlap >= target, or target <= 2 |
| `Packing.CarryOverflows` | src/mnemostroma/models/embedding_utils.py:171-179 | For every other pair of settings, atoms 1, target-1, target-1 give a chunk above target |
| `Packing.DefaultsOverflow` | src/mnemostroma/models/embedding_utils.py:21-22 | With the shipped 384 and 48, atoms 50, 300, 300 give a chunk of 600 |
| `SpanDecode.GreedySearch` | src/mnemostroma/models/gliner_decode.py:60-79 | The greedy loop keeps the specified spans in position order |
| `SpanDecode.GreedyExact` | src/mnemostroma/models/gliner_decode.py:60-79 | The result is a conflict-free part of the input, sorted by start, and every rejected span conflicts with a kept one of at least its score |
| `SpanDecode.GreedyUnique` | src/mnemostroma/models/gliner_decode.py:60-79 | With distinct scores it is the only set with that property |
| `SpanDecode.ConflictsSymmetric` | src/mnemostroma/models/gliner_decode.py:41-57 | Both conflict relations are symmetric, flat or nested, single or multi label |
| `SpanDecode.FlatConflictExact` | src/mnemostroma/models/gliner_decode.py:46-50 | Flat spans conflict iff they share a word |
| `SpanDecode.NestedConflictExact` | src/mnemostroma/models/gliner_decode.py:53-57 | Nested spans conflict iff they share a word and have the same words, or each has a word the other lacks |
| `SpanDecode.MultiLabelConflictExact` | src/mnemostroma/models/gliner_decode.py:46-57 | With several labels to a span the same words never conflict, and different ones as before |
| `SpanDecode.FlatResultsDisjoint` | src/mnemostroma/models/gliner_decode.py:46-50 | Flat single-label results are pairwise disjoint in reading order |
| `SpanDecode.NestedResultsLaminar` | src/mnemostroma/models/gliner_decode.py:53-57 | Nested single-label results are pairwise disjoint or one inside the other |
| `SpanStitch.LabelSpans` | src/mnemostroma/models/gliner_decode.py:123-139 | Labels every candidate in order; an error iff some class is unknown |
| `SpanStitch.DecodeSpans` | src/mnemostroma/models/gliner_decode.py:109-145 | Greedy selection over exactly the candidates that end inside the text; an error iff one of those has an unknown class |
| `SpanStitch.DecodedExact` | src/mnemostroma/models/gliner_decode.py:109-145 | Decoding keeps nothing but candidates whose last word is in the text, and every such candidate unless a kept one in conflict with it scores at least as high; class ids are one-based |
| `SpanStitch.StitchAdjacentSpans` | src/mnemostroma/models/gliner_decode.py:151-184 | The merging loop computes the specified stitched spans |
| `SpanStitch.StitchBlocks` | src/mnemostroma/models/gliner_decode.py:167-183 | The result partitions the sorted input into consecutive runs; each span has the run's first start, last end, type and least score |
| `SpanStitch.StitchedCovers` | src/mnemostroma/models/gliner_decode.py:151-184 | For spans in any order, overlapping or not, exactly the same words are covered with exactly the same types |
| `SpanStitch.StitchedJoinsAll` | src/mnemostroma/models/gliner_decode.py:151-184 | Exactly when nothing is left to join, for spans of any order and overlap: in position order every joinable pair has its first joined to its successor or its second to its predecessor |
| `SpanStitch.StitchedDisjoint` | src/mnemostroma/models/gliner_decode.py:151-184 | Hence disjoint spans in any order come out disjoint, in reading order, with no two spans left that could be joined |
| `SpanStitch.AdjacentDatesJoined` | src/mnemostroma/models/gliner_decode.py:169-183 | Of disjoint dates no two are left next to each other |
| `SpanStitch.OnlyDatesAreJoined` | src/mnemostroma/models/gliner_decode.py:148 | Spans of any other type come through one for one, whatever they stand next to |
| `SpanStitch.NestedLeavesJoinable` | src/mnemostroma/models/gliner_decode.py:151-184 | Witness: among nested spans a joinable pair can remain, when another span sorts between the two |
| `SpanStitch.FlatExtraction` | src/mnemostroma/models/gliner_engine.py:214-231 | Flat extraction hands over disjoint spans in reading order with nothing left to join, covering exactly the words selection kept |
| `SpanStitch.StitchSorted` | src/mnemostroma/models/gliner_decode.py:167-183 | Stitching spans in order of position leaves them in order of position |
| `SpanStitch.StitchedInOrder` | src/mnemostroma/models/gliner_decode.py:167-183 | Whatever the order of the input, the result is in order of first word, then of last word |
| `SpanStitch.StitchIdempotent` | src/mnemostroma/models/gliner_decode.py:151-184 | Stitching twice is stitching once |
| `SpanStitch.BuildWordsMask` | src/mnemostroma/models/gliner_engine.py:58-75 | The loop computes the specified mask |
| `SpanStitch.NumbersExact` | src/mnemostroma/models/gliner_engine.py:58-75 | A position carries the number of a text word iff a run of its subtokens starts there |
| `SpanStitch.MaskNumbersOnce` | src/mnemostroma/models/gliner_engine.py:58-75 | A surviving text word is numbered exactly once iff its subtokens are contiguous |
| `SpanStitch.MaskWithinWords` | src/mnemostroma/models/gliner_engine.py:202-206 | The word count read off the mask never exceeds the number of text words |
| `SpanStitch.SpansToEntities` | src/mnemostroma/models/gliner_decode.py:187-218 | Raises iff a span lies outside the offsets; else one entity per span, from its first word's first character to its last word's last |
| `SpanStitch.EntityTakesItsWords` | src/mnemostroma/models/gliner_decode.py:207-216 | An entity has its span's type and score, and its characters take in every word of the span and no part of another |
| `SpanStitch.ExtractEntities` | src/mnemostroma/models/gliner_engine.py:182-231 | The pipeline under truncation: the only possible error is an unknown class, otherwise one in-bounds entity per selected and stitched span |
| `BioDecode.Reconstruct` | src/mnemostroma/models/bert_ner.py:188-252 | Fails iff an interior label is not BIO; else the entities are spelled out by the maximal runs behind each opening token |
| `BioDecode.PredictRaw` | src/mnemostroma/models/bert_ner.py:199-252 | From label texts: fails iff an interior label is neither O nor a type behind B- or I-; else the entities of the parsed tags |
| `BioDecode.LabelForms` | src/mnemostroma/models/bert_ner.py:199-217 | A label opens iff it is B- and a type, continues iff I- and a type, is outside iff O, with the type mapped |
| `BioDecode.CloseAt` | src/mnemostroma/models/bert_ner.py:224-249 | Closing the open entity adds exactly the entity of the run from its opening token |
| `BioDecode.EntityPerStart` | src/mnemostroma/models/bert_ner.py:222-234 | Exactly one raw entity per non-subword B token between the special tokens |
| `BioDecode.EntityExact` | src/mnemostroma/models/bert_ner.py:226-249 | An opening token gives its entity type and start, the last of the longest run of I tokens of that type or subwords its end, and the score is the least of the run |
| `BioDecode.RunStopsBefore` | src/mnemostroma/models/bert_ner.py:235-249 | A run never reaches into the next opening token |
| `BioDecode.EntitiesDisjoint` | src/mnemostroma/models/bert_ner.py:188-252 | For monotone offsets the raw entities are ordered and share no character |
| `IpcPool.RunAligned` | src/mnemostroma/ipc_pool.py:132-147 | In every interleaving of callers, timeouts, errors, closes and reconnects in which no call is cancelled between write and read: idle plus held connections are the pool, an idle connection owes nothing, every normal return is the caller's own reply |
| `IpcPool.ReturnedReplyIsOwn` | src/mnemostroma/ipc_pool.py:41-71 | In such a run every call that returns normally returns the reply to its own request |
| `IpcPool.IdleOwesNothing` | src/mnemostroma/ipc_pool.py:132-147 | In such a run idle plus held connections are the pool size, and an idle connection has no request or reply outstanding |
| `IpcPool.ErrorsNeverReturn` | src/mnemostroma/ipc_pool.py:69-71 | In every run, cancellations in flight included, no call returns normally with an error reply |
| `IpcPool.OwedInOrder` | src/mnemostroma/ipc_pool.py:52-71 | A connection is a queue, cancellations or not: a write joins at the end, a read takes the first, serving keeps the order, any other step keeps or empties it |
| `IpcPool.StepKeepsInv` | src/mnemostroma/ipc_pool.py:41-81 | The same for each single step |
| `IpcPool.AlignedExactly` | src/mnemostroma/ipc_pool.py:132-147 | The pool is aligned at every state of a run iff no call is cancelled with its request in flight |
| `IpcPool.CancelExact` | src/mnemostroma/ipc_pool.py:141-147 | A cancellation keeps the pool aligned iff the call's request is not in flight |
| `IpcPool.InFlightReached` | src/mnemostroma/ipc_pool.py:41-71 | A pool of one reaches a call with its request in flight |
| `IpcPool.CancelledReplyIsMisdelivered` | src/mnemostroma/ipc_pool.py:41-71 | Otherwise, whatever else the pool holds: if the request can still be or already is answered normally, some run makes a later call return normally with the cancelled call's reply |
| `IpcServer.HandleClient` | src/mnemostroma/ipc_server.py:122-165 | Every line up to the first that is not UTF-8 or no JSON object gets exactly one reply, in order: a request under its own id, an error iff its tool raised; text that is not JSON an error without id |
| `Breaker.CircuitBreaker.constructor` | src/mnemostroma/circuit_breaker.py:26-39 | Starts closed with no failures |
| `Breaker.CircuitBreaker.State` | src/mnemostroma/circuit_breaker.py:42-47 | Reports the state, moving OPEN to HALF_OPEN once recovery has passed |
| `Breaker.CircuitBreaker.Begin` | src/mnemostroma/circuit_breaker.py:60-70 | Admits a call iff the reported state is not OPEN; a trial iff HALF_OPEN |
| `Breaker.CircuitBreaker.Succeed` | src/mnemostroma/circuit_breaker.py:71-76 | Closes and resets |
| `Breaker.CircuitBreaker.Fail` | src/mnemostroma/circuit_breaker.py:77-89 | Counts, and opens from the threshold on |
| `Breaker.ReplayExplained` | src/mnemostroma/circuit_breaker.py:41-89 | Under arbitrarily interleaved calls the breaker's state is a function of its history: failures since the last success, CLOSED iff they are below the threshold, opened at the last failure, HALF_OPEN only after recovery |
| `Breaker.AdmissionExact` | src/mnemostroma/circuit_breaker.py:60-63 | A call may start iff failures since the last success are below the threshold or recovery has passed since the last failure |
| `Breaker.OutcomesDecide` | src/mnemostroma/circuit_breaker.py:71-89 | Any failure outside CLOSED reopens at that moment; any success closes |
| `Trials.RunIsReplay` | src/mnemostroma/circuit_breaker.py:53-89 | Telling calls apart adds nothing to the breaker's state |
| `Trials.HalfOpenAdmitsAll` | src/mnemostroma/circuit_breaker.py:60-68 | Until the first outcome a HALF_OPEN breaker stays so and lets every call through |
| `Trials.TwoTrials` | src/mnemostroma/circuit_breaker.py:60-68 | Witness, for any threshold: after that many failures two calls after recovery are both let through as trials |
| `Trials.TrialsPileUp` | src/mnemostroma/circuit_breaker.py:60-68 | Any number of calls asking a HALF_OPEN breaker all become trials in flight |
| `Trials.SingleTrialExact` | src/mnemostroma/circuit_breaker.py:53-89 | At most one trial is in flight throughout a run iff no call asks, during a trial, a breaker that is or is due to be HALF_OPEN |
| `Breaker.SerialBound` | src/mnemostroma/circuit_breaker.py:41-89 | In a serial run where every call fails, at most threshold + floor(T / recovery) calls start by time T |
| `Outbox.GatewayOutbox.constructor` | src/mnemostroma/gateway/outbox.py:146-148 | Starts empty |
| `Outbox.GatewayOutbox.Enqueue` | src/mnemostroma/gateway/outbox.py:150-177 | Changes nothing when the id or the dedupe key is taken; else adds one pending row with the event's key and payload, no attempts, due at its creation, and changes no other |
| `Outbox.GatewayOutbox.FetchReadyBatch` | src/mnemostroma/gateway/outbox.py:179-194 | Distinct due pending rows by due time, at most the batch size, none overtaken by a later one |
| `Outbox.GatewayOutbox.MarkDelivered` | src/mnemostroma/gateway/outbox.py:196-205 | Only that row changes, to delivered in the current second |
| `Outbox.GatewayOutbox.MarkRetry` | src/mnemostroma/gateway/outbox.py:207-223 | Only that row changes: one more attempt, dead at the maximum, due after the backoff |
| `Outbox.GatewayOutbox.CleanupDelivered` | src/mnemostroma/gateway/outbox.py:260-270 | Removes exactly the deliveries past retention and counts them |
| `Outbox.GatewayOutbox.DeliverOne` | src/mnemostroma/gateway/server.py:329-344 | One attempt of a fetched row: delivered, or scheduled with 2^min(attempts, 6) seconds of backoff |
| `OutboxRuns.RunKeepsInv` | src/mnemostroma/gateway/outbox.py:150-223 | In every run: one row per dedupe key, attempts never past the maximum, dead letter iff at the maximum, and every fetched row still as it was fetched |
| `OutboxRuns.StepLosesNothing` | src/mnemostroma/gateway/outbox.py:260-270 | A row disappears only by cleanup, delivered and past retention; delivered and dead rows never change again |
| `OutboxRuns.RetentionExact` | src/mnemostroma/gateway/outbox.py:260-270 | In every run cleanup removes a row iff it was successfully delivered more than the retention before, by the whole seconds of both moments |
| `OutboxRuns.DeliveredOnRecord` | src/mnemostroma/gateway/server.py:329-338 | The moment counted from is that of the last successful delivery of the row in the run |
| `OutboxRuns.DeliveryExact` | src/mnemostroma/gateway/server.py:329-344 | A success marks the row delivered and changes nothing else of it; a failure adds one attempt and at most 64 characters of the error, and leaves it dead at the maximum, else pending; no other row changes |
| `OutboxRuns.RowsWereAccepted` | src/mnemostroma/gateway/outbox.py:150-177 | Every row of a run stems from an event that arrived in it, with its key, payload and creation second |
| `OutboxRuns.LostOnlyAfterDelivery` | src/mnemostroma/gateway/server.py:313-358 | Over any run, an accepted row that is gone at the end was delivered at some point |
| `OutboxRuns.DeliveryDecreases` | src/mnemostroma/gateway/server.py:329-344 | Every attempt strictly decreases the sum of attempts left over pending rows |
| `OutboxRuns.RunBudget` | src/mnemostroma/gateway/server.py:313-344 | Over any run that sum grows no faster than accepted events bring attempts in, less the attempts made |
| `OutboxRuns.AttemptsBounded` | src/mnemostroma/gateway/server.py:313-344 | From an empty table at most max attempts per accepted event are ever made |
| `OutboxRuns.WindowClosedForm` | src/mnemostroma/gateway/server.py:340-344 | n backoffs sum to 2^n - 1 up to n = 7, and to 127 + 64 (n - 7) beyond |
| `OutboxRuns.DeadLetterSpan` | src/mnemostroma/gateway/server.py:340-344 | In any run a dead letter's first and last failures are at least the sum of its backoffs apart |
| `OutboxRuns.DefaultWindow` | src/mnemostroma/gateway/outbox.py:146 | At the shipped maximum of 12 that is at least 383 seconds |
| `Tunnel.IdleWatchdog.constructor` | src/mnemostroma/proxy/tunnel.py:268-274 | Activity starts now, and the first check is at once |
| `Tunnel.IdleWatchdog.Touch` | src/mnemostroma/proxy/tunnel.py:276-277 | Moves last activity to now and nothing else |
| `Tunnel.IdleWatchdog.Wake` | src/mnemostroma/proxy/tunnel.py:280-303 | Cuts iff the timeout has passed without activity, else sleeps for what is left |
| `Tunnel.CutOnlyWhenSilent` | src/mnemostroma/proxy/tunnel.py:280-303 | However late the timers, a tunnel is cut only after the timeout with no byte either way |
| `Tunnel.WakeIsDue` | src/mnemostroma/proxy/tunnel.py:293-301 | The next wake-up is never later than last activity plus timeout |
| `Tunnel.IdealCutExact` | src/mnemostroma/proxy/tunnel.py:280-303 | With ideal timers the cut comes exactly the timeout after the last byte |
| `Tunnel.WatchdogFollowsRule` | src/mnemostroma/proxy/tunnel.py:280-303 | For every pattern of traffic the sleeping loop cuts at the moment the plain rule names |
| `Tunnel.BusyTunnelLives` | src/mnemostroma/proxy/tunnel.py:280-303 | Traffic whose gaps stay below the timeout is never cut before its last byte plus the timeout, however long it runs |
| `Tunnel.Slots.TryAcquire` | src/mnemostroma/proxy/tunnel.py:34-39 | Takes a slot iff one is free: the step of the slot machine |
| `Tunnel.Slots.Release` | src/mnemostroma/proxy/tunnel.py:42-44 | Gives exactly one back: the step of the slot machine |
| `Tunnel.Slots.RunTunnel` | src/mnemostroma/proxy/tunnel.py:118-160 | A tunnel is served iff a slot is free, and leaves the counter as it found it |
| `Tunnel.SlotsExact` | src/mnemostroma/proxy/tunnel.py:118-160 | In every run the counter is the number of running tunnels and never passes the limit |
| `Relays.RunKeepsInv` | src/mnemostroma/proxy/tunnel.py:205-265 | Every run keeps: a relay is asked to stop only by the watchdog, an outer cancellation or a failed sibling; after waiting, each relay has ended or has been asked to |
| `Relays.CleanEndSparesSibling` | src/mnemostroma/proxy/tunnel.py:232-256 | A clean end never cancels the other direction |
| `Relays.FailureTearsDown` | src/mnemostroma/proxy/tunnel.py:232-256 | After an exception the other direction has ended or been cancelled, at the latest at the next wake-up |
| `Relays.IdleTimeoutStopsBoth` | src/mnemostroma/proxy/tunnel.py:295-303 | Once the idle watchdog has fired, each direction has ended or been asked to stop, and the waiting call can always move on |
| `Relays.ReturnsOnlyWhenBothEnded` | src/mnemostroma/proxy/tunnel.py:257-265 | The call gets past its draining only when both directions have ended |
| `Relays.InterruptedLeavesNoneUnasked` | src/mnemostroma/proxy/tunnel.py:257-265 | Cancelled once more while draining it ends at once, and every relay has ended or been asked to |
| `Relays.DrainingCanFinish` | src/mnemostroma/proxy/tunnel.py:257-265 | Once torn down, an unfinished relay can always take its cancellation |
| `Registry.ResolveClient` | src/mnemostroma/proxy/registry.py:15-41 | Returns the exact claimant, else a claimant of the longest matching suffix; nobody iff no enabled client names the host or has a wildcard of a domain it lies below |
| `Registry.MatchesExactly` | src/mnemostroma/proxy/registry.py:26-31 | True iff a non-wildcard pattern equals the host |
| `Registry.BestSuffix` | src/mnemostroma/proxy/registry.py:33-41 | The longest suffix among a client's wildcards that ends the host |
| `Registry.MatchesBelowDot` | src/mnemostroma/proxy/registry.py:33-38 | A wildcard *.d matches exactly the hosts of the form x.d, letter case aside |
| `Registry.UnclaimedIffUncovered` | src/mnemostroma/proxy/registry.py:23-41 | Any answer is nobody iff no enabled client names the host or has a wildcard of a domain it lies below |
| `Registry.NormalizeExact` | src/mnemostroma/proxy/registry.py:23 | Letter case and trailing dots of a host do not count, and nothing else is dropped |
| `Registry.FinalDotIgnored` | src/mnemostroma/proxy/registry.py:23 | A host with a final dot resolves as the one without |
| `Registry.Validate` | src/mnemostroma/proxy/validation.py:63-83 | Accepts iff every client has hosts and, to intercept, a hook, and no two ids share a pattern; each rejection names a fault that is there |
| `Registry.CheckHosts` | src/mnemostroma/proxy/validation.py:70-78 | Fails only on a real collision, else every pattern is on record under its owner |
| `Registry.SuffixOwner` | src/mnemostroma/proxy/registry.py:33-41 | Claims of equal length on one host belong to one client id |
| `Registry.ResolutionOrderIndependent` | src/mnemostroma/proxy/registry.py:15-41 | For an accepted registry the resolved id is the same for every order of profiles and patterns |
| `Registry.AnswerUnique` | src/mnemostroma/proxy/registry.py:15-41 | With distinct ids the answer is one and the same profile |
| `Inject.AgentFile.Inject` | src/mnemostroma/setup/inject.py:40-64 | Creates the file, leaves an injected one alone, or appends the block behind one blank line |
| `Inject.AgentFile.Undo` | src/mnemostroma/setup/inject.py:67-98 | Reports a missing file or marker without touching anything, else rewrites the file without the block |
| `Inject.OutsideBlock` | src/mnemostroma/setup/inject.py:87-95 | The flag loop keeps exactly the lines outside blocks |
| `Inject.UndoAfterInject` | src/mnemostroma/setup/inject.py:78-97 | For any text without the marker, undo after inject gives the text with its trailing newlines replaced by one |
| `Inject.UndoRestoresExactly` | src/mnemostroma/setup/inject.py:78-97 | The original returns character for character iff it ended in exactly one newline |
| `Inject.InjectIdempotent` | src/mnemostroma/setup/inject.py:49-58 | Injecting twice is injecting once |
| `Inject.UndoOfCreated` | src/mnemostroma/setup/inject.py:43-47 | A file created by inject is left as a single newline |
| `Inject.BlockDropped` | src/mnemostroma/setup/inject.py:87-95 | A well-formed block is dropped whole, whatever its body |
| `Inject.UndoKeepsTheRest` | src/mnemostroma/setup/inject.py:78-97 | With any number of blocks in a file, undo takes out every block and keeps all text before, between and behind them, up to the newlines at its end; lines that merely mention the marker stay |
| `Inject.UndoInTheMiddle` | src/mnemostroma/setup/inject.py:78-97 | In particular what was written behind an injected block stays |
| `Inject.UnclosedBlockDropsRest` | src/mnemostroma/setup/inject.py:87-95 | A marker line without an end line takes everything behind it along |
| `Inject.FirstLineExact` | src/mnemostroma/setup/inject.py:83 | A line goes up to its first break and takes it along; a carriage return and its newline are never parted |
| `Inject.ShippedBlockIsGood` | src/mnemostroma/setup/protocol.py:3-16 | The block that ships meets the conditions of these theorems |
| `Recalibrator.ScoreConfig.RunRecalibration` | src/mnemostroma/feedback/recalibrator.py:77-117 | With recalibration on, at least ten sessions and a correlation above the threshold the nudged weights are projected, else nothing changes |
| `Recalibrator.InteriorCycle` | src/mnemostroma/feedback/recalibrator.py:101-117 | Away from the bounds a cycle moves relevance by 0.02 and takes half of that from each of the others, or the reverse |
| `Recalibrator.ProjectBounds` | src/mnemostroma/feedback/recalibrator.py:49-60 | Any three numbers project to weights that sum to 1 and lie in [1/35, 17/19] |
| `Recalibrator.BoundsAttained` | src/mnemostroma/feedback/recalibrator.py:49-60 | Both bounds are attained, outside the declared floor and ceiling |
| `Recalibrator.DeclaredBoundsExact` | src/mnemostroma/feedback/recalibrator.py:23-25 | The declared 0.05 and 0.85 survive for weights that sum to 1 iff the clipped weights still sum to 1 |
| `Recalibrator.DeclaredBoundsAnyWeights` | src/mnemostroma/feedback/recalibrator.py:49-60 | For any weights only one declared bound is at risk: the ceiling when the clipped weights sum to less than 1, the floor otherwise |
| `Recalibrator.CyclesSaturate` | src/mnemostroma/feedback/recalibrator.py:101-117 | From any weights, 282 positively correlated cycles end at (17/19, 1/19, 1/19) and every later one stays there |
| `Recalibrator.LastCycle` | src/mnemostroma/feedback/recalibrator.py:101-117 | With both lesser weights at most 0.06 one cycle lands there |

## Left out

- Models, tokenizers, numerics and the pattern engine: token counts, distances, scores, labels, word ids and offsets are parameters, and the four separator patterns are modelled as matchers.
- Floating point: floats are exact reals, so rounding of 0.7, 0.8, scores, weights and clocks is not captured; vector normalisation and dimensions are part of the abstract distance.
- The time-weighted branch of the query, saving and loading the matrix, and its capacity helpers: they would only add easy members.
- The rerank and scoring stage of semantic search: per-candidate relevance is not a property of that code.
- The content index, anchors and the contexts in which the session index is absent.
- Briefs are values: appending to a brief's chunk list is modelled as replacing the brief in RAM, so aliasing of a brief held elsewhere is not captured.
- One clock and memory reading per eviction, where the code reads the clock anew for each sort key; flushing, telemetry and logging of evictions.
- SystemContext.SystemContext.Hydrate: starts from an empty context, as at start-up; hydrating a context in use is not modelled.
- SystemContext.SystemContext.CheckAndEvict: the session count is read before pending writes are flushed; RAM is taken not to change during that await (the run theorems allow any count at any moment).
- SessionFaithful.HydrationMatchesRebuild: all vectors have the dimension of the index; one of another dimension is withheld by storage and makes the code's rebuild raise while adding rows.
- SystemContext.SystemContext.SemanticCandidates: embedding the query and the absence of an embedder are not modelled.
- IPC pool, relays and outbox runs are state machines on values, because their methods suspend between steps; starting and stopping the pool and failures of start are not modelled.
- IpcPool.RunAligned: requires that no call is cancelled while its request is in flight; the exact effect of such a cancellation is proved beside it.
- IpcServer.HandleClient: the content of results and error texts is not modelled.
- Outbox.GatewayOutbox.FetchReadyBatch: rows due at the same second come in arbitrary order, and the reading is atomic.
- OutboxRuns.RunKeepsInv: one worker, times not before 1970, and statements that either take effect or are lost with the batch; SQL failures and the audit table are not modelled.
- The worker's mark after a delivery is taken to follow it at the same clock reading.
- Registry.Validate: port, loopback and credential checks are left out, each a single branch; lower-casing covers ASCII letters.
- Inject.AgentFile.Inject: paths, backups, newline translation and encodings are not modelled.
- SpanStitch.ExtractEntities: building the span tensors, thresholds and entity text values are not modelled.
- BioDecode.Reconstruct: the filter on threshold, stripping and length behind the loop, and the entity text, are not modelled.
- Recalibrator.ScoreConfig.RunRecalibration: the correlation is an input, and logging is not modelled.
- Chunker.ChunkContent: the heuristic counter is one instance of the arbitrary counter; the token count of a joined chunk is not related to the sum over its atoms.
- HTTP, MCP and TLS layers, certificates, command line, tray, services, configuration loading, keyword filters, sentiment, compression and metrics: no deep invariant.
