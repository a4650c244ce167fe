# active-work, verified

A Dafny 4.11 model of the stateful cores of active-work, with proofs about them.
`dafny verify dfyconfig.toml` checks the whole project.

active-work keeps initiatives as plain files (a brief, task files, session files,
an artifacts list) and changes them from many short-lived processes. What it
promises is mostly about sequences of such changes: a reader that resumes where it
stopped, a plan that may be applied twice, a migration that may be interrupted,
ranks and ids that stay distinct, locks that never deadlock. Those promises are
what is stated and proved here.

| modules | what they model |
|---|---|
| Prelude | Option, filtering and a few sequence facts |
| DrainBlobs, DrainResults, DrainIngestor, DrainReader, DrainTrim, DrainTable, DrainConvergence, DrainUnsaved, DrainFlush | mining transcripts for tool-result blobs: the per-line projection, the template store, the incremental reader, which pending ids may be forgotten, the transcript table over runs in which files come and go, the convergence of every way of chunking the reading, and stops after or inside the flush |
| TaskEdges, TaskOps, TaskPlan, TaskPlanText, TaskMeaning, TaskApply, TaskReplies, TaskApplyRuns, TaskApplyCommand, TaskTagEdges, TaskRepeats | `task apply`: the edge check, the ops of a line, parsing and grouping, a run over files and index, safety, re-runs, the report, the tag edges that are not checked, and tasks that list a dep twice |
| LoopContext, LoopTurns, LoopBounds | allotting "see:" lines to open loops, and the bounds of every allotment |
| LockOrder, LockProtocol | taking several initiative locks at once |
| FocusRanks, FocusDense, FocusReplies, FocusCommands, FocusStops, TaskReorder | the focus list as a rank machine, commands stopped between two writes, and task priorities |
| OpenLoopsPlan, OpenLoopsMigration, OpenLoopsSessions, OpenLoopsApply, V3Repairs | the v2 to v3 migration, interrupted anywhere |
| Worktrees, WorktreeMerge | the worktree registry and the v3 to v4 merge |
| MigrationChain | the chain of schema migrations and its runner |
| BranchPrs | pull requests of tracked branches |
| StopWords, Terms, DeriveQuery | queries derived from text |
| TaskIds | task numbers and their high-water mark |

Pure source code is a function here; code that works step by step is a class or a
method with loops, proved equal to a function of its inputs, and the laws are
lemmas about that function. What is random, timed or outside the repository is a
parameter: `now` and `date`, the clusterer, the JSON parser and the hash of a
prefix, the worth-keeping signal, the schema check of a task or brief, whether a
write succeeds, path normalisation, the loop retriever, the GitHub snapshot and
which calls to it fail, term frequencies, the word characters of a script.

## What turned out otherwise than written

The code is followed; each point is proved.

- `skill/SKILL.md` calls `task apply` idempotent. A second run is silent exactly when no
  task it reached is given the same tag to add and to remove, or two parents, and none
  that has tag ops is left with a dep listed twice (`TaskApplyRuns.RerunIsSilentIff`; a
  line that never comes to rest is `WaveringNeverRests`).
- Edge checks look at the parent and dep fields only. A line that adds a tag naming a dep
  or a parent, or removes one and so uncovers another, is written unchecked. Exactly when
  it closes a cycle is said by `TaskTagEdges.DepTagIsSafeIff`, `ParentTagIsSafeIff` and
  `RemovedTagIsSafeIff`, with an input for each, and for whole plans by
  `TaskApplyCommand.PlanStaysAcyclicIff`.
- `patchChange` rewrites a dep list that names an id twice, whatever it was asked for, so
  that a tag op which holds already reports a change. In a plan that names no edge it
  fails every line of a task exactly when the task lists a dep twice on disk and some op
  of some line, a tag op or a note that is new, goes through `patchChange`
  (`TaskRepeats.JobThrowsIff`, for whole plans `PlanThrowsIff`; two harmless lines that
  fail so are `HarmlessLinesFail`).
- The comment on `CANDIDATES_PER_LOOP` argues for seven candidates per loop. Six
  are enough and five are not (`LoopBounds.CutIsHarmlessIff`).
- Forgetting all but the newest 256 pending tool ids is invisible exactly when each
  forgotten one belonged to a tool of the generic partition (`DrainTrim.TrimIsInvisibleIff`,
  and `DrainConvergence.ForgettingIsHarmlessIff` for a transcript that is being resumed).
- A watermark is a line boundary of the file it was set in, but not always of the file that
  replaced it: exactly when is `DrainTable.VisitBoundsIff`.
- A stop between the flush and the save of the reader state makes the next pass feed
  again what that one fed: the blobs of both are logged, and the store is as if the first
  had not been exactly when no file it visited had a result worth keeping between its
  resume point and its chunk stop (`DrainUnsaved.UnsavedPassDoubles`). The blobs of a path
  then keep naming it exactly when there were none, or the path has the same place in the
  order of first sight again (`UnsavedPathStaysIff`); a blob that does not is
  `UnsavedIndexIsTaken`.
- A stop inside the flush, between log and templates, leaves counts that no later pass
  brings level with the log again, exactly when something was pending
  (`DrainFlush.StoppedFlushCountsIff`).
- A lock left unrefreshed for ten seconds is taken for one of a crashed process. Two
  processes exclude each other exactly when they share a slug whose lock is never taken so
  from a live holder (`LockProtocol.ExclusiveIff`); with one shared slug and a late
  holder, five steps have both at work (`LockProtocol.LateHolderIsJoined`).
- Re-focusing an entry that is focused already leaves a gap in the ranks unless it
  was the last one (`FocusDense.RefocusStaysDenseIff`).
- `focus` writes the briefs in the order of their slugs. A stop between two writes can
  leave two entries at one rank unless each entry whose rank another one takes has the
  earlier slug (`FocusStops.EveryStopDistinctIff`, an input is `StopLeavesTwoAtOneRank`);
  `unfocus` and `pause` cannot (`StoppedRemovalKeeps`), and either repairs the list
  (`RemovalRepairs`).
- A v2 to v3 run that stops between the copy and the removal of `handoff.md` leaves
  that file for good (`OpenLoopsMigration.HandoffStaysIff`), and the step drops the
  brief's `worktrees`, which only v4 would move, exactly when the brief needs the known
  repair or a mark, and the schema accepts the result
  (`OpenLoopsMigration.WorktreesSurviveIff`; a brief that loses them so is
  `WorktreesAreDropped`).
- The v2 to v3 run takes a session that has the opening session's name for that session.
  If it lacks a step the closing session resolves, the closing one names a loop nobody
  opened; exactly when is `OpenLoopsSessions.ResolvesNameStepsIff`, an input is
  `TakenNameMisleads`.
- The v3 to v4 step calls itself idempotent. Stopped between its two writes it can
  be run again exactly when there was nothing to move (`WorktreeMerge.StopBetweenIsFatalIff`).
- Pruning can take the default away from a registry that needs one; exactly when is
  `Worktrees.PruneKeepsLedIff`.
- `chainProblems` promises single steps; a chain that jumps a version passes, and a
  root at the version jumped over is stuck (`MigrationChain.JumpsAreSound`). A sound chain
  brings every version to its target exactly when each version below it is left by some
  migration (`EveryVersionRunsIff`), and its steps are single exactly when there are target
  minus base of them (`StepsAreSingleIff`).
- Archiving a done task can let its number be issued again; exactly when is
  `TaskIds.ArchiveIsSafeIff`, and exactly which states are safe from then on is
  `TaskIds.SafeIffCovered`.
- `DerivedQuery.terms` promises rarest terms first; up to the limit they stay in
  order of appearance, so that the promise holds exactly when there were more, or that
  order was the right one (`DeriveQuery.DerivedRarestFirstIff`, `ShortTextsKeepOrder`).
- A branch misses its pull request exactly when its repository's bulk list could
  not answer and its own query failed (`BranchPrs.FetchBranchPrs`).

## Model

| member | source | states |
|---|---|---|
| `DrainConvergence.ChunkingConverges` | src/drain/transcript-reader.ts:157-181 | two runs of any non-full passes over one append-only transcript (any chunk limits, any growth in between, no forgotten pending id but generic ones) that end with the same file, both caught up, fed the same blobs, leave the same templates, log, tree snapshot and watermark, and carry pending ids of the same partitions; equal pending ids where at most 256 were ever pending at a pass end |
| `DrainConvergence.EachTranscriptReadsAsOne` | src/drain/transcript-reader.ts:150-181 | for any number of transcripts and any interleaving of such passes: each watermark is on a line boundary, the blobs of a transcript are those of one read up to it, and so are the pending ids, equal or alike in partition |
| `DrainConvergence.ForgettingIsHarmlessIff` | src/drain/reader-state.ts:85-88 | what a visit forgets is harmless, so that resuming reads as one read however the transcript goes on, exactly when every forgotten id is generic |
| `DrainConvergence.DiskIsOneIngest` | src/drain/transcript-reader.ts:223-293 | what any sequence of passes leaves in the store is what one ingest of all their blobs in order leaves, given that a restored snapshot behaves like the tree it was taken from |
| `DrainConvergence.RunKeeps` | src/drain/transcript-reader.ts:223-293 | the invariant tying table, files and fed blobs together holds after every run of appends and resuming passes |
| `DrainConvergence.UnlimitedVisitCatchesUp` | src/drain/transcript-reader.ts:164-176 | a visit without a chunk limit ends at the last completed line |
| `DrainConvergence.PassesProgress` | src/drain/transcript-reader.ts:164-178 | a visited transcript with an unread completed line gets a later watermark, however small the chunk; otherwise the watermark stays |
| `DrainTable.VisitNamesStay` | src/drain/reader-state.ts:90-105 | whatever happened to the files, one visit keeps paths distinct and every index naming its path, feeds blobs only under the visited index, and moves a watermark back only on a rewrite |
| `DrainTable.TableOnlyGrows` | src/drain/reader-state.ts:90-105 | over every run of non-full passes, each with its own options, while files grow, are replaced or removed in between: paths stay distinct, table and blobs of any earlier point are prefixes of the later ones, and every blob fed by then still names the path it named |
| `DrainTable.PassOnlyGrows` | src/drain/reader-state.ts:90-105 | the blobs of one pass name paths it visited |
| `DrainTable.PathsAreSighted` | src/drain/reader-state.ts:95-105 | which path an index names is decided by the order in which paths are first visited, and by nothing else |
| `DrainTable.FallsOnlyOnRewrite` | src/drain/transcript-reader.ts:247-258 | at any step of any such run a watermark falls only where a pass visits the path and its resume point says rewritten, and does fall where the visited file is shorter than the watermark |
| `DrainTable.WatermarksWereBoundaries` | src/drain/transcript-reader.ts:150-156 | over every such run each watermark has stood since some point at which it was a line boundary of its file |
| `DrainTable.OnlyRewritesUnbound` | src/drain/transcript-reader.ts:150-156 | and it is a boundary of the present file unless the file was replaced or removed since then |
| `DrainTable.VisitBoundsIff` | src/drain/transcript-reader.ts:247-276 | after a visit the watermark is a boundary of the file as it is, except exactly when the file is at least as long as the watermark, was not found rewritten, and ends no line at the watermark or later |
| `DrainTable.HiddenRewriteUnbounds` | src/drain/transcript-reader.ts:247-276 | a concrete rewrite that no pass notices and that leaves the watermark in the middle of a line |
| `DrainTable.RewriteNoticedIff` | src/drain/transcript-reader.ts:178-180 | a file read before is found rewritten exactly when it is shorter than the watermark, or both visits check hashes and what the first one read has another |
| `DrainConvergence.NeverRewritten` | src/drain/transcript-reader.ts:247-261 | a transcript that only grew is never taken for a rewritten one, with hashes checked or not |
| `DrainUnsaved.UnsavedPassDoubles` | src/drain/transcript-reader.ts:278-279 | after a pass stopped between the flush and the save of the reader state, and the next one from the old table, over whatever files and with whatever options: the blobs of both are logged, in order, and the store is the one the second pass alone leaves exactly when no file the first visited had a result worth keeping between its resume point and its chunk stop |
| `DrainUnsaved.PassFeedsIff` | src/drain/transcript-reader.ts:157-181 | a pass feeds something exactly when some visited file has, between its resume point and its chunk stop, a completed line with an eligible result, given the tool names pending by then |
| `DrainUnsaved.UnsavedPassRepeats` | src/drain/transcript-reader.ts:241-276 | of each path both passes visit, the second one, over files that may have grown and with its own options and list, feeds first what the first fed, under the index the path has by then, if it gets as far; without a chunk limit it does |
| `DrainUnsaved.FurtherReadRepeats` | src/drain/transcript-reader.ts:157-181 | of two reads resumed at one entry, over a file that may have grown and with any two chunk limits, the one that gets further feeds first what the other fed |
| `DrainUnsaved.PassAtPath` | src/drain/transcript-reader.ts:241-276 | a pass over distinct paths leaves each path with the entry and the blobs that one visit of the entry it had gives, and other paths as they were |
| `DrainUnsaved.UnsavedPassCounts` | src/drain/transcript-reader.ts:278-279 | the counts then follow the log, repeated blobs included |
| `DrainUnsaved.UnsavedNamesStayIff` | src/drain/transcript-reader.ts:278-279 | every blob of the pass that was not saved still names its path in the table of the next exactly when the two orders of first sight agree at each index, new in one of the passes, under which a blob was fed; the whole table keeps its names exactly when the first order begins the second |
| `DrainUnsaved.UnsavedPathStaysIff` | src/drain/transcript-reader.ts:278-279 | the blobs of one path keep naming it exactly when the path had nothing to feed or has the same place in the order of first sight again |
| `DrainUnsaved.UnsavedIndexIsTaken` | src/drain/transcript-reader.ts:278-279 | a concrete transcript whose logged blob names another one after the next pass, which sights a new file first |
| `DrainFlush.StoppedFlushCountsIff` | src/drain/ingestor.ts:122-129 | a flush stopped after any number of its three writes, and whatever later passes feed: the templates are again the summary of the log exactly unless the stop was between log and templates with something pending; the counts then stay short of the log by what was pending |
| `DrainIngestor.FlushOrder` | src/drain/ingestor.ts:122-129 | the log is written first, then the templates, then the trees, and after all three the store has caught up |
| `DrainFlush.SummaryTotal` | src/drain/ingestor.ts:105-116 | the counts of a summary add up to the length of the log |
| `DrainReader.ChunkReadsPrefix` | src/drain/transcript-reader.ts:164-176 | a chunk reads exactly the completed lines of the prefix it stops at |
| `DrainReader.ReadOn` | src/drain/transcript-reader.ts:157-181 | reading to a mark and going on from there with the pending ids carried is reading straight through |
| `DrainReader.ReadsToBoundary` | src/drain/transcript-reader.ts:150-156 | a mark is where a whole read of its prefix ends exactly when it is a line boundary |
| `DrainReader.ReaderState.TranscriptIndexFor` | src/drain/reader-state.ts:95-105 | the first index with the path, or a fresh entry appended; nothing else changes |
| `DrainReader.IngestFound` | src/drain/transcript-reader.ts:191-220 | one eligible blob is ingested under its locator, a screened one is not |
| `DrainReader.IngestLine` | src/drain/transcript-reader.ts:183-221 | one record: its eligible blobs are ingested in order, its results leave the pending map |
| `DrainReader.ReadParsedLine` | src/drain/transcript-reader.ts:169-174 | one line: tool uses are recorded before its results are extracted |
| `DrainReader.ReadTranscript` | src/drain/transcript-reader.ts:157-181 | the loop from a watermark to the chunk limit: the updated entry and the ingested blobs are those of the chunk, and the store is untouched |
| `DrainReader.VisitTranscript` | src/drain/transcript-reader.ts:241-276 | one transcript: missing, unchanged, rewritten or resumed, table and ingestor as the visit prescribes |
| `DrainReader.RunDrainIngest` | src/drain/transcript-reader.ts:223-293 | one whole pass: the table, the store after the flush and after each write of it, and a summary whose numbers count the visits found missing, unchanged, rewritten and scanned |
| `DrainIngestor.RestartIsInvisible` | src/drain/ingestor.ts:56-80 | stopping, saving, loading and going on leaves the same disk as not stopping |
| `DrainIngestor.RunSummarises` | src/drain/ingestor.ts:82-117 | after any run each template stands for its log entries: its count is their number, its exemplar the first one, and every entry has its template |
| `DrainIngestor.SummaryIsUnique` | src/drain/ingestor.ts:82-117 | two such summaries of one log agree on every field the log determines |
| `DrainIngestor.LogFollowsBlobs` | src/drain/ingestor.ts:88-103 | the log gains one entry per blob, in order, each naming where and when its blob was read |
| `DrainIngestor.LogIsAnswers` | src/drain/ingestor.ts:82-103 | each log entry carries what the clusterer answered for its blob, asked after the blobs before it |
| `DrainIngestor.TemplatesAreMade` | src/drain/ingestor.ts:105-116 | each template of a run has the partition of the blob of its first log entry, and the signature answered then |
| `DrainIngestor.MinerIngestor.Create` | src/drain/ingestor.ts:56-80 | starts from what the store holds |
| `DrainIngestor.MinerIngestor.IngestBlob` | src/drain/ingestor.ts:82-117 | the new state is one ingest step; buffered, the store is untouched; unbuffered, it is never behind |
| `DrainIngestor.MinerIngestor.Flush` | src/drain/ingestor.ts:122-129 | buffered, the store catches up and the state is unchanged; the store after each of the three writes |
| `DrainIngestor.IngestRun` | src/drain/ingestor.ts:119-129 | a buffered run plus flush leaves the same three files as the unbuffered run on the same blobs; unbuffered over none, nothing is written |
| `DrainIngestor.MinerStore.AppendOccurrences` | src/drain/store.ts:74-87 | the log is extended, nothing is rewritten |
| `DrainBlobs.CollectToolUses` | src/drain/blob-extract.ts:71-80 | the id and name of every tool use of a record, in order |
| `DrainResults.ResultGives` | src/drain/blob-extract.ts:82-132 | one result of a record with session and time: a blob exactly when it says something; an error says its string or its non-empty parts, a newline between each and the next, anything else stdout, stderr, or both with a newline between, whichever is not blank; the partition is of the tool pending for its id; the blob is eligible exactly when it is an error or the signal says so |
| `DrainResults.RecordGives` | src/drain/blob-extract.ts:105-132 | a whole record: one such blob for each result that says something, in order, named by what is pending by then, and every result id out of the pending map; without session or time nothing |
| `DrainResults.LineGives` | src/drain/transcript-reader.ts:157-221 | a whole line: the tool calls it declares are pending before its results are looked at, the eligible ones are fed in order with the locator of the line, and a line that is no record feeds nothing |
| `DrainBlobs.ExtractBlobs` | src/drain/blob-extract.ts:105-132 | loop and mutable map refine the blobs of a record in block order, and every result id taken out of the pending map, as `DrainResults.RecordGives` says in the fields of the record |
| `DrainBlobs.ExtractOne` | src/drain/blob-extract.ts:105-132 | one block: its blob if it has any text, its id forgotten, as `DrainResults.ResultGives` says in the fields of the block |
| `DrainBlobs.LookupAfter` | src/drain/transcript-reader.ts:171 | setting and deleting in the insertion-ordered map act on lookups as they should |
| `DrainTrim.TrimIsInvisibleIff` | src/drain/reader-state.ts:85-88 | dropping all but the newest 256 ids changes no blob of any later reading, whatever file is read from wherever, exactly when every dropped id belongs to a tool of the generic partition |
| `DrainTrim.TrimForgetsARead` | src/drain/reader-state.ts:85-88 | a concrete map of 257 ids whose trimming shows |
| `TaskApplyCommand.DiskStaysAcyclic` | src/commands/_task-apply-run.ts:97-195 | from an index that agrees with disk and has no parent or dep cycle, after any number of the tasks of a run the files are cycle-free, index and disk agree and no file was written twice, whatever lines are refused and whatever writes fail, so long as no applied line leaves tags naming what leads back to the task |
| `TaskApplyCommand.PlanStaysAcyclicIff` | src/commands/_task-apply-run.ts:97-195 | that condition is exact: the index is acyclic after every line of the run if and only if it holds; a plan whose tag ops name no edge always meets it |
| `TaskApplyRuns.RunKeepsSafe` | src/commands/_task-apply-run.ts:162-195 | agreement and acyclicity are kept by every run |
| `TaskApplyRuns.JobKeepsSafe` | src/commands/_task-apply-run.ts:176-195 | and by one task with several lines, a refusal, a failed write put back in the index, or a line that needed an index that was not loaded |
| `TaskApplyRuns.EntryInStepIff` | src/commands/_task-apply-run.ts:121-143 | one line, applied or refused, keeps the running task the one the index shows, and the index acyclic exactly when the tags the line leaves name nothing that leads back |
| `TaskApply.ChangedTaskAcyclicIff` | src/commands/_task-apply-run.ts:97-110 | a change the edge check lets through leaves the whole graph acyclic exactly when what the tags name, where no field hides them, does not lead back |
| `TaskApply.ChangedTaskKeepsAcyclic` | src/commands/_task-apply-run.ts:97-110 | and always when the tags name no new edge, tag deps carried into the field included |
| `TaskApply.KeyedUpdate` | src/commands/_task-apply-run.ts:112-115 | updating an index entry updates the graph at that id if the entry is the one shown, and nothing otherwise |
| `TaskApply.ShownGraph` | src/tasks/edge-index.ts:61-67 | the graph checked without the other copies of the written id is the graph itself |
| `TaskEdges.AcceptedWriteKeepsAcyclic` | src/tasks/edge-index.ts:93-122 | a write with no reported cycle leaves an acyclic graph acyclic |
| `TaskEdges.RefusedForCycleIff` | src/tasks/edge-index.ts:84-105 | on an acyclic graph a write is refused for a parent or dep cycle exactly when one of the ids it would leave the task with is the task itself or leads back to it |
| `TaskReplies.RefusedIff` | src/tasks/edge-index.ts:57-121 | each error of the check, exactly when: a new id filed under two entries, a parent filed once and in another initiative, a new id that no task has, with the field it would stand in, and a cycle listed after the write and not before it |
| `TaskReplies.LineAnswers` | src/commands/_task-apply-run.ts:97-143 | a line: unchanged, in need of an index not loaded, refused with all errors of the check of what it changed, refused by the schema, or applied with the changes it made, each exactly when; only an applied one changes task or index |
| `TaskReplies.IndexIsLoadedIff` | src/commands/task-apply.ts:69-72 | the run loads the edge index exactly when some line that parsed sets a parent or adds a dep |
| `TaskEdges.ClosesCycleIff` | src/tasks/edge-index.ts:93-105 | changing a node closes a cycle through it exactly when one of its targets is itself or reaches it |
| `TaskEdges.UpdateAcyclicIff` | src/tasks/edge-index.ts:93-105 | and an acyclic graph stays so exactly when none is, of either kind |
| `TaskEdges.ReachabilityListsCycles` | src/tasks/edge-index.ts:93-105 | listing by reachability finds a cycle through an id exactly when there is a closed walk through it |
| `TaskEdges.UpdateAcyclic` | src/tasks/edge-index.ts:93-105 | changing one node can only close cycles through it |
| `TaskEdges.Rotate` | src/tasks/edge-index.ts:93-105 | a closed walk can start at any node it passes |
| `TaskTagEdges.TagLineApplies` | src/commands/_task-apply-run.ts:97-110 | a line of one tag op is applied without a word to the edge check, unless it needs the index in vain |
| `TaskTagEdges.DepTagIsSafeIff` | src/commands/_task-apply-run.ts:97-110 | a line adding a dep tag keeps the graph acyclic exactly when a dep field hides the tag or the tag names another id that does not already depend on the one tagged |
| `TaskTagEdges.ParentTagIsSafeIff` | src/commands/_task-apply-run.ts:97-110 | a line adding a parent tag keeps it acyclic exactly when it fails, the task has a parent by field or earlier tag, or the tag names another id that does not reach the task by parents |
| `TaskTagEdges.RemovedTagIsSafeIff` | src/commands/_task-apply-run.ts:97-110 | a line removing a tag keeps it acyclic exactly when it fails, the task has a parent field, or the first parent its remaining tags name, if any, is another id that does not reach the task by parents |
| `TaskTagEdges.DepTagEscapesCheck` | src/commands/_task-apply-run.ts:97-110 | a concrete add_tag line that is applied to an acyclic graph and closes a dep cycle |
| `TaskTagEdges.ParentTagEscapesCheck` | src/commands/_task-apply-run.ts:97-110 | one that closes a parent cycle |
| `TaskTagEdges.RemovalUncovers` | src/commands/_task-apply-run.ts:97-110 | a concrete remove_tag line that closes a parent cycle by uncovering another parent tag |
| `TaskApplyRuns.RerunIsSilentIff` | src/commands/_task-apply-run.ts:37-80 | after a run in which no line failed, a second run at any later time applies nothing and writes nothing exactly when no task reached was given one tag to add and remove, or two parents, and none that has tag ops is left with a dep listed twice |
| `TaskApplyRuns.PlainRerunIsSilentIff` | src/commands/_task-apply-run.ts:37-80 | of a plan that names no edge by a tag, only the contradictions count |
| `TaskApplyRuns.WaveringNeverRests` | src/commands/_task-apply-run.ts:58-80 | a concrete line that fails on no run and is applied on every one |
| `TaskRepeats.PlanThrowsIff` | src/commands/_task-apply-run.ts:176-195 | over a whole plan that names no edge, and so loads no index, some line fails for want of one exactly when some task lists a dep twice on disk and an op of its lines goes through patchChange; a tag may name an edge only in lines for such a task |
| `TaskRepeats.JobThrowsIff` | src/commands/_task-apply-run.ts:176-195 | one task of such a plan: all its lines fail so, with nothing written, exactly then, and none does otherwise |
| `TaskRepeats.EntriesThrowIff` | src/commands/_task-apply-run.ts:145-174 | the lines of one task throw exactly then, judged by the file alone |
| `TaskRepeats.LineThrowsIff` | src/commands/_task-apply-run.ts:97-110 | one line without edge ops, whatever its tags name, throws exactly when at some op the task by then lists a dep twice and goes through patchChange |
| `TaskRepeats.HarmlessLinesFail` | src/commands/_task-apply-run.ts:145-195 | a concrete task and two lines, a tag it has and done, that both fail, with nothing written |
| `TaskApplyRuns.JobSettles` | src/commands/_task-apply-run.ts:121-143 | one task: settled afterwards exactly when its lines do not conflict |
| `TaskApplyRuns.RerunQuietIff` | src/commands/_task-apply-run.ts:121-143 | lines over one task are all unchanged exactly when each op already holds and, for tag ops, no dep is listed twice |
| `TaskOps.OpSettles` | src/commands/_task-apply-run.ts:58-80 | an op reports a change exactly when it did not hold, or is a tag op on a task with a dep listed twice, which it rewrites; it holds afterwards |
| `TaskOps.OpKeepsStable` | src/commands/_task-apply-run.ts:58-80 | an op undoes another only if the two conflict |
| `TaskOps.OpsAllStable` | src/commands/_task-apply-run.ts:121-133 | after ops without conflicts every one of them holds |
| `TaskOps.NoChangesIff` | src/commands/_task-apply-run.ts:121-133 | a line reports no change exactly when each op already holds and no tag op meets a dep listed twice, and then leaves the task as it is |
| `TaskOps.OpRepeatsNothing` | src/commands/task-edit.ts:206-223 | ops that name no edge by a tag list no dep twice, and a tag op ends what repetition there was |
| `TaskOps.AppendKeepsLines` | src/commands/task-edit.ts:197-200 | an appended line is a line of the notes, and so is every line that was one |
| `TaskOps.OpsOnEdges` | src/commands/_task-apply-run.ts:58-69 | ops change parent and dep only towards what was asked or by dropping repetitions, and without edge tags no tag edge appears |
| `TaskApplyRuns.DryRunPredicts` | src/commands/task-apply.ts:69-79 | a dry run writes nothing and reports line for line what the real run does when no write fails |
| `TaskApplyRuns.WrittenOnce` | src/commands/_task-apply-run.ts:176-195 | each file is written at most once, and only files of the plan |
| `TaskApplyRuns.FilesOutside` | src/commands/_task-apply-run.ts:176-195 | files the plan does not name are untouched |
| `TaskApplyCommand.ReportFollowsPlan` | src/commands/task-apply.ts:69-92 | exactly one result per non-blank plan line, in plan order, whatever was refused, missing or unwritable |
| `TaskReplies.ReportSays` | src/commands/task-apply.ts:64-78 | the report holds each answer of the run at the number of its line, and a line that did not parse is failed with its reason |
| `TaskReplies.AppliedIsWritten` | src/commands/_task-apply-run.ts:176-207 | unless it is a dry run, a task file is written exactly when some line of it is reported as applied |
| `TaskReplies.UnwrittenStay` | src/commands/_task-apply-run.ts:176-207 | a file that was not written is as it was |
| `TaskReplies.CountIs` | src/commands/task-apply.ts:80-84 | each count is the number of results with that outcome |
| `TaskApplyCommand.CountOutcomes` | src/commands/task-apply.ts:80-84 | each count is the number of lines with that outcome, and the counts sum to the lines |
| `TaskApplyCommand.ApplyPlan` | src/commands/task-apply.ts:69-92 | the whole command: report, files, index and writes are those of the run over the old contents, with the edge index loaded only if some valid line has an edge op |
| `TaskApplyCommand.TagPlansNeedNoIndex` | src/commands/task-apply.ts:70-71 | a plan without edge ops writes and reports the same whatever the index would have been |
| `TaskApplyCommand.ApplyGroups` | src/commands/_task-apply-run.ts:214-229 | all initiatives in plan order, each task after the one before |
| `TaskApplyCommand.ApplyTask` | src/commands/_task-apply-run.ts:149-195 | one read, the lines in order, at most one write, every line failing when that write fails or a line needs the index in vain, and the index put back then |
| `TaskApplyCommand.ApplyLine` | src/commands/_task-apply-run.ts:97-143 | one line against the running task: unchanged, in need of an index not loaded, refused, invalid or applied and recorded |
| `TaskApplyCommand.EdgeIndex.RecordTask` | src/commands/_task-apply-run.ts:112-115 | the first entry of that id and initiative gets the new task, no other entry changes |
| `TaskApplyCommand.TaskFiles.WriteYaml` | src/commands/_task-apply-run.ts:162-174 | a failing write leaves the file and the record of writes as they were |
| `TaskPlan.ParsePlan` | src/commands/_task-apply-plan.ts:92-122 | one entry per line in order, a malformed line becomes a failing entry, unknown keys are gathered; which ops is said by `TaskPlanText.LineGives` |
| `TaskPlanText.ParsesIff` | src/commands/_task-apply-plan.ts:34-80 | a raw op parses to an op exactly when the op is one a plan can ask for (a trimmed tag without comma, a note of one line that is not blank, an id the rules accept) and the raw op is its print, up to white space around a tag; every other raw op is refused |
| `TaskPlanText.LineGives` | src/commands/_task-apply-plan.ts:82-122 | a line gives its ops exactly when it is an object with accepted slug and id whose ops all say something, and otherwise the one reason why not, keeping its target where it names one |
| `TaskPlanText.EntriesAre` | src/commands/_task-apply-plan.ts:112-122 | one entry for each line that is not blank, in order, numbered from 0 |
| `TaskPlanText.PlanReadsBack` | src/commands/_task-apply-plan.ts:62-122 | a plan of ops that can be asked for, printed, is read back |
| `TaskMeaning.LineMeans` | src/commands/_task-apply-run.ts:37-80 | after a line: status, parent and each tag are what the last op about it says, a note is a line exactly if it was or is asked for, deps grow as asked and by what tags name alone, and nothing else of the task has changed |
| `TaskMeaning.AddDepCarries` | src/commands/_task-apply-run.ts:47-69 | setting the dep field for the first time carries over exactly the deps tags name that are filed once and not the task itself |
| `TaskMeaning.AppendGoesLast` | src/commands/task-edit.ts:197-200 | an appended line is the last one, and a newline that ended the notes ends them again |
| `TaskPlan.GroupPlan` | src/commands/_task-apply-plan.ts:124-133 | entries grouped by initiative and task in order of first appearance |
| `TaskPlan.GroupedLines` | src/commands/_task-apply-plan.ts:124-133 | grouping loses and doubles no line |
| `TaskPlan.GroupedOk` | src/commands/_task-apply-plan.ts:124-133 | each task occurs in exactly one group, with lines of that task only |
| `LoopContext.RelatedForLoops` | src/bootstrap/loop-context.ts:130-156 | the lazily queried round robin gives the map of querying every loop up front, keeps every notice of a queried loop once and no other, and queries a loop, once, exactly when the round robin comes to its turn with something left of both budgets; what each turn shows is said by `LoopTurns.TurnShows` |
| `LoopTurns.TurnShows` | src/bootstrap/loop-context.ts:104-156 | a turn the allotment comes to: without a free hit nothing changes; the first free hit is shown next under this loop if fewer than six are shown and its cost and theirs stay within 1200; if it does not fit, the allotment ends with what is shown by then |
| `LoopTurns.ArrivalIsBudgeted` | src/bootstrap/loop-context.ts:104-156 | what is left of both budgets is what the hits shown have not used |
| `LoopTurns.AskedIff` | src/bootstrap/loop-context.ts:137-156 | a loop is asked exactly when one of its two turns comes with fewer than six hits shown and fewer than 1200 characters used |
| `LoopContext.NoticesAre` | src/bootstrap/loop-context.ts:86-102 | a loop whose retriever threw has left a notice of its message, and one that answered each of its own |
| `LoopTurns.ShownByPassAndLoop` | src/bootstrap/loop-context.ts:143-156 | the whole list is one hit for some loops, in their order, then a second one for some, in theirs |
| `LoopContext.ArrivalsAreEager` | src/bootstrap/loop-context.ts:141-156 | the states in which it comes to each turn are those of the eager version |
| `LoopContext.QueryLoop` | src/bootstrap/loop-context.ts:70-93 | the hits of one loop, none when the retriever throws, and every notice known afterwards |
| `LoopContext.SpentRounds` | src/bootstrap/loop-context.ts:149-150 | once either budget is gone the eager version changes nothing more |
| `LoopContext.AddDegraded` | src/bootstrap/loop-context.ts:95-102 | every notice is kept once, none is invented |
| `LoopBounds.AllocationBounds` | src/bootstrap/loop-context.ts:111-139 | every allotment: at most 6 hits and 1200 characters, no ref twice, ranks in step, all first hits before any second one, and a second one only after every loop has a hit or nothing left to take |
| `LoopBounds.AtMostTwoPerLoop` | src/bootstrap/loop-context.ts:141-156 | no loop gets more than two hits |
| `LoopBounds.LoopRanks` | src/bootstrap/loop-context.ts:122-123 | the ranks under a loop read 1..k |
| `LoopBounds.CutIsHarmlessIff` | src/bootstrap/loop-context.ts:64-68 | cutting every list of distinct refs to k never changes the result exactly when k is at least six |
| `LoopBounds.AllTakenNeedsMany` | src/bootstrap/loop-context.ts:64-68 | the pigeonhole behind it: n distinct refs all taken need n taken entries |
| `LockProtocol.NeverStuck` | src/commands/focus.ts:148-159 | in every reachable state with something left to do, locks reclaimed from live holders included, some step other than a timeout, a crash or a reclaim can happen |
| `LockProtocol.ExhaustedRunsEndFree` | src/commands/focus.ts:148-159 | a run that can go no further has every process over and every lock free, and only such a run |
| `LockProtocol.AllCanFinish` | src/commands/focus.ts:148-159 | from every reachable state ordinary steps alone take all processes to their end |
| `LockProtocol.ClimbersGetToWork` | src/commands/focus.ts:148-159 | and on such a run every process still acquiring does its work |
| `LockProtocol.LoneDoesItsWork` | src/utils/fs-atomic.ts:77-89 | on any run, a process that shares no slug with another never gives up, and ends, unless it crashes, with its work done |
| `LockProtocol.RunsAreShort` | src/utils/fs-atomic.ts:77-89 | no run is longer than a measure of its start, so every run ends |
| `LockProtocol.ExclusiveIff` | src/utils/fs-atomic.ts:37-40 | two processes are never both at work on any run that reclaims, from live holders, only locks of a given set exactly when they share a slug outside that set |
| `LockProtocol.MutualExclusion` | src/utils/fs-atomic.ts:77-89 | over every run, timeouts, crashes, their stale locks and reclaims of other locks included, two processes that share a slug whose lock is not reclaimed from a live holder are never both at work |
| `LockProtocol.ReclaimLetsIn` | src/utils/fs-atomic.ts:37-40 | a process whose remaining locks are free, or may be reclaimed from live holders, gets to work with every other process left where it is |
| `LockProtocol.BothGetToWork` | src/utils/fs-atomic.ts:37-40 | when each shared slug may be reclaimed, a run from the start has both processes at work |
| `LockProtocol.LateHolderIsJoined` | src/utils/fs-atomic.ts:37-40 | the five steps after which two processes that need the one slug are both at work |
| `LockProtocol.LostIffReclaimed` | src/utils/fs-atomic.ts:37-40 | a live process stops owning a lock of its nested calls exactly at a reclaim |
| `LockProtocol.RunKeepsInv` | src/utils/fs-atomic.ts:77-89 | over every run, reclaims included, what a live process owns is among the locks of its nested calls |
| `LockProtocol.RunLosesNone` | src/utils/fs-atomic.ts:77-89 | and without reclaims it owns exactly those |
| `LockProtocol.ProcessFollowsCalls` | src/commands/focus.ts:148-159 | a process that ends did exactly what the nested calls prescribe: lock in order, run once if it got all, unlock in reverse |
| `LockProtocol.UnsortedOrdersDeadlock` | src/commands/_focus-helpers.ts:56-62 | two processes that lock the same two slugs in opposite orders reach a state with no way on |
| `LockOrder.SortSlugsSorts` | src/commands/_focus-helpers.ts:56-62 | the lock order is ascending and holds exactly the slugs given |
| `LockOrder.SameSlugsSameOrder` | src/commands/_focus-helpers.ts:56-62 | two commands lock in the same order exactly when they need the same slugs |
| `FocusRanks.RunKeepsRanks` | src/commands/focus.ts:72-94 | over every run of new, focus, unfocus, pause and unpause, focused ranks stay positive and pairwise distinct |
| `FocusRanks.SurvivorPlace` | src/commands/unfocus.ts:47-63 | a survivor ends at its place in the ranking, and an entry that is not focused is untouched |
| `FocusRanks.WithoutIs` | src/commands/unfocus.ts:47-55 | the survivors are exactly the other focused entries, each once, by rank |
| `FocusRanks.FocusRewrites` | src/commands/focus.ts:88-138 | focus rewrites the target and the entries it moves, with paused-only fields cleared and the date stamped, and no other brief |
| `FocusRanks.RemovalRewrites` | src/commands/unfocus.ts:57-91 | unfocus and pause rewrite the target and the survivors that move, and no other brief |
| `FocusReplies.FocusAccepts` | src/commands/focus.ts:65-94 | focus goes through exactly when every brief is valid, the slug is listed, and the rank is absent or between 1 and one more than the number of other focused entries; otherwise which error it is |
| `FocusReplies.MalformedStops` | src/commands/_focus-helpers.ts:28-50 | one brief that lacks what its state needs, or has rank zero, stops focus, unfocus, pause and unpause; nothing else about briefs does |
| `FocusReplies.DenseListTakes` | src/commands/focus.ts:79-86 | from 1..n an entry that is not focused can be put at exactly the ranks 1..n+1 |
| `FocusReplies.LastPlace` | src/commands/focus.ts:73-78 | without a rank the entry goes one after the last of the others |
| `FocusReplies.TiesKeepPlaces` | src/commands/focus.ts:37-48 | of entries at one rank the one listed first stays first |
| `FocusReplies.UnfocusAccepts` | src/commands/unfocus.ts:38-63 | unfocus goes through exactly when all briefs are valid and the slug is listed as focused; otherwise which error it is |
| `FocusReplies.NewAdds` | src/commands/new.ts:37-142 | new adds one focused entry, ranked after every other, and leaves the others as they were, in their order |
| `FocusReplies.LoneRewrites` | src/commands/unpause.ts:31-55 | unpause, and the pause of an entry that is not focused, rewrite that brief alone, into exactly the stated one |
| `FocusDense.RemovalRenumbers` | src/commands/unfocus.ts:47-63 | whatever the ranks were, taking an entry out leaves the survivors at exactly 1..n in the order they had |
| `FocusDense.RemovalIsDense` | src/commands/pause.ts:66-87 | unfocus, and pause of a focused entry, go through and end at 1..n |
| `FocusDense.FocusGrows` | src/commands/focus.ts:76-94 | focusing an entry that was not focused takes 1..n to 1..n+1, with the entry at the rank asked for or last |
| `FocusDense.FocusKeepsOrder` | src/commands/focus.ts:88-94 | the other entries keep their order |
| `FocusDense.RefocusStaysDenseIff` | src/commands/focus.ts:76-94 | re-focusing a focused entry leaves 1..m exactly when it was the last one |
| `FocusDense.RefocusingLeavesAGap` | src/commands/focus.ts:76-94 | two entries, the first re-focused, and nothing left at rank 1 |
| `FocusDense.NewIsDense` | src/commands/new.ts:37-59 | a new initiative takes rank n+1 |
| `FocusDense.RunStaysDense` | src/commands/focus.ts:72-94 | from 1..n, a run that never re-focuses an inner entry ends at 1..m |
| `FocusStops.EveryStopDistinctIff` | src/commands/focus.ts:118-138 | no stop of focus between two brief writes leaves two entries at one rank exactly when each entry whose rank another one takes has the earlier slug |
| `FocusStops.StoppedFocusIff` | src/commands/focus.ts:118-138 | after n writes the ranks are distinct exactly when every entry displaced by one already written has been written |
| `FocusStops.StoppedRemovalKeeps` | src/commands/unfocus.ts:67-91 | wherever unfocus, or the pause of a focused entry, stops, ranks stay positive and distinct |
| `FocusStops.RemovalRepairs` | src/commands/unfocus.ts:47-91 | after a stop of focus anywhere, taking any focused entry out ends at 1..n |
| `FocusStops.StopLeavesTwoAtOneRank` | src/commands/focus.ts:118-138 | a concrete list of three and a stop after one write that leaves two entries at rank 2 |
| `FocusCommands.BriefFiles.Focus` | src/commands/focus.ts:65-145 | the command with its change map and its locked write loop: the briefs are those of the specification, after each write those written by then, and an error changes nothing; when it goes through is said by `FocusReplies.FocusAccepts` |
| `FocusCommands.BriefFiles.WriteChanges` | src/commands/focus.ts:118-138 | writing only the changed briefs in lock order gives the whole new list, and after each write the part written by then |
| `FocusCommands.FocusChanges` | src/commands/focus.ts:88-116 | the change map holds the target, and another entry exactly when it moves, with its new rank |
| `FocusCommands.BriefFiles.Renumber` | src/commands/unfocus.ts:67-91 | the target, then each survivor that moved, by rank; after each write the part written by then |
| `FocusCommands.BriefFiles.Unfocus` | src/commands/unfocus.ts:38-95 | not found and not focused are refused without a write; otherwise the specified list |
| `FocusCommands.BriefFiles.Pause` | src/commands/pause.ts:58-115 | not found is refused; survivors are renumbered only when the target was focused |
| `FocusCommands.BriefFiles.Unpause` | src/commands/unpause.ts:31-55 | only a paused entry goes back, with its paused fields and rank cleared |
| `FocusCommands.BriefFiles.ComputeNextRank` | src/commands/new.ts:37-59 | one more than the greatest focused rank |
| `FocusCommands.BriefFiles.New` | src/commands/new.ts:78-142 | an existing slug is refused; otherwise one entry more, last in rank |
| `TaskReorder.TaskDirectory.Reorder` | src/commands/task-reorder.ts:61-107 | the two loops, collecting and performing the writes; unknown id and same priority write nothing |
| `TaskReorder.ReorderKeeps` | src/commands/task-reorder.ts:79-96 | the target ends at the new priority, distinct priorities stay distinct, siblings keep their order |
| `TaskReorder.TargetSits` | src/commands/task-reorder.ts:79-90 | a sibling is before the target afterwards exactly when its priority was below the new one, and only those files are unchanged |
| `TaskReorder.CommandLeavesNoGapIff` | src/commands/task-reorder.ts:61-107 | from priorities 1..n the command leaves 1..m exactly when the task has the asked priority already, or was last and is asked to one of 1..n |
| `TaskReorder.MoveLeavesNoGapIff` | src/commands/task-reorder.ts:79-96 | where it does write, exactly when the task was last and is asked to one of 1..n |
| `OpenLoopsMigration.ResumesToSame` | src/migrations/v2-to-v3-open-loops.ts:393-444 | interrupted any number of times after any write and each time planned afresh, the migration ends with the sessions and brief of one uninterrupted run |
| `OpenLoopsMigration.NothingDuplicated` | src/migrations/v2-to-v3-open-loops.ts:304-315 | at every stop the sessions are the old ones plus some drafts, each at most once and at its own path |
| `OpenLoopsMigration.OpeningComesFirst` | src/migrations/v2-to-v3-open-loops.ts:417-421 | at every stop a closing session is on disk only with its opening one; which draft opens is said by `OpenLoopsSessions.DraftsAre` |
| `OpenLoopsSessions.DraftsAre` | src/migrations/v2-to-v3-open-loops.ts:222-332 | the first draft opens, at the stem of the handoff: its date, its body, every proposed step with id and text; a second one, exactly if a step is abandoned, closes the abandoned ones, with their notes, at the closing date |
| `OpenLoopsSessions.EveryLoopIsOpened` | src/migrations/v2-to-v3-open-loops.ts:222-332 | however often it was stopped, a whole run leaves every proposed step open in the session named for the handoff, unless that name was taken |
| `OpenLoopsSessions.ResolvesNameStepsIff` | src/migrations/v2-to-v3-open-loops.ts:417-421 | at every stop each resolve in a new session names a step of the opening session, exactly if no foreign session of its name lacks an abandoned step or the closing session was there from the start |
| `OpenLoopsSessions.TakenNameMisleads` | src/migrations/v2-to-v3-open-loops.ts:417-421 | a concrete handoff and foreign session after which a closing session closes a loop that no session opened |
| `OpenLoopsMigration.TextNeverLost` | src/migrations/v2-to-v3-open-loops.ts:387-393 | at every stop and at the end the handoff text is in at least one file |
| `OpenLoopsMigration.HandoffStaysIff` | src/migrations/v2-to-v3-open-loops.ts:212-220 | handoff.md outlives the final run exactly when an attempt stopped between copy and removal, or both files were there from the start |
| `OpenLoopsMigration.HandoffStays` | src/migrations/v2-to-v3-open-loops.ts:212-220 | a concrete initiative and stop after which the handoff stays |
| `OpenLoopsMigration.StrandedStays` | src/migrations/v2-to-v3-open-loops.ts:212-220 | once both files are there no later run touches either |
| `OpenLoopsMigration.WorktreesSurviveIff` | src/migrations/v2-to-v3-open-loops.ts:143-210 | the brief keeps its worktrees through this step exactly when the known repair does not apply and there is a mark, or no prefix, or no numbered task file of it, archive included; or the schema refuses the merged brief |
| `OpenLoopsMigration.WorktreesAreDropped` | src/migrations/v2-to-v3-open-loops.ts:143-210 | a concrete brief and task file after which the mark is there and the worktrees are gone |
| `OpenLoopsPlan.NothingToBackfillIff` | src/migrations/v2-to-v3-open-loops.ts:169-187 | the scan of task files finds no mark to write exactly when one is there, or no prefix, or no task file of it numbered above zero |
| `OpenLoopsMigration.OneCutIsHarmless` | src/migrations/v2-to-v3-open-loops.ts:414-435 | one attempt cut anywhere, torn copy included, changes nothing of what a whole run then ends with |
| `OpenLoopsMigration.SessionsLand` | src/sessions/session-file.ts:84-115 | each missing session lands on its exact path: the -1 suffix never fires |
| `OpenLoopsMigration.MigratedIs` | src/migrations/v2-to-v3-open-loops.ts:414-435 | what a whole run leaves: all drafts, the planned brief, the handoff archived and removed unless an archive was there |
| `OpenLoopsPlan.DraftsAreProper` | src/migrations/v2-to-v3-open-loops.ts:317-332 | one or two sessions with different paths, and an error exactly when a step is abandoned without a closing date; what they hold is said by `OpenLoopsSessions.DraftsAre` |
| `OpenLoopsPlan.ClosesTheAbandoned` | src/migrations/v2-to-v3-open-loops.ts:238-265 | the closing session resolves exactly the abandoned steps, each a step of the opening session |
| `OpenLoopsPlan.BriefGains` | src/migrations/v2-to-v3-open-loops.ts:143-210 | a planned brief gains a mark only if it had none, and then one no task file of its prefix exceeds, archive included; state and rank only where the known breakage is; the schema accepts it and everything else but worktrees is kept |
| `OpenLoopsPlan.BriefSettles` | src/migrations/v3-repairs.ts:62-89 | a repaired or backfilled brief is not written again |
| `OpenLoopsApply.InitiativeDirectory.ApplyInitiative` | src/migrations/v2-to-v3-open-loops.ts:414-435 | the writes in order: the files end as planned, and every state on the way is one an interruption can leave |
| `OpenLoopsApply.InitiativeDirectory.WriteSessions` | src/migrations/v2-to-v3-open-loops.ts:418-421 | only the missing sessions, opening first |
| `OpenLoopsApply.InitiativeDirectory.WriteSessionFile` | src/sessions/session-file.ts:109-136 | the stem from the fields of the session, the first free name |
| `OpenLoopsApply.InitiativeDirectory.ArchiveHandoff` | src/migrations/v2-to-v3-open-loops.ts:387-393 | the copy before the removal |
| `OpenLoopsApply.InitiativeDirectory.LocateSessions` | src/migrations/v2-to-v3-open-loops.ts:304-315 | which drafts are on disk, looked up by exact path |
| `OpenLoopsApply.TrailIsInterrupted` | src/migrations/v2-to-v3-open-loops.ts:414-435 | the states a run goes through are those an interruption can leave |
| `OpenLoopsApply.RootAlwaysResumes` | src/migrations/v2-to-v3-open-loops.ts:437-444 | the same for a whole root stopped any number of times at any write |
| `OpenLoopsApply.CutsAre` | src/migrations/v2-to-v3-open-loops.ts:437-444 | a stop after n writes leaves initiatives finished, then one cut short, then the rest untouched |
| `OpenLoopsApply.StoppedRootIs` | src/migrations/v2-to-v3-open-loops.ts:437-444 | in files: after the first n writes of a root some initiatives are as migrated, one may be cut short in its writes, and the rest are untouched |
| `V3Repairs.RepairsResume` | src/migrations/v3-repairs.ts:133-176 | repairs stopped after any of them, planned afresh and run to the end, leave what one whole run leaves |
| `V3Repairs.PlanAheadIsSafe` | src/migrations/v3-repairs.ts:133-158 | planning all repairs before applying any does what planning each in turn does |
| `V3Repairs.PlanRepairs` | src/migrations/v3-repairs.ts:133-158 | one plan per known repair, all against the same disk |
| `V3Repairs.RepairSettles` | src/migrations/v3-repairs.ts:97-122 | a repair done is not done again |
| `V3Repairs.RepairsGive` | src/migrations/v3-repairs.ts:97-176 | after all repairs, said of the files before: a retracked session that was readable and valid and had no known track has track adhoc, no unknown keys and the rest it had; a relocated file is at its target if that was free; anything else is as it was |
| `V3Repairs.KnownRepairsAreSeparate` | src/migrations/v3-repairs.ts:37-49 | the shipped repairs touch different files |
| `Worktrees.Refine` | src/schemas/artifacts.ts:74-107 | the refinement loop with its set of names and its counter raises exactly the issues of the list, in order |
| `Worktrees.NoIssuesIff` | src/schemas/artifacts.ts:74-107 | no issue is raised exactly for a list with unique names and at most one default, which is named |
| `Worktrees.RunKeepsValid` | src/commands/worktree-set.ts:54-106 | over every run of set, set-default, prune and sweeps, names stay unique, defaults named, and at most one default |
| `Worktrees.RunKeepsLed` | src/commands/worktree-set.ts:73-79 | without prune, a registered list with its default keeps exactly one |
| `Worktrees.PruneKeepsLedIff` | src/commands/artifact-prune.ts:126-130 | pruning keeps a default for the registered exactly when it keeps the default, or no registered entry |
| `Worktrees.PruningLosesTheDefault` | src/commands/artifact-prune.ts:126-130 | a concrete list and pruning that leave a registered entry without a default |
| `Worktrees.SetMeans` | src/commands/worktree-set.ts:62-106 | set ends with one entry under the label, at the given path, with what its target knew, default exactly when asked, alone or already so |
| `Worktrees.SetDefaultIff` | src/commands/worktree-set.ts:62-106 | the labelled entry is the default afterwards exactly when that was asked for, no other label is registered, or its label was the default; then it alone is, and otherwise every other entry is as it was |
| `Worktrees.TargetIs` | src/commands/worktree-set.ts:62-84 | what set rewrites: the entry with the label, or else the first unlabelled one at the path |
| `Worktrees.SetSpares` | src/commands/worktree-set.ts:91-99 | every other entry stays, in order, losing at most its default flag to a new default |
| `Worktrees.SetDefaultMeans` | src/commands/worktree-set-default.ts:44-52 | an unknown label is refused; otherwise the labelled entry alone is the default and nothing else changes |
| `Worktrees.SweepAdds` | src/wrap/sweep.ts:157-190 | a sweep adds what it found at the end, without label or default, and leaves the rest |
| `Worktrees.Partition` | src/commands/artifact-prune.ts:79-92 | kept and pruned, each in order |
| `WorktreeMerge.MergeWorktrees` | src/migrations/v3-to-v4-worktrees.ts:61-85 | the in-place loops compute the merge: promote or push, then one default |
| `WorktreeMerge.MergeIsValidIff` | src/migrations/v3-to-v4-worktrees.ts:61-85 | from any list the merge is valid exactly when the list has its fields and no label twice, every label of the brief is non-empty and not registered yet, and the first default of the merged entries, the one kept, is labelled |
| `WorktreeMerge.ValidListMergesIff` | src/migrations/v3-to-v4-worktrees.ts:61-85 | from a valid list, exactly when every label is non-empty and not registered yet |
| `WorktreeMerge.MergeKeepsExisting` | src/migrations/v3-to-v4-worktrees.ts:61-85 | every entry stays at its place; a registered one changes at most by losing a second default |
| `WorktreeMerge.EachLabelOnce` | src/migrations/v3-to-v4-worktrees.ts:66-76 | each label is on exactly one entry, at its path |
| `WorktreeMerge.StopBetweenIsFatalIff` | src/migrations/v3-to-v4-worktrees.ts:105-137 | stopped between the two writes, the step can be run again exactly when there was nothing to move |
| `WorktreeMerge.OneToMoveIsStuck` | src/migrations/v3-to-v4-worktrees.ts:105-137 | a concrete brief that moves, and after such a stop never again |
| `WorktreeMerge.StepSucceedsIff` | src/migrations/v3-to-v4-worktrees.ts:105-137 | the step goes through exactly when there is nothing to move or the merge is valid, and run again after that it changes nothing |
| `WorktreeMerge.InitiativeFiles.Migrate` | src/migrations/v3-to-v4-worktrees.ts:105-137 | artifacts first, brief second; a refused merge writes neither |
| `WorktreeMerge.EachValueMoves` | src/migrations/v3-to-v4-worktrees.ts:45-137 | when the step goes through, each value of the brief with a path is on exactly one entry: under its label, at its path, and the default exactly if the brief said so and no earlier entry is one |
| `WorktreeMerge.EntriesHold` | src/migrations/v3-to-v4-worktrees.ts:45-54 | the entries read off a brief are its values with a path, in order, with label, path and default flag |
| `WorktreeMerge.ToEntries` | src/migrations/v3-to-v4-worktrees.ts:45-54 | the usable values of the brief, in order |
| `MigrationChain.ChainProblems` | src/migrations/index.ts:43-60 | no problems exactly when every migration advances, no version has two and the walk reaches the target; a duplicate reported is one |
| `MigrationChain.Gaps` | src/migrations/index.ts:62-73 | the walk ends for any list and reports where it stops |
| `MigrationChain.DataRoot.RunMigrations` | src/migrations/index.ts:83-125 | terminates for any list; the outcome is that of the walk, and the root has run exactly its steps |
| `MigrationChain.SoundChainsRun` | src/migrations/index.ts:83-125 | a chain without problems takes the base version to exactly its target by steps that join end to end |
| `MigrationChain.AnyVersionOnTheWayRuns` | src/migrations/index.ts:83-125 | and so it does from every version it passes |
| `MigrationChain.StopsAtIff` | src/migrations/index.ts:83-125 | run towards another version than its own target, a sound chain gets there exactly when it passes that version |
| `MigrationChain.WalksAgree` | src/migrations/index.ts:62-73 | the walk of the check goes through exactly when the walk of the runner does |
| `MigrationChain.EveryVersionRunsIff` | src/migrations/index.ts:37-60 | a sound chain brings every version from the base to its target exactly when each version below the target has a migration leaving it |
| `MigrationChain.VersionRunsIff` | src/migrations/index.ts:83-125 | one version is brought there exactly when no version it passes on the way is a dead end |
| `MigrationChain.StepsAreSingleIff` | src/migrations/index.ts:37-60 | the steps from the base are single exactly when there are target minus base of them |
| `MigrationChain.JumpsAreSound` | src/migrations/index.ts:37-60 | a concrete chain that jumps a version is accepted, and a root at the version jumped over cannot move |
| `BranchPrs.FetchBranchPrs` | src/bootstrap/prompt.ts:907-924 | one bulk call per distinct repository, a query of its own only for a branch the list leaves open, and every branch shows its own newest pull request unless that query was needed and failed |
| `BranchPrs.ListRepoPrs` | src/bootstrap/prompt.ts:926-937 | the index holds the first entry of each head, complete exactly when fewer than 200 came back |
| `BranchPrs.ListTellsOwn` | src/bootstrap/prompt.ts:915-920 | an answer from the list is the answer the own query of the branch gives, also past 200 |
| `BranchPrs.ShownFields` | src/bootstrap/prompt.ts:907-945 | what a branch shows is number, state, title and url of the newest entry with its head |
| `BranchPrs.QueriedIff` | src/bootstrap/prompt.ts:907-945 | a branch is queried on its own exactly when the list of its repository failed, or came back with 200 entries and none of its head |
| `BranchPrs.ListAll` | src/bootstrap/prompt.ts:909-912 | each distinct repository is listed once |
| `DeriveQuery.RarestAreLeast` | src/search/derive-query.ts:49-57 | past the limit the pick is the limit least by frequency and then first appearance, in that order |
| `DeriveQuery.DerivedRarestFirstIff` | src/search/derive-query.ts:23-27 | the terms of a derived query before its ids are rarest first exactly when there were more than the limit, or they were so in the text |
| `DeriveQuery.ShortTextsKeepOrder` | src/search/derive-query.ts:49-50 | two concrete terms that stay with the more common one first |
| `DeriveQuery.DerivedQueryIs` | src/search/derive-query.ts:59-68 | nothing repeats, every task id of the text is kept, no hash is picked, and the expression reads back as the terms |
| `DeriveQuery.WordIsQueriedIff` | src/search/derive-query.ts:37-68 | up to the limit, a word set apart in the text is in the query exactly when it is longer than two, no stop word and no hash |
| `DeriveQuery.PickedIff` | src/search/derive-query.ts:37-68 | past the limit a term is in the query exactly when fewer terms than the limit count as rarer |
| `DeriveQuery.HashIff` | src/search/derive-query.ts:35-43 | a hash is seven or more characters, each a digit or one of a to f |
| `DeriveQuery.NamedIdIsQueried` | src/search/derive-query.ts:37-68 | a task id set apart in the text is in the query |
| `DeriveQuery.SortedIs` | src/search/derive-query.ts:52-55 | sorting keeps every term once, in order |
| `Terms.ExpressionReadsBack` | src/search/terms.ts:46-54 | reading the quoted OR expression, doubled quotes undone, gives back the terms in order, whatever they hold |
| `Terms.IdsStayWhole` | src/search/terms.ts:21-44 | a task id set off from the word before and the digit after it is one token and a term |
| `Terms.TermsAre` | src/search/terms.ts:36-44 | the terms are exactly the tokens that are ids or longer than two and no stop words, each once |
| `Terms.WordIsTermIff` | src/search/terms.ts:21-44 | a run of word characters set apart in the text, with no id beginning or ending in it, is a term exactly when it is longer than two and no stop word |
| `Terms.TaskIdIff` | src/search/terms.ts:21-30 | a task id is letters, a hyphen and digits, and nothing else |
| `TaskIds.NeverReissued` | src/commands/task-delete.ts:52-71 | over every run of adds and deletes, a crash between bump and unlink included, no number is issued twice |
| `TaskIds.SafeIffCovered` | src/commands/task-add.ts:55-70 | whatever happened before, later adds and deletes are safe exactly when the mark is corrupt, so that there are no adds, or every issued number is at or below the mark or a file left in tasks/ |
| `TaskIds.ArchiveIsSafeIff` | src/bootstrap/archive-tasks.ts:30-70 | archiving keeps that exactly when the number archived stays at or below the mark or another file |
| `TaskIds.ArchiveMoves` | src/bootstrap/archive-tasks.ts:30-70 | archiving loses no file: the file goes to the archive, and mark and the other files stay |
| `TaskIds.ArchivingReissues` | src/bootstrap/archive-tasks.ts:30-70 | add, archive, add issues number 1 twice |
| `TaskIds.NextIs` | src/commands/task-add.ts:55-70 | the next number is one above the mark and every number in the name or id of a file, and there is one unless the mark is corrupt |
| `TaskIds.TaskDirectory.Add` | src/commands/task-add.ts:61-70 | the number above mark and files; refused when the mark is corrupt; new when the directory was covered |
| `TaskIds.TaskDirectory.Delete` | src/commands/task-delete.ts:39-73 | the mark is raised before the file goes, and only for the highest number |
| `TaskIds.TaskDirectory.MaxFromFilenames` | src/utils/task-seq.ts:87-109 | the greatest number among the file names |

## Left out

- DrainConvergence.ChunkingConverges: says nothing of template equality across several transcripts, which a chunked run interleaves so that the clusterer sees another order; `DrainConvergence.EachTranscriptReadsAsOne` holds for each of them. Passes with `full` restart the table and are not resumes.
- DrainReader.RunDrainIngest: reading, hashing and clustering do not throw, so the error list stays empty; the growth curve, the counters of lines and blobs, and the message for a missing file are not modelled.
- DrainUnsaved.PassAtPath: the paths a pass visits are distinct, as the walk of a directory lists them; what a pass makes of a path listed twice is said by `DrainReader.RunDrainIngest` alone.
- DrainIngestor.RestartIsInvisible: the clusterer is any deterministic machine whose restored snapshot behaves like the original; `@titan-design/cluster` is not part of this model.
- DrainReader.ReaderState.TranscriptIndexFor: the resume point and line splitting follow the contract of the `locator` package (a line is complete at its newline, its length excludes it), which is not part of this model.
- DrainFlush.StoppedFlushCountsIff: each of the three writes happens or not; a log half appended is not modelled.
- DrainBlobs.LookupAfter: integer-like ids, which a JavaScript object lists first when the map is reloaded, keep insertion order here; only which ids a trim drops could differ.
- TaskEdges.AcceptedWriteKeepsAcyclic: `checkEdges` and `readEdges` of the `pm` package are not part of this model; of the first it is used that it lists a cycle through the written id exactly when there is one, of the second that a field hides the tags.
- TaskApplyCommand.ApplyPlan: unreadable task files, an index that fails to load, the locks, the counts per initiative, the report file and the wording of messages are not modelled.
- TaskRepeats.EntriesThrowIff: for a task that repeats no dep on disk, the lines name no edge by a tag; where they do, `TaskRepeats.LineThrowsIff` says it line by line.
- TaskOps.OpSettles: `readEdges` of the `pm` package is taken to list a dep twice if two tags name it, and the schema to accept a dep field that does; a stricter package or schema only removes cases.
- LoopContext.RelatedForLoops: the retriever is any function of the loop; what it excludes and how it ranks is not modelled.
- LockProtocol.RunsAreShort: waiting takes no time here; a timeout may happen whenever a lock is busy, and a crashed holder's lock may expire at any moment.
- LockProtocol.MutualExclusion: a holder whose lock was reclaimed goes on unaware and then lets go only of what is still its own; what `proper-lockfile` makes of a compromised lock is not part of this model. Briefs are read before the locks are taken, so the rank results are about one command at a time; concurrent rank distinctness is not claimed.
- FocusCommands.BriefFiles.Focus: the lists of shifted and renumbered slugs that commands report are not modelled; nor are the order `localeCompare` gives the listing (any order is allowed) and the checks of slugs, dates and lengths among the arguments.
- FocusStops.EveryStopDistinctIff: each brief is written or not; two commands at once are not modelled.
- FocusCommands.BriefFiles.New: where the listing shows the new initiative is a parameter; the other files of a new initiative are not modelled.
- OpenLoopsPlan.DraftsAreProper: an instant carries its minute stamp of 15 to 17 characters; formatting it, validating the proposal and the boilerplate of session bodies are not modelled.
- OpenLoopsMigration.ResumesToSame: writes are atomic but for the handoff copy, which may stop half way; locks are not modelled.
- V3Repairs.RepairsResume: a repair is one atomic write or rename.
- Worktrees.RunKeepsValid: the brief's `updated` stamp, the branches and stashes of an artifacts file, and how git decides what is present are not modelled.
- WorktreeMerge.MergeIsValidIff: the list may be one the schema would refuse, but its entries are records with a path and a repo; an unreadable artifacts file, which the step takes for an empty list, and entries of another shape are not modelled.
- MigrationChain.DataRoot.RunMigrations: a migration is its two versions; what the shipped ones do is modelled apart from the runner.
- BranchPrs.FetchBranchPrs: calls run one after the other against one snapshot; the summary of checks and the git half of the status are not modelled.
- Terms.IdsStayWhole: lower-casing has been done; which characters of other scripts are word characters is a parameter.
- TaskIds.NeverReissued: one prefix, file names in canonical form; a write of the brief that the schema refuses is not modelled.
- Prompt rendering, facets, notes, doctor, lint, dashboards, daemon, launcher, setup and hooks: formatting and process plumbing.
- `wrap` as a whole: not all-or-nothing in the source; only its recording of swept worktrees appears, as a step of the registry.
