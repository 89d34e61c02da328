# A model of the crash-safe edit protocol, and of the text engines under it

Båge edits files on behalf of several writers at once. An edit is planned against what the
files hold, recorded in a write-ahead log, written file by file, marked landed and cleared; after
a crash the log says what to undo. These modules model that protocol as steps that are atomic or
fail, and prove what it comes to from every crash point, together with the byte arithmetic it
rests on and the transformations beside it.

## How the model is laid out

| part | files |
|---|---|
| bytes, paths, digests, the one order of paths | `Prelude`, `Paths` |
| recovery as a theory: steps, visits, runs, crashed runs, what they end in | `Cycles`, `Steps`, `Recovery` |
| the log's records and the undo steps they stand for | `Wal` |
| the disk and the log as a class whose every method is one step that may fail | `Worlds` |
| the restart path, on that class, and the restart path run over and over | `Restart`, `Reruns` |
| what one op owns in a shared log | `Jobs`, `Undo` |
| prepare, commit, create, delete, move, batch | `Prepare`, `Commit`, `Lifecycle`, `MoveRecovery`, `Batch`, `BatchRun`, `Outcomes` |
| any number of ops at once: their locks, and with them their log | `Locks`, `Sessions` |
| splicing, result ranges, line tables, line addressing, relocation | `Splice`, `SharedStarts`, `LineTable`, `LineAddress`, `Regions` |
| the normaliser, the tree copy, the scope arena | `Normalize`, `Trees`, `Scopes` |
| the TOON printer, a decoder for it, what its documents look like, and JSON values | `ToonWords`, `ToonLines`, `Toon`, `ToonDecode`, `ToonPrint`, `ToonLayout`, `Json` |

A crash is not a step. `Worlds.World` keeps a ghost `trace` with one snapshot of the disk and the
log after every atomic step, failed ones included, so a claim about every crash point of an op is
a claim about every snapshot it appended. Failures are left open: each step decides by an
unconstrained choice whether it fails and what a failure leaves behind: a failed append, record,
mark or clear may all have taken effect. A contract therefore covers every combination of these
failures. A recovery is a run that visits steps in any order; it may be cut short
after any prefix and started over any number of times (`Steps.Crashes`), and the statements
about recovery quantify over all of that.

The raw hash is idealised: a digest is the content it was taken from, so two contents share one
only when they are equal. `commit` and the batch take the parser as a function from a path and its
bytes to a tree, and the format, lint and parse floor as a yes or no on the staged bytes.

## What the code does not do

* A batch made only of edits is not all-or-nothing across a crash. Its recorded intent names no
  create, delete or move, so `recover` reads it as a plan that never wrote
  (`src/session.rs:1262-1265`) and clears it, although the comment at `src/session.rs:1219-1220`
  promises that a batch converges backward. `Batch.TwoEditsStayHalfApplied` is a batch of two
  edits that stays half applied, and `Batch.BatchUndoneIff` says exactly when a batch is put back:
  when some op is not an edit, or no op changes a byte.
* A change of two files is not all-or-nothing when its marker fails and the marker's take-back fails
  as well. `append_record` drops the result of the take-back (`src/wal.rs:440-448`), so the files are
  put back one by one under a marker that tells recovery to keep them. The contracts report this in
  a ghost result `kept`. `Commit.KeptMarkerStrandsTwoFiles` is the failing input.
  `Commit.KeptMarkerVerdict` says at which crashes recovery ends all old or all new, and
  `Commit.Commit` says that a commit of two changed files that was put back is all or nothing from each
  of its crashes if and only if the marker was taken back. Without a kept marker
  `Commit.CommitIsAllOrNothing` holds of every crash.
* Edits that start at the same offset are spliced in the opposite order from the one `edit_results`
  assumes. `SharedStarts.InsertionsReportedRightIff` is the exact condition for every list in which
  the edits that share a start are insertions, `SharedStarts.ReportedRightIff` the exact condition for
  every list in which no edit that shares its start shrinks what it replaces, and
  `SharedStarts.ReadsMakeRight` holds of every list. `SharedStarts.PanicsIff` says exactly when a
  report runs below zero, where the program panics after a splice that succeeded; a commit models
  that as the outcome `Panicked`.
* Replacing lines up to the empty line after a final newline, together with other lines, leaves
  that empty line behind: `LineAddress.ReplacedLinesBecomeOne` and
  `LineAddress.AddressedLinesBecomeOne` are equivalences, and this is the case they exclude.
* Normalising a JSON value for printing is not injective: an integer out of the safe range becomes
  the string of its digits, and a safe one prints like the float with its text.
  `Json.NormalizedSameIff` says exactly what is folded together.
* A created file, or a move's destination in a batch, that was only partly filled when the op
  crashed is kept as found and named in the report; the lemmas state both cases.

## Model

| member | source | states |
|---|---|---|
| Cycles.HasCycle | src/session.rs:354-382 | true exactly when the edges, self-loops ignored, contain a directed cycle; the ghost list of popped nodes has no repetition, so the worklist pops each node at most once |
| Cycles.DrainedVerdict | src/session.rs:367-381 | once nothing is free, an edge was left unreleased exactly when there is a cycle |
| Cycles.Release | src/session.rs:369-380 | looking at one edge lowers its target's count if it leads out of the popped node, and frees the target exactly when that count reaches zero |
| Paths.BeforeIsLexicographic | src/session.rs:608-618 | the one order of paths is the lexicographic one: a prefix comes first, otherwise the first differing character decides |
| Recovery.EndsAtSink | src/session.rs:1319-1354 | on a path whose edges are acyclic, no recorded edge, done or not, leads away from the final content, except that of a move source still waiting on its destination |
| Recovery.UndoneIsNotAtTarget | src/session.rs:1325-1349 | a step left undone on an orderable path does not hold its target |
| Recovery.AmbiguousPathStays | src/session.rs:1311-1330 | a path whose recorded edges form a cycle is left as found by every crash of every recovery, and each of its steps stays undone |
| Recovery.WritesAtMostOnce | src/session.rs:1319-1354 | in one run no step writes twice, whatever the order of the visits |
| Recovery.SecondRunWritesNothing | src/session.rs:1226-1230 | a second run over the same log, in any order and however far it gets, leaves the disk as the first left it |
| Recovery.TrailingRunUndone | src/session.rs:1204-1226 | if one path went through pairwise-distinct contents and holds the last, any recovery, after any crashes of its own, ends at the content after the last landed write, or the first content if none landed; the log may also hold records of writes that are not there, as long as it can be ordered |
| Recovery.LandedWriteSurvivesEveryCrash | src/session.rs:1208-1214 | at no point of any recovery does such a path hold content older than the last landed write |
| Recovery.CrashedThenRecovered | src/session.rs:1226-1230 | a recovery that follows a crashed attempt is again a recovery from the disk the crashed attempt began with |
| Wal.BuildSteps | src/session.rs:1235-1304 | the steps of a replayed log: from records, from a lifecycle intent's after-images, forward for a single move, none for a plan that never wrote; an unusable or incomplete intent is an error |
| Wal.LogStepsWellFormed | src/session.rs:1271-1298 | a step waits only on an earlier step of the log |
| Wal.ReplayOfReplays | src/wal.rs:453-480 | reading the intents in the order of their ids reads each one once |
| Wal.UndoStepsContents | src/session.rs:591-603 | the undo steps are exactly those of the listed paths that have an after-image, each back to the original or to absence |
| Wal.RestoresFirstContents | src/session.rs:343-345 | putting restores first drops and adds no step |
| Wal.RestoresFirstKeepsOrder | src/session.rs:341-345 | it puts every restore before every removal and changes the order within neither |
| Wal.LogStepsFail | src/session.rs:1243-1282 | a log makes no steps exactly when some unfinished intent cannot be undone, for a record with no bytes to put back, missing after-images or a move whose bytes are missing, and the first such intent in the log gives the error |
| Wal.AppliedStepsInOrder | src/session.rs:1240-1260 | one step for each record, in the order of the records |
| Wal.MoveStepsInOrder | src/session.rs:1271-1298 | two steps for each move, in order: the write of the destination and the removal of the source that waits for it |
| Wal.UndoStepsInOrder | src/session.rs:591-603 | the undo steps follow the listed paths that have an after-image |
| Wal.IntentStepsAt | src/session.rs:1235-1304 | where each replayed intent's steps sit in the one list of steps |
| Worlds.World.ConvergePath | src/session.rs:1110-1138 | the compare-and-set: the path becomes the target only if it held what was expected; otherwise nothing moves, and a failed write may have landed or not |
| Worlds.World.WriteAndSync | src/session.rs:677-688 | filling a claimed file leaves some prefix of the data at every crash and on failure, all of it on success |
| Worlds.World.Append | src/wal.rs:347-380 | appending an intent leaves, on failure, nothing, a torn record or the whole one |
| Worlds.World.MarkLanded | src/wal.rs:402-450 | a marker is refused without an intent; a failed one is taken back, a crash may fall between, and where the take-back fails as well the marker stays and is reported as `kept` |
| Worlds.World.Replay | src/wal.rs:453-480 | every intent of the log in the order of the file names; reading may fail |
| Restart.AmbiguousPaths | src/session.rs:1306-1323 | the paths of the steps whose edges form a cycle, and no others |
| Restart.VisitStep | src/session.rs:1329-1351 | one turn of the loop body is one visit of the abstract run: a blocked step may only notice that it is already at its target |
| Restart.Converge | src/session.rs:1325-1356 | the loop stops after at most one pass more than there are steps, in a state where no visit can change anything, having followed some run of visits; at every step the bytes of a move that it takes back are whole at one of the two paths, since a pass comes to the restore before the removal |
| Restart.ReportLeft | src/session.rs:1356-1364 | one entry for each step left undone, in log order, with the intent and the path of that step |
| Restart.ReportedIffUndone | src/session.rs:1356-1364 | an intent and a path are reported together exactly when some undone step has both |
| Restart.RecoverReplayed | src/session.rs:1231-1370 | a log that was read and makes no steps is told as malformed, with the intent and the reason, and left alone; any other is mended and cleared, or the I/O or the clear that failed is told |
| Restart.Recover | src/session.rs:1228-1371 | a log that cannot be read or makes no steps is left alone and the error says which; until it starts clearing, every crash leaves the whole log over what a partial run leaves; from then on the disk is final; a complete run ends with an empty log and a report of exactly the steps left undone, each entry of an intent that was unfinished and one of its paths; no byte of a move that is taken back is lost at any step |
| Reruns.RecoverOnce | src/session.rs:1226-1230 | every crash of a recovery, and what a failed one leaves, is an attempt that the next one goes on from |
| Reruns.CommitOutlivesReruns | src/session.rs:1226-1230 | from any crash of a commit with no kept marker, however many recoveries crash while they converge or while they clear, the one that empties the log leaves every file new where the marker was durable and every file old where it was not |
| Reruns.UndoOutlivesReruns | src/session.rs:1226-1230 | the same for a recorded create, delete or batch with an op that is no edit: each path that holds what was found or left ends as found, any other as the crash left it |
| Reruns.BatchOutlivesReruns | src/session.rs:1226-1230 | a batch between its ops is all new in the end where it landed, and all old where it had not and some op is no edit |
| Reruns.BatchRecoveryKeepsMoves | src/session.rs:341-345 | while a recovery takes a recorded batch back, in the order of its passes, each of the batch's moves that the crash found whole at one of its paths stays so at every snapshot, and the next recovery finds it so |
| Reruns.CrashedMovesMovable | src/session.rs:1921-1948 | what any crash of a batch leaves of a move is what that needs |
| Lifecycle.RecoveryTakesBackAt | src/session.rs:1299-1303 | among the steps of any log that has the intent alone on its paths, the restore of a move's source stands before the removal of its destination |
| Reruns.MoveOutlivesReruns | src/session.rs:1215-1218 | a recorded lone move keeps its bytes at one of its two paths after every attempt, and is fully moved in the end |
| Jobs.PathPutBack | src/session.rs:1208-1214 | a path whose steps all lead from what an op left to what it found is put back by any recovery, and every step on it is done |
| Jobs.ForeignPathStays | src/session.rs:1208-1214 | a path that holds what no step expects or aims at is left as found and its steps stay undone |
| Jobs.UntouchedPathStays | src/session.rs:1208-1214 | a path no step is on is never touched |
| Jobs.NamedIffUndone | src/session.rs:1356-1364 | the report names exactly the paths that have a step left undone |
| Jobs.StepIsOwn | src/session.rs:1235-1304 | if no other unfinished intent touches an op's paths, every step on them is the op's own |
| Undo.UndoHeld | src/session.rs:1144-1160 | the undo puts every path back that holds what the op left, moves nothing else, names each path it failed on, and leaves a path that holds anything else untouched and named as changed since; it takes the latest step first but every restore before every removal and names what it names in that order; the bytes of a move are whole at one of its paths at every step, unless restoring the source failed and is named |
| Undo.UndoOrderIsLatestFirst | src/session.rs:1140-1147 | restores go before removals, and each kind from the latest step to the earliest |
| Undo.HalfwaySomewhere | src/session.rs:1144-1160 | two changed paths that are put back one at a time are half put back at some snapshot in between |
| Undo.Abandon | src/session.rs:916-928 | while an undo is unfinished the intent is kept; otherwise it is cleared, and a failed clear is named |
| Prepare.StageLive | src/session.rs:824-835 | once the file is read, each of the three refusals is told exactly when it holds |
| Prepare.PrepareEdits | src/session.rs:805-867 | no source is written at any step; every file with an edit was there, all its edits are found and splice, the result is let through, and its bytes are recorded; the record asks recovery for nothing; a refusal says why and of which file, and leaves the log as it was |
| Prepare.Rollback | src/session.rs:1197-1201 | the plan's own record goes, and its edits do even where the clear fails; no source and no other intent is touched |
| Commit.WriteFile | src/session.rs:962-990 | the write is recorded durably before it is made, and the undo is handed back once the record is durable, so a write that fails after changing the file is still undone |
| Commit.StageMeans | src/session.rs:998-1024 | staging a file finds every edit of the plan on it, in input order, and splices them all; it is a conflict exactly when some edit is not found, and a splice error exactly when the found edits do not splice |
| Commit.CommitLive | src/session.rs:960-992 | once the file is read, a failed resolve is told as a conflict and a failed splice as such, exactly, with nothing written |
| Commit.CommitFile | src/session.rs:945-991 | one file: re-read, re-resolve, splice, record, write; the file ends with its planned bytes or with an undo that puts the old ones back, and a failure or panic says truly why |
| Commit.RollBack | src/session.rs:887-893 | either every path is back and the intent is gone, or the intent stays with records that let recovery finish, and the error names exactly what is not back |
| Commit.Commit | src/session.rs:878-905 | every crash point satisfies `CommitSnapshot`, and what the caller is told agrees with the disk and the log: success means all new bytes and results that describe them, a plain failure all old bytes and no intent; a kept marker comes only with a failure; with none no crash strands files half put back under a marker, and where two changed files are put back under a kept one some crash does; success means that every edit of the plan was found and spliced in its file, each file has one result per edit, files come in path order and no other file is changed; an op told as landed but not cleared has left its durable marker or no record; any other outcome has its reason |
| Commit.CommitIsAllOrNothing | src/session.rs:869-905 | with no other unfinished intent on the plan's paths, a crash at any step and any recovery, itself crashed any number of times, leave every path at its old bytes if the marker is not durable and at its new bytes if it is, with none of them reported |
| Commit.KeptMarkerVerdict | src/wal.rs:440-448 | with or without a kept marker: any recovery from a crash of the commit ends all old or all new if and only if the crash does not find files half put back under a marker; that happens only where a marker was kept |
| Commit.KeptMarkerStrandsTwoFiles | src/wal.rs:440-448 | the failing input: one of two files put back under a kept marker, and a recovery that leaves one old and one new |
| Lifecycle.CreateFile | src/session.rs:1427-1475 | content that the format, lint and parse floor refuses writes nothing and is rejected; an existing file is never touched and is told; a failed create leaves the path absent unless an undo failed and is named; a create that succeeds leaves the content and returns the range, hashes and lines of all of it; until its record is durable nothing but the empty claim is on disk, and one told as landed but not cleared has left its durable marker or no record; a kept marker comes only with a failure |
| Lifecycle.UnlandedCreateIsUndone | src/session.rs:1208-1214 | a create not marked landed is undone by any recovery, unless it crashed mid-write: then the partial file is kept and reported |
| Lifecycle.DeleteSeen | src/session.rs:1497-1538 | once the file is read, an absent one is told as not found and one with other bytes as drift, exactly, with nothing written |
| Lifecycle.DeleteFile | src/session.rs:1489-1538 | only the bytes the caller saw are deleted, and their hash is returned; an absent file is not found and other bytes are a drift, with nothing written; any other failure keeps the file or names it; until the record is durable the file is whole, and a delete told as landed but not cleared has left its durable marker or no record |
| Lifecycle.UnlandedDeleteIsUndone | src/session.rs:1489-1538 | a lone delete not marked landed gets its bytes back from any recovery after a crash at any step; a marked one stays deleted, or as the crash left it where the marker was kept |
| Lifecycle.MoveSeen | src/session.rs:1572-1630 | once the source is read, an absent one is told as not found and one with other bytes as drift, exactly, with nothing written |
| Lifecycle.MoveFile | src/session.rs:1555-1630 | every crash point keeps the whole source content at the source or the destination; no destination, an absent source, other bytes or an existing destination are each told as such and move nothing; a failure before the marker moves nothing unless it is named; success returns the result of the whole destination; until the record is durable the source is there |
| Lifecycle.UnfinishedJobPutBack | src/session.rs:1299-1303 | an unfinished lifecycle intent: each path that holds what the op found or left is put back, any other is kept and reported |
| Jobs.FinishedJobStays | src/session.rs:1206-1207 | a landed, cleared or torn intent makes recovery touch none of its paths |
| MoveRecovery.CrashedMoveIsSafe | src/session.rs:1271-1298 | at every crash of every recovery of a lone move the whole content is at one of the two paths |
| MoveRecovery.RecordedMoveEndsMoved | src/session.rs:1215-1218 | once its intent is recorded a lone move always ends fully moved, whichever step it crashed after, with nothing of it reported |
| Batch.LifecycleIffSomeNonEdit | src/session.rs:1743-1822 | a batch's intent names a create, delete or move exactly when some op is not an edit |
| Batch.UnifiedDescribes | src/session.rs:1702-1745 | the one intent names, for every touched path, what the batch leaves there and what it replaces |
| Batch.CrashedBatchPutBack | src/session.rs:1219-1220 | a batch with an op that is not an edit: any recovery after a crash puts back every path that holds what the batch found or left, and reports exactly the others |
| Batch.LandedBatchStays | src/session.rs:1206-1207 | a batch with a durable marker is left fully applied by any recovery; where the marker was kept, recovery ends all old or all new if and only if the crash does not find it half taken back |
| Batch.BatchUndoneIff | src/session.rs:1262-1265 | a batch is put back from a crash between any two of its ops if and only if some op is not an edit or no op changes anything |
| Batch.EditOnlyBatchIsLeft | src/session.rs:1262-1265 | an edit-only batch's intent yields no steps at all |
| Batch.TwoEditsStayHalfApplied | src/session.rs:1262-1265 | the concrete batch of two edits that recovery leaves half applied |
| BatchRun.BatchPaths | src/session.rs:731-753 | the touched paths in op order, refused exactly when a path is touched twice |
| BatchRun.ValidateEdit | src/session.rs:1804-1821 | once the file is read, each of the four refusals of an edit is told exactly when it holds |
| BatchRun.CheckAnchor | src/session.rs:1765-1789 | a file that was read is refused as not found or as drift exactly when it is |
| BatchRun.ValidateOp | src/session.rs:1743-1822 | a validated op's anchors hold, and the prepared op carries out what was asked, having written nothing; a refused one says truly why |
| BatchRun.ApplyMove | src/session.rs:1921-1948 | the destination is filled before the source goes; a failed step drops the destination again or names it |
| BatchRun.ApplyOps | src/session.rs:1830-1857 | ops in input order with one result each; a failure says how many are to be undone, counting a failed edit, and leaves every later path untouched; the bytes of every move are whole at one of its paths at every step |
| BatchRun.ReportOp | src/session.rs:1861-1898 | one op: an edit reports the range that holds its text, a create or move the whole file, a delete the hash of what it removed |
| BatchRun.PreparedReportable | src/session.rs:1805-1822 | the single edit of a validated op is in the new bytes where it started, so its report never runs off the buffer |
| BatchRun.RollBackBatch | src/session.rs:1679-1699 | every path of the batch is back and the intent gone, or the intent stays for recovery and the error names exactly the paths that are not back; the bytes of every move are whole at one of its paths at every step, unless restoring its source failed and is named; until the record is durable no path is touched |
| BatchRun.ApplyBatch | src/session.rs:1644-1686 | an empty batch, a path touched twice or a failed anchor writes nothing and the first reason is told; otherwise success means every op applied and one result per op in input order, a plain failure every path as it was, and every crash point is one the recovery lemmas start from; no byte of a move is lost at any step, unless restoring its source failed and is named |
| Outcomes.TakenBackIsAsFound | src/session.rs:913-927 | an op that was taken back and left no record has changed neither the disk nor the log |
| Outcomes.CreateLeaves | src/session.rs:1427-1475 | a create that went through put the content at its path and changed nothing else |
| Outcomes.DeleteLeaves | src/session.rs:1489-1538 | a delete that went through removed its path and changed nothing else |
| Outcomes.MoveLeaves | src/session.rs:1555-1630 | a move that went through left the content at the destination alone and changed nothing else |
| Outcomes.BatchLeaves | src/session.rs:1644-1686 | a batch that went through carried out every op as its caller asked, each edit at the place its region was found, and changed no other file |
| Locks.LockList | src/session.rs:791-796 | the sorted, duplicate-free list of the paths, and there is only one such list |
| Locks.NeverDeadlocked | src/session.rs:783-796 | in every state of every run of any number of ops, if one is unfinished some op can take a lock or work and release |
| Locks.WritesChain | src/session.rs:945-991 | each write to a path starts from exactly the bytes the previous one left, and the disk holds what the last one left |
| Sessions.CrashedSessionRecovers | src/session.rs:1228-1371 | any number of commits that lock, read, record, write, undo, mark and clear, stopped in any state: the log they leave always replays, and any recovery leaves each path, whose records that matter were distinct throughout, at the content after its last write that is landed or cleared |
| Sessions.LandedCommitSurvives | src/session.rs:1208-1214 | at no crash of that recovery does the path hold anything older |
| Sessions.EdgesArePending | src/session.rs:1235-1304 | the edges the log records for a path are exactly those of the records whose intents have neither landed nor been cleared |
| Sessions.RecordOrders | src/session.rs:1306-1323 | recording one more write, of a content unlike all that matter on the path, keeps the pending records of the path free of cycles |
| LineTable.AdvanceIsWalk | src/edit.rs:153-164 | the closed form gives the point of a walk byte by byte |
| LineTable.AdvanceGivesNewEnd | src/edit.rs:190-203 | for an accepted edit, the advanced start point is the true point of the new end in the spliced bytes |
| LineTable.BinarySearch | src/region.rs:360-363 | the index of the key, or where it would be inserted |
| LineTable.NewLineIndex | src/region.rs:318-329 | the starts of all lines, one after each newline |
| LineTable.StartsAre | src/region.rs:318-329 | a line starts at the front and after each newline byte, and nowhere else |
| LineTable.TruePointIs | src/edit.rs:138-150 | the column is the distance from the last newline, and the row counts the line starts up to the offset |
| LineTable.PointForByte | src/region.rs:354-379 | for every source and offset, row and column by binary search are row and column by counting |
| LineTable.PointAt | src/edit.rs:138-150 | the loop gives the true point of an offset clamped to the end |
| Splice.SpliceEdits | src/edit.rs:106-132 | the loop computes the specified splice, or the first overlap or bad range |
| Splice.SpliceIsSubstitution | src/edit.rs:100-132 | with distinct starts a splice succeeds exactly when every range is well-formed, in bounds and apart from the others, and is then simultaneous substitution |
| Splice.SubstituteKeeps | src/edit.rs:100-132 | every byte between two edits is still there, moved by the growth of the edits before it |
| Splice.SpliceErrors | src/edit.rs:106-132 | an error names an edit that is ill-formed or past the bytes, or two edits of the list that share a byte |
| Splice.SpliceIgnoresOrder | src/edit.rs:101-102 | with distinct starts the order of the input does not matter, errors included |
| Splice.EditResults | src/session.rs:1064-1092 | one result per edit in ascending order, each with the range the running delta gives, the lines it spans and the hash of its bytes; none if a range leaves the bytes |
| Splice.ResultsHoldTheirText | src/session.rs:1060-1063 | after a successful splice with distinct starts every reported range is in bounds and holds exactly that edit's text |
| SharedStarts.SpliceIsLandedSubstitution | src/edit.rs:100-132 | for every list of edits: a splice succeeds exactly when the edits, with those at one start in reverse, follow one another in bounds, and is then their simultaneous substitution |
| SharedStarts.InsertionsReportedRightIff | src/session.rs:1070-1088 | where all edits that share a start are insertions, every reported range holds its text if and only if at each start the texts make the same whole in input order and in reverse |
| SharedStarts.ReportedRightIff | src/session.rs:1070-1088 | where no edit that shares its start shrinks what it replaces, every reported range holds its text if and only if each text is found at its place among the texts of its start in reverse |
| SharedStarts.ReadsMakeRight | src/session.rs:1070-1088 | for every list, if each text is found at its place that way then every reported range holds its text |
| SharedStarts.UnsharedReportedRight | src/session.rs:1060-1063 | an edit that shares its start with none is reported right, whatever the others do |
| SharedStarts.PanicsIff | src/session.rs:1074-1076 | a report leaves the buffer after a successful splice exactly when an edit replaces more than its own text and all new bytes before it, and another is given after it at its start |
| Splice.SharedStartCanLeaveTheBuffer | src/session.rs:1074-1076 | a splice that succeeds and whose delta then makes a start negative |
| LineAddress.ReplacedLinesBecomeOne | src/region.rs:340-413 | replacing an in-range run of lines by text without a newline turns it into that one line and keeps every other, if and only if the run is not the empty last line taken together with others |
| LineAddress.LineRangeMeans | src/inspect.rs:1755-1784 | which line addresses name which lines, and which error any other gives |
| LineAddress.AddressMeans | src/inspect.rs:1562-1607 | which addresses name bytes, lines, both or nothing, and that bytes are taken as they stand |
| LineAddress.AddressedLinesBecomeOne | src/inspect.rs:1583-1606 | the same equivalence for every line address as a caller writes it, a last line past the end clamped to the last there is; a first line past the end addresses nothing, and the text joins the last line |
| Regions.MatchNodes | src/region.rs:266-284 | the spans of the matching nodes, each once, in the order first met |
| Regions.ResolvedCarriesHash | src/region.rs:203-231 | an anchored resolve succeeds only on an in-bounds range whose normalised bytes carry the hash |
| Regions.ResolveInPlace | src/region.rs:203-222 | a region without a hash is taken as it stands or is invalid; one whose own range carries its hash stays where it is; without a tree any other cannot be found |
| Regions.ResolveVerdict | src/region.rs:223-243 | away from its place the verdict is shifted, conflict or ambiguous exactly as the nodes of the tree have one, no or several distinct matching spans, and ambiguous says how many |
| Regions.ResolveEditsEach | src/session.rs:998-1024 | every edit of the list is resolved to its own range and text, in order, or the first that is not found gives the error |
| Trees.PreorderIsWithin | src/parser.rs:207-212 | the walk meets exactly the nodes of the tree |
| Trees.Convert | src/parser.rs:540-566 | the cursor and the explicit stack build the copy that recursion child by child would, and stop |
| Trees.CopyIsSame | src/parser.rs:540-566 | the copy has a node wherever the engine's tree has one, with as many children, that says the same of itself |
| Trees.TextLines | src/parser.rs:475-515 | the line nodes partition the file, none empty, each with true points, no line after a final newline |
| Normalize.Normalize | src/normalize.rs:25-62 | the pending-buffer loop equals dropping every carriage return, right-stripping every line and the end, then stripping all leading byte-order marks |
| Normalize.NormalizedExactly | src/normalize.rs:1-19 | the output has no carriage return, no blank before a newline or at the end and no leading mark, and a text is its own output exactly when it has none of them |
| Normalize.NormalFormKeeps | src/normalize.rs:25-62 | byte by byte: what is left is every byte but carriage returns, the blanks that end lines, and the marks that then stand in front |
| Normalize.NormalizeIsIdempotent | src/normalize.rs:14-18 | normalising twice is normalising once |
| Scopes.HoistTarget | src/facts.rs:1587-1597 | the nearest scope of the chain that is no block |
| Scopes.NonclassAncestor | src/facts.rs:1606-1612 | the nearest scope of the chain that is no class body |
| Scopes.Walker.BindNames | src/facts.rs:1485-1497 | which scope each of a node's names goes to, and that no other scope changes |
| Scopes.Walker.Open | src/facts.rs:1500-1530 | the new scope comes last, under the scope around it, or for a Python function under the nearest one that is no class body |
| Scopes.Walker.WalkScopes | src/facts.rs:1473-1564 | the arena is the one that a tour of the tree builds, each node visited in the scope its place gives it; scopes come out once each in document order, parents first; earlier scopes keep their place and only gain names; no Python function sits under a class body; each occurrence is in the scope of its visit |
| Scopes.EveryNameLands | src/facts.rs:1485-1530 | after any walk each visited node has its names in the scopes they belong to, and the scope it opens is there under its parent |
| Scopes.NamesComeFromVisits | src/facts.rs:1485-1530 | and no other name does: every binding, poisoned name and import of a scope was there before or was brought there by some visit |
| Scopes.TourInOrder | src/facts.rs:1473-1564 | the occurrences of a tour are those of the tree, in document order |
| Scopes.ChildIsVisited | src/facts.rs:1548-1562 | each child is visited in the scope its parent opens, or in the parent's own if it opens none or the child is a Rust `else` branch |
| Scopes.OccurrencesAreVisits | src/facts.rs:1536-1546 | the occurrences are those of the visited nodes that are one, in order, each in the scope around its node |
| Scopes.FunctionChainHasNoClass | src/facts.rs:1599-1612 | no class body is on the chain of a Python function scope |
| Scopes.ResolveName | src/facts.rs:2984-3020 | the verdict of the nearest scope that poisons the name, visibly binds it, or imports it with no nested Rust module crossed; undecidable if there is none |
| Scopes.NearestBindingWins | src/facts.rs:2997-3007 | a name the scope itself binds at or before the use, or hoisted, is that binding unless it is poisoned there |
| Scopes.LaterBindingsUnseen | src/facts.rs:2999-3018 | a name bound only later, and poisoned nowhere, is an import exactly when a scope imports it with no nested Rust module between, and otherwise undecidable |
| Scopes.PoisonOnlyUndecides | src/facts.rs:2997-2999 | more poison changes a verdict to undecidable or not at all |
| ToonWords.LooksNumeric | src/render.rs:537-579 | the one scan accepts exactly the decimal literals |
| ToonWords.QuoteString | src/render.rs:498-519 | the quoted text, refused exactly when a character cannot be carried |
| ToonWords.QuotedReadsBack | src/render.rs:498-519 | a quoted text reads back, whatever follows it |
| ToonWords.WordsReadBack | src/render.rs:252-256 | comma-joined words read back, whatever follows them |
| ToonWords.CountReadsBack | src/render.rs:440-441 | a length in decimal reads back |
| ToonLines.LineReadsBack | src/render.rs:209-377 | every kind of line, with its indentation and dash, reads back as itself |
| ToonLines.DocumentReadsBack | src/render.rs:137-142 | joined lines split and read back |
| ToonPrint.MustQuote | src/render.rs:481-495 | the code's checks agree with the specified need for quotes |
| ToonPrint.DetectTabular | src/render.rs:390-418 | a table is found exactly when all items are flat objects with one non-empty key set, and its columns are the first row's keys in order |
| ToonPrint.EncodeArray | src/render.rs:238-275 | the lines of an array after its key, or failure exactly when some text cannot be carried |
| ToonPrint.EncodeArrayItem | src/render.rs:348-386 | the same for an array on a dash line, although the checks run in another order |
| ToonPrint.EncodeObjectItem | src/render.rs:313-342 | the lines of an object as a list item, its first entry on the dash line where it can be |
| ToonPrint.EncodeObject | src/render.rs:209-231 | the lines of an object's entries, or failure exactly when some text cannot be carried |
| ToonPrint.PrintDocument | src/render.rs:137-142 | fails exactly when some key or string cannot be carried; what it prints decodes to the value, up to the order of entries in the rows of tables |
| ToonLayout.PrimitiveText | src/render.rs:457-476 | how a primitive is written |
| ToonLayout.KeyTextIs | src/render.rs:591-615 | a key is bare exactly when it is a name of letters, digits, underscores and points |
| ToonLayout.EscapeTable | src/render.rs:498-519 | which five characters are escaped in quotes, and how |
| ToonLayout.QuotedStrings | src/render.rs:481-495 | strings that are quoted: those with a character that ends words or is escaped, and those that read as another value |
| ToonLayout.BareStrings | src/render.rs:481-495 | strings of ordinary characters stand bare unless a digit, a dash or a blank begins them or a blank ends them |
| ToonLayout.DigitStrings | src/render.rs:481-495 | strings that begin with a digit: a zero too many in front quotes them, and a character no decimal literal has keeps the others bare |
| ToonLayout.CarriableIs | src/render.rs:498-519 | which characters a document cannot carry |
| ToonLayout.TablesAre | src/render.rs:390-418 | an array is a table exactly when it has only objects with primitive values, all with the same keys |
| ToonLayout.FieldLayout | src/render.rs:209-231 | an entry with a primitive is one line: key, colon, value |
| ToonLayout.NestedLayout | src/render.rs:209-231 | an entry with an object is its key and a colon, and the entries two spaces further in |
| ToonLayout.ArrayEntryLayout | src/render.rs:209-231 | an entry with an array is the key and the array |
| ToonLayout.PrimitivesLayout | src/render.rs:238-256 | an array of primitives is one line: length, colon, items with commas between |
| ToonLayout.TableLayout | src/render.rs:257-266 | a table is its length and columns, and its rows two spaces further in |
| ToonLayout.RowLayout | src/render.rs:278-295 | a row is the values under the columns with commas between |
| ToonLayout.ListLayout | src/render.rs:267-275 | any other array is its length, and its items two spaces further in |
| ToonLayout.PlainItemLayout | src/render.rs:299-321 | a primitive or an empty object behind a dash |
| ToonLayout.ArrayItemLayout | src/render.rs:348-386 | an array behind a dash is laid out like any other |
| ToonLayout.ObjectItemLayout | src/render.rs:313-342 | an object behind a dash has its first entry on that line, unless that holds an object; the others follow two spaces further in |
| ToonLayout.EntriesLayout | src/render.rs:209-231 | an object's lines are those of its entries, one after another |
| ToonLayout.ItemsLayout | src/render.rs:267-275 | a list's lines are those of its items, one after another |
| ToonLayout.DocumentLayout | src/render.rs:187-201 | a document is an object's entries, an array or one primitive, with newlines between the lines |
| Json.MarshalToon | src/render.rs:137-142 | from a JSON value: fails exactly when some key or string of it cannot be carried; what it prints decodes to a value that shows the JSON value, up to the order of entries in the rows of tables |
| Json.NormalizedShows | src/render.rs:148-181 | normalising keeps null, truth values, strings, the order of members, float text, and every integer as the numeral that reads back to it, as a string out of the safe range |
| Json.NormalizedIsNormal | src/render.rs:148-161 | normalising gives unique keys and decimal literals, and text that can be carried exactly when the original can |
| Json.NormalizedSameIff | src/render.rs:148-181 | two JSON values normalise to the same exactly when they differ at most in a safe integer against the float with its text, an unsafe integer against the string of its digits, and the sign of zero |
| Json.LiteralReadsBack | src/render.rs:165-176 | the text of an integer, safe or not, gives the integer back |
| Json.SameDocumentSameJson | src/render.rs:137-161 | values that are the same in that sense print one document, and one document means the same normalised value up to the order of entries in table rows |
| ToonDecode.DocumentDecodes | src/render.rs:187-377 | the decoder rebuilds every value with unique keys from its document, with the rows of tables in the first row's order |
| ToonDecode.TidyIsAlike | src/render.rs:278-295 | that reordering keeps exactly the entries of every row and changes nothing else |
| ToonDecode.SameDocumentSameValue | src/render.rs:187-377 | two values with one document are the same up to that reordering |

## Left out

- The legacy shared log and its recovery rules (`src/session.rs:1376-1412`): unconditional writes and removals, which would only add easy members. `Restart.Recover` starts after them.
- The log's file format, its line-by-line decoding and its syncs: a record is atomic, whole, torn or absent.
- Directories made for a new file, and stray files of a crash before the intent is appended: the claims start at the append.
- Recovering while an op is in flight; calling `commit` a second time on a plan whose intent already holds records.
- The parser, its grammars and queries, and the formatter and linter: a function and a yes or no. The per-language tables of node kinds are annotations on an abstract tree, so `Scopes.Walker` says where names go, not which nodes declare them; start and end bytes of scopes are dropped.
- The per-file locks inside the sequential ops: `Locks` models them on their own, as lock lists, reads and writes of any number of ops, and the undo that locks path by path is the one that holds all locks.
- The path inside each `EditResult`: the caller passed it. Which of its steps an op of a batch failed at while it was applied: one I/O error stands for them.
- The reasons inside a conflict, a format, lint or parse refusal: one error each, with the path.
- Creating intent ids: a fresh number, never handed out twice.
- BatchRun.BatchPaths: treats an empty path as a path like any other, where the source skips it, because an empty path names no file: an op on it fails when it is validated, or a create when it is applied. Only the error differs, and only when the empty path is named twice.
- LineAddress.AddressedLinesBecomeOne: a line range is two numbers here instead of the text `L1-L2`, and the resolved bytes come without the refreshed line and column fields, which `LineTable.PointForByte` gives.
- Insertion points (`src/inspect.rs:1630-1680`): single offsets, where inserting after a last line without a newline joins two lines by design.
- The widths of integers: offsets and counts are unbounded.
- How a float becomes text: `Json` holds a float as its shortest decimal text.
- Sessions.CrashedSessionRecovers: a session holds commits only, and the records that matter on the path (their write is there, or recovery would undo it) must bring distinct contents; `Recovery` and `Jobs` cover the other ops one at a time in a shared log.
- The character classes of the standard library: any that agree with ASCII below 128.
- Hash arithmetic, the command line, the editor facade, the language server client, the clipboard, JSON output, error envelopes, outline naming and import extraction: plumbing or lookup tables.
