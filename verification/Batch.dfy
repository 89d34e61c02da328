/** A batch of operations applied as one change, and exactly when a crash inside it can be undone. */
module Batch {
  import opened Prelude
  import opened Steps
  import opened Recovery
  import opened Wal
  import opened Worlds
  import opened Jobs
  import opened Undo
  import opened Lifecycle
  import opened Regions
  import Paths
  import Splice
  import Restart

  datatype Op =
    | OpEdit(edit: Edit)
    | OpCreate(path: Path, content: Bytes)
    | OpDelete(path: Path, seen: Digest)
    | OpMove(from: Path, to: Path, seen: Digest)

  /** One op, validated against the live files. */
  datatype Prepared =
    | Create(path: Path, staged: Bytes)
    | Delete(path: Path, live: Bytes)
    | Move(from: Path, to: Path, live: Bytes)
    | Rewrite(path: Path, live: Bytes, resolved: seq<Splice.FileEdit>, spliced: Bytes)

  function OpPaths(op: Op): seq<Path> {
    match op
    case OpEdit(e) => [e.region.path]
    case OpCreate(p, _) => [p]
    case OpDelete(p, _) => [p]
    case OpMove(from, to, _) => [from, to]
  }

  function PathsOf(p: Prepared): seq<Path> {
    match p
    case Create(path, _) => [path]
    case Delete(path, _) => [path]
    case Move(from, to, _) => [from, to]
    case Rewrite(path, _, _, _) => [path]
  }

  function AllPaths(prepared: seq<Prepared>): seq<Path> {
    if prepared == [] then [] else AllPaths(prepared[..|prepared| - 1]) + PathsOf(prepared[|prepared| - 1])
  }

  /** What one op leaves on the paths it touches. */
  function PostOne(p: Prepared): map<Path, Option<Bytes>> {
    match p
    case Create(path, staged) => map[path := Some(staged)]
    case Delete(path, _) => map[path := None]
    case Move(from, to, live) => map[from := None, to := Some(live)]
    case Rewrite(path, _, _, spliced) => map[path := Some(spliced)]
  }

  function PostAll(prepared: seq<Prepared>): map<Path, Option<Bytes>> {
    if prepared == [] then map[] else PostAll(prepared[..|prepared| - 1]) + PostOne(prepared[|prepared| - 1])
  }

  /** The disk after one op, and after all of them. */
  function ApplyOne(p: Prepared, disk: Disk): Disk {
    match p
    case Create(path, staged) => Put(disk, path, Some(staged))
    case Delete(path, _) => Put(disk, path, None)
    case Move(from, to, live) => Put(Put(disk, to, Some(live)), from, None)
    case Rewrite(path, _, _, spliced) => Put(disk, path, Some(spliced))
  }

  function ApplyAll(prepared: seq<Prepared>, disk: Disk): Disk {
    if prepared == [] then disk else ApplyOne(prepared[|prepared| - 1], ApplyAll(prepared[..|prepared| - 1], disk))
  }

  /** The op's anchors hold on this disk. */
  predicate Anchored(p: Prepared, disk: Disk) {
    match p
    case Create(path, _) => path !in disk
    case Delete(path, live) => At(disk, path) == Some(live)
    case Move(from, to, live) => At(disk, from) == Some(live) && to !in disk
    case Rewrite(path, live, _, _) => At(disk, path) == Some(live)
  }

  /** The bytes of a touched path the undo needs. */
  function OriginalOf(p: Prepared): map<Path, Bytes> {
    match p
    case Create(_, _) => map[]
    case Delete(path, live) => map[path := live]
    case Move(from, _, live) => map[from := live]
    case Rewrite(path, live, _, _) => map[path := live]
  }

  function FoldIn(intent: Intent, p: Prepared): Intent {
    var more := intent.(originals := intent.originals + OriginalOf(p));
    match p
    case Create(path, _) => more.(creates := more.creates + [path])
    case Delete(path, _) => more.(deletes := more.deletes + [path])
    case Move(from, to, _) => more.(moves := more.moves + [Wal.Move(from, to)])
    case Rewrite(_, _, _, _) => more
  }

  function AfterOf(prepared: seq<Prepared>): map<Path, Option<Digest>> {
    map p | p in PostAll(prepared) :: HashOf(PostAll(prepared)[p])
  }

  function FoldAll(id: IntentId, prepared: seq<Prepared>): Intent {
    if prepared == [] then Intent(id, map[], [], [], [], true, map[])
    else FoldIn(FoldAll(id, prepared[..|prepared| - 1]), prepared[|prepared| - 1])
  }

  /** The one intent of a batch: every op's undo and after-image. */
  function UnifiedIntent(id: IntentId, prepared: seq<Prepared>): Intent {
    FoldAll(id, prepared).(after := AfterOf(prepared))
  }

  /** Every anchor holds at the start, and no path is touched twice. */
  ghost predicate Ready(prepared: seq<Prepared>, disk: Disk) {
    && Paths.DistinctPaths(AllPaths(prepared))
    && forall i :: 0 <= i < |prepared| ==> Anchored(prepared[i], disk)
  }

  ghost function BatchJob(start: Snapshot, id: IntentId, prepared: seq<Prepared>): Job {
    Job(start, id, PostAll(prepared))
  }

  // ---- the bytes of the batch's moves ----

  ghost predicate MoveSafe(op: Prepared, disk: Disk) {
    op.Move? ==> Safe(disk, op.from, op.to, op.live)
  }

  /** The bytes of every move are whole at one of its two paths. */
  ghost predicate MovesSafe(prepared: seq<Prepared>, disk: Disk) {
    forall i :: 0 <= i < |prepared| ==> MoveSafe(prepared[i], disk)
  }

  ghost predicate MovesSafeSince(prepared: seq<Prepared>, before: seq<Snapshot>, trace: seq<Snapshot>) {
    forall k :: |before| <= k < |trace| ==> MovesSafe(prepared, trace[k].disk)
  }

  ghost predicate MoveKept(op: Prepared, before: seq<Snapshot>, trace: seq<Snapshot>, residue: seq<Residue>) {
    op.Move? && NotUndone(op.from) !in residue ==> SafeSince(before, trace, op.from, op.to, op.live)
  }

  /**
   * The bytes of every move are whole at one of its two paths at every snapshot, but for a move whose
   * source could not be restored and is named.
   */
  ghost predicate MovesKept(prepared: seq<Prepared>, before: seq<Snapshot>, trace: seq<Snapshot>,
                            residue: seq<Residue>) {
    forall i :: 0 <= i < |prepared| ==> MoveKept(prepared[i], before, trace, residue)
  }

  lemma SafeMovesAreKept(prepared: seq<Prepared>, before: seq<Snapshot>, trace: seq<Snapshot>, residue: seq<Residue>)
    requires MovesSafeSince(prepared, before, trace)
    ensures MovesKept(prepared, before, trace, residue)
  {
    forall i | 0 <= i < |prepared| ensures MoveKept(prepared[i], before, trace, residue) {
      forall k | |before| <= k < |trace| ensures MoveSafe(prepared[i], trace[k].disk) {
        assert MovesSafe(prepared, trace[k].disk);
      }
    }
  }

  /** Two stretches of a trace that both keep the moves' bytes keep them together. */
  lemma KeptFurther(prepared: seq<Prepared>, before: seq<Snapshot>, mid: seq<Snapshot>, trace: seq<Snapshot>,
                    first: seq<Residue>, residue: seq<Residue>)
    requires before <= mid <= trace && MovesKept(prepared, before, mid, first)
             && MovesKept(prepared, mid, trace, residue)
    requires forall p :: NotUndone(p) in first ==> NotUndone(p) in residue
    ensures MovesKept(prepared, before, trace, residue)
  {
    forall i | 0 <= i < |prepared| ensures MoveKept(prepared[i], before, trace, residue) {
      assert MoveKept(prepared[i], before, mid, first) && MoveKept(prepared[i], mid, trace, residue);
    }
  }

  lemma SameDiskSafe(prepared: seq<Prepared>, disk: Disk, mid: seq<Snapshot>, trace: seq<Snapshot>)
    requires MovesSafe(prepared, disk) && forall k :: |mid| <= k < |trace| ==> trace[k].disk == disk
    ensures MovesSafeSince(prepared, mid, trace)
  {
  }

  // ---- the unified intent describes the batch ----

  lemma AppliedOne(op: Prepared, disk: Disk, p: Path)
    requires Paths.DistinctPaths(PathsOf(op))
    ensures At(ApplyOne(op, disk), p) == if p in PostOne(op) then PostOne(op)[p] else At(disk, p)
    ensures p in PostOne(op) <==> p in PathsOf(op)
  {
    assert op.Move? ==> PathsOf(op)[0] != PathsOf(op)[1];
  }

  lemma {:induction false} AppliedContents(prepared: seq<Prepared>, disk: Disk, p: Path)
    requires Paths.DistinctPaths(AllPaths(prepared))
    ensures At(ApplyAll(prepared, disk), p) == if p in PostAll(prepared) then PostAll(prepared)[p] else At(disk, p)
    ensures p in PostAll(prepared) <==> p in AllPaths(prepared)
  {
    if prepared != [] {
      var front, last := prepared[..|prepared| - 1], prepared[|prepared| - 1];
      DistinctSplit(AllPaths(front), PathsOf(last));
      AppliedContents(front, disk, p);
      AppliedOne(last, ApplyAll(front, disk), p);
    }
  }

  lemma DistinctSplit(a: seq<Path>, b: seq<Path>)
    requires Paths.DistinctPaths(a + b)
    ensures Paths.DistinctPaths(a) && Paths.DistinctPaths(b)
    ensures forall p :: p in a ==> p !in b
  {
    forall i, j | 0 <= i < j < |a| ensures a[i] != a[j] { assert (a + b)[i] != (a + b)[j]; }
    forall i, j | 0 <= i < j < |b| ensures b[i] != b[j] { assert (a + b)[|a| + i] != (a + b)[|a| + j]; }
    forall i, j | 0 <= i < |a| && 0 <= j < |b| ensures a[i] != b[j] { assert (a + b)[i] != (a + b)[|a| + j]; }
  }

  lemma ReadyPrefix(prepared: seq<Prepared>, disk: Disk)
    requires Ready(prepared, disk) && prepared != []
    ensures var front, last := prepared[..|prepared| - 1], prepared[|prepared| - 1];
            && Ready(front, disk) && Anchored(last, disk) && Paths.DistinctPaths(PathsOf(last))
            && forall p :: p in AllPaths(front) ==> p !in PathsOf(last)
  {
    DistinctSplit(AllPaths(prepared[..|prepared| - 1]), PathsOf(prepared[|prepared| - 1]));
  }

  lemma {:induction false} FoldedOriginals(id: IntentId, prepared: seq<Prepared>, disk: Disk, p: Path)
    requires Ready(prepared, disk)
    ensures At(FoldAll(id, prepared).originals, p) == if p in AllPaths(prepared) then At(disk, p) else None
    ensures FoldAll(id, prepared).id == id && FoldAll(id, prepared).batch
  {
    if prepared != [] {
      ReadyPrefix(prepared, disk);
      FoldedOriginals(id, prepared[..|prepared| - 1], disk, p);
    }
  }

  lemma UnifiedDescribes(start: Snapshot, id: IntentId, prepared: seq<Prepared>)
    requires Ready(prepared, start.disk)
    ensures Describes(BatchJob(start, id, prepared), UnifiedIntent(id, prepared))
  {
    FoldedOriginals(id, prepared, start.disk, "");
    forall p | p in PostAll(prepared) ensures At(FoldAll(id, prepared).originals, p) == At(start.disk, p) {
      FoldedOriginals(id, prepared, start.disk, p);
      AppliedContents(prepared, start.disk, p);
    }
  }

  lemma {:induction false} PostIsStable(prepared: seq<Prepared>, disk: Disk, i: nat, p: Path)
    requires Ready(prepared, disk) && i < |prepared| && p in PathsOf(prepared[i])
    ensures p in PostAll(prepared) && p in PostOne(prepared[i]) && PostAll(prepared)[p] == PostOne(prepared[i])[p]
  {
    var n := |prepared| - 1;
    ReadyPrefix(prepared, disk);
    AppliedOne(prepared[n], disk, p);
    if i < n {
      var front := prepared[..n];
      assert front[i] == prepared[i];
      PostIsStable(front, disk, i, p);
      AppliedContents(front, disk, p);
      assert p in AllPaths(front);
    }
  }

  lemma {:induction false} MovePaths(prepared: seq<Prepared>, disk: Disk, i: nat)
    requires Ready(prepared, disk) && i < |prepared| && prepared[i].Move?
    ensures prepared[i].from != prepared[i].to && PostOne(prepared[i])[prepared[i].to] == Some(prepared[i].live)
  {
    var n := |prepared| - 1;
    ReadyPrefix(prepared, disk);
    if i < n {
      assert prepared[..n][i] == prepared[i];
      MovePaths(prepared[..n], disk, i);
    } else {
      assert PathsOf(prepared[n])[0] != PathsOf(prepared[n])[1];
    }
  }

  /** A move of the batch moves its file, as the batch's job sees it. */
  lemma {:induction false} MovesItsFile(start: Snapshot, id: IntentId, prepared: seq<Prepared>, i: nat)
    requires Ready(prepared, start.disk) && i < |prepared| && prepared[i].Move?
    ensures MovesFile(BatchJob(start, id, prepared), prepared[i].from, prepared[i].to, prepared[i].live)
  {
    var op := prepared[i];
    assert PathsOf(op)[0] == op.from && PathsOf(op)[1] == op.to;
    MovePaths(prepared, start.disk, i);
    PostIsStable(prepared, start.disk, i, op.from);
    PostIsStable(prepared, start.disk, i, op.to);
  }

  lemma {:induction false} NonEditAmong(prepared: seq<Prepared>, i: nat)
    requires i < |prepared| && !prepared[i].Rewrite?
    ensures SomeNonEdit(prepared)
  {
    if i < |prepared| - 1 { NonEditAmong(prepared[..|prepared| - 1], i); }
  }

  /** Some op of the batch is not an edit. */
  predicate SomeNonEdit(prepared: seq<Prepared>) {
    prepared != [] && (!prepared[|prepared| - 1].Rewrite? || SomeNonEdit(prepared[..|prepared| - 1]))
  }

  /** A batch intent names a lifecycle op exactly when some op of the batch is not an edit. */
  lemma {:induction false} LifecycleIffSomeNonEdit(id: IntentId, prepared: seq<Prepared>)
    ensures HasLifecycleOp(FoldAll(id, prepared)) <==> SomeNonEdit(prepared)
    ensures HasLifecycleOp(UnifiedIntent(id, prepared)) <==> SomeNonEdit(prepared)
  {
    if prepared != [] {
      LifecycleIffSomeNonEdit(id, prepared[..|prepared| - 1]);
    }
  }

  // ---- what a crash inside a batch comes to ----

  /**
   * A batch with an op that is not an edit is put back: whichever step it crashed after before its
   * marker, every touched path that holds what the batch found or left ends as it began, and a path
   * claimed but only half written is left as found and reported.
   */
  lemma {:induction false} CrashedBatchPutBack(start: Snapshot, id: IntentId, prepared: seq<Prepared>, s: Snapshot,
                                               log: seq<Replayed>, final: Progress, p: Path)
    requires Ready(prepared, start.disk) && SomeNonEdit(prepared)
    requires id in s.wal && s.wal[id] == Recorded(UnifiedIntent(id, prepared))
    requires Replays(s.wal, log) && LogSteps(log).Ok? && Alone(BatchJob(start, id, prepared), s.wal)
    requires WellFormed(LogSteps(log).value) && Recovered(LogSteps(log).value, s.disk, final)
    requires p in AllPaths(prepared) && |final.done| == |LogSteps(log).value|
    ensures At(final.disk, p) == if Between(BatchJob(start, id, prepared), s.disk, p) then At(start.disk, p)
                                else At(s.disk, p)
    ensures Named(Restart.LeftOf(LogSteps(log).value, final.done), p)
            <==> !Between(BatchJob(start, id, prepared), s.disk, p)
  {
    var job, steps := BatchJob(start, id, prepared), LogSteps(log).value;
    UnifiedDescribes(start, id, prepared);
    LifecycleIffSomeNonEdit(id, prepared);
    AppliedContents(prepared, start.disk, p);
    UnfinishedJobPutBack(job, UnifiedIntent(id, prepared), s, log, final, p);
    NamedIffUndone(steps, final.done, p);
    if !Between(job, s.disk, p) {
      var t :| t in steps && t.work.path == p;
      var i :| 0 <= i < |steps| && steps[i] == t;
    }
  }

  /**
   * A batch whose marker is durable is left as found: fully applied, unless it is the marker of a
   * failed mark that was kept. All or nothing then holds at exactly those crashes that do not find the
   * batch half taken back.
   */
  lemma {:induction false} LandedBatchStays(job: Job, intent: Intent, kept: bool, s: Snapshot, log: seq<Replayed>,
                                            final: Progress)
    requires LoneSnapshot(job, intent, kept, s) && job.id in s.wal && s.wal[job.id].status == Landed
    requires Replays(s.wal, log) && LogSteps(log).Ok? && Alone(job, s.wal)
    requires WellFormed(LogSteps(log).value) && Recovered(LogSteps(log).value, s.disk, final)
    ensures !kept ==> AllAfter(job, final.disk)
    ensures AllBefore(job, final.disk) || AllAfter(job, final.disk) <==> !Stranded(job, s)
  {
    FinishedJobStays(job, s, log, final);
  }

  /** The log of a world whose only intent is this batch's has one replay. */
  function LoneLog(intent: Intent): seq<Replayed> {
    [Recorded(intent)]
  }

  ghost function LoneSteps(id: IntentId, prepared: seq<Prepared>): Result<seq<Step>, RecoverError> {
    LogSteps(LoneLog(UnifiedIntent(id, prepared)))
  }

  ghost predicate PutBack(prepared: seq<Prepared>, before: Disk, after: Disk) {
    forall p :: p in AllPaths(prepared) ==> At(after, p) == At(before, p)
  }

  /** A recovery from a crash right after the first `k` ops, with nothing else in the log. */
  ghost predicate RecoveredAfter(id: IntentId, prepared: seq<Prepared>, disk: Disk, k: nat, final: Progress) {
    && k <= |prepared| && LoneSteps(id, prepared).Ok? && WellFormed(LoneSteps(id, prepared).value)
    && Recovered(LoneSteps(id, prepared).value, ApplyAll(prepared[..k], disk), final)
  }

  /** Recovery puts every path back from a crash between any two ops, or after the last. */
  ghost predicate UndoneFromEveryOp(id: IntentId, prepared: seq<Prepared>, disk: Disk) {
    forall k, final :: RecoveredAfter(id, prepared, disk, k, final) ==> PutBack(prepared, disk, final.disk)
  }

  /** No op of the batch changes anything: edits that leave the bytes they found. */
  ghost predicate NoOps(prepared: seq<Prepared>) {
    forall i :: 0 <= i < |prepared| ==> prepared[i].Rewrite? && prepared[i].live == prepared[i].spliced
  }

  lemma {:induction false} PrefixIsBetween(prepared: seq<Prepared>, disk: Disk, k: nat, p: Path)
    requires Ready(prepared, disk) && k <= |prepared|
    ensures var now := At(ApplyAll(prepared[..k], disk), p);
            now == At(disk, p) || (p in PostAll(prepared) && now == PostAll(prepared)[p])
  {
    AppliedContents(prepared, disk, p);
    if k == |prepared| {
      assert prepared[..k] == prepared;
    } else {
      var n := |prepared| - 1;
      var front, last := prepared[..n], prepared[n];
      ReadyPrefix(prepared, disk);
      PrefixIsBetween(front, disk, k, p);
      assert front[..k] == prepared[..k];
      AppliedContents(front, disk, p);
      AppliedOne(last, disk, p);
    }
  }

  lemma LoneStepsAre(id: IntentId, prepared: seq<Prepared>)
    ensures LoneSteps(id, prepared) == IntentSteps(Recorded(UnifiedIntent(id, prepared)), 0)
  {
    var log := LoneLog(UnifiedIntent(id, prepared));
    assert log[..0] == [];
    assert LogSteps([]) == Ok([]);
    var own := IntentSteps(log[0], 0);
    if own.Ok? { assert [] + own.value == own.value; }
  }

  lemma {:induction false} NonEditBatchUndone(id: IntentId, prepared: seq<Prepared>, disk: Disk, k: nat,
                                              final: Progress)
    requires Ready(prepared, disk) && SomeNonEdit(prepared) && RecoveredAfter(id, prepared, disk, k, final)
    ensures PutBack(prepared, disk, final.disk)
  {
    var intent := UnifiedIntent(id, prepared);
    var s := Snapshot(ApplyAll(prepared[..k], disk), map[id := Recorded(intent)]);
    var start := Snapshot(disk, map[]);
    UnifiedDescribes(start, id, prepared);
    assert Replays(s.wal, LoneLog(intent));
    var last := RecoveredFrom(LoneSteps(id, prepared).value, s.disk, final);
    forall p | p in AllPaths(prepared) ensures At(final.disk, p) == At(disk, p) {
      PrefixIsBetween(prepared, disk, k, p);
      CrashedBatchPutBack(start, id, prepared, s, LoneLog(intent), final, p);
    }
  }

  /** An edit-only batch leaves recovery nothing to do: its intent reads as a plan that never wrote. */
  lemma {:induction false} EditOnlyBatchIsLeft(id: IntentId, prepared: seq<Prepared>)
    requires !SomeNonEdit(prepared)
    ensures LoneSteps(id, prepared) == Ok([])
  {
    LifecycleIffSomeNonEdit(id, prepared);
    LoneStepsAre(id, prepared);
  }

  lemma {:induction false} EditOnlyPost(prepared: seq<Prepared>, disk: Disk, i: nat)
    requires Ready(prepared, disk) && !SomeNonEdit(prepared) && i < |prepared|
    ensures prepared[i].Rewrite? && prepared[i].path in AllPaths(prepared)
            && At(disk, prepared[i].path) == Some(prepared[i].live)
    ensures prepared[i].path in PostAll(prepared) && PostAll(prepared)[prepared[i].path] == Some(prepared[i].spliced)
  {
    var n := |prepared| - 1;
    ReadyPrefix(prepared, disk);
    if i < n {
      EditOnlyPost(prepared[..n], disk, i);
      assert prepared[..n][i] == prepared[i];
    }
  }

  lemma {:induction false} NoOpsChangeNothing(prepared: seq<Prepared>, disk: Disk, p: Path)
    requires Ready(prepared, disk) && NoOps(prepared)
    ensures At(ApplyAll(prepared, disk), p) == At(disk, p)
    ensures !SomeNonEdit(prepared)
  {
    if prepared != [] {
      ReadyPrefix(prepared, disk);
      NoOpsChangeNothing(prepared[..|prepared| - 1], disk, p);
    }
  }

  /**
   * Exactly when a batch is all-or-nothing across crashes: recovery puts every path back from a crash
   * between any two ops if and only if some op of the batch is not an edit, or no op changes anything.
   */
  lemma {:induction false} BatchUndoneIff(id: IntentId, prepared: seq<Prepared>, disk: Disk)
    requires Ready(prepared, disk)
    ensures UndoneFromEveryOp(id, prepared, disk) <==> SomeNonEdit(prepared) || NoOps(prepared)
  {
    if SomeNonEdit(prepared) {
      forall k, final | RecoveredAfter(id, prepared, disk, k, final) ensures PutBack(prepared, disk, final.disk) {
        NonEditBatchUndone(id, prepared, disk, k, final);
      }
    } else {
      EditOnlyBatchIsLeft(id, prepared);
      if NoOps(prepared) {
        forall k, final | RecoveredAfter(id, prepared, disk, k, final) ensures PutBack(prepared, disk, final.disk) {
          NoOpBatchStays(id, prepared, disk, k, final);
        }
      } else {
        ChangingEditsStay(id, prepared, disk);
      }
    }
  }

  lemma {:induction false} NoOpBatchStays(id: IntentId, prepared: seq<Prepared>, disk: Disk, k: nat, final: Progress)
    requires Ready(prepared, disk) && NoOps(prepared) && RecoveredAfter(id, prepared, disk, k, final)
    requires LoneSteps(id, prepared) == Ok([])
    ensures PutBack(prepared, disk, final.disk)
  {
    forall p | p in AllPaths(prepared) ensures At(final.disk, p) == At(disk, p) {
      PrefixIsBetween(prepared, disk, k, p);
      NoOpsChangeNothing(prepared, disk, p);
      AppliedContents(prepared, disk, p);
      UntouchedPathStays([], p, ApplyAll(prepared[..k], disk), final);
    }
  }

  /** Edits that change something stay half applied, or wholly applied without a marker. */
  lemma {:induction false} ChangingEditsStay(id: IntentId, prepared: seq<Prepared>, disk: Disk)
    requires Ready(prepared, disk) && !SomeNonEdit(prepared) && !NoOps(prepared)
    requires LoneSteps(id, prepared) == Ok([])
    ensures !UndoneFromEveryOp(id, prepared, disk)
  {
    var k := |prepared|;
    assert prepared[..k] == prepared;
    var now := ApplyAll(prepared, disk);
    var final := Progress(now, []);
    NoStepsRecover(now);
    assert RecoveredAfter(id, prepared, disk, k, final);
    var i :| 0 <= i < |prepared| && !(prepared[i].Rewrite? && prepared[i].live == prepared[i].spliced);
    EditOnlyPost(prepared, disk, i);
    AppliedContents(prepared, disk, prepared[i].path);
    assert !PutBack(prepared, disk, final.disk);
  }

  /** An edit that replaces the one byte of a file. */
  function OneByte(path: Path, was: byte, now: byte): Prepared {
    Rewrite(path, [was], [Splice.FileEdit(0, 1, [now])], [now])
  }

  /** The failure on a concrete batch: two edits, a crash between them, and recovery keeps the first. */
  lemma TwoEditsStayHalfApplied(id: IntentId, disk: Disk)
    requires disk == map["a" := [1], "b" := [2]]
    ensures var prepared := [OneByte("a", 1, 3), OneByte("b", 2, 4)];
            && Ready(prepared, disk)
            && RecoveredAfter(id, prepared, disk, 1, Progress(map["a" := [3], "b" := [2]], []))
  {
    var prepared := [OneByte("a", 1, 3), OneByte("b", 2, 4)];
    TwoEditsHalf(prepared, disk);
    assert Paths.DistinctPaths(["a", "b"]);
    LeftAsCrashed(id, prepared, disk, 1);
  }

  /** Recovery leaves an edit-only batch as the crash left it. */
  lemma LeftAsCrashed(id: IntentId, prepared: seq<Prepared>, disk: Disk, k: nat)
    requires !SomeNonEdit(prepared) && k <= |prepared|
    ensures RecoveredAfter(id, prepared, disk, k, Progress(ApplyAll(prepared[..k], disk), []))
  {
    EditOnlyBatchIsLeft(id, prepared);
    NoStepsRecover(ApplyAll(prepared[..k], disk));
  }

  lemma TwoEditsHalf(prepared: seq<Prepared>, disk: Disk)
    requires prepared == [OneByte("a", 1, 3), OneByte("b", 2, 4)] && disk == map["a" := [1], "b" := [2]]
    ensures AllPaths(prepared) == ["a", "b"] && !SomeNonEdit(prepared)
    ensures ApplyAll(prepared[..1], disk) == map["a" := [3], "b" := [2]]
  {
    assert prepared[..1] == [OneByte("a", 1, 3)];
    assert prepared[..1][..0] == [] && prepared[..2] == prepared;
    assert AllPaths(prepared[..1]) == ["a"];
    assert !SomeNonEdit(prepared[..1]);
  }
}
