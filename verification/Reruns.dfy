/**
 * Recovery crashed and started over any number of times, from the snapshots each attempt really leaves:
 * the next attempt reads the log as the last one left it, partly cleared or not.
 */
module Reruns {
  import opened Prelude
  import opened Steps
  import opened Recovery
  import opened Wal
  import opened Worlds
  import opened Jobs
  import opened Undo
  import opened Restart
  import Cycles
  import Lifecycle
  import Commit
  import Batch
  import opened MoveRecovery

  /** One attempt at recovery, stopped at a crash or run to its end. */
  ghost predicate Attempt(a: Snapshot, b: Snapshot) {
    var log := ReplayOf(a.wal);
    && LogSteps(log).Ok? && WellFormed(LogSteps(log).value)
    && exists done :: RecoverSnapshot(LogSteps(log).value, a, done, b)
  }

  /** Attempt after attempt, until one that emptied the log. */
  ghost predicate Attempts(ss: seq<Snapshot>) {
    && ss != [] && Keyed(ss[0].wal) && ss[|ss| - 1].wal == map[]
    && forall k :: 0 < k < |ss| ==> Attempt(ss[k - 1], ss[k])
  }

  /** What one recovery appends to the trace of the world it ran on are attempts. */
  method RecoverOnce(w: World) returns (r: Result<seq<LeftPath>, RecoverFailure>)
    requires w.Valid()
    modifies w`disk, w`wal, w`trace
    ensures w.Valid() && old(w.trace) <= w.trace
    ensures LogSteps(ReplayOf(old(w.wal))).Ok? ==>
              && (forall k :: |old(w.trace)| <= k < |w.trace| ==> Attempt(old(w.Now()), w.trace[k]))
              && Attempt(old(w.Now()), w.Now())
    ensures LogSteps(ReplayOf(old(w.wal))).Ok? ==>
              MovesKeepBytes(LogSteps(ReplayOf(old(w.wal))).value, old(w.disk), old(w.trace), w.trace)
    ensures r.Ok? ==> w.wal == map[]
  {
    var result, log, done := Recover(w);
    r := result;
    if LogSteps(log).Ok? {
      var steps := LogSteps(log).value;
      forall k | |old(w.trace)| <= k < |w.trace| ensures Attempt(old(w.Now()), w.trace[k]) {
        assert RecoverSnapshot(steps, old(w.Now()), done, w.trace[k]);
      }
      assert RecoverSnapshot(steps, old(w.Now()), done, w.Now());
    }
  }

  // ---- one attempt, one path ----

  /** The job's pending entry asks only for the job's own changes to be put back. */
  ghost predicate Undoable(job: Job, r: Replayed) {
    r.status == Pending && AsksPutBack(job, r)
  }

  /** The path can be put back: it is back already, or holds the job's content and has a step. */
  ghost predicate Mendable(job: Job, r: Replayed, disk: Disk, path: Path) {
    At(disk, path) == Before(job, path) || (Between(job, disk, path) && Covers(r, path))
  }

  /** What a finished undo makes of the path: back, or left as found where it holds anything else. */
  ghost function Mended(job: Job, disk: Disk, path: Path): Option<Bytes> {
    if Between(job, disk, path) then Before(job, path) else At(disk, path)
  }

  lemma PartialMovesAlong(steps: seq<Step>, disk: Disk, after: Disk, path: Path)
    requires WellFormed(steps) && PartialRun(steps, disk, after)
    ensures MovedAlong(steps, disk, after, path)
  {
    var disks := [disk, after];
    assert Crashes(steps, disks);
    CrashesMoveAlong(steps, disks, path);
  }

  lemma OneEdgeMoves(steps: seq<Step>, path: Path, pre: Option<Bytes>, post: Option<Bytes>, disk: Disk, after: Disk)
    requires WellFormed(steps) && OnlyUndoes(steps, path, pre, post) && PartialRun(steps, disk, after)
    ensures At(after, path) == At(disk, path) || (At(disk, path) == post && At(after, path) == pre)
  {
    OneEdgeIsOrderable(steps, path, pre, post);
    PartialMovesAlong(steps, disk, after, path);
    var edges := PathEdges(steps, path);
    var was, now := HashOf(At(disk, path)), HashOf(At(after, path));
    if was == HashOf(post) {
      ReachesStaysIn(edges, was, now, {HashOf(post), HashOf(pre)});
    } else {
      ReachesStaysIn(edges, was, now, {was});
    }
  }

  lemma CompleteMends(steps: seq<Step>, path: Path, pre: Option<Bytes>, post: Option<Bytes>, disk: Disk, s: Progress)
    requires WellFormed(steps) && OnlyUndoes(steps, path, pre, post) && CompleteRun(steps, disk, s)
    requires At(disk, path) == post && post != pre ==> exists t :: t in steps && t.work.path == path
    ensures At(s.disk, path) == if At(disk, path) == post then pre else At(disk, path)
  {
    CompleteIsRecovered(steps, disk, s);
    if At(disk, path) == pre || At(disk, path) == post {
      PathPutBack(steps, path, pre, post, disk, s);
    } else {
      ForeignPathStays(steps, path, pre, post, disk, s);
    }
  }

  /** Whether the attempt got as far as clearing the job's entry or not, this is what it did to one path. */
  ghost predicate AttemptedOn(job: Job, r: Replayed, a: Snapshot, b: Snapshot, path: Path) {
    if job.id in b.wal then
      b.wal[job.id] == r && (At(b.disk, path) == At(a.disk, path) || At(b.disk, path) == Mended(job, a.disk, path))
    else At(b.disk, path) == Mended(job, a.disk, path)
  }

  lemma AttemptOn(job: Job, r: Replayed, a: Snapshot, b: Snapshot, path: Path)
    requires Keyed(a.wal) && Alone(job, a.wal) && Attempt(a, b) && path in job.post
    requires Undoable(job, r) && job.id in a.wal && a.wal[job.id] == r
    requires Between(job, a.disk, path) ==> Mendable(job, r, a.disk, path)
    ensures AttemptedOn(job, r, a, b, path)
  {
    var log := ReplayOf(a.wal);
    var steps := LogSteps(log).value;
    ReplayOfReplays(a.wal);
    JobOnlyUndoes(job, a.wal, log, path);
    var done :| RecoverSnapshot(steps, a, done, b);
    OneEdgeMoves(steps, path, Before(job, path), job.post[path], a.disk, b.disk);
    if b.wal != a.wal {
      CompleteMends(steps, path, Before(job, path), job.post[path], a.disk, Progress(b.disk, done));
    }
  }

  lemma AttemptKeepsLog(job: Job, a: Snapshot, b: Snapshot)
    requires Keyed(a.wal) && Alone(job, a.wal) && Attempt(a, b)
    ensures Keyed(b.wal) && Alone(job, b.wal) && (job.id in b.wal ==> job.id in a.wal && b.wal[job.id] == a.wal[job.id])
  {
    var log := ReplayOf(a.wal);
    var done :| RecoverSnapshot(LogSteps(log).value, a, done, b);
  }

  /** An attempt leaves a job alone that is not pending. */
  lemma AttemptLeaves(job: Job, a: Snapshot, b: Snapshot, path: Path)
    requires Keyed(a.wal) && Alone(job, a.wal) && Attempt(a, b) && path in job.post
    requires job.id in a.wal ==> a.wal[job.id].status != Pending
    ensures At(b.disk, path) == At(a.disk, path)
  {
    var log := ReplayOf(a.wal);
    var steps := LogSteps(log).value;
    ReplayOfReplays(a.wal);
    JobOnlyUndoes(job, a.wal, log, path);
    var done :| RecoverSnapshot(steps, a, done, b);
    NoStepsNoEdges(steps, path);
    PartialMovesAlong(steps, a.disk, b.disk, path);
    if !Ambiguous(steps, path) {
      var was := HashOf(At(a.disk, path));
      ReachesStaysIn(PathEdges(steps, path), was, HashOf(At(b.disk, path)), {was});
    }
  }

  // ---- attempt after attempt ----

  lemma {:induction false} LogShrinks(job: Job, ss: seq<Snapshot>, k: nat)
    requires Attempts(ss) && Alone(job, ss[0].wal) && k < |ss|
    ensures Keyed(ss[k].wal) && Alone(job, ss[k].wal)
    ensures job.id in ss[k].wal ==> job.id in ss[0].wal && ss[k].wal[job.id] == ss[0].wal[job.id]
  {
    if k > 0 {
      LogShrinks(job, ss, k - 1);
      AttemptKeepsLog(job, ss[k - 1], ss[k]);
    }
  }

  /** While the job's entry is in the log its path is as it was or back; from its clearing on it is mended. */
  lemma {:induction false} AttemptsOn(job: Job, r: Replayed, ss: seq<Snapshot>, k: nat, path: Path)
    requires Attempts(ss) && Alone(job, ss[0].wal) && k < |ss| && path in job.post
    requires Undoable(job, r) && job.id in ss[0].wal && ss[0].wal[job.id] == r
    requires Between(job, ss[0].disk, path) ==> Mendable(job, r, ss[0].disk, path)
    ensures AttemptedOn(job, r, ss[0], ss[k], path)
  {
    if k > 0 {
      AttemptsOn(job, r, ss, k - 1, path);
      LogShrinks(job, ss, k - 1);
      AttemptKeepsLog(job, ss[k - 1], ss[k]);
      if job.id in ss[k - 1].wal {
        AttemptOn(job, r, ss[k - 1], ss[k], path);
      } else {
        AttemptLeaves(job, ss[k - 1], ss[k], path);
      }
    }
  }

  /** A job that is not pending is left as it was by every attempt. */
  lemma {:induction false} AttemptsLeave(job: Job, ss: seq<Snapshot>, k: nat, path: Path)
    requires Attempts(ss) && Alone(job, ss[0].wal) && k < |ss| && path in job.post
    requires job.id in ss[0].wal ==> ss[0].wal[job.id].status != Pending
    ensures At(ss[k].disk, path) == At(ss[0].disk, path)
  {
    if k > 0 {
      AttemptsLeave(job, ss, k - 1, path);
      LogShrinks(job, ss, k - 1);
      AttemptLeaves(job, ss[k - 1], ss[k], path);
    }
  }

  // ---- what it comes to ----

  /**
   * From any crash of a commit whose marker, if its mark failed, was taken back: however many attempts
   * at recovery crash, before they clear the log or while they do, the last one leaves every file new
   * where the marker was durable and every file old where it was not.
   */
  lemma CommitOutlivesReruns(job: Job, intent: Intent, ss: seq<Snapshot>)
    requires Attempts(ss) && Alone(job, ss[0].wal)
    requires Commit.CommitSnapshot(job, intent, false, ss[0]) && !HasLifecycleOp(intent)
    ensures var last := ss[|ss| - 1].disk;
            && (job.id in ss[0].wal && ss[0].wal[job.id].status == Landed ==> AllAfter(job, last))
            && (job.id in ss[0].wal && ss[0].wal[job.id].status != Landed ==> AllBefore(job, last))
            && (AllBefore(job, last) || AllAfter(job, last))
  {
    var n := |ss| - 1;
    if job.id in ss[0].wal && ss[0].wal[job.id].status == Pending {
      var r := ss[0].wal[job.id];
      Commit.RecordsAskPutBack(job, r);
      forall p | p in job.post ensures At(ss[n].disk, p) == Before(job, p) {
        AttemptsOn(job, r, ss, n, p);
      }
    } else {
      forall p | p in job.post ensures At(ss[n].disk, p) == At(ss[0].disk, p) {
        AttemptsLeave(job, ss, n, p);
      }
    }
  }

  /**
   * The same for a create, a delete or a batch with an op that is not an edit: each path that holds what
   * the op found or left is back in the end, and any other is as the crash left it.
   */
  lemma UndoOutlivesReruns(job: Job, intent: Intent, ss: seq<Snapshot>, path: Path)
    requires Attempts(ss) && Alone(job, ss[0].wal) && path in job.post
    requires Lifecycle.Describes(job, intent) && HasLifecycleOp(intent)
    requires job.id in ss[0].wal && ss[0].wal[job.id] == Recorded(intent)
    ensures At(ss[|ss| - 1].disk, path) == Mended(job, ss[0].disk, path)
  {
    Lifecycle.IntentAsksPutBack(job, intent);
    AttemptsOn(job, Recorded(intent), ss, |ss| - 1, path);
  }

  /** A batch: all new in the end where it landed, all old where it did not and some op is no edit. */
  lemma BatchOutlivesReruns(start: Snapshot, id: IntentId, prepared: seq<Batch.Prepared>, ss: seq<Snapshot>)
    requires Attempts(ss) && Batch.Ready(prepared, start.disk)
    requires Alone(Batch.BatchJob(start, id, prepared), ss[0].wal)
    requires Lifecycle.LoneSnapshot(Batch.BatchJob(start, id, prepared), Batch.UnifiedIntent(id, prepared), false,
                                    ss[0])
    requires id in ss[0].wal && AllBetween(Batch.BatchJob(start, id, prepared), ss[0].disk)
    requires ss[0].wal[id].status == Pending ==> Batch.SomeNonEdit(prepared)
    ensures var job, last := Batch.BatchJob(start, id, prepared), ss[|ss| - 1].disk;
            && (ss[0].wal[id].status == Landed ==> AllAfter(job, last))
            && (ss[0].wal[id].status == Pending ==> AllBefore(job, last))
  {
    var job, intent, n := Batch.BatchJob(start, id, prepared), Batch.UnifiedIntent(id, prepared), |ss| - 1;
    Batch.UnifiedDescribes(start, id, prepared);
    Batch.LifecycleIffSomeNonEdit(id, prepared);
    forall p | p in job.post
      ensures At(ss[n].disk, p) == if ss[0].wal[id].status == Pending then Before(job, p) else At(ss[0].disk, p)
    {
      if ss[0].wal[id].status == Pending {
        UndoOutlivesReruns(job, intent, ss, p);
      } else {
        AttemptsLeave(job, ss, n, p);
      }
    }
  }

  /**
   * While a recovery takes a batch back, in the order it really takes the steps in, every move that the
   * crash found whole at one of its paths stays so at every step, and the next recovery finds it so.
   */
  lemma {:induction false} BatchRecoveryKeepsMoves(start: Snapshot, id: IntentId, prepared: seq<Batch.Prepared>, n: nat,
                                                   s: Snapshot, before: seq<Snapshot>, trace: seq<Snapshot>)
    requires Batch.Ready(prepared, start.disk) && n < |prepared| && prepared[n].Move?
    requires id in s.wal && s.wal[id] == Recorded(Batch.UnifiedIntent(id, prepared)) && Keyed(s.wal)
    requires Alone(Batch.BatchJob(start, id, prepared), s.wal) && LogSteps(ReplayOf(s.wal)).Ok?
    requires Movable(s.disk, prepared[n].from, prepared[n].to, prepared[n].live)
    requires MovesKeepBytes(LogSteps(ReplayOf(s.wal)).value, s.disk, before, trace)
    ensures BackSince(before, trace, prepared[n].from, prepared[n].to, prepared[n].live)
  {
    var job, intent, op := Batch.BatchJob(start, id, prepared), Batch.UnifiedIntent(id, prepared), prepared[n];
    Batch.UnifiedDescribes(start, id, prepared);
    Batch.LifecycleIffSomeNonEdit(id, prepared);
    Batch.NonEditAmong(prepared, n);
    Batch.MovesItsFile(start, id, prepared, n);
    ReplayOfReplays(s.wal);
    var i, j := Lifecycle.RecoveryTakesBackAt(job, intent, s.wal, ReplayOf(s.wal), s.disk, op.from, op.to, op.live);
  }

  /** What any crash of a batch leaves of its moves is what that takes. */
  lemma CrashedMovesMovable(start: Snapshot, id: IntentId, prepared: seq<Batch.Prepared>, n: nat, kept: bool,
                            s: Snapshot)
    requires Batch.Ready(prepared, start.disk) && n < |prepared| && prepared[n].Move?
    requires Lifecycle.LoneSnapshot(Batch.BatchJob(start, id, prepared), Batch.UnifiedIntent(id, prepared), kept, s)
    requires Batch.MoveSafe(prepared[n], s.disk)
    ensures Movable(s.disk, prepared[n].from, prepared[n].to, prepared[n].live)
  {
    Batch.MovesItsFile(start, id, prepared, n);
  }

  // ---- a move ----

  /** What every attempt keeps of a recorded move: each path is where it was or where it is to be, no byte lost. */
  ghost predicate MoveKept(job: Job, from: Path, to: Path, live: Bytes, disk: Disk) {
    Between(job, disk, from) && Between(job, disk, to) && Safe(disk, from, to, live)
  }

  ghost predicate Moved(from: Path, to: Path, live: Bytes, disk: Disk) {
    At(disk, to) == Some(live) && At(disk, from).None?
  }

  lemma PartialMove(steps: seq<Step>, id: IntentId, from: Path, to: Path, live: Bytes, at: nat, disk: Disk, after: Disk)
    requires WellFormed(steps) && from != to && MoveStepsAt(steps, id, from, to, live, at)
             && PartialRun(steps, disk, after)
    requires At(disk, from) == Some(live) || At(disk, from).None?
    requires At(disk, to) == Some(live) || At(disk, to).None?
    requires Safe(disk, from, to, live)
    ensures At(after, from) == Some(live) || At(after, from).None?
    ensures At(after, to) == Some(live) || At(after, to).None?
    ensures Safe(after, from, to, live)
  {
    MoveEdges(steps, id, from, to, live, at);
    OneEdgeMoves(steps, to, Some(live), None, disk, after);
    PartialMovesAlong(steps, disk, after, from);
    ReachesStaysIn(PathEdges(steps, from), HashOf(At(disk, from)), HashOf(At(after, from)), {HashOf(Some(live)), None});
    CrashesStaySafe(steps, id, from, to, live, at, [disk, after]);
  }

  lemma AttemptOnMove(job: Job, from: Path, to: Path, live: Bytes, a: Snapshot, b: Snapshot)
    requires Keyed(a.wal) && Attempt(a, b) && LoneMove(job, from, to, live, a, ReplayOf(a.wal))
    requires Before(job, from) == Some(live) && Before(job, to).None? && MoveKept(job, from, to, live, a.disk)
    ensures MoveKept(job, from, to, live, b.disk) && (job.id !in b.wal ==> Moved(from, to, live, b.disk))
  {
    var log := ReplayOf(a.wal);
    var steps := LogSteps(log).value;
    var at := LoneMoveSteps(job, from, to, live, a, log);
    var done :| RecoverSnapshot(steps, a, done, b);
    PartialMove(steps, job.id, from, to, live, at, a.disk, b.disk);
    if job.id !in b.wal {
      CompleteIsRecovered(steps, a.disk, Progress(b.disk, done));
      RecordedMoveEndsMoved(job, from, to, live, a, log, Progress(b.disk, done));
    }
  }

  lemma {:induction false} AttemptsOnMove(job: Job, from: Path, to: Path, live: Bytes, ss: seq<Snapshot>, k: nat)
    requires Attempts(ss) && Alone(job, ss[0].wal) && k < |ss|
             && LoneMove(job, from, to, live, ss[0], ReplayOf(ss[0].wal))
    requires Before(job, from) == Some(live) && Before(job, to).None? && MoveKept(job, from, to, live, ss[0].disk)
    ensures MoveKept(job, from, to, live, ss[k].disk) && (job.id !in ss[k].wal ==> Moved(from, to, live, ss[k].disk))
  {
    if k > 0 {
      var a := ss[k - 1];
      AttemptsOnMove(job, from, to, live, ss, k - 1);
      LogShrinks(job, ss, k - 1);
      AttemptKeepsLog(job, a, ss[k]);
      if job.id in a.wal {
        ReplayOfReplays(a.wal);
        AttemptOnMove(job, from, to, live, a, ss[k]);
      } else {
        AttemptLeaves(job, a, ss[k], from);
        AttemptLeaves(job, a, ss[k], to);
      }
    }
  }

  /**
   * From any crash of a move whose intent is recorded: its bytes are at one of the two paths after every
   * attempt, and in the end the file is moved.
   */
  lemma MoveOutlivesReruns(job: Job, from: Path, to: Path, live: Bytes, ss: seq<Snapshot>)
    requires Attempts(ss) && LoneMove(job, from, to, live, ss[0], ReplayOf(ss[0].wal))
    requires Before(job, from) == Some(live) && Before(job, to).None?
    requires Lifecycle.MoveSnapshot(job, from, to, live, ss[0])
    ensures forall k :: 0 <= k < |ss| ==> Safe(ss[k].disk, from, to, live)
    ensures Moved(from, to, live, ss[|ss| - 1].disk)
  {
    forall k | 0 <= k < |ss| ensures Safe(ss[k].disk, from, to, live) {
      AttemptsOnMove(job, from, to, live, ss, k);
    }
    AttemptsOnMove(job, from, to, live, ss, |ss| - 1);
  }
}
