/** A recorded single-file move goes forward, and its bytes are somewhere at every moment. */
module MoveRecovery {
  import opened Prelude
  import opened Cycles
  import opened Steps
  import opened Recovery
  import opened Wal
  import opened Worlds
  import opened Jobs
  import opened Undo
  import opened Lifecycle

  /** A log whose only unfinished word on the two paths is this move. */
  ghost predicate LoneMove(job: Job, from: Path, to: Path, live: Bytes, s: Snapshot, log: seq<Replayed>) {
    && from != to && job == MoveJob(job.start, job.id, from, to, live)
    && job.id in s.wal && s.wal[job.id] == Recorded(MoveIntent(job.id, from, to, live))
    && Replays(s.wal, log) && LogSteps(log).Ok? && Alone(job, s.wal) && WellFormed(LogSteps(log).value)
  }

  function WriteStep(id: IntentId, to: Path, live: Bytes): Step {
    Step(id, Converge(to, None, Some(live)), None)
  }

  function RemoveStep(id: IntentId, from: Path, live: Bytes, after: nat): Step {
    Step(id, Converge(from, Some(RawHash(live)), None), Some(after))
  }

  /** The two steps of the move, and that nothing else steps on its paths. */
  ghost predicate MoveStepsAt(steps: seq<Step>, id: IntentId, from: Path, to: Path, live: Bytes, at: nat) {
    && at + 1 < |steps| && steps[at] == WriteStep(id, to, live) && steps[at + 1] == RemoveStep(id, from, live, at)
    && (forall s :: s in steps && s.work.path == to ==> s == WriteStep(id, to, live))
    && (forall s :: s in steps && s.work.path == from ==> s == RemoveStep(id, from, live, at))
  }

  lemma {:induction false} LoneMoveSteps(job: Job, from: Path, to: Path, live: Bytes, s: Snapshot, log: seq<Replayed>)
    returns (at: nat)
    requires LoneMove(job, from, to, live, s, log)
    ensures MoveStepsAt(LogSteps(log).value, job.id, from, to, live, at)
  {
    var steps := LogSteps(log).value;
    var k := EntryIndex(job, s.wal, log);
    at := BaseOf(log, k);
    IntentStepsAt(log, k);
    MoveIntentSteps(job.id, from, to, live, at);
    var own := OwnPair(job.id, from, to, live, at);
    forall t | t in steps && (t.work.path == from || t.work.path == to) ensures t in own {
      LoneMoveOwns(job, from, to, live, s, log, k, t);
    }
    PairIsMove(steps, job.id, from, to, live, at);
  }

  function OwnPair(id: IntentId, from: Path, to: Path, live: Bytes, at: nat): seq<Step> {
    [WriteStep(id, to, live), RemoveStep(id, from, live, at)]
  }

  lemma PairIsMove(steps: seq<Step>, id: IntentId, from: Path, to: Path, live: Bytes, at: nat)
    requires from != to && at + 2 <= |steps| && steps[at..at + 2] == OwnPair(id, from, to, live, at)
    requires forall t :: t in steps && (t.work.path == from || t.work.path == to) ==>
               t in OwnPair(id, from, to, live, at)
    ensures MoveStepsAt(steps, id, from, to, live, at)
  {
    assert steps[at] == steps[at..at + 2][0] && steps[at + 1] == steps[at..at + 2][1];
  }

  /** A step on the move's paths is one of its own. */
  lemma {:induction false} LoneMoveOwns(job: Job, from: Path, to: Path, live: Bytes, s: Snapshot, log: seq<Replayed>,
                                        k: nat, t: Step)
    requires LoneMove(job, from, to, live, s, log) && k < |log| && log[k] == s.wal[job.id]
    requires t in LogSteps(log).value && t.work.path in job.post
    requires IntentSteps(log[k], BaseOf(log, k)).Ok?
    ensures t in IntentSteps(log[k], BaseOf(log, k)).value
  {
    var j := StepIsOwn(job, s.wal, log, t);
    assert log[j].intent.id == log[k].intent.id;
  }

  lemma MoveIntentSteps(id: IntentId, from: Path, to: Path, live: Bytes, base: nat)
    requires from != to
    ensures IntentSteps(Recorded(MoveIntent(id, from, to, live)), base)
         == Ok(OwnPair(id, from, to, live, base))
  {
    var intent := MoveIntent(id, from, to, live);
    assert from in intent.after && HasLifecycleOp(intent);
    assert intent.after != map[];
    assert intent.moves[..0] == [];
    assert MoveSteps(intent, [], base) == Ok([]);
    var none: seq<Step> := [];
    var two := [WriteStep(id, to, live), RemoveStep(id, from, live, base)];
    assert none + two == two;
    assert MoveSteps(intent, intent.moves, base) == Ok(none + two);
  }

  lemma MoveEdges(steps: seq<Step>, id: IntentId, from: Path, to: Path, live: Bytes, at: nat)
    requires MoveStepsAt(steps, id, from, to, live, at)
    ensures !Ambiguous(steps, from) && !Ambiguous(steps, to)
    ensures OnlyUndoes(steps, to, Some(live), None)
    ensures forall e :: e in PathEdges(steps, to) ==> e == Edge(None, HashOf(Some(live)))
    ensures forall e :: e in PathEdges(steps, from) ==> e == Edge(HashOf(Some(live)), None)
  {
    OneEdgeIsOrderable(steps, to, Some(live), None);
    OneEdgeIsOrderable(steps, from, None, Some(live));
  }

  /** Once the write step is done the destination holds the bytes and keeps them. */
  lemma WrittenStaysWritten(steps: seq<Step>, id: IntentId, from: Path, to: Path, live: Bytes, at: nat, before: Disk,
                            s: Progress)
    requires WellFormed(steps) && MoveStepsAt(steps, id, from, to, live, at) && Tracks(steps, before, s) && s.done[at]
    ensures At(s.disk, to) == Some(live)
  {
    MoveEdges(steps, id, from, to, live, at);
    assert FinishedAt(steps, s.disk, at);
    ReachesStaysIn(PathEdges(steps, to), HashOf(Some(live)), HashOf(At(s.disk, to)), {HashOf(Some(live))});
  }

  lemma VisitStaysSafe(steps: seq<Step>, id: IntentId, from: Path, to: Path, live: Bytes, at: nat, s: Progress, i: nat)
    requires WellFormed(steps) && from != to && MoveStepsAt(steps, id, from, to, live, at) && i < |steps|
    requires Safe(s.disk, from, to, live) && |s.done| == |steps| && (s.done[at] ==> At(s.disk, to) == Some(live))
    ensures Safe(Visit(steps, s, i).disk, from, to, live)
  {
    assert steps[i] in steps;
  }

  lemma {:induction false} RunStaysSafe(steps: seq<Step>, id: IntentId, from: Path, to: Path, live: Bytes, at: nat,
                                        disk: Disk, visits: seq<nat>)
    requires WellFormed(steps) && from != to && MoveStepsAt(steps, id, from, to, live, at)
    requires Safe(disk, from, to, live) && Visits(steps, visits)
    ensures Safe(Run(steps, Start(steps, disk), visits).disk, from, to, live)
  {
    if visits != [] {
      var n := |visits| - 1;
      var s := Run(steps, Start(steps, disk), visits[..n]);
      RunStaysSafe(steps, id, from, to, live, at, disk, visits[..n]);
      RunKeepsTracks(steps, disk, visits[..n]);
      if s.done[at] { WrittenStaysWritten(steps, id, from, to, live, at, disk, s); }
      VisitStaysSafe(steps, id, from, to, live, at, s, visits[n]);
    }
  }

  lemma {:induction false} CrashesStaySafe(steps: seq<Step>, id: IntentId, from: Path, to: Path, live: Bytes, at: nat,
                                           disks: seq<Disk>)
    requires WellFormed(steps) && from != to && MoveStepsAt(steps, id, from, to, live, at)
    requires Crashes(steps, disks) && Safe(disks[0], from, to, live)
    ensures Safe(disks[|disks| - 1], from, to, live)
  {
    var n := |disks| - 1;
    if n > 0 {
      assert Crashes(steps, disks[..n]);
      CrashesStaySafe(steps, id, from, to, live, at, disks[..n]);
      assert PartialRun(steps, disks[n - 1], disks[n]);
      var visits :| Visits(steps, visits) && Run(steps, Start(steps, disks[n - 1]), visits).disk == disks[n];
      RunStaysSafe(steps, id, from, to, live, at, disks[n - 1], visits);
    }
  }

  /** However often recovery crashes, at every crash the whole source content is at one of the two paths. */
  lemma CrashedMoveIsSafe(job: Job, from: Path, to: Path, live: Bytes, s: Snapshot, log: seq<Replayed>,
                          disks: seq<Disk>)
    requires LoneMove(job, from, to, live, s, log) && Safe(s.disk, from, to, live)
    requires Crashes(LogSteps(log).value, disks) && disks[0] == s.disk
    ensures Safe(disks[|disks| - 1], from, to, live)
  {
    var at := LoneMoveSteps(job, from, to, live, s, log);
    CrashesStaySafe(LogSteps(log).value, job.id, from, to, live, at, disks);
  }

  /**
   * Once its intent is recorded, a lone move always ends fully moved: whichever step it crashed
   * after, and however often recovery crashes first. Nothing of it is reported.
   */
  lemma RecordedMoveEndsMoved(job: Job, from: Path, to: Path, live: Bytes, s: Snapshot, log: seq<Replayed>,
                              final: Progress)
    requires LoneMove(job, from, to, live, s, log) && Between(job, s.disk, from) && Between(job, s.disk, to)
    requires Before(job, from) == Some(live) && Before(job, to).None?
    requires Recovered(LogSteps(log).value, s.disk, final)
    ensures At(final.disk, to) == Some(live) && At(final.disk, from).None?
    ensures NoneLeft(job, LogSteps(log).value, final)
  {
    var steps := LogSteps(log).value;
    var at := LoneMoveSteps(job, from, to, live, s, log);
    MoveEdges(steps, job.id, from, to, live, at);
    assert steps[at] in steps;
    PathPutBack(steps, to, Some(live), None, s.disk, final);
    SourceGoes(steps, job.id, from, to, live, at, s.disk, final);
  }

  /** The source holds its content or nothing, whatever recovery did. */
  lemma SourceStaysOrGoes(steps: seq<Step>, id: IntentId, from: Path, to: Path, live: Bytes, at: nat, disk: Disk,
                          final: Progress)
    requires WellFormed(steps) && MoveStepsAt(steps, id, from, to, live, at) && Recovered(steps, disk, final)
    requires At(disk, from) == Some(live) || At(disk, from).None?
    ensures At(final.disk, from) == Some(live) || At(final.disk, from).None?
  {
    MoveEdges(steps, id, from, to, live, at);
    var _ := RecoveredFrom(steps, disk, final);
    assert MovedAlong(steps, disk, final.disk, from);
    ReachesStaysIn(PathEdges(steps, from), HashOf(At(disk, from)), HashOf(At(final.disk, from)),
                   {HashOf(Some(live)), None});
  }

  /** With the destination written, the source is removed. */
  lemma SourceGoes(steps: seq<Step>, id: IntentId, from: Path, to: Path, live: Bytes, at: nat, disk: Disk,
                   final: Progress)
    requires WellFormed(steps) && MoveStepsAt(steps, id, from, to, live, at) && Recovered(steps, disk, final)
    requires At(disk, from) == Some(live) || At(disk, from).None?
    requires |final.done| == |steps| && final.done[at]
    ensures At(final.disk, from).None?
    ensures forall i :: 0 <= i < |steps| && steps[i].work.path == from ==> final.done[i]
  {
    MoveEdges(steps, id, from, to, live, at);
    SourceStaysOrGoes(steps, id, from, to, live, at, disk, final);
    var last := RecoveredFrom(steps, disk, final);
    if At(final.disk, from) == Some(live) {
      EndsAtSink(steps, last, final, at + 1);
    }
    forall i | 0 <= i < |steps| && steps[i].work.path == from ensures final.done[i] {
      SourceStepDone(steps, id, from, to, live, at, final, i);
    }
  }

  lemma SourceStepDone(steps: seq<Step>, id: IntentId, from: Path, to: Path, live: Bytes, at: nat, final: Progress,
                       i: nat)
    requires WellFormed(steps) && MoveStepsAt(steps, id, from, to, live, at) && !Ambiguous(steps, from)
    requires |final.done| == |steps| && final.done[at] && At(final.disk, from).None? && Stuck(steps, final)
    requires i < |steps| && steps[i].work.path == from
    ensures final.done[i]
  {
    assert steps[i] in steps;
    if !final.done[i] { UndoneIsNotAtTarget(steps, final, i); }
  }
}
