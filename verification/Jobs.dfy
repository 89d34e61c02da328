/** One op's change seen as a job: what its paths held before and after, and what recovery makes of it. */
module Jobs {
  import opened Prelude
  import opened Cycles
  import opened Steps
  import opened Recovery
  import opened Wal
  import opened Worlds
  import opened Restart

  /** The world an op started from, its intent's id, and what it leaves on each path it changes. */
  datatype Job = Job(start: Snapshot, id: IntentId, post: map<Path, Option<Bytes>>)

  function Before(job: Job, path: Path): Option<Bytes> {
    At(job.start.disk, path)
  }

  /** Everything that is not the job's is as the job found it. */
  ghost predicate OthersKept(job: Job, s: Snapshot) {
    && (forall p :: p !in job.post ==> At(s.disk, p) == Before(job, p))
    && s.wal - {job.id} == job.start.wal - {job.id}
  }

  ghost predicate AllBefore(job: Job, disk: Disk) {
    forall p :: p in job.post ==> At(disk, p) == Before(job, p)
  }

  ghost predicate AllAfter(job: Job, disk: Disk) {
    forall p :: p in job.post ==> At(disk, p) == job.post[p]
  }

  /** No other unfinished intent of the log touches the job's paths. */
  ghost predicate Alone(job: Job, wal: Log) {
    forall id :: id in wal && id != job.id && wal[id].status == Pending ==> TouchedPaths(wal[id]) !! job.post.Keys
  }

  /** Where the job's entry sits in the replay. */
  lemma EntryIndex(job: Job, wal: Log, log: seq<Replayed>) returns (k: nat)
    requires Replays(wal, log) && job.id in wal
    ensures k < |log| && log[k] == wal[job.id]
  {
    k :| 0 <= k < |log| && log[k] == wal[job.id];
  }

  /** The steps on the job's paths are the job's own. */
  lemma StepIsOwn(job: Job, wal: Log, log: seq<Replayed>, s: Step) returns (k: nat)
    requires Replays(wal, log) && LogSteps(log).Ok? && Alone(job, wal)
    requires s in LogSteps(log).value && s.work.path in job.post
    ensures job.id in wal && wal[job.id].status == Pending
    ensures k < |log| && log[k] == wal[job.id]
    ensures IntentSteps(wal[job.id], BaseOf(log, k)).Ok? && s in IntentSteps(wal[job.id], BaseOf(log, k)).value
  {
    k := StepHasIntent(log, s);
    IntentStepsTouch(log[k], BaseOf(log, k), s);
    assert log[k] in log;
  }

  // ---- undoing one write ----

  /** Every step on the path leads from `post` to `pre`. */
  ghost predicate OneEdge(steps: seq<Step>, path: Path, pre: Option<Bytes>, post: Option<Bytes>) {
    forall s :: s in steps && s.work.path == path ==> EdgeOf(s) == Edge(HashOf(post), HashOf(pre))
  }

  /** Every step on the path undoes `post` to `pre`, unconditionally. */
  ghost predicate OnlyUndoes(steps: seq<Step>, path: Path, pre: Option<Bytes>, post: Option<Bytes>) {
    OneEdge(steps, path, pre, post) && forall s :: s in steps && s.work.path == path ==> s.waitsFor.None?
  }

  lemma OneEdgeIsOrderable(steps: seq<Step>, path: Path, pre: Option<Bytes>, post: Option<Bytes>)
    requires OneEdge(steps, path, pre, post)
    ensures !Ambiguous(steps, path)
    ensures forall e :: e in PathEdges(steps, path) ==> e == Edge(HashOf(post), HashOf(pre))
  {
    var edges := PathEdges(steps, path);
    PathEdgesContents(steps, path);
    forall e | e in edges ensures e == Edge(HashOf(post), HashOf(pre)) {
      assert HasEdge(steps, path, e);
      var i :| 0 <= i < |steps| && steps[i].work.path == path && EdgeOf(steps[i]) == e;
      assert steps[i] in steps;
    }
    forall walk | |walk| >= 2 && IsWalk(edges, walk) ensures walk[0] != walk[|walk| - 1] {
      var k := |walk| - 1;
      assert Linked(edges, walk[1 - 1], walk[1]);
      assert Linked(edges, walk[k - 1], walk[k]);
      assert walk[0] == HashOf(post) && walk[k] == HashOf(pre);
    }
  }

  /** Whatever crashed on the way, the path is back and every step on it is done. */
  lemma PathPutBack(steps: seq<Step>, path: Path, pre: Option<Bytes>, post: Option<Bytes>, disk: Disk, s: Progress)
    requires WellFormed(steps) && OnlyUndoes(steps, path, pre, post) && Recovered(steps, disk, s)
    requires At(disk, path) == pre || (At(disk, path) == post && exists t :: t in steps && t.work.path == path)
    ensures At(s.disk, path) == pre && |s.done| == |steps|
    ensures forall i :: 0 <= i < |steps| && steps[i].work.path == path ==> s.done[i]
  {
    OneEdgeIsOrderable(steps, path, pre, post);
    var last := RecoveredFrom(steps, disk, s);
    assert MovedAlong(steps, disk, s.disk, path);
    var now := HashOf(At(s.disk, path));
    ReachesStaysIn(PathEdges(steps, path), HashOf(At(disk, path)), now, {HashOf(pre), HashOf(At(disk, path))});
    if At(s.disk, path) != pre {
      var i :| 0 <= i < |steps| && steps[i].work.path == path;
      assert steps[i] in steps;
      EndsAtSink(steps, last, s, i);
    }
    forall i | 0 <= i < |steps| && steps[i].work.path == path ensures s.done[i] {
      assert steps[i] in steps;
      if !s.done[i] { UndoneIsNotAtTarget(steps, s, i); }
    }
  }

  /** A path no step is on is never touched. */
  lemma UntouchedPathStays(steps: seq<Step>, path: Path, disk: Disk, s: Progress)
    requires WellFormed(steps) && Recovered(steps, disk, s)
    requires forall t :: t in steps ==> t.work.path != path
    ensures At(s.disk, path) == At(disk, path)
  {
    NoStepsNoEdges(steps, path);
    var last := RecoveredFrom(steps, disk, s);
    assert MovedAlong(steps, disk, s.disk, path);
    if !Ambiguous(steps, path) {
      ReachesStaysIn(PathEdges(steps, path), HashOf(At(disk, path)), HashOf(At(s.disk, path)),
                     {HashOf(At(disk, path))});
    }
  }

  /** A path whose content no step expects or aims at is left as found, and its steps stay undone. */
  lemma ForeignPathStays(steps: seq<Step>, path: Path, pre: Option<Bytes>, post: Option<Bytes>, disk: Disk, s: Progress)
    requires WellFormed(steps) && OnlyUndoes(steps, path, pre, post) && Recovered(steps, disk, s)
    requires At(disk, path) != pre && At(disk, path) != post
    ensures At(s.disk, path) == At(disk, path) && |s.done| == |steps|
    ensures forall i :: 0 <= i < |steps| && steps[i].work.path == path ==> !s.done[i]
  {
    OneEdgeIsOrderable(steps, path, pre, post);
    var last := RecoveredFrom(steps, disk, s);
    assert MovedAlong(steps, disk, s.disk, path);
    var edges := PathEdges(steps, path);
    ReachesStaysIn(edges, HashOf(At(disk, path)), HashOf(At(s.disk, path)), {HashOf(At(disk, path))});
    forall i | 0 <= i < |steps| && steps[i].work.path == path ensures !s.done[i] {
      assert steps[i] in steps && EdgeOf(steps[i]) == Edge(HashOf(post), HashOf(pre));
      if s.done[i] {
        assert FinishedAt(steps, s.disk, i);
        ReachesStaysIn(edges, HashOf(pre), HashOf(At(s.disk, path)), {HashOf(pre)});
      }
    }
  }

  // ---- a job's own steps ----

  /** The job's entry asks only for its own paths to be put back. */
  ghost predicate AsksPutBack(job: Job, r: Replayed) {
    forall base: nat ::
      && IntentSteps(r, base).Ok?
      && forall s :: s in IntentSteps(r, base).value ==>
           s.work.path in job.post && s.waitsFor.None?
           && EdgeOf(s) == Edge(HashOf(job.post[s.work.path]), HashOf(Before(job, s.work.path)))
  }

  /** The job's entry holds a step for the path, wherever it sits in the log. */
  ghost predicate Covers(r: Replayed, path: Path) {
    forall base: nat :: IntentSteps(r, base).Ok? && exists s :: s in IntentSteps(r, base).value && s.work.path == path
  }

  lemma {:induction false} JobOnlyUndoes(job: Job, wal: Log, log: seq<Replayed>, path: Path)
    requires Replays(wal, log) && LogSteps(log).Ok? && Alone(job, wal) && path in job.post
    requires job.id in wal && wal[job.id].status == Pending ==> AsksPutBack(job, wal[job.id])
    ensures OnlyUndoes(LogSteps(log).value, path, Before(job, path), job.post[path])
    ensures job.id in wal && Covers(wal[job.id], path) ==> exists t :: t in LogSteps(log).value && t.work.path == path
    ensures !(job.id in wal && wal[job.id].status == Pending) ==>
              forall t :: t in LogSteps(log).value ==> t.work.path != path
  {
    var steps := LogSteps(log).value;
    forall s | s in steps && s.work.path == path
      ensures job.id in wal && wal[job.id].status == Pending
      ensures s.waitsFor.None? && EdgeOf(s) == Edge(HashOf(job.post[path]), HashOf(Before(job, path)))
    {
      var k := StepIsOwn(job, wal, log, s);
    }
    if job.id in wal && Covers(wal[job.id], path) {
      var k := EntryIndex(job, wal, log);
      IntentStepsAt(log, k);
      var base := BaseOf(log, k);
      var s :| s in IntentSteps(wal[job.id], base).value && s.work.path == path;
      assert s in steps;
    }
  }

  /** Nothing on the job's paths was left undone. */
  ghost predicate NoneLeft(job: Job, steps: seq<Step>, s: Progress) {
    |s.done| == |steps| && forall i :: 0 <= i < |steps| && steps[i].work.path in job.post ==> s.done[i]
  }

  /** The report names the path. */
  ghost predicate Named(left: seq<LeftPath>, path: Path) {
    exists i :: 0 <= i < |left| && left[i].path == path
  }

  /** The report names exactly the paths of the steps left undone. */
  lemma {:induction false} NamedIffUndone(steps: seq<Step>, done: seq<bool>, path: Path)
    requires |steps| == |done|
    ensures Named(LeftOf(steps, done), path) <==> exists i :: 0 <= i < |steps| && !done[i] && steps[i].work.path == path
  {
    if steps != [] {
      var n := |steps| - 1;
      var left, front := LeftOf(steps, done), LeftOf(steps[..n], done[..n]);
      NamedIffUndone(steps[..n], done[..n], path);
      if Named(front, path) {
        var k :| 0 <= k < |front| && front[k].path == path;
        assert left[k].path == path;
        var i :| 0 <= i < n && !done[..n][i] && steps[..n][i].work.path == path;
        assert !done[i] && steps[i].work.path == path;
      }
      if i :| 0 <= i < |steps| && !done[i] && steps[i].work.path == path {
        if i < n { assert !done[..n][i] && steps[..n][i].work.path == path; }
        assert left[|left| - 1].path == path || Named(front, path);
      }
      if Named(left, path) {
        var k :| 0 <= k < |left| && left[k].path == path;
        assert k < |front| ==> front[k].path == path;
        assert k >= |front| ==> !done[n] && steps[n].work.path == path;
      }
    }
  }

  /** The report of a recovery that left none of the job's steps undone names none of its paths. */
  lemma ReportNamesNone(job: Job, steps: seq<Step>, s: Progress, path: Path)
    requires NoneLeft(job, steps, s) && path in job.post
    ensures !Named(LeftOf(steps, s.done), path)
  {
    NamedIffUndone(steps, s.done, path);
  }

  /** A job that is landed, cleared or torn is left as found. */
  lemma FinishedJobStays(job: Job, s: Snapshot, log: seq<Replayed>, final: Progress)
    requires job.id in s.wal ==> s.wal[job.id].status != Pending
    requires Replays(s.wal, log) && LogSteps(log).Ok? && Alone(job, s.wal)
    requires WellFormed(LogSteps(log).value) && Recovered(LogSteps(log).value, s.disk, final)
    ensures forall p :: p in job.post ==> At(final.disk, p) == At(s.disk, p)
    ensures AllBefore(job, final.disk) <==> AllBefore(job, s.disk)
    ensures AllAfter(job, final.disk) <==> AllAfter(job, s.disk)
  {
    forall p | p in job.post ensures At(final.disk, p) == At(s.disk, p) {
      JobOnlyUndoes(job, s.wal, log, p);
      UntouchedPathStays(LogSteps(log).value, p, s.disk, final);
    }
  }
}
