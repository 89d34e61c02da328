/** Creating, deleting and moving one file, and what a crash at any step of each comes to. */
module Lifecycle {
  import opened Prelude
  import opened Steps
  import opened Wal
  import opened Worlds
  import opened Jobs
  import opened Undo
  import Paths
  import Restart
  import Splice

  // ---- an intent that carries its own after-images ----

  /** The recorded intent names, for every path of the job, what it leaves there and what it replaces. */
  ghost predicate Describes(job: Job, intent: Intent) {
    && intent.id == job.id && intent.after.Keys == job.post.Keys
    && (forall p :: p in job.post ==>
          intent.after[p] == HashOf(job.post[p]) && At(intent.originals, p) == Before(job, p))
    && (intent.batch || intent.moves == [])
  }

  /** The step that puts one path of the job back. */
  ghost function PutBackStep(job: Job, path: Path): Step
    requires path in job.post
  {
    Step(job.id, Converge(path, HashOf(job.post[path]), Before(job, path)), None)
  }

  ghost function OwnSteps(intent: Intent): seq<Step> {
    Unconditional(intent.id, RestoresFirst(UndoSteps(intent, Paths.Sorted(intent.after.Keys))))
  }

  lemma OwnStepsPutBack(job: Job, intent: Intent)
    requires Describes(job, intent)
    ensures forall s :: s in OwnSteps(intent) ==> s.work.path in job.post && s == PutBackStep(job, s.work.path)
    ensures forall p :: p in job.post ==> PutBackStep(job, p) in OwnSteps(intent)
  {
    var paths := Paths.Sorted(intent.after.Keys);
    var undo := UndoSteps(intent, paths);
    UndoStepsContents(intent, paths);
    RestoresFirstContents(undo);
    UnconditionalContents(intent.id, RestoresFirst(undo));
    forall p | p in job.post ensures PutBackStep(job, p) in OwnSteps(intent) {
      var c := Converge(p, intent.after[p], At(intent.originals, p));
      assert c in undo;
    }
  }

  // ---- where recovery takes a move back ----

  /** The job moves `live` from one path to another. */
  ghost predicate MovesFile(job: Job, from: Path, to: Path, live: Bytes) {
    && from != to && from in job.post && to in job.post
    && Before(job, from) == Some(live) && job.post[from] == None
    && Before(job, to) == None && job.post[to] == Some(live)
  }

  /** Every restore comes before every removal. */
  ghost predicate RestoringFirst(own: seq<Step>) {
    forall a, b :: 0 <= a < b < |own| && own[a].work.target.None? ==> own[b].work.target.None?
  }

  lemma {:induction false} OwnStepsRestoreFirst(intent: Intent)
    ensures RestoringFirst(OwnSteps(intent))
  {
    var undo := UndoSteps(intent, Paths.Sorted(intent.after.Keys));
    var at := RestoresFirstKeepsOrder(undo);
    UnconditionalInOrder(intent.id, RestoresFirst(undo));
  }

  /** The job's steps sit together in the list, restores first, and its paths have no others. */
  ghost predicate OwnAtBase(job: Job, steps: seq<Step>, own: seq<Step>, base: nat) {
    && SitsAt(steps, own, base) && RestoringFirst(own)
    && (forall p :: p in job.post ==> PutBackStep(job, p) in own)
    && (forall m: nat :: m < |steps| && steps[m].work.path in job.post ==> OwnAtPlace(job, steps, own, base, m))
  }

  ghost predicate OwnAtPlace(job: Job, steps: seq<Step>, own: seq<Step>, base: nat, m: nat)
    requires m < |steps| && steps[m].work.path in job.post
  {
    && base <= m < base + |own| && own[m - base] == steps[m]
    && steps[m] == PutBackStep(job, steps[m].work.path)
  }

  lemma {:induction false} TakesBackIn(job: Job, steps: seq<Step>, own: seq<Step>, base: nat, disk: Disk,
                                       from: Path, to: Path, live: Bytes) returns (i: nat, j: nat)
    requires OwnAtBase(job, steps, own, base) && MovesFile(job, from, to, live)
    requires Restart.Movable(disk, from, to, live)
    ensures Restart.TakesBackAt(steps, disk, i, j, from, to, live)
  {
    var a :| 0 <= a < |own| && own[a] == PutBackStep(job, from);
    var b :| 0 <= b < |own| && own[b] == PutBackStep(job, to);
    i, j := base + a, base + b;
    OwnAt(steps, own, base, a);
    OwnAt(steps, own, base, b);
    forall k: nat | k < |steps| && steps[k].work.path == to ensures i < k && steps[k].work == steps[j].work {
      RemovalIsLater(job, steps, own, base, a, k);
    }
    forall k: nat | k < |steps| && steps[k].work.path == from
      ensures steps[k].work == steps[i].work && steps[k].waitsFor.None?
    {
      assert OwnAtPlace(job, steps, own, base, k);
    }
    OneEdgeIsOrderable(steps, from, Before(job, from), job.post[from]);
  }

  lemma RemovalIsLater(job: Job, steps: seq<Step>, own: seq<Step>, base: nat, a: nat, k: nat)
    requires OwnAtBase(job, steps, own, base) && a < |own| && own[a].work.target.Some?
    requires k < |steps| && steps[k].work.path in job.post && Before(job, steps[k].work.path) == None
    ensures base + a < k && steps[k] == PutBackStep(job, steps[k].work.path)
  {
    assert OwnAtPlace(job, steps, own, base, k) && own[k - base].work.target.None?;
  }

  lemma {:induction false} IntentStepsAreOwn(job: Job, intent: Intent, base: nat)
    requires Describes(job, intent) && HasLifecycleOp(intent) && job.post != map[]
    ensures IntentSteps(Recorded(intent), base) == Ok(OwnSteps(intent))
  {
  }

  /** A recorded lifecycle intent's steps sit together in the steps of any log that has it alone on its paths. */
  lemma {:induction false} OwnStepsAtBase(job: Job, intent: Intent, wal: Log, log: seq<Replayed>) returns (base: nat)
    requires Describes(job, intent) && HasLifecycleOp(intent) && job.post != map[]
    requires job.id in wal && wal[job.id] == Recorded(intent)
    requires Replays(wal, log) && LogSteps(log).Ok? && Alone(job, wal)
    ensures OwnAtBase(job, LogSteps(log).value, OwnSteps(intent), base)
  {
    var steps, own := LogSteps(log).value, OwnSteps(intent);
    var k := EntryIndex(job, wal, log);
    IntentStepsAt(log, k);
    base := BaseOf(log, k);
    IntentStepsAreOwn(job, intent, base);
    OwnStepsPutBack(job, intent);
    OwnStepsRestoreFirst(intent);
    forall m: nat | m < |steps| && steps[m].work.path in job.post ensures OwnAtPlace(job, steps, own, base, m) {
      StepAtIsOwn(job, wal, log, k, m, own);
      assert steps[m] in own;
    }
  }

  lemma {:induction false} StepAtIsOwn(job: Job, wal: Log, log: seq<Replayed>, k: nat, m: nat, own: seq<Step>)
    requires Replays(wal, log) && LogSteps(log).Ok? && Alone(job, wal)
    requires job.id in wal && k < |log| && log[k] == wal[job.id]
    requires m < |LogSteps(log).value| && LogSteps(log).value[m].work.path in job.post
    requires IntentSteps(log[k], BaseOf(log, k)) == Ok(own)
    ensures BaseOf(log, k) <= m < BaseOf(log, k) + |own| && own[m - BaseOf(log, k)] == LogSteps(log).value[m]
  {
    var x := StepAtTouches(log, m);
    OnlyOwnEntry(job, wal, log, k, x, LogSteps(log).value[m].work.path);
  }

  /** An unfinished entry that touches a path of the job is the job's own. */
  lemma OnlyOwnEntry(job: Job, wal: Log, log: seq<Replayed>, k: nat, x: nat, path: Path)
    requires Replays(wal, log) && Alone(job, wal) && job.id in wal && k < |log| && log[k] == wal[job.id]
    requires x < |log| && log[x].status == Pending && path in TouchedPaths(log[x]) && path in job.post
    ensures x == k
  {
    assert log[x] in log;
  }

  /** So recovery restores the source of a move it takes back before it removes the destination. */
  lemma {:induction false} RecoveryTakesBackAt(job: Job, intent: Intent, wal: Log, log: seq<Replayed>, disk: Disk,
                                               from: Path, to: Path, live: Bytes) returns (i: nat, j: nat)
    requires Describes(job, intent) && HasLifecycleOp(intent) && MovesFile(job, from, to, live)
    requires job.id in wal && wal[job.id] == Recorded(intent)
    requires Replays(wal, log) && LogSteps(log).Ok? && Alone(job, wal)
    requires Restart.Movable(disk, from, to, live)
    ensures Restart.TakesBackAt(LogSteps(log).value, disk, i, j, from, to, live)
  {
    var base := OwnStepsAtBase(job, intent, wal, log);
    i, j := TakesBackIn(job, LogSteps(log).value, OwnSteps(intent), base, disk, from, to, live);
  }

  lemma OwnAt(steps: seq<Step>, own: seq<Step>, base: nat, a: nat)
    requires SitsAt(steps, own, base) && a < |own|
    ensures base + a < |steps| && steps[base + a] == own[a]
  {
    assert steps[base..base + |own|][a] == steps[base + a];
  }

  lemma IntentAsksPutBack(job: Job, intent: Intent)
    requires Describes(job, intent) && HasLifecycleOp(intent) && job.post != map[]
    ensures AsksPutBack(job, Recorded(intent))
    ensures forall p :: p in job.post ==> Covers(Recorded(intent), p)
  {
    OwnStepsPutBack(job, intent);
    forall base: nat ensures IntentSteps(Recorded(intent), base) == Ok(OwnSteps(intent)) {
    }
    forall p | p in job.post ensures Covers(Recorded(intent), p) {
      assert PutBackStep(job, p) in OwnSteps(intent);
    }
  }

  /** The path was claimed by this job and holds only part of what it was to hold. */
  ghost predicate HalfMade(job: Job, disk: Disk, path: Path) {
    && path in job.post && Before(job, path).None? && job.post[path].Some?
    && exists n :: 0 <= n <= |job.post[path].value| && At(disk, path) == Some(job.post[path].value[..n])
  }

  /**
   * An unfinished job whose intent has a lifecycle op is put back by any recovery: every path that
   * holds what the job found or left holds its old content again, and its steps are done. A path the
   * job had only half made is left as found, and its steps stay undone, so it is reported.
   */
  lemma {:induction false} UnfinishedJobPutBack(job: Job, intent: Intent, s: Snapshot, log: seq<Replayed>,
                                                final: Progress, p: Path)
    requires Describes(job, intent) && HasLifecycleOp(intent)
    requires job.id in s.wal && s.wal[job.id] == Recorded(intent)
    requires Replays(s.wal, log) && LogSteps(log).Ok? && Alone(job, s.wal)
    requires WellFormed(LogSteps(log).value) && Recovered(LogSteps(log).value, s.disk, final)
    requires p in job.post
    ensures |final.done| == |LogSteps(log).value|
    ensures Between(job, s.disk, p) ==>
              && At(final.disk, p) == Before(job, p)
              && forall i :: 0 <= i < |final.done| && LogSteps(log).value[i].work.path == p ==> final.done[i]
    ensures !Between(job, s.disk, p) ==>
              && At(final.disk, p) == At(s.disk, p)
              && (forall i :: 0 <= i < |final.done| && LogSteps(log).value[i].work.path == p ==> !final.done[i])
              && exists t :: t in LogSteps(log).value && t.work.path == p
  {
    IntentAsksPutBack(job, intent);
    JobOnlyUndoes(job, s.wal, log, p);
    if Between(job, s.disk, p) {
      PathPutBack(LogSteps(log).value, p, Before(job, p), job.post[p], s.disk, final);
    } else {
      ForeignPathStays(LogSteps(log).value, p, Before(job, p), job.post[p], s.disk, final);
    }
  }

  /** Removes a path this op claimed. */
  method Unclaim(w: World, path: Path) returns (residue: seq<Residue>)
    modifies w`disk, w`trace
    ensures residue == [] || (residue == [NotUndone(path)] && Unfinished(residue))
    ensures w.disk == if residue == [] then Put(old(w.disk), path, None) else old(w.disk)
    ensures w.trace == old(w.trace) + [w.Now()]
  {
    var ok := w.RemoveIfExists(path);
    residue := if ok then [] else [NotUndone(path)];
    assert !ok ==> residue[0].NotUndone?;
  }

  // ---- what a lone op's crash leaves ----

  /** A path made before its op is recorded: a create's empty claim, or what a lone move has filled so far. */
  ghost predicate ClaimedEarly(job: Job, intent: Intent, disk: Disk, path: Path) {
    && !intent.batch && Before(job, path).None?
    && (intent.moves != [] || At(disk, path) == Some([]))
  }

  /** What the disk may hold while the log does not tell of the job: all new, or no more than claims. */
  ghost predicate Untold(job: Job, intent: Intent, disk: Disk) {
    AllAfter(job, disk)
    || forall p :: p in job.post ==> At(disk, p) == Before(job, p) || ClaimedEarly(job, intent, disk, p)
  }

  /**
   * The job's paths change; its intent, once recorded, describes the change, and nothing but a claim
   * changes before that. Where the marker of a failed mark was `kept`, the undo runs under it.
   */
  ghost predicate LoneSnapshot(job: Job, intent: Intent, kept: bool, s: Snapshot) {
    && OthersKept(job, s)
    && (job.id in s.wal ==>
          || s.wal[job.id] == Recorded(intent)
          || s.wal[job.id] == TornRecord(job.id)
          || (s.wal[job.id].status == Landed && (AllAfter(job, s.disk) || (kept && AllBetween(job, s.disk)))))
    && (job.id !in s.wal || s.wal[job.id] == TornRecord(job.id) ==> Untold(job, intent, s.disk))
    && forall p :: p in job.post ==> Between(job, s.disk, p) || HalfMade(job, s.disk, p)
  }

  ghost predicate LoneTrace(job: Job, intent: Intent, kept: bool, before: seq<Snapshot>, trace: seq<Snapshot>) {
    before <= trace && forall k :: |before| <= k < |trace| ==> LoneSnapshot(job, intent, kept, trace[k])
  }

  /** Since `n` the disk was as it is in `disk`, or that without `path`. */
  ghost predicate AtMostDropped(disk: Disk, path: Path, trace: seq<Snapshot>, n: nat) {
    forall k :: n <= k < |trace| ==> trace[k].disk == disk || trace[k].disk == Put(disk, path, None)
  }

  /** Finishes a failed op: its intent is dropped unless an undo failed. */
  method AbandonLone(w: World, id: IntentId, cause: SessionError, residue: seq<Residue>,
                     ghost job: Job, ghost intent: Intent, ghost kept: bool, ghost before: seq<Snapshot>)
    returns (e: SessionError)
    requires id == job.id && (Unfinished(residue) || Untold(job, intent, w.disk))
    requires LoneSnapshot(job, intent, kept, w.Now()) && LoneTrace(job, intent, kept, before, w.trace)
    modifies w`wal, w`trace
    ensures LoneSnapshot(job, intent, kept, w.Now()) && LoneTrace(job, intent, kept, before, w.trace)
    ensures old(w.trace) <= w.trace && AtMostNow(w.disk, w.trace, |old(w.trace)|)
    ensures Unfinished(residue) ==> w.wal == old(w.wal) && e == LeftBehind(cause, residue)
    ensures (e == WithResidue(cause, residue) && (residue == [] ==> id !in w.wal)) || e.LeftBehind?
    ensures !cause.LeftBehind? ==> CauseOf(e) == cause
    ensures AccountsFor(job, w.disk, residue) && !cause.LeftBehind? ==> Accounts(job, w.disk, e)
    ensures w.wal == old(w.wal) || w.wal == old(w.wal) - {id}
  {
    ghost var s := w.Now();
    e := Abandon(w, id, cause, residue);
    if AccountsFor(job, w.disk, residue) { AccountsStill(job, w.disk, residue); }
    assert w.wal - {id} == s.wal - {id};
    assert LoneSnapshot(job, intent, kept, w.Now());
  }

  /** Since `n` the disk was as it is in `disk`. */
  ghost predicate AtMostNow(disk: Disk, trace: seq<Snapshot>, n: nat) {
    forall k :: n <= k < |trace| ==> trace[k].disk == disk
  }

  /** Drops the claim on `path` and then the intent, when nothing else of the job has changed. */
  method AbandonClaim(w: World, path: Path, cause: SessionError, ghost job: Job, intent: Intent, ghost kept: bool,
                      ghost before: seq<Snapshot>)
    returns (e: SessionError)
    requires w.Valid() && intent.id == job.id && path in job.post && Before(job, path).None?
    requires LoneSnapshot(job, intent, kept, w.Now()) && LoneTrace(job, intent, kept, before, w.trace)
    requires job.id in w.wal && w.wal[job.id].status == Landed ==> kept && AllBetween(job, w.disk)
    requires forall p :: p in job.post && p != path ==> At(w.disk, p) == Before(job, p)
    modifies w`disk, w`wal, w`trace
    ensures w.Valid() && LoneSnapshot(job, intent, kept, w.Now()) && LoneTrace(job, intent, kept, before, w.trace)
    ensures (e == cause && AllBefore(job, w.disk) && job.id !in w.wal) || e.LeftBehind?
    ensures !cause.LeftBehind? ==> CauseOf(e) == cause && Accounts(job, w.disk, e)
    ensures old(w.trace) <= w.trace && AtMostDropped(old(w.disk), path, w.trace, |old(w.trace)|)
    ensures w.disk == old(w.disk) || w.disk == Put(old(w.disk), path, None)
  {
    var residue := Unclaim(w, path);
    assert LoneSnapshot(job, intent, kept, w.Now());
    assert AllBefore(job, w.disk) || residue != [];
    assert AccountsFor(job, w.disk, residue) by { if residue != [] { assert NotUndone(path) in residue; } }
    e := AbandonLone(w, intent.id, cause, residue, job, intent, kept, before);
  }

  /** The marker, then the clear, of an op whose every byte is down; the marker of a failed mark may be `kept`. */
  method MarkAndClear(w: World, id: IntentId, ghost job: Job, ghost intent: Intent, ghost before: seq<Snapshot>)
    returns (landed: bool, cleared: bool, ghost kept: bool)
    requires w.Valid() && id == job.id && AllAfter(job, w.disk)
    requires LoneSnapshot(job, intent, false, w.Now()) && LoneTrace(job, intent, false, before, w.trace)
    requires job.id in w.wal && w.wal[job.id] == Recorded(intent)
    modifies w`wal, w`trace
    ensures w.Valid() && LoneSnapshot(job, intent, false, w.Now()) && LoneTrace(job, intent, false, before, w.trace)
    ensures !landed ==> w.wal == (if kept then Marked(old(w.wal), id) else old(w.wal)) && !cleared
    ensures kept ==> !landed
    ensures cleared ==> job.id !in w.wal
    ensures landed ==> MarkedOrCleared(job.id, w.wal)
    ensures old(w.trace) <= w.trace && forall k :: |old(w.trace)| <= k < |w.trace| ==> w.trace[k].disk == w.disk
  {
    ghost var s := w.Now();
    assert Marked(s.wal, id) - {job.id} == s.wal - {job.id};
    assert LoneSnapshot(job, intent, false, Snapshot(s.disk, Marked(s.wal, id)));
    cleared := false;
    landed, kept := w.MarkLanded(id);
    if landed {
      cleared := w.Clear(id);
      assert w.wal - {job.id} == s.wal - {job.id};
    }
  }

  /** Records the intent of a job that has so far changed nothing but a claim. */
  method AppendLone(w: World, intent: Intent, ghost job: Job, ghost before: seq<Snapshot>) returns (ok: bool)
    requires w.Valid() && intent.id == job.id && job.id !in w.wal && job.id < w.nextId
    requires LoneSnapshot(job, intent, false, w.Now()) && LoneTrace(job, intent, false, before, w.trace)
    modifies w`wal, w`trace
    ensures w.Valid() && LoneSnapshot(job, intent, false, w.Now()) && LoneTrace(job, intent, false, before, w.trace)
    ensures ok ==> job.id in w.wal && w.wal[job.id] == Recorded(intent)
    ensures job.id in w.wal ==> w.wal[job.id].status != Landed
    ensures old(w.trace) <= w.trace && forall k :: |old(w.trace)| <= k < |w.trace| ==> w.trace[k].disk == w.disk
  {
    ghost var s := w.Now();
    ok := w.Append(intent);
    assert w.wal - {job.id} == s.wal - {job.id};
  }

  // ---- an undo as seen from the log ----

  /** What an op whose undo is unfinished leaves in the log: its intent, or a marker that was kept. */
  ghost predicate StillRecorded(job: Job, intent: Intent, kept: bool, wal: Log) {
    job.id in wal && (wal[job.id] == Recorded(intent) || (kept && wal[job.id].status == Landed))
  }

  lemma PutBackIsLone(job: Job, intent: Intent, kept: bool, steps: seq<Converge>, was: Snapshot, now: Snapshot)
    requires LoneSnapshot(job, intent, kept, was) && now.wal == was.wal && PutBackSome(job, steps, was.disk, now.disk)
    requires StillRecorded(job, intent, kept, was.wal)
    requires job.id in was.wal && was.wal[job.id].status == Landed ==> kept && AllBetween(job, was.disk)
    ensures LoneSnapshot(job, intent, kept, now)
  {
    forall p
      ensures p !in job.post ==> At(now.disk, p) == Before(job, p)
      ensures p in job.post ==> Between(job, now.disk, p) || HalfMade(job, now.disk, p)
    {
      if p in job.post && At(now.disk, p) == At(was.disk, p) && HalfMade(job, was.disk, p) {
        var n :| 0 <= n <= |job.post[p].value| && At(was.disk, p) == Some(job.post[p].value[..n]);
        assert At(now.disk, p) == Some(job.post[p].value[..n]);
      }
    }
  }

  lemma PutBackTrace(job: Job, intent: Intent, kept: bool, steps: seq<Converge>, s: Snapshot, before: seq<Snapshot>,
                     was: seq<Snapshot>, trace: seq<Snapshot>)
    requires LoneSnapshot(job, intent, kept, s) && LoneTrace(job, intent, kept, before, was)
             && UndoTrace(job, steps, s, was, trace) && StillRecorded(job, intent, kept, s.wal)
    requires job.id in s.wal && s.wal[job.id].status == Landed ==> kept && AllBetween(job, s.disk)
    ensures LoneTrace(job, intent, kept, before, trace)
  {
    forall k | |before| <= k < |trace| ensures LoneSnapshot(job, intent, kept, trace[k]) {
      if k < |was| { assert trace[k] == was[k]; } else { PutBackIsLone(job, intent, kept, steps, s, trace[k]); }
    }
  }

  // ---- create ----

  ghost function CreateJob(start: Snapshot, id: IntentId, path: Path, content: Bytes): Job {
    Job(start, id, map[path := Some(content)])
  }

  function CreateIntent(id: IntentId, path: Path, content: Bytes): Intent {
    Intent(id, map[], [path], [], [], false, map[path := Some(RawHash(content))])
  }

  /**
   * Creates a file: claim, record, write, mark, clear. `accepts` is the format, lint and parse floor.
   * An existing file is never touched; a failure removes what was claimed or names it. `kept` is the
   * marker of a failed mark that stayed in the log.
   */
  method CreateFile(w: World, path: Path, content: Bytes, accepts: bool)
    returns (r: Result<Splice.EditResult, SessionError>, ghost job: Job, ghost kept: bool)
    requires w.Valid()
    modifies w
    ensures w.Valid() && job == CreateJob(old(w.Now()), job.id, path, content) && job.id !in old(w.wal)
    ensures LoneSnapshot(job, CreateIntent(job.id, path, content), kept, w.Now())
    ensures LoneTrace(job, CreateIntent(job.id, path, content), kept, old(w.trace), w.trace)
    ensures r.Ok? ==> path !in old(w.disk) && AllAfter(job, w.disk) && job.id !in w.wal
                      && Splice.DescribesFile(r.value, content)
    ensures r == Err(LandedNotCleared) ==>
              path !in old(w.disk) && AllAfter(job, w.disk) && MarkedOrCleared(job.id, w.wal)
    ensures r.Err? && !r.error.LandedNotCleared? && !r.error.LeftBehind? ==> AllBefore(job, w.disk) && job.id !in w.wal
    ensures !accepts ==> r == Err(Rejected(path)) && w.Now() == old(w.Now()) && w.trace == old(w.trace)
    ensures accepts && path in old(w.disk) ==> (r == Err(Exists(path)) || r == Err(Io(path))) && w.Now() == old(w.Now())
    ensures r.Err? && accepts && path !in old(w.disk) ==> CauseOf(r.error) in {Io(path), WalFailed, LandedNotCleared}
    ensures r.Err? ==> Accounts(job, w.disk, r.error)
  {
    ghost var start := w.Now();
    kept := false;
    var id := w.NewIntentId();
    job := CreateJob(start, id, path, content);
    if !accepts {
      return Err(Rejected(path)), job, kept;
    }
    var claimed := w.Claim(path);
    if !claimed {
      return Err(if path in w.disk then Exists(path) else Io(path)), job, kept;
    }
    assert content[..0] == [] && HalfMade(job, w.disk, path);
    r, kept := FillClaim(w, id, path, content, job, old(w.trace));
  }

  /** The second half of a create: the path is claimed; record, write, mark, clear. */
  method FillClaim(w: World, id: IntentId, path: Path, content: Bytes, ghost job: Job, ghost before: seq<Snapshot>)
    returns (r: Result<Splice.EditResult, SessionError>, ghost kept: bool)
    requires w.Valid() && job == CreateJob(job.start, id, path, content) && Before(job, path).None?
    requires id !in w.wal && id < w.nextId
    requires LoneSnapshot(job, CreateIntent(id, path, content), false, w.Now())
             && LoneTrace(job, CreateIntent(id, path, content), false, before, w.trace)
    modifies w`disk, w`wal, w`trace
    ensures w.Valid() && LoneSnapshot(job, CreateIntent(id, path, content), kept, w.Now())
    ensures LoneTrace(job, CreateIntent(id, path, content), kept, before, w.trace)
    ensures r.Ok? ==> AllAfter(job, w.disk) && job.id !in w.wal && Splice.DescribesFile(r.value, content)
    ensures r == Err(LandedNotCleared) ==> AllAfter(job, w.disk) && MarkedOrCleared(job.id, w.wal)
    ensures r.Err? && !r.error.LandedNotCleared? && !r.error.LeftBehind? ==> AllBefore(job, w.disk) && job.id !in w.wal
    ensures r.Err? ==> CauseOf(r.error) in {Io(path), WalFailed, LandedNotCleared} && Accounts(job, w.disk, r.error)
  {
    kept := false;
    var intent := CreateIntent(id, path, content);
    var appended := AppendLone(w, intent, job, before);
    if !appended {
      var e := AbandonClaim(w, path, WalFailed, job, intent, false, before);
      return Err(e), kept;
    }
    ghost var s := w.Now();
    ghost var traced := w.trace;
    var written, n, m := w.WriteAndSync(path, content);
    assert content[..|content|] == content;
    HalfWritten(job, intent, s, path, content, n, m, before, traced, w.trace);
    if !written {
      var e := AbandonClaim(w, path, Io(path), job, intent, false, before);
      return Err(e), kept;
    }
    var landed, cleared, k := MarkAndClear(w, id, job, intent, before);
    kept := k;
    if !landed {
      var e := AbandonClaim(w, path, WalFailed, job, intent, kept, before);
      return Err(e), kept;
    }
    if !cleared {
      return Err(LandedNotCleared), kept;
    }
    var result := Splice.WholeFileResult(content);
    r := Ok(result);
  }

  /** Filling the claim leaves, at worst, a half-made path. */
  lemma HalfWritten(job: Job, intent: Intent, s: Snapshot, path: Path, content: Bytes, n: nat, m: nat,
                    before: seq<Snapshot>, traced: seq<Snapshot>, trace: seq<Snapshot>)
    requires LoneSnapshot(job, intent, false, s) && path in job.post && Before(job, path).None?
             && job.post[path] == Some(content)
    requires job.id in s.wal && s.wal[job.id] == Recorded(intent)
    requires LoneTrace(job, intent, false, before, traced) && n <= |content| && m <= |content|
    requires trace == traced + [Snapshot(Put(s.disk, path, Some(content[..n])), s.wal),
                                Snapshot(Put(s.disk, path, Some(content[..m])), s.wal)]
    ensures LoneSnapshot(job, intent, false, trace[|trace| - 1]) && LoneTrace(job, intent, false, before, trace)
  {
    assert HalfMade(job, trace[|trace| - 1].disk, path);
    assert HalfMade(job, trace[|trace| - 2].disk, path);
    assert LoneSnapshot(job, intent, false, trace[|trace| - 2]);
  }

  // ---- delete ----

  ghost function DeleteJob(start: Snapshot, id: IntentId, path: Path): Job {
    Job(start, id, map[path := None])
  }

  function DeleteIntent(id: IntentId, path: Path, live: Bytes): Intent {
    Intent(id, map[path := live], [], [path], [], false, map[path := None])
  }

  /**
   * Deletes a file whose bytes are the ones the caller saw: record with the bytes, unlink, mark,
   * clear. A failed marker puts the bytes back; `kept` says that the marker stayed in the log then.
   */
  method DeleteFile(w: World, path: Path, seen: Digest)
    returns (r: Result<Digest, SessionError>, ghost job: Job, ghost kept: bool)
    requires w.Valid()
    modifies w
    ensures w.Valid() && job == DeleteJob(old(w.Now()), job.id, path) && job.id !in old(w.wal)
    ensures forall k :: |old(w.trace)| <= k < |w.trace| ==>
              && At(old(w.disk), path).Some?
              && LoneSnapshot(job, DeleteIntent(job.id, path, old(w.disk)[path]), kept, w.trace[k])
    ensures r.Ok? ==> At(old(w.disk), path).Some? && RawHash(old(w.disk)[path]) == seen == r.value
                      && AllAfter(job, w.disk) && job.id !in w.wal
    ensures r == Err(LandedNotCleared) ==> AllAfter(job, w.disk) && MarkedOrCleared(job.id, w.wal)
    ensures r.Err? && !r.error.LandedNotCleared? && !r.error.LeftBehind? ==> AllBefore(job, w.disk) && job.id !in w.wal
    ensures path !in old(w.disk) ==> r == Err(NotFound(path)) || r == Err(Io(path))
    ensures path in old(w.disk) && RawHash(old(w.disk)[path]) != seen ==> r == Err(Drift(path)) || r == Err(Io(path))
    ensures path !in old(w.disk) || RawHash(old(w.disk)[path]) != seen ==>
              w.Now() == old(w.Now()) && w.trace == old(w.trace)
    ensures r.Err? && path in old(w.disk) && RawHash(old(w.disk)[path]) == seen ==>
              CauseOf(r.error) in {Io(path), WalFailed, LandedNotCleared}
    ensures r.Err? ==> Accounts(job, w.disk, r.error)
  {
    ghost var start := w.Now();
    var id := w.NewIntentId();
    job := DeleteJob(start, id, path);
    kept := false;
    var read := w.Read(path);
    if read.Err? {
      return Err(Io(path)), job, kept;
    }
    r, kept := DeleteSeen(w, id, path, read.value, seen, job);
  }

  /** A delete once the file is read: what is not there, or is not what the caller saw, is told as such. */
  method DeleteSeen(w: World, id: IntentId, path: Path, content: Option<Bytes>, seen: Digest, ghost job: Job)
    returns (r: Result<Digest, SessionError>, ghost kept: bool)
    requires w.Valid() && job == DeleteJob(w.Now(), id, path) && content == At(w.disk, path)
    requires id !in w.wal && id < w.nextId
    modifies w`disk, w`wal, w`trace
    ensures w.Valid()
    ensures forall k :: |old(w.trace)| <= k < |w.trace| ==>
              content.Some? && LoneSnapshot(job, DeleteIntent(id, path, content.value), kept, w.trace[k])
    ensures r.Ok? ==> content.Some? && RawHash(content.value) == seen == r.value
                      && AllAfter(job, w.disk) && job.id !in w.wal
    ensures r == Err(LandedNotCleared) ==> AllAfter(job, w.disk) && MarkedOrCleared(job.id, w.wal)
    ensures r.Err? && !r.error.LandedNotCleared? && !r.error.LeftBehind? ==> AllBefore(job, w.disk) && job.id !in w.wal
    ensures content.None? ==> r == Err(NotFound(path))
    ensures content.Some? && RawHash(content.value) != seen ==> r == Err(Drift(path))
    ensures HashOf(content) != Some(seen) ==> w.Now() == old(w.Now()) && w.trace == old(w.trace)
    ensures r.Err? && HashOf(content) == Some(seen) ==> CauseOf(r.error) in {Io(path), WalFailed, LandedNotCleared}
    ensures r.Err? ==> Accounts(job, w.disk, r.error)
  {
    kept := false;
    if content.None? {
      return Err(NotFound(path)), kept;
    }
    if RawHash(content.value) != seen {
      return Err(Drift(path)), kept;
    }
    ghost var intent := DeleteIntent(id, path, content.value);
    assert LoneSnapshot(job, intent, false, w.Now()) && LoneTrace(job, intent, false, w.trace, w.trace);
    var error, k := RecordAndDelete(w, id, path, content.value, job, w.trace);
    kept := k;
    r := if error.None? then Ok(RawHash(content.value)) else Err(error.value);
  }

  method RecordAndDelete(w: World, id: IntentId, path: Path, live: Bytes, ghost job: Job, ghost before: seq<Snapshot>)
    returns (error: Option<SessionError>, ghost kept: bool)
    requires w.Valid() && job == DeleteJob(job.start, id, path) && Before(job, path) == Some(live)
    requires w.Now() == job.start && id !in w.wal && id < w.nextId
    requires LoneTrace(job, DeleteIntent(id, path, live), false, before, w.trace)
    modifies w`disk, w`wal, w`trace
    ensures w.Valid() && LoneTrace(job, DeleteIntent(id, path, live), kept, before, w.trace)
    ensures error.None? ==> AllAfter(job, w.disk) && job.id !in w.wal
    ensures error == Some(LandedNotCleared) ==> AllAfter(job, w.disk) && MarkedOrCleared(job.id, w.wal)
    ensures error.Some? && !error.value.LandedNotCleared? && !error.value.LeftBehind? ==>
              AllBefore(job, w.disk) && job.id !in w.wal
    ensures error.Some? ==>
              Accounts(job, w.disk, error.value) && CauseOf(error.value) in {Io(path), WalFailed, LandedNotCleared}
  {
    var intent := DeleteIntent(id, path, live);
    kept := false;
    var appended := AppendLone(w, intent, job, before);
    if !appended {
      var e := AbandonUnchanged(w, id, WalFailed, job, intent, before);
      return Some(e), kept;
    }
    var unlinked := w.Unlink(path);
    assert LoneSnapshot(job, intent, false, w.Now());
    if !unlinked {
      var e := AbandonUnchanged(w, id, Io(path), job, intent, before);
      return Some(e), kept;
    }
    var landed, cleared, k := MarkAndClear(w, id, job, intent, before);
    kept := k;
    if !landed {
      var e := UndoDelete(w, intent, path, live, job, kept, before);
      return Some(e), kept;
    }
    error := if cleared then None else Some(LandedNotCleared);
  }

  /** Drops the intent of an op that changed nothing. */
  method AbandonUnchanged(w: World, id: IntentId, cause: SessionError, ghost job: Job, ghost intent: Intent,
                          ghost before: seq<Snapshot>)
    returns (e: SessionError)
    requires w.Valid() && id == job.id && AllBefore(job, w.disk) && (cause == WalFailed || cause.Io?)
    requires LoneSnapshot(job, intent, false, w.Now()) && LoneTrace(job, intent, false, before, w.trace)
    modifies w`wal, w`trace
    ensures w.Valid() && LoneSnapshot(job, intent, false, w.Now()) && LoneTrace(job, intent, false, before, w.trace)
    ensures old(w.trace) <= w.trace && AtMostNow(w.disk, w.trace, |old(w.trace)|)
    ensures (e == cause && job.id !in w.wal) || e.LeftBehind?
    ensures CauseOf(e) == cause && Accounts(job, w.disk, e)
  {
    e := AbandonLone(w, id, cause, [], job, intent, false, before);
  }

  /** Puts a deleted file's bytes back, and drops the intent unless that failed. */
  method UndoDelete(w: World, intent: Intent, path: Path, live: Bytes, ghost job: Job, ghost kept: bool,
                    ghost before: seq<Snapshot>)
    returns (e: SessionError)
    requires w.Valid() && job == DeleteJob(job.start, intent.id, path) && Before(job, path) == Some(live)
    requires intent == DeleteIntent(intent.id, path, live)
    requires LoneSnapshot(job, intent, kept, w.Now()) && LoneTrace(job, intent, kept, before, w.trace)
    requires StillRecorded(job, intent, kept, w.wal)
    modifies w`disk, w`wal, w`trace
    ensures w.Valid() && LoneSnapshot(job, intent, kept, w.Now()) && LoneTrace(job, intent, kept, before, w.trace)
    ensures (e == WalFailed && AllBefore(job, w.disk) && job.id !in w.wal) || e.LeftBehind?
    ensures CauseOf(e) == WalFailed && Accounts(job, w.disk, e)
  {
    ghost var s := w.Now();
    var steps := UndoSteps(intent, [path]);
    UndoStepsContents(intent, [path]);
    assert Converge(path, None, Some(live)) in steps;
    assert forall p :: p in job.post ==> Between(job, w.disk, p) && !HalfMade(job, w.disk, p);
    ghost var traced := w.trace;
    var residue := UndoHeld(w, steps, job);
    PutBackIsLone(job, intent, kept, steps, s, w.Now());
    PutBackTrace(job, intent, kept, steps, s, before, traced, w.trace);
    OnlyFailuresNamed(job, steps, s.disk, residue);
    DeleteAccounts(job, path, steps, s.disk, w.disk, residue);
    e := AbandonLone(w, intent.id, WalFailed, residue, job, intent, kept, before);
  }

  lemma DeleteAccounts(job: Job, path: Path, steps: seq<Converge>, was: Disk, now: Disk, residue: seq<Residue>)
    requires job == DeleteJob(job.start, job.id, path) && Between(job, was, path)
    requires StepUndone(job, path, was, now, residue) && Names(job, steps, was, residue) && UndoesJob(job, steps)
    requires residue == [] || Unfinished(residue)
    requires forall i :: 0 <= i < |residue| ==> residue[i].NotUndone?
    ensures AccountsFor(job, now, residue) && (residue == [] ==> AllBefore(job, now))
  {
    forall x | x in residue ensures x.NotUndone? && x.path in job.post {
      var i :| 0 <= i < |residue| && residue[i] == x;
    }
  }

  /**
   * A lone delete that is not marked landed always gets its bytes back: whichever step it crashed
   * after, and however often recovery crashes first. One that is marked stays deleted.
   */
  lemma {:induction false} UnlandedDeleteIsUndone(job: Job, live: Bytes, path: Path, kept: bool, s: Snapshot,
                                                  log: seq<Replayed>, final: Progress)
    requires job == DeleteJob(job.start, job.id, path) && Before(job, path) == Some(live)
    requires LoneSnapshot(job, DeleteIntent(job.id, path, live), kept, s)
    requires Replays(s.wal, log) && LogSteps(log).Ok? && Alone(job, s.wal)
    requires WellFormed(LogSteps(log).value) && Recovered(LogSteps(log).value, s.disk, final)
    ensures job.id in s.wal && s.wal[job.id].status == Pending ==>
              At(final.disk, path) == Some(live) && NoneLeft(job, LogSteps(log).value, final)
    ensures job.id in s.wal && s.wal[job.id].status == Landed ==>
              At(final.disk, path) == if kept then At(s.disk, path) else None
  {
    var intent := DeleteIntent(job.id, path, live);
    if job.id in s.wal && s.wal[job.id].status == Pending {
      assert Between(job, s.disk, path);
      UnfinishedJobPutBack(job, intent, s, log, final, path);
    } else {
      FinishedJobStays(job, s, log, final);
    }
  }

  /**
   * A lone create that is not marked landed is undone: the path is absent again, unless it crashed
   * mid-write; then the partial file is left as found and reported.
   */
  lemma UnlandedCreateIsUndone(job: Job, content: Bytes, path: Path, kept: bool, s: Snapshot, log: seq<Replayed>,
                               final: Progress)
    requires job == CreateJob(job.start, job.id, path, content) && Before(job, path).None?
    requires LoneSnapshot(job, CreateIntent(job.id, path, content), kept, s)
    requires Replays(s.wal, log) && LogSteps(log).Ok? && Alone(job, s.wal)
    requires WellFormed(LogSteps(log).value) && Recovered(LogSteps(log).value, s.disk, final)
    requires job.id in s.wal && s.wal[job.id].status == Pending
    ensures At(final.disk, path) == if Between(job, s.disk, path) then None else At(s.disk, path)
    ensures Between(job, s.disk, path) <==> NoneLeft(job, LogSteps(log).value, final)
  {
    UnfinishedJobPutBack(job, CreateIntent(job.id, path, content), s, log, final, path);
    if !Between(job, s.disk, path) {
      var t :| t in LogSteps(log).value && t.work.path == path;
    }
  }

  // ---- move ----

  ghost function MoveJob(start: Snapshot, id: IntentId, from: Path, to: Path, live: Bytes): Job {
    Job(start, id, map[from := None, to := Some(live)])
  }

  function MoveIntent(id: IntentId, from: Path, to: Path, live: Bytes): Intent {
    Intent(id, map[from := live], [], [], [Move(from, to)], false, map[from := None, to := Some(RawHash(live))])
  }

  /** What any crash of a move leaves; once its intent is recorded the destination is whole or absent. */
  ghost predicate MoveSnapshot(job: Job, from: Path, to: Path, live: Bytes, s: Snapshot) {
    && LoneSnapshot(job, MoveIntent(job.id, from, to, live), false, s)
    && Safe(s.disk, from, to, live)
    && (job.id in s.wal && s.wal[job.id].status == Pending ==> Between(job, s.disk, from) && Between(job, s.disk, to))
  }

  ghost predicate MoveTrace(job: Job, from: Path, to: Path, live: Bytes, before: seq<Snapshot>, trace: seq<Snapshot>) {
    before <= trace && forall k :: |before| <= k < |trace| ==> MoveSnapshot(job, from, to, live, trace[k])
  }

  lemma MoveTraceGrows(job: Job, from: Path, to: Path, live: Bytes, before: seq<Snapshot>, was: seq<Snapshot>,
                       now: seq<Snapshot>, disk: Disk)
    requires from != to && job == MoveJob(job.start, job.id, from, to, live) && Before(job, to).None?
    requires MoveTrace(job, from, to, live, before, was) && was <= now
    requires LoneTrace(job, MoveIntent(job.id, from, to, live), false, before, now)
    requires At(disk, from) == Some(live) && At(disk, to) == Some(live)
    requires AtMostDropped(disk, to, now, |was|)
    ensures MoveTrace(job, from, to, live, before, now)
  {
    forall k | |before| <= k < |now| ensures MoveSnapshot(job, from, to, live, now[k]) {
      if k < |was| { assert now[k] == was[k]; }
    }
  }

  /** Claims the destination and fills it, before anything is recorded. */
  method ClaimDestination(w: World, from: Path, to: Path, live: Bytes, ghost job: Job)
    returns (error: Option<SessionError>)
    requires w.Valid() && from != to && job == MoveJob(w.Now(), job.id, from, to, live) && job.id !in w.wal
    requires At(w.disk, from) == Some(live)
    modifies w`disk, w`trace
    ensures w.Valid() && MoveTrace(job, from, to, live, old(w.trace), w.trace)
            && MoveSnapshot(job, from, to, live, w.Now())
    ensures error.None? ==> to !in old(w.disk) && w.disk == Put(old(w.disk), to, Some(live))
    ensures error.Some? && !error.value.LeftBehind? ==> w.disk == old(w.disk) && error != Some(LandedNotCleared)
    ensures to in old(w.disk) ==> (error == Some(Exists(to)) || error == Some(Io(to))) && w.disk == old(w.disk)
    ensures error.Some? && to !in old(w.disk) ==> CauseOf(error.value) == Io(to)
    ensures error.Some? ==> Accounts(job, w.disk, error.value)
  {
    FilledPartly(job, from, to, live, 0);
    var claimed := w.Claim(to);
    if !claimed {
      return Some(if to in w.disk then Exists(to) else Io(to));
    }
    assert Filled(job.start, to, live, 0) == w.Now() by { assert live[..0] == []; }
    error := FillDestination(w, from, to, live, job, old(w.trace));
  }

  method FillDestination(w: World, from: Path, to: Path, live: Bytes, ghost job: Job, ghost before: seq<Snapshot>)
    returns (error: Option<SessionError>)
    requires w.Valid() && from != to && job == MoveJob(job.start, job.id, from, to, live) && job.id !in job.start.wal
    requires At(job.start.disk, from) == Some(live) && to !in job.start.disk
    requires w.Now() == Filled(job.start, to, live, 0) && MoveTrace(job, from, to, live, before, w.trace)
    modifies w`disk, w`trace
    ensures w.Valid() && MoveTrace(job, from, to, live, before, w.trace) && MoveSnapshot(job, from, to, live, w.Now())
    ensures error.None? ==> w.disk == Put(job.start.disk, to, Some(live))
    ensures error.Some? && !error.value.LeftBehind? ==> w.disk == job.start.disk && error == Some(Io(to))
    ensures error.Some? ==> CauseOf(error.value) == Io(to) && Accounts(job, w.disk, error.value)
  {
    ghost var traced := w.trace;
    var written, n, m := w.WriteAndSync(to, live);
    PutTwice(job.start.disk, to, live[..0], live[..n]);
    PutTwice(job.start.disk, to, live[..0], live[..m]);
    assert live[..|live|] == live;
    FilledTrace(job, from, to, live, n, m, before, traced, w.trace);
    if written {
      return None;
    }
    error := DropDestination(w, from, to, live, m, job, before);
  }

  /** Drops what was filled of the destination when filling it failed. */
  method DropDestination(w: World, from: Path, to: Path, live: Bytes, ghost m: nat, ghost job: Job,
                         ghost before: seq<Snapshot>)
    returns (error: Option<SessionError>)
    requires w.Valid() && MoveReady(job, from, to, live) && m <= |live|
    requires w.Now() == Filled(job.start, to, live, m) && MoveTrace(job, from, to, live, before, w.trace)
    modifies w`disk, w`trace
    ensures w.Valid() && MoveTrace(job, from, to, live, before, w.trace) && MoveSnapshot(job, from, to, live, w.Now())
    ensures error.Some? && (error.value.LeftBehind? || (w.disk == job.start.disk && error == Some(Io(to))))
    ensures CauseOf(error.value) == Io(to) && Accounts(job, w.disk, error.value)
  {
    FilledPartly(job, from, to, live, m);
    assert Put(w.disk, to, None) == job.start.disk;
    var residue := Unclaim(w, to);
    error := Some(WithResidue(Io(to), residue));
  }

  lemma FilledTrace(job: Job, from: Path, to: Path, live: Bytes, n: nat, m: nat, before: seq<Snapshot>,
                    traced: seq<Snapshot>, trace: seq<Snapshot>)
    requires MoveReady(job, from, to, live) && n <= |live| && m <= |live|
    requires MoveTrace(job, from, to, live, before, traced)
    requires trace == traced + [Filled(job.start, to, live, n), Filled(job.start, to, live, m)]
    ensures MoveTrace(job, from, to, live, before, trace)
    ensures MoveSnapshot(job, from, to, live, Filled(job.start, to, live, m))
  {
    FilledPartly(job, from, to, live, n);
    FilledPartly(job, from, to, live, m);
  }

  lemma PutTwice(disk: Disk, path: Path, a: Bytes, b: Bytes)
    ensures Put(Put(disk, path, Some(a)), path, Some(b)) == Put(disk, path, Some(b))
  {
  }

  ghost function Filled(start: Snapshot, to: Path, live: Bytes, n: nat): Snapshot
    requires n <= |live|
  {
    Snapshot(Put(start.disk, to, Some(live[..n])), start.wal)
  }

  lemma FilledPartly(job: Job, from: Path, to: Path, live: Bytes, n: nat)
    requires from != to && job == MoveJob(job.start, job.id, from, to, live) && job.id !in job.start.wal
    requires At(job.start.disk, from) == Some(live) && n <= |live|
    ensures to !in job.start.disk ==> MoveSnapshot(job, from, to, live, Filled(job.start, to, live, n))
    ensures MoveSnapshot(job, from, to, live, job.start)
  {
    if to !in job.start.disk {
      assert HalfMade(job, Filled(job.start, to, live, n).disk, to);
    }
  }

  /**
   * Moves a file whose bytes are the ones the caller saw: claim and fill the destination, record with
   * the source bytes, unlink the source, mark, clear. A failed marker still counts as landed.
   */
  method MoveFile(w: World, from: Path, to: Path, seen: Digest)
    returns (r: Result<Splice.EditResult, SessionError>, ghost job: Job)
    requires w.Valid()
    modifies w
    ensures w.Valid()
    ensures forall k :: |old(w.trace)| <= k < |w.trace| ==>
              At(old(w.disk), from).Some? && job == MoveJob(old(w.Now()), job.id, from, to, old(w.disk)[from])
              && MoveSnapshot(job, from, to, old(w.disk)[from], w.trace[k])
    ensures r.Ok? || r == Err(LandedNotCleared) ==>
              At(old(w.disk), from).Some? && RawHash(old(w.disk)[from]) == seen && to !in old(w.disk)
    ensures r.Ok? ==> Splice.DescribesFile(r.value, old(w.disk)[from])
    ensures from != to && At(old(w.disk), from).Some? ==>
              MoveResult(Job(old(w.Now()), job.id, job.post), from, to, old(w.disk)[from], ErrorOf(r), w.Now())
    ensures to == "" ==> r == Err(Usage)
    ensures to != "" && from !in old(w.disk) ==> r == Err(NotFound(from)) || r == Err(Io(from))
    ensures to != "" && from in old(w.disk) && RawHash(old(w.disk)[from]) != seen ==>
              r == Err(Drift(from)) || r == Err(Io(from))
    ensures to == "" || from !in old(w.disk) || RawHash(old(w.disk)[from]) != seen ==>
              w.Now() == old(w.Now()) && w.trace == old(w.trace)
    ensures to != "" && from in old(w.disk) && RawHash(old(w.disk)[from]) == seen ==>
              && (to in old(w.disk) ==> r in {Err(Exists(to)), Err(Io(to)), Err(Io(from))} && w.Now() == old(w.Now()))
              && (r.Err? && to !in old(w.disk) ==> CauseOf(r.error) in {Io(from), Io(to), WalFailed, LandedNotCleared})
    ensures r.Err? ==> Accounts(job, w.disk, r.error)
  {
    ghost var start := w.Now();
    job := Job(start, w.nextId, map[]);
    if to == "" {
      return Err(Usage), job;
    }
    var read := w.Read(from);
    if read.Err? {
      return Err(Io(from)), job;
    }
    r, job := MoveSeen(w, from, to, read.value, seen);
    if |old(w.trace)| < |w.trace| {
      assert w.trace[|old(w.trace)|] in w.trace;
      assert job == MoveJob(start, job.id, from, to, read.value.value);
    }
  }

  /** A move once its source is read: what is not there, or is not what the caller saw, is told as such. */
  method MoveSeen(w: World, from: Path, to: Path, content: Option<Bytes>, seen: Digest)
    returns (r: Result<Splice.EditResult, SessionError>, ghost job: Job)
    requires w.Valid() && content == At(w.disk, from)
    modifies w
    ensures w.Valid()
    ensures forall k :: |old(w.trace)| <= k < |w.trace| ==>
              content.Some? && job == MoveJob(old(w.Now()), job.id, from, to, content.value)
              && MoveSnapshot(job, from, to, content.value, w.trace[k])
    ensures r.Ok? || r == Err(LandedNotCleared) ==> HashOf(content) == Some(seen) && to !in old(w.disk)
    ensures r.Ok? ==> Splice.DescribesFile(r.value, content.value)
    ensures from != to && content.Some? ==>
              MoveResult(Job(old(w.Now()), job.id, job.post), from, to, content.value, ErrorOf(r), w.Now())
    ensures content.None? ==> r == Err(NotFound(from))
    ensures content.Some? && RawHash(content.value) != seen ==> r == Err(Drift(from))
    ensures HashOf(content) != Some(seen) ==> w.Now() == old(w.Now()) && w.trace == old(w.trace)
    ensures HashOf(content) == Some(seen) ==>
              && (to in old(w.disk) ==> r in {Err(Exists(to)), Err(Io(to))} && w.Now() == old(w.Now()))
              && (r.Err? && to !in old(w.disk) ==> CauseOf(r.error) in {Io(from), Io(to), WalFailed, LandedNotCleared})
    ensures r.Err? ==> Accounts(job, w.disk, r.error)
  {
    ghost var start := w.Now();
    job := Job(start, w.nextId, map[]);
    if content.None? {
      return Err(NotFound(from)), job;
    }
    var live := content.value;
    if RawHash(live) != seen {
      return Err(Drift(from)), job;
    }
    var id := w.NewIntentId();
    job := MoveJob(start, id, from, to, live);
    assert job.start.wal - {id} == start.wal;
    if from == to {
      var claimed := w.Claim(to);
      assert !claimed;
      return Err(Exists(to)), job;
    }
    var failed := ClaimDestination(w, from, to, live, job);
    if failed.Some? {
      return Err(failed.value), job;
    }
    var error := RecordAndUnlink(w, id, from, to, live, job, old(w.trace));
    if error.Some? {
      return Err(error.value), job;
    }
    var result := Splice.WholeFileResult(live);
    r := Ok(result);
  }

  ghost predicate MoveReady(job: Job, from: Path, to: Path, live: Bytes) {
    && from != to && job == MoveJob(job.start, job.id, from, to, live) && job.id !in job.start.wal
    && At(job.start.disk, from) == Some(live) && to !in job.start.disk
  }

  /** What the caller is told of a move agrees with the disk and the log it leaves. */
  ghost predicate MoveResult(job: Job, from: Path, to: Path, live: Bytes, error: Option<SessionError>, s: Snapshot) {
    && (error.None? || error == Some(LandedNotCleared) ==>
        s.disk == Put(Put(job.start.disk, to, Some(live)), from, None))
    && (error.None? ==> s.wal == job.start.wal)
    && (error == Some(LandedNotCleared) && job.id in s.wal ==>
          s.wal[job.id] == Recorded(MoveIntent(job.id, from, to, live)) || s.wal[job.id].status == Landed)
    && (error.Some? && !error.value.LandedNotCleared? && !error.value.LeftBehind? ==>
          (forall p :: At(s.disk, p) == At(job.start.disk, p)) && s.wal == job.start.wal)
  }

  /** Drops the whole destination again, and the intent with it. */
  method AbandonMove(w: World, id: IntentId, from: Path, to: Path, live: Bytes, cause: SessionError,
                     ghost job: Job, ghost before: seq<Snapshot>)
    returns (e: SessionError)
    requires w.Valid() && id == job.id && MoveReady(job, from, to, live) && (cause == WalFailed || cause == Io(from))
    requires w.disk == Put(job.start.disk, to, Some(live)) && (job.id in w.wal ==> w.wal[job.id].status != Landed)
    requires MoveTrace(job, from, to, live, before, w.trace) && MoveSnapshot(job, from, to, live, w.Now())
    modifies w`disk, w`wal, w`trace
    ensures w.Valid() && MoveTrace(job, from, to, live, before, w.trace)
    ensures MoveResult(job, from, to, live, Some(e), w.Now()) && CauseOf(e) == cause && Accounts(job, w.disk, e)
  {
    ghost var full, traced := w.disk, w.trace;
    assert LoneTrace(job, MoveIntent(id, from, to, live), false, before, w.trace);
    e := AbandonClaim(w, to, cause, job, MoveIntent(id, from, to, live), false, before);
    MoveTraceGrows(job, from, to, live, before, traced, w.trace, full);
    AllBackMeansSame(job, w.Now());
  }

  /** The second half of a move: the destination is whole; record, unlink the source, mark, clear. */
  method RecordAndUnlink(w: World, id: IntentId, from: Path, to: Path, live: Bytes, ghost job: Job,
                         ghost before: seq<Snapshot>)
    returns (error: Option<SessionError>)
    requires w.Valid() && job.id == id < w.nextId && MoveReady(job, from, to, live)
    requires w.Now() == Snapshot(Put(job.start.disk, to, Some(live)), job.start.wal)
    requires MoveTrace(job, from, to, live, before, w.trace)
    modifies w`disk, w`wal, w`trace
    ensures w.Valid() && MoveTrace(job, from, to, live, before, w.trace)
    ensures MoveResult(job, from, to, live, error, w.Now())
    ensures error.Some? ==>
              Accounts(job, w.disk, error.value) && CauseOf(error.value) in {Io(from), WalFailed, LandedNotCleared}
  {
    var intent := MoveIntent(id, from, to, live);
    ghost var full, traced := w.disk, w.trace;
    assert LoneSnapshot(job, intent, false, w.Now()) && LoneTrace(job, intent, false, before, w.trace);
    var appended := AppendLone(w, intent, job, before);
    MoveTraceGrows(job, from, to, live, before, traced, w.trace, full);
    assert MoveSnapshot(job, from, to, live, w.Now());
    if !appended {
      var e := AbandonMove(w, id, from, to, live, WalFailed, job, before);
      return Some(e);
    }
    error := UnlinkSource(w, id, from, to, live, job, before);
  }

  method UnlinkSource(w: World, id: IntentId, from: Path, to: Path, live: Bytes, ghost job: Job,
                      ghost before: seq<Snapshot>)
    returns (error: Option<SessionError>)
    requires w.Valid() && job.id == id < w.nextId && MoveReady(job, from, to, live)
    requires w.disk == Put(job.start.disk, to, Some(live))
    requires id in w.wal && w.wal[id] == Recorded(MoveIntent(id, from, to, live))
    requires MoveTrace(job, from, to, live, before, w.trace) && MoveSnapshot(job, from, to, live, w.Now())
    modifies w`disk, w`wal, w`trace
    ensures w.Valid() && MoveTrace(job, from, to, live, before, w.trace)
    ensures MoveResult(job, from, to, live, error, w.Now())
    ensures error.Some? ==>
              Accounts(job, w.disk, error.value) && CauseOf(error.value) in {Io(from), WalFailed, LandedNotCleared}
  {
    var unlinked := w.Unlink(from);
    assert MoveSnapshot(job, from, to, live, w.Now());
    if !unlinked {
      var e := AbandonMove(w, id, from, to, live, Io(from), job, before);
      return Some(e);
    }
    error := LandMove(w, id, from, to, live, job, before);
  }

  method LandMove(w: World, id: IntentId, from: Path, to: Path, live: Bytes, ghost job: Job,
                  ghost before: seq<Snapshot>)
    returns (error: Option<SessionError>)
    requires w.Valid() && job.id == id && MoveReady(job, from, to, live)
    requires w.disk == Put(Put(job.start.disk, to, Some(live)), from, None)
    requires id in w.wal && w.wal[id] == Recorded(MoveIntent(id, from, to, live))
    requires MoveTrace(job, from, to, live, before, w.trace) && MoveSnapshot(job, from, to, live, w.Now())
    modifies w`wal, w`trace
    ensures w.Valid() && MoveTrace(job, from, to, live, before, w.trace)
    ensures MoveResult(job, from, to, live, error, w.Now())
    ensures error.Some? ==>
              Accounts(job, w.disk, error.value) && CauseOf(error.value) in {Io(from), WalFailed, LandedNotCleared}
  {
    ghost var traced, intent := w.trace, MoveIntent(id, from, to, live);
    assert LoneTrace(job, intent, false, before, w.trace);
    var landed, cleared, _ := MarkAndClear(w, id, job, intent, before);
    forall k | |before| <= k < |w.trace| ensures MoveSnapshot(job, from, to, live, w.trace[k]) {
      if k < |traced| { assert w.trace[k] == traced[k]; }
    }
    assert cleared ==> w.wal - {id} == w.wal && job.start.wal - {id} == job.start.wal;
    error := if landed && cleared then None else Some(LandedNotCleared);
  }

  lemma AllBackMeansSame(job: Job, s: Snapshot)
    requires OthersKept(job, s) && job.id !in job.start.wal
    ensures AllBefore(job, s.disk) && job.id !in s.wal ==>
              (forall p :: At(s.disk, p) == At(job.start.disk, p)) && s.wal == job.start.wal
  {
    if AllBefore(job, s.disk) && job.id !in s.wal {
      assert s.wal - {job.id} == s.wal && job.start.wal - {job.id} == job.start.wal;
      forall p ensures At(s.disk, p) == At(job.start.disk, p) {}
    }
  }
}
