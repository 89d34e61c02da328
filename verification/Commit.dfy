/** Committing a prepared plan of edits, file by file, and what a crash at any step of it comes to. */
module Commit {
  import opened Prelude
  import Paths
  import opened Cycles
  import opened Steps
  import opened Recovery
  import opened Wal
  import opened Worlds
  import opened Jobs
  import opened Undo
  import opened Splice
  import opened Regions
  import Restart
  import SharedStarts
  import Trees

  type Parser = (Path, Bytes) -> Option<Trees.Node>

  /** A prepared plan: its recorded intent, and its edits in input order. */
  datatype Plan = Plan(intent: Intent, edits: seq<Edit>)

  function PathsOf(edits: seq<Edit>): set<Path> {
    set e | e in edits :: e.region.path
  }

  /** The edits of one file, in input order. */
  function EditsOf(edits: seq<Edit>, path: Path): seq<Edit> {
    if edits == [] then []
    else
      var front := EditsOf(edits[..|edits| - 1], path);
      var last := edits[|edits| - 1];
      if last.region.path == path then front + [last] else front
  }

  datatype Staged = Staged(resolved: seq<FileEdit>, out: Bytes)

  /** Resolves and splices one file's edits over its live bytes. */
  function Stage(parse: Parser, path: Path, live: Bytes, edits: seq<Edit>): Result<Staged, SessionError> {
    var resolved := ResolveEdits(parse(path, live), live, edits);
    if resolved.Err? then Err(SessionError.Conflict(path))
    else
      var out := Spliced(live, resolved.value);
      if out.Err? then Err(SpliceFailed(path)) else Ok(Staged(resolved.value, out.value))
  }

  // ---- what staging a file means ----

  /** The places in the plan of the edits of one file, in input order. */
  ghost predicate EditsOn(edits: seq<Edit>, path: Path, at: seq<nat>) {
    && Increasing(at) && (forall k :: 0 <= k < |at| ==> at[k] < |edits|)
    && forall i: nat :: i < |edits| ==> (i in at <==> edits[i].region.path == path)
  }

  /** Every one of the file's edits is found in its live bytes. */
  ghost predicate EditsFound(parse: Parser, path: Path, live: Bytes, edits: seq<Edit>, at: seq<nat>,
                             resolved: seq<FileEdit>) {
    && EditsOn(edits, path, at) && |resolved| == |at|
    && forall k :: 0 <= k < |at| ==> EditResolves(parse(path, live), live, edits[at[k]], resolved[k])
  }

  lemma {:induction false} EditsOfInOrder(edits: seq<Edit>, path: Path) returns (at: seq<nat>)
    ensures EditsOn(edits, path, at) && Picks(edits, at, EditsOf(edits, path))
  {
    if edits == [] {
      at := [];
    } else {
      var n := |edits| - 1;
      at := EditsOfInOrder(edits[..n], path);
      if edits[n].region.path == path { at := at + [n]; }
    }
  }

  /** Some edit of the file is not found in its live bytes. */
  ghost predicate SomeUnfound(parse: Parser, path: Path, live: Bytes, edits: seq<Edit>) {
    exists i :: 0 <= i < |edits| && edits[i].region.path == path
      && Resolve(parse(path, live), live, edits[i].region).Err?
  }

  /** Staging a file finds every one of its edits and splices them all, or says which of the two failed. */
  lemma {:induction false} StageMeans(parse: Parser, path: Path, live: Bytes, edits: seq<Edit>)
    returns (at: seq<nat>, resolved: seq<FileEdit>)
    ensures var stage := Stage(parse, path, live, EditsOf(edits, path));
            && (stage == Err(SessionError.Conflict(path)) <==> SomeUnfound(parse, path, live, edits))
            && (!SomeUnfound(parse, path, live, edits) ==>
                  && EditsFound(parse, path, live, edits, at, resolved)
                  && (stage == Err(SpliceFailed(path)) <==> Spliced(live, resolved).Err?)
                  && (stage.Ok? ==> stage.value.resolved == resolved && Spliced(live, resolved) == Ok(stage.value.out)))
            && (stage.Err? ==> stage.error in {SessionError.Conflict(path), SpliceFailed(path)})
  {
    at := EditsOfInOrder(edits, path);
    var own, tree := EditsOf(edits, path), parse(path, live);
    ResolveEditsEach(tree, live, own);
    var found := ResolveEdits(tree, live, own);
    resolved := if found.Ok? then found.value else [];
    if found.Ok? {
      forall i: nat | i < |edits| && edits[i].region.path == path ensures Resolve(tree, live, edits[i].region).Ok? {
        var k :| 0 <= k < |at| && at[k] == i;
        assert Resolve(tree, live, own[k].region).Ok?;
      }
    } else {
      var k: nat :| FirstUnresolved(tree, live, own, k, found.error);
      assert edits[at[k]] == own[k] && at[k] in at;
    }
  }

  /** The file's new bytes are all its edits spliced into the bytes it held, with one result for each. */
  ghost predicate FileCommitted(parse: Parser, plan: Plan, disk: Disk, path: Path, now: Option<Bytes>,
                                results: seq<EditResult>, at: seq<nat>, resolved: seq<FileEdit>) {
    && path in disk && EditsFound(parse, path, disk[path], plan.edits, at, resolved)
    && now.Some? && Spliced(disk[path], resolved) == Ok(now.value)
    && |results| == |at| == |SortAscending(resolved)|
    && DescribesFirst(results, now.value, SortAscending(resolved))
  }

  ghost predicate IsFileCommitted(parse: Parser, plan: Plan, disk: Disk, path: Path, now: Option<Bytes>,
                                  results: seq<EditResult>) {
    exists at, resolved :: FileCommitted(parse, plan, disk, path, now, results, at, resolved)
  }

  ghost predicate HasResults(results: seq<(Path, seq<EditResult>)>, path: Path) {
    exists k :: 0 <= k < |results| && results[k].0 == path
  }

  /** Every file that the plan edits is committed, in path order, and no other file is changed. */
  ghost predicate EveryFileCommitted(parse: Parser, plan: Plan, start: Disk, now: Disk,
                                     results: seq<(Path, seq<EditResult>)>) {
    && (forall i, j :: 0 <= i < j < |results| ==> Paths.Before(results[i].0, results[j].0))
    && (forall i :: 0 <= i < |plan.edits| ==> HasResults(results, plan.edits[i].region.path))
    && (forall k :: 0 <= k < |results| ==>
          IsFileCommitted(parse, plan, start, results[k].0, At(now, results[k].0), results[k].1))
    && (forall p :: !HasResults(results, p) ==> At(now, p) == At(start, p))
  }

  lemma {:induction false} ResultsMeanCommitted(parse: Parser, plan: Plan, start: Snapshot, now: Disk,
                                                results: seq<(Path, seq<EditResult>)>)
    requires AllAfter(CommitJob(parse, plan, start), now)
    requires forall p :: p !in PathsOf(plan.edits) ==> At(now, p) == At(start.disk, p)
    requires |results| == |Paths.Sorted(PathsOf(plan.edits))|
    requires ResultsUpTo(parse, plan, start.disk, Paths.Sorted(PathsOf(plan.edits)), results)
    ensures EveryFileCommitted(parse, plan, start.disk, now, results)
  {
    var paths, job := Paths.Sorted(PathsOf(plan.edits)), CommitJob(parse, plan, start);
    forall i | 0 <= i < |plan.edits| ensures HasResults(results, plan.edits[i].region.path) {
      assert plan.edits[i] in plan.edits && plan.edits[i].region.path in paths;
      var k :| 0 <= k < |paths| && paths[k] == plan.edits[i].region.path;
      assert results[k].0 == paths[k];
    }
    forall k | 0 <= k < |results|
      ensures IsFileCommitted(parse, plan, start.disk, results[k].0, At(now, results[k].0), results[k].1)
    {
      var path := paths[k];
      assert path in paths && path in job.post && ResultsFor(parse, plan, start.disk, path, results[k].1);
      var at, resolved := StageMeans(parse, path, start.disk[path], plan.edits);
      SharedStarts.SortAscendingInOrder(resolved);
      assert FileCommitted(parse, plan, start.disk, path, At(now, path), results[k].1, at, resolved);
    }
  }

  // ---- why a file fails ----

  /** The error is one that this file gives: it cannot be read or written, an edit is not found, or they overlap. */
  ghost predicate FileWhy(parse: Parser, plan: Plan, disk: Disk, path: Path, error: SessionError) {
    match error
    case Io(p) => p == path
    case Conflict(p) => p == path && path in disk && SomeUnfound(parse, path, disk[path], plan.edits)
    case SpliceFailed(p) =>
      && p == path && path in disk && !SomeUnfound(parse, path, disk[path], plan.edits)
      && Stage(parse, path, disk[path], EditsOf(plan.edits, path)).Err?
    case _ => error == WalFailed
  }

  /** The file's results leave its new bytes. */
  ghost predicate ReportFallsOff(parse: Parser, plan: Plan, disk: Disk, path: Path) {
    && path in disk
    && var stage := Stage(parse, path, disk[path], EditsOf(plan.edits, path));
       stage.Ok? && !AllInRange(stage.value.out, SortAscending(stage.value.resolved))
  }

  /** A commit fails or panics only over a file of the plan, or because the log could not be written. */
  ghost predicate CommitWhy(parse: Parser, plan: Plan, disk: Disk, o: Outcome) {
    match o
    case Committed(_) => true
    case Failed(error) =>
      || CauseOf(error) == WalFailed || error == LandedNotCleared
      || exists i :: 0 <= i < |plan.edits| && FileWhy(parse, plan, disk, plan.edits[i].region.path, CauseOf(error))
    case Panicked => exists i :: 0 <= i < |plan.edits| && ReportFallsOff(parse, plan, disk, plan.edits[i].region.path)
  }

  /** What a commit of the plan leaves on each of its paths. */
  ghost function PostOf(parse: Parser, plan: Plan, disk: Disk): map<Path, Option<Bytes>> {
    map p | p in PathsOf(plan.edits) ::
      if p in disk && Stage(parse, p, disk[p], EditsOf(plan.edits, p)).Ok?
      then Some(Stage(parse, p, disk[p], EditsOf(plan.edits, p)).value.out)
      else At(disk, p)
  }

  ghost function CommitJob(parse: Parser, plan: Plan, start: Snapshot): Job {
    Job(start, plan.intent.id, PostOf(parse, plan, start.disk))
  }

  // ---- what the log and the disk hold at every step ----

  /** Each record names what its write leaves and, one way or the other, what it replaces. */
  ghost predicate GoodRecord(job: Job, intent: Intent, a: Applying) {
    && a.path in job.post && Some(a.after) == HashOf(job.post[a.path])
    && Before(job, a.path).Some?
    && Before(job, a.path) == if a.before.Some? then a.before else At(intent.originals, a.path)
  }

  ghost predicate GoodRecords(job: Job, intent: Intent, applied: seq<Applying>) {
    forall a :: a in applied ==> GoodRecord(job, intent, a)
  }

  ghost predicate HasRecord(applied: seq<Applying>, path: Path) {
    exists a :: a in applied && a.path == path
  }

  /** A path holds its old bytes, or its new ones with a record that says so. */
  ghost predicate OldOrRecorded(job: Job, applied: seq<Applying>, disk: Disk) {
    forall p :: p in job.post ==>
      At(disk, p) == Before(job, p) || (At(disk, p) == job.post[p] && HasRecord(applied, p))
  }

  ghost predicate Working(job: Job, intent: Intent, s: Snapshot) {
    && job.id in s.wal && s.wal[job.id].status == Pending && s.wal[job.id].intent == intent
    && GoodRecords(job, intent, s.wal[job.id].applied)
    && OldOrRecorded(job, s.wal[job.id].applied, s.disk)
  }

  /** What any crash of a commit leaves; where the marker of a failed mark was `kept`, the undo runs under it. */
  ghost predicate CommitSnapshot(job: Job, intent: Intent, kept: bool, s: Snapshot) {
    && OthersKept(job, s)
    && (|| Working(job, intent, s)
        || (job.id in s.wal && s.wal[job.id].status == Landed
            && (AllAfter(job, s.disk) || (kept && AllBetween(job, s.disk))))
        || (job.id !in s.wal && (AllBefore(job, s.disk) || AllAfter(job, s.disk))))
  }

  ghost predicate CommitTrace(job: Job, intent: Intent, kept: bool, before: seq<Snapshot>, trace: seq<Snapshot>) {
    before <= trace && forall k :: |before| <= k < |trace| ==> CommitSnapshot(job, intent, kept, trace[k])
  }

  // ---- all or nothing ----

  lemma {:induction false} GoodRecordsBuild(job: Job, intent: Intent, applied: seq<Applying>)
    requires GoodRecords(job, intent, applied)
    ensures AppliedSteps(intent, applied).Ok?
  {
    if applied != [] {
      GoodRecordsBuild(job, intent, applied[..|applied| - 1]);
      assert applied[|applied| - 1] in applied;
    }
  }

  lemma RecordsAskPutBack(job: Job, r: Replayed)
    requires r.status == Pending && !HasLifecycleOp(r.intent) && GoodRecords(job, r.intent, r.applied)
    ensures AsksPutBack(job, r)
    ensures forall p :: HasRecord(r.applied, p) ==> Covers(r, p)
  {
    GoodRecordsBuild(job, r.intent, r.applied);
    AppliedStepsContents(r.intent, r.applied);
    forall base: nat ensures IntentSteps(r, base) == AppliedSteps(r.intent, r.applied) {}
    forall s | s in AppliedSteps(r.intent, r.applied).value
      ensures s.work.path in job.post && s.waitsFor.None?
              && EdgeOf(s) == Edge(HashOf(job.post[s.work.path]), HashOf(Before(job, s.work.path)))
    {
      assert FromApplied(r.intent, r.applied, s);
    }
    forall p | HasRecord(r.applied, p) ensures Covers(r, p) {
      var a :| a in r.applied && a.path == p;
      var s := AppliedStep(r.intent, a);
      assert FromApplied(r.intent, r.applied, s);
    }
  }

  /**
   * All or nothing: with no other unfinished intent on the plan's paths, a crash at any step of the
   * commit, followed by a recovery that may itself crash any number of times, leaves every path at its
   * new bytes if the landed marker was durable, and at its old bytes if it was not. Nothing of the
   * plan's is reported.
   */
  lemma {:induction false} CommitIsAllOrNothing(job: Job, intent: Intent, s: Snapshot, log: seq<Replayed>,
                                                final: Progress)
    requires CommitSnapshot(job, intent, false, s) && !HasLifecycleOp(intent)
    requires Replays(s.wal, log) && LogSteps(log).Ok? && Alone(job, s.wal)
    requires WellFormed(LogSteps(log).value) && Recovered(LogSteps(log).value, s.disk, final)
    ensures job.id in s.wal && s.wal[job.id].status == Landed ==> AllAfter(job, final.disk)
    ensures job.id in s.wal && s.wal[job.id].status != Landed ==> AllBefore(job, final.disk)
    ensures job.id !in s.wal ==> AllBefore(job, final.disk) || AllAfter(job, final.disk)
    ensures |final.done| == |LogSteps(log).value|
    ensures forall p :: p in job.post ==> !Named(Restart.LeftOf(LogSteps(log).value, final.done), p)
  {
    var steps := LogSteps(log).value;
    var working := job.id in s.wal && s.wal[job.id].status == Pending;
    if working { RecordsAskPutBack(job, s.wal[job.id]); }
    var last := RecoveredFrom(steps, s.disk, final);
    forall p | p in job.post
      ensures At(final.disk, p) == if working then Before(job, p) else At(s.disk, p)
      ensures forall i :: 0 <= i < |steps| && steps[i].work.path == p ==> final.done[i]
    {
      JobOnlyUndoes(job, s.wal, log, p);
      if working {
        PathPutBack(steps, p, Before(job, p), job.post[p], s.disk, final);
      } else {
        UntouchedPathStays(steps, p, s.disk, final);
        forall i | 0 <= i < |steps| ensures steps[i].work.path != p { assert steps[i] in steps; }
      }
    }
    assert NoneLeft(job, steps, final);
    forall p | p in job.post ensures !Named(Restart.LeftOf(steps, final.done), p) {
      ReportNamesNone(job, steps, final, p);
    }
  }

  /**
   * Where a mark failed and its take-back failed too, the marker stays while the files are put back,
   * and recovery keeps what it finds. All or nothing then holds at exactly those crashes that find the
   * files all old or all new.
   */
  lemma {:induction false} KeptMarkerVerdict(job: Job, intent: Intent, kept: bool, s: Snapshot, log: seq<Replayed>,
                                             final: Progress)
    requires CommitSnapshot(job, intent, kept, s) && !HasLifecycleOp(intent)
    requires Replays(s.wal, log) && LogSteps(log).Ok? && Alone(job, s.wal)
    requires WellFormed(LogSteps(log).value) && Recovered(LogSteps(log).value, s.disk, final)
    ensures AllBefore(job, final.disk) || AllAfter(job, final.disk) <==> !Stranded(job, s)
    ensures Stranded(job, s) ==> kept
  {
    if job.id in s.wal && s.wal[job.id].status == Landed {
      FinishedJobStays(job, s, log, final);
    } else {
      CommitIsAllOrNothing(job, intent, s, log, final);
    }
  }

  // ---- the failing input: two files written and marked, the marker kept, the first file put back, a crash ----

  ghost function TwoFiles(id: IntentId): Job {
    Job(Snapshot(map["a" := [1], "b" := [2]], map[]), id, map["a" := Some([3]), "b" := Some([4])])
  }

  function TwoFilesMarked(id: IntentId): Replayed {
    Replayed(Intent(id, map["a" := [1], "b" := [2]], [], [], [], false, map[]),
             [Applying("a", RawHash([3]), None), Applying("b", RawHash([4]), None)], Landed)
  }

  lemma KeptMarkerStrandsTwoFiles(id: IntentId)
    ensures var job, entry, disk := TwoFiles(id), TwoFilesMarked(id), map["a" := [1], "b" := [4]];
            var s := Snapshot(disk, map[id := entry]);
            && CommitSnapshot(job, entry.intent, true, s) && Replays(s.wal, [entry]) && LogSteps([entry]) == Ok([])
            && Recovered([], disk, Progress(disk, [])) && !AllBefore(job, disk) && !AllAfter(job, disk)
  {
    var job, entry, disk := TwoFiles(id), TwoFilesMarked(id), map["a" := [1], "b" := [4]];
    NoStepsRecover(disk);
    FinishedEntryHasNoSteps(entry);
    assert Snapshot(disk, map[id := entry]).wal - {id} == job.start.wal - {id};
    assert At(disk, "b") != Before(job, "b") && At(disk, "a") != job.post["a"];
  }

  lemma FinishedEntryHasNoSteps(entry: Replayed)
    requires entry.status != Pending
    ensures LogSteps([entry]) == Ok([])
  {
    var none: seq<Step> := [];
    assert [entry][..0] == [] && LogSteps([]) == Ok(none) && IntentSteps(entry, 0) == Ok(none) && none + none == none;
  }

  // ---- the op ----

  datatype Outcome =
    | Committed(results: seq<(Path, seq<EditResult>)>)
    | Failed(error: SessionError)
    | Panicked

  datatype FileOutcome = Wrote(results: seq<EditResult>) | FileFailed(error: SessionError) | FilePanicked

  /** One file's results describe its edits in its new bytes. */
  ghost predicate ResultsFor(parse: Parser, plan: Plan, disk: Disk, path: Path, results: seq<EditResult>) {
    path in disk && var stage := Stage(parse, path, disk[path], EditsOf(plan.edits, path));
    && stage.Ok? && |results| == |SortAscending(stage.value.resolved)|
    && DescribesFirst(results, stage.value.out, SortAscending(stage.value.resolved))
  }

  /** The marker of a mark that failed is still there, over files that are being put back. */
  ghost predicate Kept(job: Job, s: Snapshot) {
    job.id in s.wal && s.wal[job.id].status == Landed && AllBetween(job, s.disk)
  }

  /** No marker was made: only the plan's own record and paths have moved. */
  ghost predicate InProgress(job: Job, intent: Intent, kept: bool, s: Snapshot) {
    && OthersKept(job, s)
    && if job.id in s.wal then Working(job, intent, s) || (kept && Kept(job, s)) else AllBefore(job, s.disk)
  }

  lemma OneMoreRecord(job: Job, intent: Intent, s: Snapshot, s': Snapshot, a: Applying)
    requires InProgress(job, intent, false, s) && job.id in s.wal && GoodRecord(job, intent, a)
    requires s'.disk == s.disk && s'.wal == s.wal[job.id := s.wal[job.id].(applied := s.wal[job.id].applied + [a])]
    ensures InProgress(job, intent, false, s') && HasRecord(s'.wal[job.id].applied, a.path)
  {
    var applied := s'.wal[job.id].applied;
    assert a in applied && forall x :: x in applied <==> x in s.wal[job.id].applied || x == a;
    forall p | HasRecord(s.wal[job.id].applied, p) ensures HasRecord(applied, p) {
      var x :| x in s.wal[job.id].applied && x.path == p;
      assert x in applied;
    }
    assert s'.wal - {job.id} == s.wal - {job.id};
  }

  lemma WriteRecorded(job: Job, intent: Intent, s: Snapshot, s': Snapshot, path: Path)
    requires InProgress(job, intent, false, s) && job.id in s.wal && path in job.post && job.post[path].Some?
    requires HasRecord(s.wal[job.id].applied, path)
    requires s'.wal == s.wal && s'.disk == Put(s.disk, path, job.post[path])
    ensures InProgress(job, intent, false, s')
  {
  }

  lemma PutBackInProgress(job: Job, intent: Intent, kept: bool, steps: seq<Converge>, s: Snapshot, s': Snapshot)
    requires InProgress(job, intent, kept, s) && s'.wal == s.wal && PutBackSome(job, steps, s.disk, s'.disk)
    ensures InProgress(job, intent, kept, s')
  {
    forall p ensures At(s'.disk, p) == At(s.disk, p) || At(s'.disk, p) == Before(job, p) {}
  }

  /**
   * Records the write, then makes it. The undo is handed back once the record is durable and before
   * the write.
   */
  method WriteFile(w: World, intent: Intent, path: Path, live: Bytes, out: Bytes,
                   ghost job: Job, ghost before: seq<Snapshot>)
    returns (error: Option<SessionError>, undo: Option<Converge>)
    requires w.Valid() && job.id == intent.id && path in job.post && job.post[path] == Some(out)
    requires InProgress(job, intent, false, w.Now()) && CommitTrace(job, intent, false, before, w.trace)
    requires Before(job, path) == Some(live) == At(w.disk, path)
    modifies w`disk, w`wal, w`trace
    ensures w.Valid() && InProgress(job, intent, false, w.Now()) && CommitTrace(job, intent, false, before, w.trace)
    ensures job.id in w.wal <==> job.id in old(w.wal)
    ensures undo.None? ==> w.disk == old(w.disk) && error.Some?
    ensures undo.Some? ==> undo.value == Converge(path, HashOf(job.post[path]), Before(job, path))
                           && (w.disk == old(w.disk) || w.disk == Put(old(w.disk), path, job.post[path]))
    ensures undo.Some? ==> job.id in w.wal
    ensures error.None? ==> w.disk == Put(old(w.disk), path, job.post[path])
    ensures error.Some? ==> error.value == WalFailed || error.value == Io(path)
  {
    var original := At(intent.originals, path);
    var rec := Applying(path, RawHash(out), if original != Some(live) then Some(live) else None);
    assert GoodRecord(job, intent, rec);
    ghost var s := w.Now();
    var recorded := w.RecordApplying(intent.id, rec);
    ghost var r := w.Now();
    if r.wal != s.wal || recorded { OneMoreRecord(job, intent, s, r, rec); }
    assert InProgress(job, intent, false, r) && CommitSnapshot(job, intent, false, r);
    if !recorded {
      return Some(WalFailed), None;
    }
    undo := Some(Converge(path, Some(RawHash(out)), Some(live)));
    var written := w.AtomicWrite(path, out);
    if w.disk != r.disk { WriteRecorded(job, intent, r, w.Now(), path); }
    assert InProgress(job, intent, false, w.Now()) && CommitSnapshot(job, intent, false, w.Now());
    error := if written then None else Some(Io(path));
  }

  /** One file, under its lock: re-read, re-resolve, splice, record, write. */
  method CommitFile(w: World, parse: Parser, plan: Plan, path: Path, edits: seq<Edit>,
                    ghost job: Job, ghost before: seq<Snapshot>)
    returns (r: FileOutcome, undo: Option<Converge>)
    requires w.Valid() && job == CommitJob(parse, plan, job.start)
    requires path in job.post && edits == EditsOf(plan.edits, path)
    requires InProgress(job, plan.intent, false, w.Now()) && CommitTrace(job, plan.intent, false, before, w.trace)
    requires At(w.disk, path) == Before(job, path)
    modifies w`disk, w`wal, w`trace
    ensures w.Valid() && InProgress(job, plan.intent, false, w.Now())
            && CommitTrace(job, plan.intent, false, before, w.trace)
    ensures job.id in w.wal <==> job.id in old(w.wal)
    ensures undo.None? ==> w.disk == old(w.disk)
    ensures undo.Some? ==> undo.value == Converge(path, HashOf(job.post[path]), Before(job, path))
                           && (w.disk == old(w.disk) || w.disk == Put(old(w.disk), path, job.post[path]))
    ensures undo.Some? ==> job.id in w.wal
    ensures r.Wrote? || r.FilePanicked? ==> undo.Some? && w.disk == Put(old(w.disk), path, job.post[path])
    ensures r.Wrote? ==> ResultsFor(parse, plan, job.start.disk, path, r.results)
    ensures r.FileFailed? ==> FileWhy(parse, plan, job.start.disk, path, r.error)
    ensures r.FilePanicked? ==> ReportFallsOff(parse, plan, job.start.disk, path)
  {
    var live := w.Read(path);
    if live.Err? || live.value.None? {
      return FileFailed(Io(path)), None;
    }
    r, undo := CommitLive(w, parse, plan, path, live.value.value, edits, job, before);
  }

  /** One file that was read: a failed resolve or splice is told as such, and nothing is written. */
  method CommitLive(w: World, parse: Parser, plan: Plan, path: Path, live: Bytes, edits: seq<Edit>,
                    ghost job: Job, ghost before: seq<Snapshot>)
    returns (r: FileOutcome, undo: Option<Converge>)
    requires w.Valid() && job == CommitJob(parse, plan, job.start)
    requires path in job.post && edits == EditsOf(plan.edits, path)
    requires InProgress(job, plan.intent, false, w.Now()) && CommitTrace(job, plan.intent, false, before, w.trace)
    requires At(w.disk, path) == Before(job, path) == Some(live)
    modifies w`disk, w`wal, w`trace
    ensures w.Valid() && InProgress(job, plan.intent, false, w.Now())
            && CommitTrace(job, plan.intent, false, before, w.trace)
    ensures job.id in w.wal <==> job.id in old(w.wal)
    ensures undo.None? ==> w.disk == old(w.disk)
    ensures undo.Some? ==> undo.value == Converge(path, HashOf(job.post[path]), Before(job, path))
                           && (w.disk == old(w.disk) || w.disk == Put(old(w.disk), path, job.post[path]))
    ensures undo.Some? ==> job.id in w.wal
    ensures r.Wrote? || r.FilePanicked? ==> undo.Some? && w.disk == Put(old(w.disk), path, job.post[path])
    ensures r.Wrote? ==> ResultsFor(parse, plan, job.start.disk, path, r.results)
    ensures r.FileFailed? ==> FileWhy(parse, plan, job.start.disk, path, r.error)
    ensures r.FilePanicked? ==> ReportFallsOff(parse, plan, job.start.disk, path)
    ensures SomeUnfound(parse, path, live, plan.edits) ==> r == FileFailed(SessionError.Conflict(path))
    ensures !SomeUnfound(parse, path, live, plan.edits) && Stage(parse, path, live, edits).Err? ==>
              r == FileFailed(SpliceFailed(path))
    ensures Stage(parse, path, live, edits).Err? ==> w.Now() == old(w.Now()) && w.trace == old(w.trace)
  {
    ghost var at, found := StageMeans(parse, path, live, plan.edits);
    var resolved := ResolveEdits(parse(path, live), live, edits);
    if resolved.Err? {
      return FileFailed(SessionError.Conflict(path)), None;
    }
    var spliced := SpliceEdits(live, resolved.value);
    if spliced.Err? {
      return FileFailed(SpliceFailed(path)), None;
    }
    var error;
    error, undo := WriteFile(w, plan.intent, path, live, spliced.value, job, before);
    if error.Some? {
      return FileFailed(error.value), undo;
    }
    var results := EditResults(spliced.value, resolved.value);
    if results.None? {
      return FilePanicked, undo;
    }
    return Wrote(results.value), undo;
  }

  // ---- the whole commit ----

  ghost predicate HasUndo(written: seq<Converge>, path: Path) {
    exists c :: c in written && c.path == path
  }

  /** The files before `i` hold their new bytes and their undos are in `written`; the rest is untouched. */
  ghost predicate WrittenUpTo(job: Job, paths: seq<Path>, i: nat, written: seq<Converge>, disk: Disk) {
    && i <= |paths| && UndoesJob(job, written)
    && (forall p :: p in paths <==> p in job.post)
    && (forall p :: p in job.post && p in paths[..i] ==> At(disk, p) == job.post[p] && HasUndo(written, p))
    && (forall p :: p in job.post && p !in paths[..i] ==> At(disk, p) == Before(job, p))
  }

  /** While an undo runs, the commit is still in progress at every snapshot. */
  lemma UndoingTrace(job: Job, intent: Intent, kept: bool, steps: seq<Converge>, s: Snapshot, before: seq<Snapshot>,
                     was: seq<Snapshot>, trace: seq<Snapshot>, now: Snapshot)
    requires InProgress(job, intent, kept, s) && CommitTrace(job, intent, kept, before, was)
    requires UndoTrace(job, steps, s, was, trace)
    requires now.wal == s.wal && PutBackSome(job, steps, s.disk, now.disk)
    ensures InProgress(job, intent, kept, now) && CommitTrace(job, intent, kept, before, trace)
  {
    PutBackInProgress(job, intent, kept, steps, s, now);
    forall k | |was| <= k < |trace| ensures CommitSnapshot(job, intent, kept, trace[k]) {
      PutBackInProgress(job, intent, kept, steps, s, trace[k]);
    }
    assert forall k :: |before| <= k < |was| ==> trace[k] == was[k];
  }

  /**
   * Undoes what was written and drops the intent, unless an undo failed: then the intent stays, for
   * recovery to finish. Where the marker was `kept`, recovery would not finish it, and an undo of two
   * files that goes through passes through a state that recovery would not mend.
   */
  method RollBack(w: World, intent: Intent, cause: SessionError, written: seq<Converge>,
                  ghost job: Job, ghost kept: bool, ghost before: seq<Snapshot>)
    returns (e: SessionError)
    requires w.Valid() && job.id == intent.id
    requires InProgress(job, intent, kept, w.Now()) && CommitTrace(job, intent, kept, before, w.trace)
    requires UndoesJob(job, written)
    requires forall p :: p in job.post ==> At(w.disk, p) == Before(job, p) || HasUndo(written, p)
    modifies w`disk, w`wal, w`trace
    ensures w.Valid() && CommitSnapshot(job, intent, kept, w.Now()) && CommitTrace(job, intent, kept, before, w.trace)
    ensures || (e == cause && AllBefore(job, w.disk) && job.id !in w.wal)
            || (e.LeftBehind? && e.cause == cause && LeftOfCommit(job, intent, kept, w.Now()))
    ensures (e == cause && !cause.LeftBehind? && ChangesTwo(job)
             && old(Kept(job, w.Now()) && AllAfter(job, w.disk))) ==>
              StrandedIn(job, before, w.trace)
    ensures !cause.LeftBehind? ==> Accounts(job, w.disk, e)
  {
    var residue := TakeBack(w, intent, written, job, kept, before);
    e := Drop(w, intent, cause, residue, job, kept, before);
  }

  /** Puts the written files back, one after another. */
  method TakeBack(w: World, intent: Intent, written: seq<Converge>, ghost job: Job, ghost kept: bool,
                  ghost before: seq<Snapshot>)
    returns (residue: seq<Residue>)
    requires w.Valid() && UndoesJob(job, written)
    requires InProgress(job, intent, kept, w.Now()) && CommitTrace(job, intent, kept, before, w.trace)
    requires forall p :: p in job.post ==> At(w.disk, p) == Before(job, p) || HasUndo(written, p)
    modifies w`disk, w`trace
    ensures w.Valid() && InProgress(job, intent, kept, w.Now()) && CommitTrace(job, intent, kept, before, w.trace)
    ensures !Unfinished(residue) ==> residue == [] && AllBefore(job, w.disk)
    ensures (AllBefore(job, w.disk) && ChangesTwo(job) && old(Kept(job, w.Now()) && AllAfter(job, w.disk))) ==>
              StrandedIn(job, before, w.trace)
    ensures AccountsFor(job, w.disk, residue)
  {
    ghost var s, traced := w.Now(), w.trace;
    residue := UndoHeld(w, written, job);
    UndoingTrace(job, intent, kept, written, s, before, traced, w.trace, w.Now());
    UndoneBetween(job, intent, kept, written, s, w.disk, residue);
    if Kept(job, s) && AllAfter(job, s.disk) && AllBefore(job, w.disk) && ChangesTwo(job) {
      UndoStrands(job, written, s, before, traced, w.trace, w.disk);
    }
  }

  /** Drops the intent of a commit that was taken back, or keeps it for recovery. */
  method Drop(w: World, intent: Intent, cause: SessionError, residue: seq<Residue>,
              ghost job: Job, ghost kept: bool, ghost before: seq<Snapshot>)
    returns (e: SessionError)
    requires w.Valid() && job.id == intent.id && (!Unfinished(residue) ==> residue == [] && AllBefore(job, w.disk))
    requires InProgress(job, intent, kept, w.Now()) && CommitTrace(job, intent, kept, before, w.trace)
    modifies w`wal, w`trace
    ensures w.Valid() && CommitSnapshot(job, intent, kept, w.Now()) && CommitTrace(job, intent, kept, before, w.trace)
    ensures || (e == cause && AllBefore(job, w.disk) && job.id !in w.wal)
            || (e.LeftBehind? && e.cause == cause && LeftOfCommit(job, intent, kept, w.Now()))
    ensures StrandedIn(job, before, old(w.trace)) ==> StrandedIn(job, before, w.trace)
    ensures AccountsFor(job, w.disk, residue) && !cause.LeftBehind? ==> Accounts(job, w.disk, e)
  {
    ghost var s, traced := w.Now(), w.trace;
    e := Abandon(w, intent.id, cause, residue);
    if AccountsFor(job, w.disk, residue) { AccountsStill(job, w.disk, residue); }
    assert w.wal - {job.id} == s.wal - {job.id};
    if StrandedIn(job, before, traced) { StrandedStill(job, before, traced, w.trace); }
  }

  /** What a commit whose undo is unfinished leaves: its old bytes, or a record for recovery to go by. */
  ghost predicate LeftOfCommit(job: Job, intent: Intent, kept: bool, s: Snapshot) {
    AllBefore(job, s.disk) || (job.id in s.wal && (Working(job, intent, s) || (kept && Kept(job, s))))
  }

  /** The undo of a commit names only files it could not put back, and one that names none put all back. */
  lemma UndoneBetween(job: Job, intent: Intent, kept: bool, written: seq<Converge>, s: Snapshot, now: Disk,
                      residue: seq<Residue>)
    requires InProgress(job, intent, kept, s) && UndoesJob(job, written) && PutBackSome(job, written, s.disk, now)
    requires forall p :: p in job.post ==> At(s.disk, p) == Before(job, p) || HasUndo(written, p)
    requires Names(job, written, s.disk, residue)
    requires forall c :: c in written ==> StepUndone(job, c.path, s.disk, now, residue)
    ensures !Unfinished(residue) ==> residue == [] && AllBefore(job, now)
    ensures AccountsFor(job, now, residue)
  {
    assert AllBetween(job, s.disk);
    OnlyFailuresNamed(job, written, s.disk, residue);
    forall x | x in residue ensures x.NotUndone? && x.path in job.post {
      var i :| 0 <= i < |residue| && residue[i] == x;
      assert residue[i].NotUndone?;
    }
    forall p | p in job.post && At(now, p) != Before(job, p) ensures NotUndone(p) in residue {
      var c :| c in written && c.path == p;
      assert StepUndone(job, c.path, s.disk, now, residue);
    }
    if !Unfinished(residue) {
      forall p | p in job.post ensures At(now, p) == Before(job, p) {
        if c :| c in written && c.path == p {
          assert StepUndone(job, c.path, s.disk, now, residue);
        }
      }
    }
  }

  /** One entry per file so far, in path order, each describing that file's edits. */
  ghost predicate ResultsUpTo(parse: Parser, plan: Plan, disk: Disk, paths: seq<Path>,
                              results: seq<(Path, seq<EditResult>)>) {
    && |results| <= |paths|
    && forall k :: 0 <= k < |results| ==>
         results[k].0 == paths[k] && ResultsFor(parse, plan, disk, paths[k], results[k].1)
  }

  lemma ResultsOneMore(parse: Parser, plan: Plan, disk: Disk, paths: seq<Path>, results: seq<(Path, seq<EditResult>)>,
                       more: seq<EditResult>)
    requires ResultsUpTo(parse, plan, disk, paths, results) && |results| < |paths|
    requires ResultsFor(parse, plan, disk, paths[|results|], more)
    ensures ResultsUpTo(parse, plan, disk, paths, results + [(paths[|results|], more)])
  {
  }

  /** What the caller sees of a commit agrees with the disk and the log it leaves. */
  ghost predicate CommitResult(parse: Parser, plan: Plan, job: Job, kept: bool, o: Outcome, s: Snapshot) {
    match o
    case Committed(results) =>
      && AllAfter(job, s.disk) && job.id !in s.wal
      && |results| == |Paths.Sorted(job.post.Keys)|
      && ResultsUpTo(parse, plan, job.start.disk, Paths.Sorted(job.post.Keys), results)
    case Failed(LandedNotCleared) => AllAfter(job, s.disk) && MarkedOrCleared(job.id, s.wal)
    case Failed(LeftBehind(_, _)) => LeftOfCommit(job, plan.intent, kept, s)
    case Failed(_) => AllBefore(job, s.disk) && job.id !in s.wal
    case Panicked => job.id in s.wal && Working(job, plan.intent, s)
  }

  lemma WroteOneMore(job: Job, paths: seq<Path>, i: nat, written: seq<Converge>, was: Disk, now: Disk, c: Converge)
    requires Paths.DistinctPaths(paths) && i < |paths| && WrittenUpTo(job, paths, i, written, was)
    requires c == Converge(paths[i], HashOf(job.post[paths[i]]), Before(job, paths[i]))
    requires now == Put(was, paths[i], job.post[paths[i]])
    ensures WrittenUpTo(job, paths, i + 1, written + [c], now)
  {
    assert paths[..i + 1] == paths[..i] + [paths[i]];
    assert paths[i] !in paths[..i];
    forall p | HasUndo(written, p) ensures HasUndo(written + [c], p) {
      var x :| x in written && x.path == p;
      assert x in written + [c];
    }
    assert c in written + [c];
  }

  lemma AllWritten(job: Job, paths: seq<Path>, written: seq<Converge>, disk: Disk)
    requires WrittenUpTo(job, paths, |paths|, written, disk)
    ensures UndoesJob(job, written) && AllAfter(job, disk) && forall p :: p in job.post ==> HasUndo(written, p)
  {
    assert paths[..|paths|] == paths;
  }

  lemma FailedOn(job: Job, paths: seq<Path>, i: nat, written: seq<Converge>, was: Disk, now: Disk,
                 undo: Option<Converge>)
    requires i < |paths| && WrittenUpTo(job, paths, i, written, was)
    requires undo.None? ==> now == was
    requires undo.Some? ==> && undo.value == Converge(paths[i], HashOf(job.post[paths[i]]), Before(job, paths[i]))
                            && (now == was || now == Put(was, paths[i], job.post[paths[i]]))
    ensures var all := if undo.Some? then written + [undo.value] else written;
            && UndoesJob(job, all)
            && forall p :: p in job.post ==> At(now, p) == Before(job, p) || HasUndo(all, p)
  {
    var all := if undo.Some? then written + [undo.value] else written;
    forall p | HasUndo(written, p) ensures HasUndo(all, p) {
      var x :| x in written && x.path == p;
      assert x in all;
    }
    if undo.Some? { assert undo.value in all; }
  }

  /** Undoes the files before the one that failed, and that one where it may have been written. */
  method FailFile(w: World, intent: Intent, cause: SessionError, ghost paths: seq<Path>, ghost i: nat,
                  written: seq<Converge>, undo: Option<Converge>, ghost job: Job, ghost was: Disk,
                  ghost before: seq<Snapshot>)
    returns (e: SessionError)
    requires w.Valid() && job.id == intent.id && i < |paths| && WrittenUpTo(job, paths, i, written, was)
    requires InProgress(job, intent, false, w.Now()) && CommitTrace(job, intent, false, before, w.trace)
    requires undo.None? ==> w.disk == was
    requires undo.Some? ==> && undo.value == Converge(paths[i], HashOf(job.post[paths[i]]), Before(job, paths[i]))
                            && (w.disk == was || w.disk == Put(was, paths[i], job.post[paths[i]]))
    modifies w`disk, w`wal, w`trace
    ensures w.Valid() && CommitSnapshot(job, intent, false, w.Now()) && CommitTrace(job, intent, false, before, w.trace)
    ensures || (e == cause && AllBefore(job, w.disk) && job.id !in w.wal)
            || (e.LeftBehind? && e.cause == cause && LeftOfCommit(job, intent, false, w.Now()))
    ensures !cause.LeftBehind? ==> Accounts(job, w.disk, e)
  {
    FailedOn(job, paths, i, written, was, w.disk, undo);
    e := RollBack(w, intent, cause, if undo.Some? then written + [undo.value] else written, job, false, before);
  }

  /**
   * Marks the plan landed once every byte is down. A mark that fails is undone with the commit; where
   * its take-back failed too, the undo runs under a marker that was `kept`.
   */
  method Land(w: World, intent: Intent, written: seq<Converge>, ghost job: Job, ghost before: seq<Snapshot>)
    returns (error: Option<SessionError>, ghost kept: bool)
    requires w.Valid() && job.id == intent.id
    requires InProgress(job, intent, false, w.Now()) && CommitTrace(job, intent, false, before, w.trace)
    requires UndoesJob(job, written) && AllAfter(job, w.disk)
    requires forall p :: p in job.post ==> HasUndo(written, p)
    modifies w`disk, w`wal, w`trace
    ensures w.Valid() && CommitSnapshot(job, intent, kept, w.Now()) && CommitTrace(job, intent, kept, before, w.trace)
    ensures error.None? || error == Some(LandedNotCleared) ==> AllAfter(job, w.disk)
    ensures error.None? ==> job.id !in w.wal
    ensures error == Some(LandedNotCleared) ==> MarkedOrCleared(job.id, w.wal)
    ensures error.Some? && error.value.LeftBehind? ==> LeftOfCommit(job, intent, kept, w.Now())
    ensures error.Some? ==> CauseOf(error.value) == WalFailed || error.value == LandedNotCleared
    ensures error.Some? && !error.value.LeftBehind? && !error.value.LandedNotCleared? ==>
              && AllBefore(job, w.disk) && job.id !in w.wal
              && (kept && ChangesTwo(job) ==> StrandedIn(job, before, w.trace))
    ensures kept ==> error.Some? && !error.value.LandedNotCleared?
    ensures error.Some? ==> Accounts(job, w.disk, error.value)
  {
    ghost var s := w.Now();
    if intent.id in w.wal {
      assert Marked(s.wal, intent.id) - {job.id} == s.wal - {job.id};
      assert CommitSnapshot(job, intent, false, Snapshot(s.disk, Marked(s.wal, intent.id)));
    }
    var landed, k := w.MarkLanded(intent.id);
    kept := k;
    if !landed {
      assert CommitSnapshot(job, intent, kept, w.Now());
      var e := RollBack(w, intent, WalFailed, written, job, kept, before);
      return Some(e), kept;
    }
    var cleared := w.Clear(intent.id);
    assert w.wal - {job.id} == s.wal - {job.id};
    error := if cleared then None else Some(LandedNotCleared);
  }

  /** The first `i` files are written, with an undo and a result each. */
  ghost predicate CommittedUpTo(parse: Parser, plan: Plan, job: Job, paths: seq<Path>, i: nat, written: seq<Converge>,
                                results: seq<(Path, seq<EditResult>)>, disk: Disk) {
    && WrittenUpTo(job, paths, i, written, disk) && |results| == i
    && ResultsUpTo(parse, plan, job.start.disk, paths, results)
  }

  lemma EditOfPath(plan: Plan, path: Path) returns (i: nat)
    requires path in PathsOf(plan.edits)
    ensures i < |plan.edits| && plan.edits[i].region.path == path
  {
    var e :| e in plan.edits && e.region.path == path;
    i :| 0 <= i < |plan.edits| && plan.edits[i] == e;
  }

  /** Commits one file, or rolls the commit back. */
  method CommitNext(w: World, parse: Parser, plan: Plan, paths: seq<Path>, i: nat, written0: seq<Converge>,
                    results0: seq<(Path, seq<EditResult>)>, ghost job: Job, ghost before: seq<Snapshot>)
    returns (failure: Option<Outcome>, written: seq<Converge>, results: seq<(Path, seq<EditResult>)>)
    requires w.Valid() && job == CommitJob(parse, plan, job.start) && Paths.DistinctPaths(paths) && i < |paths|
    requires InProgress(job, plan.intent, false, w.Now()) && CommitTrace(job, plan.intent, false, before, w.trace)
    requires CommittedUpTo(parse, plan, job, paths, i, written0, results0, w.disk) && paths[i] in PathsOf(plan.edits)
    modifies w`disk, w`wal, w`trace
    ensures w.Valid() && CommitTrace(job, plan.intent, false, before, w.trace)
    ensures failure.None? ==>
              && InProgress(job, plan.intent, false, w.Now())
              && CommittedUpTo(parse, plan, job, paths, i + 1, written, results, w.disk)
    ensures failure.Some? ==>
              && !failure.value.Committed? && CommitSnapshot(job, plan.intent, false, w.Now())
              && CommitResult(parse, plan, job, false, failure.value, w.Now())
    ensures failure.Some? ==> CommitWhy(parse, plan, job.start.disk, failure.value)
    ensures failure.Some? && failure.value.Failed? ==> Accounts(job, w.disk, failure.value.error)
  {
    ghost var _ := EditOfPath(plan, paths[i]);
    written, results := written0, results0;
    ghost var was := w.disk;
    var r, undo := CommitFile(w, parse, plan, paths[i], EditsOf(plan.edits, paths[i]), job, before);
    match r
    case FilePanicked =>
      failure := Some(Panicked);
    case FileFailed(error) =>
      var e := FailFile(w, plan.intent, error, paths, i, written, undo, job, was, before);
      failure := Some(Failed(e));
    case Wrote(more) =>
      failure := None;
      WroteOneMore(job, paths, i, written, was, w.disk, undo.value);
      written := written + [undo.value];
      ResultsOneMore(parse, plan, job.start.disk, paths, results, more);
      results := results + [(paths[i], more)];
  }

  /**
   * Commits a plan file by file in path order. A crash may fall at any snapshot the commit appended;
   * what the caller is told agrees with what is on disk and in the log. `kept` is the marker of a
   * failed mark whose take-back failed too: a plan that changes two files and is then put back always
   * passes a state from which recovery keeps one file old and the other new.
   */
  method Commit(w: World, parse: Parser, plan: Plan) returns (o: Outcome, ghost job: Job, ghost kept: bool)
    requires w.Valid() && !HasLifecycleOp(plan.intent)
    requires plan.intent.id in w.wal ==> w.wal[plan.intent.id] == Worlds.Recorded(plan.intent)
    modifies w`disk, w`wal, w`trace
    ensures w.Valid() && job == CommitJob(parse, plan, old(w.Now()))
    ensures CommitTrace(job, plan.intent, kept, old(w.trace), w.trace)
            && CommitSnapshot(job, plan.intent, kept, w.Now())
    ensures CommitResult(parse, plan, job, kept, o, w.Now())
    ensures kept ==> o.Failed?
    ensures !kept ==> !StrandedIn(job, old(w.trace), w.trace)
    ensures kept && !o.error.LeftBehind? && ChangesTwo(job) ==> StrandedIn(job, old(w.trace), w.trace)
    ensures o.Committed? ==> EveryFileCommitted(parse, plan, old(w.disk), w.disk, o.results)
    ensures CommitWhy(parse, plan, old(w.disk), o)
    ensures o.Failed? ==> Accounts(job, w.disk, o.error)
  {
    job := CommitJob(parse, plan, w.Now());
    kept := false;
    var paths := Paths.Sorted(PathsOf(plan.edits));
    Paths.AllDistinct(paths);
    var results: seq<(Path, seq<EditResult>)> := [];
    var written: seq<Converge> := [];
    assert job.post.Keys == PathsOf(plan.edits);
    for i := 0 to |paths|
      invariant w.Valid() && InProgress(job, plan.intent, false, w.Now())
                && CommitTrace(job, plan.intent, false, old(w.trace), w.trace)
      invariant CommittedUpTo(parse, plan, job, paths, i, written, results, w.disk)
    {
      var failure;
      failure, written, results := CommitNext(w, parse, plan, paths, i, written, results, job, old(w.trace));
      if failure.Some? {
        return failure.value, job, kept;
      }
    }
    AllWritten(job, paths, written, w.disk);
    var error, k := Land(w, plan.intent, written, job, old(w.trace));
    kept := k;
    if error.Some? {
      return Failed(error.value), job, kept;
    }
    ResultsMeanCommitted(parse, plan, old(w.Now()), w.disk, results);
    return Committed(results), job, kept;
  }
}
