/** Validating and applying a batch under its locks. */
module BatchRun {
  import opened Prelude
  import opened Steps
  import opened Wal
  import opened Worlds
  import opened Jobs
  import opened Undo
  import opened Lifecycle
  import opened Batch
  import Commit
  import Paths
  import Splice
  import Regions
  import Trees

  // ---- which paths ----

  /** Every path the ops touch, in op order; `None` at the first that is touched twice. */
  method BatchPaths(ops: seq<Op>) returns (r: Option<seq<Path>>)
    ensures r.Some? <==> Paths.DistinctPaths(TouchedBy(ops))
    ensures r.Some? ==> r.value == TouchedBy(ops)
  {
    var seen: set<Path> := {};
    var paths: seq<Path> := [];
    for i := 0 to |ops|
      invariant paths == TouchedBy(ops[..i]) && Paths.DistinctPaths(paths)
      invariant forall p :: p in seen <==> p in paths
    {
      assert ops[..i + 1][..i] == ops[..i];
      var touched := OpPaths(ops[i]);
      for j := 0 to |touched|
        invariant paths == TouchedBy(ops[..i]) + touched[..j] && Paths.DistinctPaths(paths)
        invariant forall p :: p in seen <==> p in paths
      {
        var p := touched[j];
        if p in seen {
          TwiceIsTwice(ops, i, j);
          return None;
        }
        seen := seen + {p};
        paths := paths + [p];
        assert touched[..j + 1] == touched[..j] + [p];
      }
      assert touched[..|touched|] == touched;
    }
    assert ops[..|ops|] == ops;
    return Some(paths);
  }

  function TouchedBy(ops: seq<Op>): seq<Path> {
    if ops == [] then [] else TouchedBy(ops[..|ops| - 1]) + OpPaths(ops[|ops| - 1])
  }

  lemma {:induction false} TouchedPrefix(ops: seq<Op>, i: nat)
    requires i < |ops|
    ensures TouchedBy(ops[..i]) + OpPaths(ops[i]) <= TouchedBy(ops)
    decreases |ops|
  {
    var n := |ops| - 1;
    if i < n {
      TouchedPrefix(ops[..n], i);
      assert ops[..n][..i] == ops[..i];
    }
  }

  lemma TwiceIsTwice(ops: seq<Op>, i: nat, j: nat)
    requires i < |ops| && j < |OpPaths(ops[i])|
    requires OpPaths(ops[i])[j] in TouchedBy(ops[..i]) + OpPaths(ops[i])[..j]
    ensures !Paths.DistinctPaths(TouchedBy(ops))
  {
    TouchedPrefix(ops, i);
    var all, front := TouchedBy(ops), TouchedBy(ops[..i]) + OpPaths(ops[i])[..j];
    var k :| 0 <= k < |front| && front[k] == OpPaths(ops[i])[j];
    assert all[k] == front[k] && all[|TouchedBy(ops[..i])| + j] == OpPaths(ops[i])[j];
  }

  // ---- validate ----

  /** The prepared op carries out `op` on a disk that satisfies its anchor. */
  ghost predicate Prepares(parse: Commit.Parser, accepts: (Path, Bytes) -> bool, op: Op, p: Prepared, disk: Disk) {
    && Anchored(p, disk) && PathsOf(p) == OpPaths(op)
    && match op
       case OpCreate(path, content) => p == Create(path, content) && accepts(path, content)
       case OpDelete(path, seen) => p.Delete? && RawHash(p.live) == seen
       case OpMove(from, to, seen) => p.Move? && RawHash(p.live) == seen && to != ""
       case OpEdit(e) =>
         && p.Rewrite? && accepts(p.path, p.spliced)
         && var stage := Commit.Stage(parse, p.path, p.live, [e]); stage == Ok(Commit.Staged(p.resolved, p.spliced))
  }

  /** Why a file that must hold the bytes the caller saw is refused. */
  ghost predicate AnchorRefused(path: Path, seen: Digest, disk: Disk, error: SessionError) {
    || error == Io(path)
    || (error == NotFound(path) && path !in disk)
    || (error == Drift(path) && path in disk && RawHash(disk[path]) != seen)
  }

  /** Why an op is refused before anything is written. */
  ghost predicate OpRefused(parse: Commit.Parser, accepts: (Path, Bytes) -> bool, op: Op, disk: Disk,
                            error: SessionError) {
    match op
    case OpCreate(path, content) =>
      if path in disk then error == Exists(path) else error == Rejected(path) && !accepts(path, content)
    case OpDelete(path, seen) => AnchorRefused(path, seen, disk, error)
    case OpMove(from, to, seen) =>
      if to == "" then error == Usage
      else AnchorRefused(from, seen, disk, error) || (error == Exists(to) && to in disk)
    case OpEdit(e) =>
      var path := e.region.path;
      || error == Io(path) || (error == NotFound(path) && path !in disk)
      || (path in disk && error == SessionError.Conflict(path) && Commit.SomeUnfound(parse, path, disk[path], [e]))
      || (path in disk && error == SpliceFailed(path) && !Commit.SomeUnfound(parse, path, disk[path], [e])
          && Commit.Stage(parse, path, disk[path], [e]).Err?)
      || (path in disk && error == Rejected(path) && Commit.Stage(parse, path, disk[path], [e]).Ok?
          && !accepts(path, Commit.Stage(parse, path, disk[path], [e]).value.out))
  }

  /** The first op that is refused, those before it being fine. */
  ghost predicate FirstRefused(parse: Commit.Parser, accepts: (Path, Bytes) -> bool, ops: seq<Op>, k: nat, disk: Disk,
                               error: SessionError) {
    && k < |ops| && OpRefused(parse, accepts, ops[k], disk, error)
    && forall j :: 0 <= j < k ==> Preparable(parse, accepts, ops[j], disk)
  }

  ghost predicate Preparable(parse: Commit.Parser, accepts: (Path, Bytes) -> bool, op: Op, disk: Disk) {
    exists p :: Prepares(parse, accepts, op, p, disk)
  }

  /** Checks one op's anchor, writing nothing. */
  method ValidateOp(w: World, parse: Commit.Parser, accepts: (Path, Bytes) -> bool, op: Op)
    returns (r: Result<Prepared, SessionError>)
    ensures r.Ok? ==> Prepares(parse, accepts, op, r.value, w.disk)
    ensures r.Err? ==> !r.error.LeftBehind? && !r.error.LandedNotCleared?
    ensures r.Err? ==> OpRefused(parse, accepts, op, w.disk, r.error)
  {
    match op
    case OpCreate(path, content) =>
      if path in w.disk {
        return Err(Exists(path));
      }
      if !accepts(path, content) {
        return Err(Rejected(path));
      }
      return Ok(Create(path, content));
    case OpDelete(path, seen) =>
      var live := ReadAnchored(w, path, seen);
      if live.Err? {
        return Err(live.error);
      }
      return Ok(Delete(path, live.value));
    case OpMove(from, to, seen) =>
      if to == "" {
        return Err(Usage);
      }
      var live := ReadAnchored(w, from, seen);
      if live.Err? {
        return Err(live.error);
      }
      if to in w.disk {
        return Err(Exists(to));
      }
      return Ok(Batch.Move(from, to, live.value));
    case OpEdit(e) =>
      var live := w.Read(e.region.path);
      if live.Err? {
        return Err(Io(e.region.path));
      }
      r := ValidateEdit(parse, accepts, e, live.value);
  }

  /** Checks an edit of a file that was read. */
  method ValidateEdit(parse: Commit.Parser, accepts: (Path, Bytes) -> bool, e: Regions.Edit, content: Option<Bytes>)
    returns (r: Result<Prepared, SessionError>)
    ensures var path := e.region.path;
            && (content.None? <==> r == Err(NotFound(path)))
            && (content.Some? ==>
                  var unfound := Commit.SomeUnfound(parse, path, content.value, [e]);
                  var stage := Commit.Stage(parse, path, content.value, [e]);
                  && (r == Err(SessionError.Conflict(path)) <==> unfound)
                  && (r == Err(SpliceFailed(path)) <==> !unfound && stage.Err?)
                  && (r == Err(Rejected(path)) <==> stage.Ok? && !accepts(path, stage.value.out))
                  && (r.Ok? <==> stage.Ok? && accepts(path, stage.value.out))
                  && (r.Ok? ==> r.value == Rewrite(path, content.value, stage.value.resolved, stage.value.out)))
    ensures r.Err? ==> r.error in {NotFound(e.region.path), SessionError.Conflict(e.region.path),
                                   SpliceFailed(e.region.path), Rejected(e.region.path)}
  {
    var path := e.region.path;
    if content.None? {
      return Err(NotFound(path));
    }
    var stage := Commit.Stage(parse, path, content.value, [e]);
    OneEditStaged(parse, path, content.value, e);
    if stage.Err? {
      return Err(stage.error);
    }
    if !accepts(path, stage.value.out) {
      return Err(Rejected(path));
    }
    return Ok(Rewrite(path, content.value, stage.value.resolved, stage.value.out));
  }

  lemma {:induction false} OneEditStaged(parse: Commit.Parser, path: Path, live: Bytes, e: Regions.Edit)
    requires e.region.path == path
    ensures var stage := Commit.Stage(parse, path, live, [e]);
            && (stage == Err(SessionError.Conflict(path)) <==> Commit.SomeUnfound(parse, path, live, [e]))
            && (stage.Err? ==> stage.error in {SessionError.Conflict(path), SpliceFailed(path)})
  {
    var _, _ := Commit.StageMeans(parse, path, live, [e]);
    assert [e][..0] == [] && Commit.EditsOf([], path) == [] && Commit.EditsOf([e], path) == [] + [e] == [e];
  }

  /** Reads a file whose raw hash must be the one the caller saw. */
  method ReadAnchored(w: World, path: Path, seen: Digest) returns (r: Result<Bytes, SessionError>)
    ensures r.Ok? ==> At(w.disk, path) == Some(r.value) && RawHash(r.value) == seen
    ensures r.Err? ==> AnchorRefused(path, seen, w.disk, r.error)
  {
    var live := w.Read(path);
    if live.Err? {
      return Err(Io(path));
    }
    r := CheckAnchor(path, live.value, seen);
  }

  /** A file that was read must be there and hold the bytes the caller saw. */
  method CheckAnchor(path: Path, content: Option<Bytes>, seen: Digest) returns (r: Result<Bytes, SessionError>)
    ensures r == Err(NotFound(path)) <==> content.None?
    ensures r == Err(Drift(path)) <==> content.Some? && RawHash(content.value) != seen
    ensures r.Ok? <==> HashOf(content) == Some(seen)
    ensures r.Ok? ==> content == Some(r.value)
  {
    if content.None? {
      return Err(NotFound(path));
    }
    if RawHash(content.value) != seen {
      return Err(Drift(path));
    }
    return Ok(content.value);
  }

  ghost predicate PreparesAll(parse: Commit.Parser, accepts: (Path, Bytes) -> bool, ops: seq<Op>,
                              prepared: seq<Prepared>, disk: Disk) {
    && |prepared| == |ops|
    && forall i :: 0 <= i < |ops| ==> Prepares(parse, accepts, ops[i], prepared[i], disk)
  }

  lemma {:induction false} SamePaths(parse: Commit.Parser, accepts: (Path, Bytes) -> bool, ops: seq<Op>,
                                     prepared: seq<Prepared>, disk: Disk)
    requires PreparesAll(parse, accepts, ops, prepared, disk)
    ensures AllPaths(prepared) == TouchedBy(ops)
  {
    if ops != [] {
      var n := |ops| - 1;
      assert Prepares(parse, accepts, ops[n], prepared[n], disk);
      SamePaths(parse, accepts, ops[..n], prepared[..n], disk);
    }
  }

  /** Validates every op in order and folds each one's undo into the one intent, writing nothing. */
  method ValidateBatch(w: World, id: IntentId, parse: Commit.Parser, accepts: (Path, Bytes) -> bool, ops: seq<Op>)
    returns (r: Result<(seq<Prepared>, Intent), SessionError>)
    ensures r.Ok? ==> PreparesAll(parse, accepts, ops, r.value.0, w.disk) && r.value.1 == UnifiedIntent(id, r.value.0)
    ensures r.Err? ==> !r.error.LeftBehind? && !r.error.LandedNotCleared?
    ensures r.Err? ==> exists k: nat :: FirstRefused(parse, accepts, ops, k, w.disk, r.error)
  {
    var prepared: seq<Prepared> := [];
    var intent := Intent(id, map[], [], [], [], true, map[]);
    for i := 0 to |ops|
      invariant PreparesAll(parse, accepts, ops[..i], prepared, w.disk)
      invariant intent == FoldAll(id, prepared)
    {
      var p := ValidateOp(w, parse, accepts, ops[i]);
      if p.Err? {
        forall j | 0 <= j < i ensures Preparable(parse, accepts, ops[j], w.disk) {
          assert Prepares(parse, accepts, ops[..i][j], prepared[j], w.disk);
        }
        assert FirstRefused(parse, accepts, ops, i, w.disk, p.error);
        return Err(p.error);
      }
      prepared := prepared + [p.value];
      intent := FoldIn(intent, p.value);
    }
    assert ops[..|ops|] == ops;
    return Ok((prepared, intent.(after := AfterOf(prepared))));
  }

  // ---- apply ----

  /** A failed op left its own paths as they were, rewritten, or named; nothing else moved. */
  ghost predicate OpFailed(job: Job, op: Prepared, was: Disk, now: Disk, residue: seq<Residue>) {
    && (forall p :: p !in PathsOf(op) ==> At(now, p) == At(was, p))
    && (forall p :: p in PathsOf(op) ==>
          || At(now, p) == Before(job, p)
          || NotUndone(p) in residue
          || (op.Rewrite? && Between(job, now, p)))
    && (forall i :: 0 <= i < |residue| ==> residue[i].NotUndone? && residue[i].path in PathsOf(op))
  }

  /** While one op works, each of its paths holds its old content, its new one, or part of a claim. */
  ghost predicate OpSnapshot(job: Job, op: Prepared, was: Disk, now: Disk) {
    && (forall p :: p !in PathsOf(op) ==> At(now, p) == At(was, p))
    && (forall p :: p in PathsOf(op) ==> Between(job, now, p) || HalfMade(job, now, p))
    && MoveSafe(op, now)
  }

  ghost predicate OpTrace(job: Job, op: Prepared, start: Snapshot, before: seq<Snapshot>, trace: seq<Snapshot>) {
    && before <= trace
    && forall k :: |before| <= k < |trace| ==>
         trace[k].wal == start.wal && OpSnapshot(job, op, start.disk, trace[k].disk)
  }

  /** The op is ready to run: its anchors hold on this disk, and the job expects just this of its paths. */
  ghost predicate OpReady(job: Job, op: Prepared, disk: Disk) {
    && Paths.DistinctPaths(PathsOf(op)) && Anchored(op, disk)
    && forall p :: p in PathsOf(op) ==>
         p in job.post && p in PostOne(op) && At(disk, p) == Before(job, p) && job.post[p] == PostOne(op)[p]
  }

  /** A claim filled so far is a snapshot of the op, and so is the disk the op started from. */
  lemma FilledSnapshot(job: Job, op: Prepared, path: Path, data: Bytes, was: Disk, n: nat)
    requires OpReady(job, op, was) && path in PathsOf(op) && path !in was && PostOne(op)[path] == Some(data)
             && n <= |data|
    ensures OpSnapshot(job, op, was, Put(was, path, Some(data[..n]))) && OpSnapshot(job, op, was, was)
    ensures OpFailed(job, op, was, was, [])
            && OpFailed(job, op, was, Put(was, path, Some(data[..n])), [NotUndone(path)])
  {
    assert HalfMade(job, Put(was, path, Some(data[..n])), path);
    assert NotUndone(path) in [NotUndone(path)];
    assert op.Move? ==> path == op.to && op.from != op.to by {
      if op.Move? { assert PathsOf(op)[0] == op.from && PathsOf(op)[1] == op.to; }
    }
  }

  /** Claims a path and fills it; a fill that fails drops the claim again, or names it. */
  method ClaimAndFill(w: World, path: Path, data: Bytes, ghost op: Prepared, ghost job: Job)
    returns (ok: bool, residue: seq<Residue>)
    requires OpReady(job, op, w.disk) && path in PathsOf(op) && path !in w.disk && PostOne(op)[path] == Some(data)
    modifies w`disk, w`trace
    ensures ok ==> w.disk == Put(old(w.disk), path, Some(data)) && residue == []
    ensures !ok ==> OpFailed(job, op, old(w.disk), w.disk, residue)
    ensures OpTrace(job, op, old(w.Now()), old(w.trace), w.trace) && OpSnapshot(job, op, old(w.disk), w.disk)
  {
    ghost var was := w.disk;
    residue := [];
    FilledSnapshot(job, op, path, data, was, 0);
    ok := w.Claim(path);
    if !ok {
      return;
    }
    assert data[..0] == [];
    ok, residue := FillClaim(w, path, data, op, job, old(w.Now()), old(w.trace));
  }

  lemma TraceGrows(job: Job, op: Prepared, start: Snapshot, before: seq<Snapshot>, was: seq<Snapshot>,
                   trace: seq<Snapshot>)
    requires OpTrace(job, op, start, before, was) && was <= trace
    requires forall k :: |was| <= k < |trace| ==>
               trace[k].wal == start.wal && OpSnapshot(job, op, start.disk, trace[k].disk)
    ensures OpTrace(job, op, start, before, trace)
  {
    assert forall k :: |before| <= k < |was| ==> trace[k] == was[k];
  }

  lemma FilledTwice(job: Job, op: Prepared, path: Path, data: Bytes, was: Disk, n: nat)
    requires OpReady(job, op, was) && path in PathsOf(op) && path !in was && PostOne(op)[path] == Some(data)
             && n <= |data|
    ensures var now := Put(Put(was, path, Some([])), path, Some(data[..n]));
            && now == Put(was, path, Some(data[..n])) && Put(now, path, None) == was
            && OpSnapshot(job, op, was, now) && OpSnapshot(job, op, was, was)
            && OpFailed(job, op, was, was, []) && OpFailed(job, op, was, now, [NotUndone(path)])
  {
    PutTwice(was, path, [], data[..n]);
    FilledSnapshot(job, op, path, data, was, n);
  }

  method FillClaim(w: World, path: Path, data: Bytes, ghost op: Prepared, ghost job: Job, ghost start: Snapshot,
                   ghost before: seq<Snapshot>)
    returns (ok: bool, residue: seq<Residue>)
    requires OpReady(job, op, start.disk) && path in PathsOf(op) && path !in start.disk
             && PostOne(op)[path] == Some(data)
    requires w.Now() == Snapshot(Put(start.disk, path, Some([])), start.wal) && OpTrace(job, op, start, before, w.trace)
    modifies w`disk, w`trace
    ensures ok ==> w.disk == Put(start.disk, path, Some(data)) && residue == []
    ensures !ok ==> OpFailed(job, op, start.disk, w.disk, residue)
    ensures OpTrace(job, op, start, before, w.trace) && OpSnapshot(job, op, start.disk, w.disk)
  {
    ghost var n, m;
    ghost var traced := w.trace;
    ok, n, m := w.WriteAndSync(path, data);
    FilledTwice(job, op, path, data, start.disk, n);
    FilledTwice(job, op, path, data, start.disk, m);
    TraceGrows(job, op, start, before, traced, w.trace);
    residue := [];
    if ok {
      assert data[..m] == data;
    } else {
      traced := w.trace;
      residue := Unclaim(w, path);
      TraceGrows(job, op, start, before, traced, w.trace);
    }
  }

  /** Performs one op's effect. */
  method ApplyOp(w: World, op: Prepared, ghost job: Job) returns (ok: bool, residue: seq<Residue>)
    requires OpReady(job, op, w.disk)
    modifies w`disk, w`trace
    ensures ok || op.Rewrite? ==> residue == []
    ensures ok ==> w.disk == ApplyOne(op, old(w.disk))
    ensures !ok ==> OpFailed(job, op, old(w.disk), w.disk, residue) && OpSnapshot(job, op, old(w.disk), w.disk)
    ensures OpTrace(job, op, old(w.Now()), old(w.trace), w.trace)
  {
    residue := [];
    match op
    case Create(path, staged) =>
      ok, residue := ClaimAndFill(w, path, staged, op, job);
    case Delete(path, _) =>
      ok := w.Unlink(path);
    case Move(from, to, live) =>
      ok, residue := ApplyMove(w, from, to, live, op, job);
    case Rewrite(path, _, _, spliced) =>
      ok := w.AtomicWrite(path, spliced);
  }

  /** Fills the destination, then unlinks the source; a failed unlink drops the destination again. */
  method ApplyMove(w: World, from: Path, to: Path, live: Bytes, ghost op: Prepared, ghost job: Job)
    returns (ok: bool, residue: seq<Residue>)
    requires op == Batch.Move(from, to, live) && OpReady(job, op, w.disk)
    modifies w`disk, w`trace
    ensures ok ==> w.disk == ApplyOne(op, old(w.disk)) && residue == []
    ensures !ok ==> OpFailed(job, op, old(w.disk), w.disk, residue)
    ensures OpTrace(job, op, old(w.Now()), old(w.trace), w.trace) && OpSnapshot(job, op, old(w.disk), w.disk)
  {
    ghost var start := w.Now();
    assert PathsOf(op)[0] == from && PathsOf(op)[1] == to;
    ok, residue := ClaimAndFill(w, to, live, op, job);
    if !ok {
      return;
    }
    MovedSnapshot(job, op, start.disk);
    ok := w.Unlink(from);
    if !ok {
      residue := Unclaim(w, to);
    }
  }

  lemma MovedSnapshot(job: Job, op: Prepared, was: Disk)
    requires op.Move? && OpReady(job, op, was)
    ensures var full := Put(was, op.to, Some(op.live));
            && OpSnapshot(job, op, was, full) && OpSnapshot(job, op, was, Put(full, op.from, None))
            && Put(full, op.to, None) == was && OpSnapshot(job, op, was, was)
            && OpFailed(job, op, was, was, []) && OpFailed(job, op, was, full, [NotUndone(op.to)])
  {
    assert PathsOf(op)[0] != PathsOf(op)[1];
    assert NotUndone(op.to) in [NotUndone(op.to)];
  }

  // ---- between ops ----

  lemma {:induction false} NextIsReady(job: Job, prepared: seq<Prepared>, i: nat)
    requires Ready(prepared, job.start.disk) && job.post == PostAll(prepared) && i < |prepared|
    ensures OpReady(job, prepared[i], ApplyAll(prepared[..i], job.start.disk))
    ensures forall p :: p in PathsOf(prepared[i]) ==> p !in AllPaths(prepared[..i])
  {
    PrefixReady(prepared, job.start.disk, i + 1);
    var upTo := prepared[..i + 1];
    assert upTo[..i] == prepared[..i] && upTo[i] == prepared[i];
    ReadyPrefix(upTo, job.start.disk);
    var now := ApplyAll(prepared[..i], job.start.disk);
    forall p | p in PathsOf(prepared[i])
      ensures p in job.post && p in PostOne(prepared[i]) && At(now, p) == Before(job, p)
              && job.post[p] == PostOne(prepared[i])[p]
    {
      AppliedContents(prepared[..i], job.start.disk, p);
      AppliedOne(prepared[i], now, p);
      PostIsStable(prepared, job.start.disk, i, p);
    }
    AnchoredStill(prepared[i], job.start.disk, now);
  }

  lemma AnchoredStill(op: Prepared, was: Disk, now: Disk)
    requires Anchored(op, was) && forall p :: p in PathsOf(op) ==> At(now, p) == At(was, p)
    ensures Anchored(op, now)
  {
    if op.Move? {
      assert PathsOf(op)[0] == op.from && PathsOf(op)[1] == op.to;
      assert At(now, op.to) == At(was, op.to);
    } else {
      assert PathsOf(op)[0] == op.path;
      assert At(now, op.path) == At(was, op.path);
    }
  }

  lemma {:induction false} PrefixReady(prepared: seq<Prepared>, disk: Disk, k: nat)
    requires Ready(prepared, disk) && k <= |prepared|
    ensures Ready(prepared[..k], disk)
  {
    if k == |prepared| {
      assert prepared[..k] == prepared;
    } else {
      ReadyPrefix(prepared, disk);
      PrefixReady(prepared[..|prepared| - 1], disk, k);
      assert prepared[..|prepared| - 1][..k] == prepared[..k];
    }
  }


  /** Whole ops only: every path of the batch is where it was or where it is to be. */
  lemma {:induction false} WholeOpsSnapshot(job: Job, intent: Intent, prepared: seq<Prepared>, k: nat, wal: Log)
    requires Ready(prepared, job.start.disk) && job.post == PostAll(prepared) && k <= |prepared|
    requires wal - {job.id} == job.start.wal - {job.id} && job.id in wal && wal[job.id] == Recorded(intent)
    ensures LoneSnapshot(job, intent, false, Snapshot(ApplyAll(prepared[..k], job.start.disk), wal))
  {
    var now := ApplyAll(prepared[..k], job.start.disk);
    forall p ensures p in job.post ==> Between(job, now, p) ensures p !in job.post ==> At(now, p) == Before(job, p) {
      PrefixIsBetween(prepared, job.start.disk, k, p);
    }
  }

  /** Between whole ops the bytes of every move are at its source, or at its destination once it is applied. */
  lemma {:induction false} WholeOpsSafe(prepared: seq<Prepared>, disk: Disk, k: nat)
    requires Ready(prepared, disk) && k <= |prepared|
    ensures MovesSafe(prepared, ApplyAll(prepared[..k], disk))
  {
    var now := ApplyAll(prepared[..k], disk);
    forall i | 0 <= i < |prepared| && prepared[i].Move? ensures MoveSafe(prepared[i], now) {
      var op := prepared[i];
      PrefixReady(prepared, disk, k);
      assert PathsOf(op)[0] == op.from && PathsOf(op)[1] == op.to;
      if i < k {
        assert prepared[..k][i] == op;
        PostIsStable(prepared[..k], disk, i, op.to);
        MovePaths(prepared[..k], disk, i);
        AppliedContents(prepared[..k], disk, op.to);
      } else {
        LaterUntouched(prepared, k, i, op.from);
        AppliedContents(prepared[..k], disk, op.from);
      }
    }
  }


  /** No path of a later op is among those of the first ones. */
  lemma {:induction false} LaterUntouched(prepared: seq<Prepared>, k: nat, i: nat, p: Path)
    requires Paths.DistinctPaths(AllPaths(prepared)) && k <= i < |prepared| && p in PathsOf(prepared[i])
    ensures p !in AllPaths(prepared[..k])
  {
    var n := |prepared| - 1;
    DistinctSplit(AllPaths(prepared[..n]), PathsOf(prepared[n]));
    assert k <= n && prepared[..n][..k] == prepared[..k];
    if i < n {
      LaterUntouched(prepared[..n], k, i, p);
    } else {
      PrefixPaths(prepared[..n], k);
    }
  }

  /** While one op works, the moves of the others are as safe as they were. */
  lemma {:induction false} OthersSafe(job: Job, prepared: seq<Prepared>, i: nat, was: Disk, now: Disk)
    requires Ready(prepared, job.start.disk) && i < |prepared| && MovesSafe(prepared, was)
    requires OpSnapshot(job, prepared[i], was, now)
    ensures MovesSafe(prepared, now)
  {
    forall j | 0 <= j < |prepared| ensures MoveSafe(prepared[j], now) {
      var op := prepared[j];
      if j != i && op.Move? {
        assert PathsOf(op)[0] == op.from && PathsOf(op)[1] == op.to;
        OpsApart(prepared, i, j, op.from);
        OpsApart(prepared, i, j, op.to);
        assert MoveSafe(prepared[j], was);
      }
    }
  }

  lemma {:induction false} OpsApart(prepared: seq<Prepared>, i: nat, j: nat, p: Path)
    requires Paths.DistinctPaths(AllPaths(prepared)) && i < |prepared| && j < |prepared| && i != j
    requires p in PathsOf(prepared[j])
    ensures p !in PathsOf(prepared[i])
  {
    var n := |prepared| - 1;
    DistinctSplit(AllPaths(prepared[..n]), PathsOf(prepared[n]));
    if i == n {
      OpPathsListed(prepared[..n], j, p);
    } else if j == n {
      if p in PathsOf(prepared[i]) { OpPathsListed(prepared[..n], i, p); }
    } else {
      OpsApart(prepared[..n], i, j, p);
    }
  }

  lemma {:induction false} OpPathsListed(prepared: seq<Prepared>, j: nat, p: Path)
    requires j < |prepared| && p in PathsOf(prepared[j])
    ensures p in AllPaths(prepared)
  {
    var n := |prepared| - 1;
    if j < n { OpPathsListed(prepared[..n], j, p); }
  }

  lemma OpSnapshotIsLone(job: Job, intent: Intent, op: Prepared, was: Snapshot, now: Snapshot)
    requires LoneSnapshot(job, intent, false, was) && now.wal == was.wal && OpSnapshot(job, op, was.disk, now.disk)
    requires job.id in was.wal && was.wal[job.id] == Recorded(intent)
    requires forall p :: p in PathsOf(op) ==> p in job.post
    ensures LoneSnapshot(job, intent, false, now)
  {
    forall p | p in job.post ensures Between(job, now.disk, p) || HalfMade(job, now.disk, p) {
      if p !in PathsOf(op) && HalfMade(job, was.disk, p) {
        var n :| 0 <= n <= |job.post[p].value| && At(was.disk, p) == Some(job.post[p].value[..n]);
        assert At(now.disk, p) == Some(job.post[p].value[..n]);
      }
    }
  }

  /** What an apply phase that stopped leaves for the undo of the paths `touched`. */
  ghost predicate Stopped(job: Job, touched: seq<Path>, disk: Disk, residue: seq<Residue>) {
    && (forall p :: p in touched ==> Between(job, disk, p))
    && (forall p :: p in job.post && p !in touched ==> At(disk, p) == Before(job, p) || NotUndone(p) in residue)
    && (forall i :: 0 <= i < |residue| ==> residue[i].NotUndone? && residue[i].path in job.post)
  }

  /** After whole ops, the paths of those ops hold their new content and every other its old one. */
  lemma {:induction false} PrefixDisk(job: Job, prepared: seq<Prepared>, i: nat, p: Path)
    requires Ready(prepared, job.start.disk) && job.post == PostAll(prepared) && i <= |prepared|
    ensures var now := At(ApplyAll(prepared[..i], job.start.disk), p);
            if p in AllPaths(prepared[..i]) then Between(job, ApplyAll(prepared[..i], job.start.disk), p)
            else now == Before(job, p)
  {
    PrefixReady(prepared, job.start.disk, i);
    PrefixIsBetween(prepared, job.start.disk, i, p);
    AppliedContents(prepared[..i], job.start.disk, p);
  }

  /** Away from the failed op's paths, the ops before it are done and those after it are not begun. */
  lemma {:induction false} BesideFailedOp(job: Job, prepared: seq<Prepared>, i: nat, now: Disk, residue: seq<Residue>)
    requires Ready(prepared, job.start.disk) && job.post == PostAll(prepared) && i < |prepared|
    requires OpFailed(job, prepared[i], ApplyAll(prepared[..i], job.start.disk), now, residue)
    ensures forall p :: p in AllPaths(prepared[..i]) ==> Between(job, now, p)
    ensures forall p :: p !in AllPaths(prepared[..i]) && p !in PathsOf(prepared[i]) ==> At(now, p) == Before(job, p)
  {
    NextIsReady(job, prepared, i);
    forall p
      ensures p in AllPaths(prepared[..i]) ==> Between(job, now, p)
      ensures p !in AllPaths(prepared[..i]) && p !in PathsOf(prepared[i]) ==> At(now, p) == Before(job, p)
    {
      PrefixDisk(job, prepared, i, p);
    }
  }

  lemma {:induction false} FailedOpStops(job: Job, prepared: seq<Prepared>, i: nat, now: Disk, residue: seq<Residue>)
    requires Ready(prepared, job.start.disk) && job.post == PostAll(prepared) && i < |prepared|
    requires OpFailed(job, prepared[i], ApplyAll(prepared[..i], job.start.disk), now, residue)
    requires prepared[i].Rewrite? ==> residue == []
    ensures Stopped(job, AllPaths(prepared[..if prepared[i].Rewrite? then i + 1 else i]), now, residue)
  {
    NextIsReady(job, prepared, i);
    BesideFailedOp(job, prepared, i, now, residue);
    NextPaths(prepared, i);
  }

  lemma NextPaths(prepared: seq<Prepared>, i: nat)
    requires i < |prepared|
    ensures AllPaths(prepared[..i + 1]) == AllPaths(prepared[..i]) + PathsOf(prepared[i])
  {
    assert prepared[..i + 1][..i] == prepared[..i] && prepared[..i + 1][i] == prepared[i];
  }

  /** The next op, between whole ops. */
  method ApplyNext(w: World, prepared: seq<Prepared>, i: nat, ghost job: Job, ghost intent: Intent,
                   ghost before: seq<Snapshot>)
    returns (ok: bool, residue: seq<Residue>)
    requires Ready(prepared, job.start.disk) && job.post == PostAll(prepared) && i < |prepared|
    requires w.disk == ApplyAll(prepared[..i], job.start.disk) && w.wal - {job.id} == job.start.wal - {job.id}
    requires job.id in w.wal && w.wal[job.id] == Recorded(intent) && LoneTrace(job, intent, false, before, w.trace)
    requires MovesSafe(prepared, w.disk)
    modifies w`disk, w`trace
    ensures LoneTrace(job, intent, false, before, w.trace)
    ensures old(w.trace) <= w.trace && MovesSafeSince(prepared, old(w.trace), w.trace)
    ensures !ok ==> MovesSafe(prepared, w.disk)
    ensures ok ==> w.disk == ApplyAll(prepared[..i + 1], job.start.disk)
    ensures !ok ==>
              && OpFailed(job, prepared[i], old(w.disk), w.disk, residue)
              && LoneSnapshot(job, intent, false, w.Now())
    ensures !ok && prepared[i].Rewrite? ==> residue == []
  {
    ghost var was, traced := w.Now(), w.trace;
    NextIsReady(job, prepared, i);
    WholeOpsSnapshot(job, intent, prepared, i, w.wal);
    ok, residue := ApplyOp(w, prepared[i], job);
    forall k | |before| <= k < |w.trace| ensures LoneSnapshot(job, intent, false, w.trace[k]) {
      if k < |traced| {
        assert w.trace[k] == traced[k];
      } else {
        OpSnapshotIsLone(job, intent, prepared[i], was, w.trace[k]);
      }
    }
    assert prepared[..i + 1][..i] == prepared[..i];
    forall k | |traced| <= k < |w.trace| ensures MovesSafe(prepared, w.trace[k].disk) {
      OthersSafe(job, prepared, i, was.disk, w.trace[k].disk);
    }
    if !ok {
      OpSnapshotIsLone(job, intent, prepared[i], was, w.Now());
      OthersSafe(job, prepared, i, was.disk, w.disk);
    }
  }

  // ---- what each op reports ----

  /** What a batch tells the caller of one op. */
  datatype OpResult =
    | Edited(results: seq<Splice.EditResult>)
    | Created(file: Splice.EditResult)
    | Deleted(path: Path, hash: Digest)
    | Moved(from: Path, dest: Splice.EditResult)

  ghost predicate Reports(p: Prepared, r: OpResult) {
    match p
    case Create(_, staged) => r.Created? && Splice.DescribesFile(r.file, staged)
    case Delete(path, live) => r == Deleted(path, RawHash(live))
    case Move(from, _, live) => r.Moved? && r.from == from && Splice.DescribesFile(r.dest, live)
    case Rewrite(_, _, resolved, spliced) =>
      && r.Edited? && |r.results| == |resolved| == 1
      && Splice.Describes(r.results[0], spliced, resolved[0].start, resolved[0])
      && spliced[r.results[0].changedStart..r.results[0].changedEnd] == resolved[0].text
  }

  ghost predicate ReportsFirst(prepared: seq<Prepared>, results: seq<OpResult>) {
    |results| <= |prepared| && forall i :: 0 <= i < |results| ==> Reports(prepared[i], results[i])
  }

  /** An op's results: an edit's changed range is where its one edit went. */
  method ReportOp(p: Prepared) returns (r: OpResult)
    requires Reportable(p)
    ensures Reports(p, r)
  {
    match p
    case Create(_, staged) =>
      var file := Splice.WholeFileResult(staged);
      r := Created(file);
    case Delete(path, live) =>
      r := Deleted(path, RawHash(live));
    case Move(from, _, live) =>
      var dest := Splice.WholeFileResult(live);
      r := Moved(from, dest);
    case Rewrite(_, _, resolved, spliced) =>
      var results := Splice.EditResults(spliced, resolved);
      OneEditSorted(resolved);
      assert resolved[..0] == [];
      r := Edited(results.value);
  }

  /** A rewrite is one edit whose text is in the new bytes where it starts. */
  ghost predicate Reportable(p: Prepared) {
    p.Rewrite? ==>
      && |p.resolved| == 1 && p.resolved[0].start + |p.resolved[0].text| <= |p.spliced|
      && p.spliced[p.resolved[0].start..p.resolved[0].start + |p.resolved[0].text|] == p.resolved[0].text
  }

  ghost predicate AllReportable(prepared: seq<Prepared>) {
    forall i :: 0 <= i < |prepared| ==> Reportable(prepared[i])
  }

  lemma ReportsOneMore(prepared: seq<Prepared>, results: seq<OpResult>, r: OpResult)
    requires ReportsFirst(prepared, results) && |results| < |prepared| && Reports(prepared[|results|], r)
    ensures ReportsFirst(prepared, results + [r])
  {
  }

  /** The one resolved edit of a rewrite that spliced is reported where it went. */
  lemma PreparedReportable(parse: Commit.Parser, accepts: (Path, Bytes) -> bool, op: Op, p: Prepared, disk: Disk)
    requires Prepares(parse, accepts, op, p, disk)
    ensures Reportable(p)
  {
    if p.Rewrite? {
      assert |p.resolved| == 1 by { OneResolved(parse(p.path, p.live), p.live, op.edit); }
      OneEditSorted(p.resolved);
      Splice.ResultsHoldTheirText(p.live, p.resolved, 0);
      assert p.resolved[..0] == [];
    }
  }

  lemma OneResolved(tree: Option<Trees.Node>, live: Bytes, e: Regions.Edit)
    requires Regions.ResolveEdits(tree, live, [e]).Ok?
    ensures |Regions.ResolveEdits(tree, live, [e]).value| == 1
  {
    assert [e][1..] == [];
  }

  lemma OneEditSorted(edits: seq<Splice.FileEdit>)
    requires |edits| == 1
    ensures Splice.SortAscending(edits) == edits
  {
    assert edits[1..] == [] && edits == [edits[0]];
  }

  /** Applies each op in input order, stopping at the first that fails. */
  method ApplyOps(w: World, prepared: seq<Prepared>, ghost job: Job, ghost intent: Intent, ghost before: seq<Snapshot>)
    returns (ok: bool, applied: nat, residue: seq<Residue>, results: seq<OpResult>)
    requires AllReportable(prepared) && Ready(prepared, job.start.disk) && job.post == PostAll(prepared)
    requires w.disk == job.start.disk && w.wal - {job.id} == job.start.wal - {job.id}
    requires job.id in w.wal && w.wal[job.id] == Recorded(intent) && LoneTrace(job, intent, false, before, w.trace)
    modifies w`disk, w`trace
    ensures LoneTrace(job, intent, false, before, w.trace) && LoneSnapshot(job, intent, false, w.Now())
    ensures old(w.trace) <= w.trace && MovesSafeSince(prepared, old(w.trace), w.trace) && MovesSafe(prepared, w.disk)
    ensures ok ==> AllAfter(job, w.disk) && |results| == |prepared| && ReportsFirst(prepared, results)
    ensures !ok ==> applied <= |prepared| && Stopped(job, AllPaths(prepared[..applied]), w.disk, residue)
  {
    residue := [];
    applied := 0;
    results := [];
    assert prepared[..0] == [];
    for i := 0 to |prepared|
      invariant w.disk == ApplyAll(prepared[..i], job.start.disk) && LoneTrace(job, intent, false, before, w.trace)
      invariant |results| == i && ReportsFirst(prepared, results)
      invariant old(w.trace) <= w.trace && MovesSafeSince(prepared, old(w.trace), w.trace)
    {
      WholeOpsSafe(prepared, job.start.disk, i);
      ok, residue := ApplyNext(w, prepared, i, job, intent, before);
      if !ok {
        FailedOpStops(job, prepared, i, w.disk, residue);
        return false, if prepared[i].Rewrite? then i + 1 else i, residue, results;
      }
      var result := ReportOp(prepared[i]);
      ReportsOneMore(prepared, results, result);
      results := results + [result];
    }
    ok := true;
    WholeOpsSafe(prepared, job.start.disk, |prepared|);
    WholeOpsSnapshot(job, intent, prepared, |prepared|, w.wal);
    AllApplied(job, prepared);
  }

  lemma {:induction false} AllApplied(job: Job, prepared: seq<Prepared>)
    requires Ready(prepared, job.start.disk) && job.post == PostAll(prepared)
    ensures AllAfter(job, ApplyAll(prepared[..|prepared|], job.start.disk))
  {
    assert prepared[..|prepared|] == prepared;
    forall p | p in job.post ensures At(ApplyAll(prepared, job.start.disk), p) == job.post[p] {
      AppliedContents(prepared, job.start.disk, p);
    }
  }

  // ---- the whole batch ----

  lemma BatchUndoSteps(job: Job, intent: Intent, paths: seq<Path>)
    requires Describes(job, intent) && forall p :: p in paths ==> p in job.post
    ensures UndoesJob(job, UndoSteps(intent, paths))
    ensures forall p :: p in paths ==> exists c :: c in UndoSteps(intent, paths) && c.path == p
    ensures forall c :: c in UndoSteps(intent, paths) ==> c.path in paths
  {
    UndoStepsContents(intent, paths);
    forall p | p in paths ensures exists c :: c in UndoSteps(intent, paths) && c.path == p {
      assert Converge(p, intent.after[p], At(intent.originals, p)) in UndoSteps(intent, paths);
    }
  }

  /**
   * Undoes the first ops of a batch that stopped, and drops the intent unless an undo failed. Where
   * the marker was `kept`, an undo of two paths that goes through passes through a state that recovery
   * would not mend.
   */
  method RollBackBatch(w: World, intent: Intent, touched: seq<Path>, cause: SessionError, stopped: seq<Residue>,
                       ghost job: Job, ghost prepared: seq<Prepared>, ghost count: nat, ghost kept: bool,
                       ghost before: seq<Snapshot>)
    returns (e: SessionError)
    requires w.Valid() && Describes(job, intent) && (forall p :: p in touched ==> p in job.post) && !cause.LeftBehind?
    requires IsTouched(job, prepared, count, touched) && MovesSafe(prepared, w.disk)
    requires StillRecorded(job, intent, kept, w.wal) && (kept ==> AllBetween(job, w.disk))
    requires LoneSnapshot(job, intent, kept, w.Now()) && LoneTrace(job, intent, kept, before, w.trace)
    requires Stopped(job, touched, w.disk, stopped)
    modifies w`disk, w`wal, w`trace
    ensures w.Valid() && LoneSnapshot(job, intent, kept, w.Now()) && LoneTrace(job, intent, kept, before, w.trace)
    ensures || (e == cause && AllBefore(job, w.disk) && job.id !in w.wal)
            || (e.LeftBehind? && (AllBefore(job, w.disk) || StillRecorded(job, intent, kept, w.wal)))
    ensures (e == cause && ChangesTwo(job) && old(w.wal[job.id].status == Landed && AllAfter(job, w.disk))) ==>
              StrandedIn(job, before, w.trace)
    ensures old(w.trace) <= w.trace && MovesKept(prepared, old(w.trace), w.trace, ResidueOf(Some(e)))
    ensures CauseOf(e) == cause && Accounts(job, w.disk, e)
  {
    var residue := TakeBackBatch(w, intent, touched, stopped, job, prepared, count, kept, before);
    ghost var traced := w.trace;
    e := AbandonLone(w, intent.id, cause, residue, job, intent, kept, before);
    AbandonedKeeps(prepared, w.disk, old(w.trace), traced, w.trace, residue, e);
    if StrandedIn(job, before, traced) { StrandedStill(job, before, traced, w.trace); }
  }

  /** Puts the paths of the first ops back, one after another. */
  method TakeBackBatch(w: World, intent: Intent, touched: seq<Path>, stopped: seq<Residue>,
                       ghost job: Job, ghost prepared: seq<Prepared>, ghost count: nat, ghost kept: bool,
                       ghost before: seq<Snapshot>)
    returns (residue: seq<Residue>)
    requires w.Valid() && Describes(job, intent) && forall p :: p in touched ==> p in job.post
    requires IsTouched(job, prepared, count, touched) && MovesSafe(prepared, w.disk)
    requires StillRecorded(job, intent, kept, w.wal) && (kept ==> AllBetween(job, w.disk))
    requires LoneSnapshot(job, intent, kept, w.Now()) && LoneTrace(job, intent, kept, before, w.trace)
    requires Stopped(job, touched, w.disk, stopped)
    modifies w`disk, w`trace
    ensures w.Valid() && LoneSnapshot(job, intent, kept, w.Now()) && LoneTrace(job, intent, kept, before, w.trace)
    ensures Unfinished(residue) || (residue == [] && AllBefore(job, w.disk))
    ensures (AllBefore(job, w.disk) && ChangesTwo(job)
             && old(w.wal[job.id].status == Landed && AllAfter(job, w.disk))) ==>
              StrandedIn(job, before, w.trace)
    ensures old(w.trace) <= w.trace && MovesKept(prepared, old(w.trace), w.trace, residue)
    ensures forall i :: 0 <= i < |prepared| ==> MoveStillSafe(prepared[i], w.disk, residue)
    ensures forall i :: 0 <= i < |residue| ==> residue[i].NotUndone?
    ensures AccountsFor(job, w.disk, residue)
  {
    ghost var s, traced := w.Now(), w.trace;
    var steps := UndoSteps(intent, touched);
    BatchUndoSteps(job, intent, touched);
    var undone := UndoHeld(w, steps, job);
    PutBackIsLone(job, intent, kept, steps, s, w.Now());
    PutBackTrace(job, intent, kept, steps, s, before, traced, w.trace);
    residue := stopped + undone;
    RolledBack(job, steps, touched, s.disk, w.disk, stopped, undone);
    UndoneMovesKept(job, intent, prepared, count, touched, s, w.disk, traced, w.trace, stopped, undone);
    if s.wal[job.id].status == Landed && AllAfter(job, s.disk) && AllBefore(job, w.disk) && ChangesTwo(job) {
      UndoStrands(job, steps, s, before, traced, w.trace, w.disk);
    }
  }

  /** The first `count` ops are to be taken back, and `touched` are their paths. */
  ghost predicate IsTouched(job: Job, prepared: seq<Prepared>, count: nat, touched: seq<Path>) {
    && Ready(prepared, job.start.disk) && job.post == PostAll(prepared)
    && count <= |prepared| && touched == AllPaths(prepared[..count])
  }

  ghost predicate MoveStillSafe(op: Prepared, disk: Disk, residue: seq<Residue>) {
    MoveSafe(op, disk) || (op.Move? && NotUndone(op.from) in residue)
  }

  /** Why the undo of a batch loses no byte of a move: its restore comes before its removal. */
  lemma {:induction false} UndoneMovesKept(job: Job, intent: Intent, prepared: seq<Prepared>, count: nat,
                                           touched: seq<Path>, s: Snapshot, now: Disk, traced: seq<Snapshot>,
                                           trace: seq<Snapshot>, stopped: seq<Residue>, undone: seq<Residue>)
    requires Describes(job, intent) && IsTouched(job, prepared, count, touched) && MovesSafe(prepared, s.disk)
    requires Stopped(job, touched, s.disk, stopped)
    requires var steps := UndoSteps(intent, touched);
             && UndoTrace(job, steps, s, traced, trace) && PutBackSome(job, steps, s.disk, now)
             && BytesKept(job, steps, s.disk, now, traced, trace, undone)
    ensures MovesKept(prepared, traced, trace, stopped + undone)
    ensures forall i :: 0 <= i < |prepared| ==> MoveStillSafe(prepared[i], now, stopped + undone)
  {
    forall i | 0 <= i < |prepared|
      ensures MoveKept(prepared[i], traced, trace, stopped + undone)
      ensures MoveStillSafe(prepared[i], now, stopped + undone)
    {
      if prepared[i].Move? {
        assert MoveSafe(prepared[i], s.disk);
        if i < count {
          TakenBackKept(job, intent, prepared, i, count, touched, s, now, traced, trace, stopped, undone);
        } else {
          UntouchedKept(job, intent, prepared, i, count, touched, s, now, traced, trace, stopped, undone);
        }
      }
    }
  }

  lemma {:induction false} TakenBackKept(job: Job, intent: Intent, prepared: seq<Prepared>, i: nat, count: nat,
                                         touched: seq<Path>, s: Snapshot, now: Disk, traced: seq<Snapshot>,
                                         trace: seq<Snapshot>, stopped: seq<Residue>, undone: seq<Residue>)
    requires Describes(job, intent) && IsTouched(job, prepared, count, touched)
             && Stopped(job, touched, s.disk, stopped)
    requires i < count && prepared[i].Move? && MoveSafe(prepared[i], s.disk)
    requires BytesKept(job, UndoSteps(intent, touched), s.disk, now, traced, trace, undone)
    ensures MoveKept(prepared[i], traced, trace, stopped + undone)
    ensures MoveStillSafe(prepared[i], now, stopped + undone)
  {
    var op, steps := prepared[i], UndoSteps(intent, touched);
    assert PathsOf(op)[0] == op.from && PathsOf(op)[1] == op.to && prepared[..count][i] == op;
    OpPathsListed(prepared[..count], i, op.from);
    OpPathsListed(prepared[..count], i, op.to);
    PostIsStable(prepared, job.start.disk, i, op.from);
    PostIsStable(prepared, job.start.disk, i, op.to);
    MovePaths(prepared, job.start.disk, i);
    UndoStepsContents(intent, touched);
    assert Converge(op.from, intent.after[op.from], At(intent.originals, op.from)) in steps;
    assert Converge(op.to, intent.after[op.to], At(intent.originals, op.to)) in steps;
    assert TakesBack(steps, op.from, op.to, op.live);
    assert BytesOfMoveKept(job, s.disk, now, traced, trace, undone, op.from, op.to, op.live);
  }

  lemma {:induction false} UntouchedKept(job: Job, intent: Intent, prepared: seq<Prepared>, i: nat, count: nat,
                                         touched: seq<Path>, s: Snapshot, now: Disk, traced: seq<Snapshot>,
                                         trace: seq<Snapshot>, stopped: seq<Residue>, undone: seq<Residue>)
    requires IsTouched(job, prepared, count, touched) && count <= i < |prepared|
    requires prepared[i].Move? && MoveSafe(prepared[i], s.disk)
    requires var steps := UndoSteps(intent, touched);
             UndoTrace(job, steps, s, traced, trace) && PutBackSome(job, steps, s.disk, now)
    ensures MoveKept(prepared[i], traced, trace, stopped + undone)
    ensures MoveStillSafe(prepared[i], now, stopped + undone)
  {
    var op, steps := prepared[i], UndoSteps(intent, touched);
    assert PathsOf(op)[0] == op.from && PathsOf(op)[1] == op.to;
    LaterUntouched(prepared, count, i, op.from);
    LaterUntouched(prepared, count, i, op.to);
    UndoStepsContents(intent, touched);
    forall k | |traced| <= k < |trace| ensures Safe(trace[k].disk, op.from, op.to, op.live) {
      assert At(trace[k].disk, op.from) == At(s.disk, op.from) && At(trace[k].disk, op.to) == At(s.disk, op.to);
    }
    assert At(now, op.from) == At(s.disk, op.from) && At(now, op.to) == At(s.disk, op.to);
  }

  /** Dropping the intent moves no file. */
  lemma AbandonedKeeps(prepared: seq<Prepared>, disk: Disk, before: seq<Snapshot>, mid: seq<Snapshot>,
                       trace: seq<Snapshot>, residue: seq<Residue>, e: SessionError)
    requires before <= mid <= trace && AtMostNow(disk, trace, |mid|) && MovesKept(prepared, before, mid, residue)
    requires forall i :: 0 <= i < |prepared| ==> MoveStillSafe(prepared[i], disk, residue)
    requires forall i :: 0 <= i < |residue| ==> residue[i].NotUndone?
    requires residue != [] ==> e.LeftBehind? && e.residue == residue
    ensures MovesKept(prepared, before, trace, ResidueOf(Some(e)))
  {
    forall i | 0 <= i < |prepared| ensures MoveKept(prepared[i], mid, trace, ResidueOf(Some(e))) {
      assert MoveStillSafe(prepared[i], disk, residue);
    }
    KeptFurther(prepared, before, mid, trace, residue, ResidueOf(Some(e)));
  }

  lemma RolledBack(job: Job, steps: seq<Converge>, touched: seq<Path>, was: Disk, now: Disk, stopped: seq<Residue>,
                   undone: seq<Residue>)
    requires Stopped(job, touched, was, stopped) && PutBackSome(job, steps, was, now) && Names(job, steps, was, undone)
    requires forall p :: p in touched ==> exists c :: c in steps && c.path == p
    requires forall c :: c in steps ==>
               c.path in touched && c.path in job.post && StepUndone(job, c.path, was, now, undone)
    ensures Unfinished(stopped + undone) || (stopped + undone == [] && AllBefore(job, now))
    ensures forall i :: 0 <= i < |stopped + undone| ==> (stopped + undone)[i].NotUndone?
    ensures AccountsFor(job, now, stopped + undone)
  {
    var all := stopped + undone;
    forall x | x in all ensures x.NotUndone? && x.path in job.post {
      var i :| 0 <= i < |all| && all[i] == x;
      if i >= |stopped| { assert x in undone; } else { assert x == stopped[i]; }
    }
    forall i | 0 <= i < |all| ensures all[i].NotUndone? { assert all[i] in all; }
    forall p | p in job.post && At(now, p) != Before(job, p) ensures NotUndone(p) in all {
      if p in touched {
        var c :| c in steps && c.path == p;
        assert StepUndone(job, c.path, was, now, undone);
      }
    }
    if !AllBefore(job, now) {
      var p :| p in job.post && At(now, p) != Before(job, p);
      var i :| 0 <= i < |all| && all[i] == NotUndone(p);
    }
    if all != [] { assert all[0].NotUndone?; }
  }

  /** What the caller is told of a batch agrees with the disk and the log it leaves. */
  ghost predicate BatchResult(job: Job, intent: Intent, kept: bool, error: Option<SessionError>, s: Snapshot) {
    match error
    case None => AllAfter(job, s.disk) && job.id !in s.wal
    case Some(LandedNotCleared) => AllAfter(job, s.disk) && MarkedOrCleared(job.id, s.wal)
    case Some(LeftBehind(_, _)) => AllBefore(job, s.disk) || StillRecorded(job, intent, kept, s.wal)
    case Some(_) => AllBefore(job, s.disk) && job.id !in s.wal
  }

  /** A marker that was kept over a batch of two changed paths that was put back left a half state on the way. */
  ghost predicate KeptStrands(job: Job, kept: bool, error: Option<SessionError>, before: seq<Snapshot>,
                              trace: seq<Snapshot>) {
    kept ==> && error.Some? && !error.value.LandedNotCleared?
             && (!error.value.LeftBehind? && ChangesTwo(job) ==> StrandedIn(job, before, trace))
  }

  /** Records, applies, marks and clears a validated batch. */
  method RunPrepared(w: World, id: IntentId, prepared: seq<Prepared>, intent: Intent, ghost job: Job,
                     ghost before: seq<Snapshot>)
    returns (r: Result<seq<OpResult>, SessionError>, ghost kept: bool)
    requires w.Valid() && job == BatchJob(w.Now(), id, prepared) && intent == UnifiedIntent(id, prepared)
    requires AllReportable(prepared) && Ready(prepared, w.disk) && id !in w.wal && id < w.nextId && before == w.trace
    modifies w`disk, w`wal, w`trace
    ensures w.Valid() && LoneSnapshot(job, intent, kept, w.Now()) && LoneTrace(job, intent, kept, before, w.trace)
    ensures BatchResult(job, intent, kept, ErrorOf(r), w.Now()) && KeptStrands(job, kept, ErrorOf(r), before, w.trace)
    ensures old(w.trace) <= w.trace && MovesKept(prepared, old(w.trace), w.trace, ResidueOf(ErrorOf(r)))
    ensures r.Err? ==> Accounts(job, w.disk, r.error) && CauseOf(r.error) in {Io(""), WalFailed, LandedNotCleared}
    ensures r.Ok? ==> |r.value| == |prepared| && ReportsFirst(prepared, r.value)
  {
    kept := false;
    UnifiedDescribes(w.Now(), id, prepared);
    forall p ensures p in job.post <==> p in AllPaths(prepared) { AppliedContents(prepared, w.disk, p); }
    var appended := AppendLone(w, intent, job, before);
    if !appended {
      var e := AbandonUnchanged(w, id, WalFailed, job, intent, before);
      ReadyMovesSafe(prepared, w.disk, before, w.trace);
      KeptFurther(prepared, before, w.trace, w.trace, [], ResidueOf(Some(e)));
      return Err(e), kept;
    }
    ghost var traced := w.trace;
    ReadyMovesSafe(prepared, w.disk, before, traced);
    r, kept := ApplyAndLand(w, id, prepared, intent, job, before);
    KeptFurther(prepared, before, traced, w.trace, [], ResidueOf(ErrorOf(r)));
  }

  /** Before anything is applied every move's bytes are at its source. */
  lemma {:induction false} ReadyMovesSafe(prepared: seq<Prepared>, disk: Disk, before: seq<Snapshot>,
                                          trace: seq<Snapshot>)
    requires Ready(prepared, disk) && before <= trace && forall k :: |before| <= k < |trace| ==> trace[k].disk == disk
    ensures MovesKept(prepared, before, trace, [])
  {
    WholeOpsSafe(prepared, disk, 0);
    assert prepared[..0] == [];
    SameDiskSafe(prepared, disk, before, trace);
    SafeMovesAreKept(prepared, before, trace, []);
  }

  /** Applies, marks and clears a recorded batch. */
  method ApplyAndLand(w: World, id: IntentId, prepared: seq<Prepared>, intent: Intent, ghost job: Job,
                      ghost before: seq<Snapshot>)
    returns (r: Result<seq<OpResult>, SessionError>, ghost kept: bool)
    requires w.Valid() && job == BatchJob(job.start, id, prepared) && intent == UnifiedIntent(id, prepared)
             && Describes(job, intent)
    requires AllReportable(prepared) && Ready(prepared, job.start.disk) && w.disk == job.start.disk
             && w.wal - {id} == job.start.wal - {id}
    requires forall p :: p in job.post <==> p in AllPaths(prepared)
    requires id in w.wal && w.wal[id] == Recorded(intent) && LoneTrace(job, intent, false, before, w.trace)
    modifies w`disk, w`wal, w`trace
    ensures w.Valid() && LoneSnapshot(job, intent, kept, w.Now()) && LoneTrace(job, intent, kept, before, w.trace)
    ensures BatchResult(job, intent, kept, ErrorOf(r), w.Now()) && KeptStrands(job, kept, ErrorOf(r), before, w.trace)
    ensures old(w.trace) <= w.trace && MovesKept(prepared, old(w.trace), w.trace, ResidueOf(ErrorOf(r)))
    ensures r.Err? ==> Accounts(job, w.disk, r.error) && CauseOf(r.error) in {Io(""), WalFailed, LandedNotCleared}
    ensures r.Ok? ==> |r.value| == |prepared| && ReportsFirst(prepared, r.value)
  {
    kept := false;
    var applied, count, stopped, results := ApplyOps(w, prepared, job, intent, before);
    if !applied {
      PrefixPaths(prepared, count);
      ghost var traced := w.trace;
      SafeMovesAreKept(prepared, old(w.trace), traced, []);
      var e := RollBackBatch(w, intent, AllPaths(prepared[..count]), Io(""), stopped, job, prepared, count, false,
                             before);
      KeptFurther(prepared, old(w.trace), traced, w.trace, [], ResidueOf(Some(e)));
      return Err(e), kept;
    }
    ghost var traced := w.trace;
    SafeMovesAreKept(prepared, old(w.trace), traced, []);
    assert prepared[..|prepared|] == prepared;
    var error, k := LandBatch(w, id, prepared, intent, job, before);
    KeptFurther(prepared, old(w.trace), traced, w.trace, [], ResidueOf(error));
    kept := k;
    r := if error.None? then Ok(results) else Err(error.value);
  }

  /** Marks and clears a batch that is all applied; a failed mark takes it all back. */
  method LandBatch(w: World, id: IntentId, prepared: seq<Prepared>, intent: Intent, ghost job: Job,
                   ghost before: seq<Snapshot>)
    returns (error: Option<SessionError>, ghost kept: bool)
    requires w.Valid() && job.id == id && Describes(job, intent) && AllAfter(job, w.disk)
    requires IsTouched(job, prepared, |prepared|, AllPaths(prepared)) && MovesSafe(prepared, w.disk)
    requires forall p :: p in job.post <==> p in AllPaths(prepared)
    requires id in w.wal && w.wal[id] == Recorded(intent)
    requires LoneSnapshot(job, intent, false, w.Now()) && LoneTrace(job, intent, false, before, w.trace)
    modifies w`disk, w`wal, w`trace
    ensures w.Valid() && LoneSnapshot(job, intent, kept, w.Now()) && LoneTrace(job, intent, kept, before, w.trace)
    ensures BatchResult(job, intent, kept, error, w.Now()) && KeptStrands(job, kept, error, before, w.trace)
    ensures old(w.trace) <= w.trace && MovesKept(prepared, old(w.trace), w.trace, ResidueOf(error))
    ensures error.Some? ==> Accounts(job, w.disk, error.value) && CauseOf(error.value) in {WalFailed, LandedNotCleared}
  {
    var landed, cleared, k := MarkAndClear(w, id, job, intent, before);
    kept := k;
    ghost var traced := w.trace;
    SameDiskSafe(prepared, w.disk, old(w.trace), traced);
    SafeMovesAreKept(prepared, old(w.trace), traced, []);
    if !landed {
      var e := RollBackBatch(w, intent, AllPaths(prepared), WalFailed, [], job, prepared, |prepared|, kept, before);
      KeptFurther(prepared, old(w.trace), traced, w.trace, [], ResidueOf(Some(e)));
      return Some(e), kept;
    }
    error := if cleared then None else Some(LandedNotCleared);
  }

  lemma {:induction false} PrefixPaths(prepared: seq<Prepared>, k: nat)
    requires k <= |prepared|
    ensures forall p :: p in AllPaths(prepared[..k]) ==> p in AllPaths(prepared)
  {
    if k == |prepared| {
      assert prepared[..k] == prepared;
    } else {
      PrefixPaths(prepared[..|prepared| - 1], k);
      assert prepared[..|prepared| - 1][..k] == prepared[..k];
    }
  }

  /** Why a batch is refused before anything is written. */
  ghost predicate BatchRefused(parse: Commit.Parser, accepts: (Path, Bytes) -> bool, ops: seq<Op>, disk: Disk,
                               error: SessionError) {
    || (error == Usage && (ops == [] || !Paths.DistinctPaths(TouchedBy(ops))))
    || exists k: nat :: FirstRefused(parse, accepts, ops, k, disk, error)
  }

  /**
   * Applies a list of ops as one change: validate all, record once, apply all, mark, clear. A batch
   * that is empty, touches a path twice or fails an anchor writes nothing. `kept` is the marker of a
   * failed mark whose take-back failed too.
   */
  method ApplyBatch(w: World, parse: Commit.Parser, accepts: (Path, Bytes) -> bool, ops: seq<Op>)
    returns (r: Result<seq<OpResult>, SessionError>, ghost job: Job, ghost prepared: seq<Prepared>, ghost kept: bool)
    requires w.Valid()
    modifies w
    ensures w.Valid()
    ensures ops == [] || !Paths.DistinctPaths(TouchedBy(ops)) ==> r == Err(Usage)
    ensures r.Err? ==> || BatchRefused(parse, accepts, ops, old(w.disk), r.error)
                       || (Accounts(job, w.disk, r.error) && CauseOf(r.error) in {Io(""), WalFailed, LandedNotCleared})
    ensures w.Now() != old(w.Now()) || w.trace != old(w.trace) || r.Ok? || kept ==>
              && PreparesAll(parse, accepts, ops, prepared, old(w.disk)) && Ready(prepared, old(w.disk))
              && job == BatchJob(old(w.Now()), job.id, prepared) && job.id !in old(w.wal)
              && LoneTrace(job, UnifiedIntent(job.id, prepared), kept, old(w.trace), w.trace)
              && LoneSnapshot(job, UnifiedIntent(job.id, prepared), kept, w.Now())
              && BatchResult(job, UnifiedIntent(job.id, prepared), kept, ErrorOf(r), w.Now())
              && KeptStrands(job, kept, ErrorOf(r), old(w.trace), w.trace)
              && MovesKept(prepared, old(w.trace), w.trace, ResidueOf(ErrorOf(r)))
    ensures r.Ok? ==> |r.value| == |ops| == |prepared| && ReportsFirst(prepared, r.value)
  {
    prepared := [];
    kept := false;
    job := Job(w.Now(), w.nextId, map[]);
    if ops == [] {
      return Err(Usage), job, prepared, kept;
    }
    var paths := BatchPaths(ops);
    if paths.None? {
      return Err(Usage), job, prepared, kept;
    }
    var id := w.NewIntentId();
    var valid := ValidateBatch(w, id, parse, accepts, ops);
    if valid.Err? {
      return Err(valid.error), job, prepared, kept;
    }
    prepared := valid.value.0;
    SamePaths(parse, accepts, ops, prepared, w.disk);
    forall i | 0 <= i < |prepared| ensures Anchored(prepared[i], w.disk) && Reportable(prepared[i]) {
      assert Prepares(parse, accepts, ops[i], prepared[i], w.disk);
      PreparedReportable(parse, accepts, ops[i], prepared[i], w.disk);
    }
    job := BatchJob(w.Now(), id, prepared);
    r, kept := RunPrepared(w, id, valid.value.0, valid.value.1, job, w.trace);
  }
}
