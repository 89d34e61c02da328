/** What the caller of each operation finds on disk, said of the files themselves. */
module Outcomes {
  import opened Prelude
  import opened Steps
  import opened Wal
  import opened Worlds
  import opened Jobs
  import Commit
  import Lifecycle
  import Batch
  import BatchRun
  import Paths
  import Regions
  import Splice

  lemma SameContents(a: Disk, b: Disk)
    requires forall p :: At(a, p) == At(b, p)
    ensures a == b
  {
    forall p ensures p in a <==> p in b { assert At(a, p) == At(b, p); }
    forall p | p in a ensures a[p] == b[p] { assert At(a, p) == At(b, p); }
  }

  /** An op that was taken back and left nothing of itself in the log has changed neither the disk nor the log. */
  lemma TakenBackIsAsFound(job: Job, s: Snapshot)
    requires OthersKept(job, s) && AllBefore(job, s.disk)
    ensures s.disk == job.start.disk
    ensures job.id !in s.wal && job.id !in job.start.wal ==> s == job.start
  {
    SameContents(s.disk, job.start.disk);
    if job.id !in s.wal && job.id !in job.start.wal {
      assert s.wal - {job.id} == s.wal && job.start.wal - {job.id} == job.start.wal;
    }
  }

  /** A create that went through has put the content at the path, and changed nothing else. */
  lemma CreateLeaves(start: Snapshot, id: IntentId, path: Path, content: Bytes, s: Snapshot)
    requires OthersKept(Lifecycle.CreateJob(start, id, path, content), s)
    requires AllAfter(Lifecycle.CreateJob(start, id, path, content), s.disk)
    ensures s.disk == start.disk[path := content]
  {
    var job := Lifecycle.CreateJob(start, id, path, content);
    forall p ensures At(s.disk, p) == At(start.disk[path := content], p) {
      if p in job.post { assert p == path && At(s.disk, p) == job.post[p]; }
    }
    SameContents(s.disk, start.disk[path := content]);
  }

  /** A delete that went through has removed the path, and changed nothing else. */
  lemma DeleteLeaves(start: Snapshot, id: IntentId, path: Path, s: Snapshot)
    requires OthersKept(Lifecycle.DeleteJob(start, id, path), s)
    requires AllAfter(Lifecycle.DeleteJob(start, id, path), s.disk)
    ensures s.disk == start.disk - {path}
  {
    var job := Lifecycle.DeleteJob(start, id, path);
    forall p ensures At(s.disk, p) == At(start.disk - {path}, p) {
      if p in job.post { assert p == path && At(s.disk, p) == job.post[p]; }
    }
    SameContents(s.disk, start.disk - {path});
  }

  /** A move that went through has the source's content at the destination and the source gone. */
  lemma MoveLeaves(job: Job, from: Path, to: Path, live: Bytes, s: Snapshot)
    requires from != to && Lifecycle.MoveResult(job, from, to, live, None, s)
    ensures s.disk == job.start.disk[to := live] - {from} && s.wal == job.start.wal
  {
    SameContents(s.disk, job.start.disk[to := live] - {from});
  }

  // ---- batches ----

  /** The op has been carried out. */
  ghost predicate OpDone(parse: Commit.Parser, op: Batch.Op, was: Disk, now: Disk) {
    match op
    case OpCreate(path, content) => path !in was && path in now && now[path] == content
    case OpDelete(path, seen) => path in was && RawHash(was[path]) == seen && path !in now
    case OpMove(from, to, seen) =>
      && from in was && to !in was && RawHash(was[from]) == seen
      && from !in now && to in now && now[to] == was[from]
    case OpEdit(e) =>
      && e.region.path in was && e.region.path in now
      && IsEdited(parse, e, was[e.region.path], now[e.region.path])
  }

  /** The region was found in the old bytes, and the text stands in its place in the new ones. */
  ghost predicate IsEdited(parse: Commit.Parser, e: Regions.Edit, was: Bytes, now: Bytes) {
    exists at: Regions.Located ::
      && Regions.Resolve(parse(e.region.path, was), was, e.region) == Ok(at) && at.start <= at.end <= |was|
      && now == was[..at.start] + e.newText + was[at.end..]
  }

  /** Every op has been carried out, and the files that none of them names are as they were. */
  ghost predicate BatchDone(parse: Commit.Parser, ops: seq<Batch.Op>, was: Disk, now: Disk) {
    && (forall i :: 0 <= i < |ops| ==> OpDone(parse, ops[i], was, now))
    && forall p :: !Named(ops, p) ==> At(now, p) == At(was, p)
  }

  ghost predicate Named(ops: seq<Batch.Op>, path: Path) {
    exists i :: 0 <= i < |ops| && Names(ops[i], path)
  }

  ghost predicate Names(op: Batch.Op, path: Path) {
    match op
    case OpCreate(p, _) => path == p
    case OpDelete(p, _) => path == p
    case OpMove(from, to, _) => path == from || path == to
    case OpEdit(e) => path == e.region.path
  }

  lemma {:induction false} OneEditSplices(live: Bytes, e: Splice.FileEdit, out: Bytes)
    requires Splice.Spliced(live, [e]) == Ok(out)
    ensures e.start <= e.end <= |live| && out == live[..e.start] + e.text + live[e.end..]
  {
    assert Splice.SortDescending([e]) == [e] by { assert [e][1..] == [] && Splice.SortDescending([]) == []; }
    assert [e][1..] == [];
    assert forall b: Bytes :: Splice.ApplyAll(b, []) == Ok(b);
  }

  lemma {:induction false} EditIsDone(parse: Commit.Parser, e: Regions.Edit, live: Bytes, staged: Commit.Staged)
    requires Commit.Stage(parse, e.region.path, live, [e]) == Ok(staged)
    ensures IsEdited(parse, e, live, staged.out)
  {
    var tree := parse(e.region.path, live);
    Regions.ResolveEditsEach(tree, live, [e]);
    var f := staged.resolved[0];
    assert Regions.EditResolves(tree, live, [e][0], f) && staged.resolved == [f];
    OneEditSplices(live, f, staged.out);
  }

  lemma {:induction false} PreparedOpDone(parse: Commit.Parser, accepts: (Path, Bytes) -> bool, op: Batch.Op,
                                          p: Batch.Prepared, was: Disk, now: Disk)
    requires BatchRun.Prepares(parse, accepts, op, p, was)
    requires forall path :: path in Batch.PathsOf(p) ==>
               path in Batch.PostOne(p) && At(now, path) == Batch.PostOne(p)[path]
    requires p.Move? ==> p.from != p.to
    ensures OpDone(parse, op, was, now)
  {
    var paths := Batch.OpPaths(op);
    assert paths[0] in Batch.PathsOf(p) && Batch.PathsOf(p)[0] == paths[0];
    if op.OpMove? { assert paths[1] in Batch.PathsOf(p) && Batch.PathsOf(p)[1] == paths[1]; }
    if op.OpEdit? { EditIsDone(parse, op.edit, p.live, Commit.Staged(p.resolved, p.spliced)); }
  }

  /** A batch that went through has carried out every op, and changed nothing else. */
  lemma {:induction false} BatchLeaves(parse: Commit.Parser, accepts: (Path, Bytes) -> bool, ops: seq<Batch.Op>,
                                       prepared: seq<Batch.Prepared>, start: Snapshot, id: IntentId, s: Snapshot)
    requires BatchRun.PreparesAll(parse, accepts, ops, prepared, start.disk) && Batch.Ready(prepared, start.disk)
    requires OthersKept(Batch.BatchJob(start, id, prepared), s) && AllAfter(Batch.BatchJob(start, id, prepared), s.disk)
    ensures BatchDone(parse, ops, start.disk, s.disk)
  {
    forall i | 0 <= i < |ops| ensures OpDone(parse, ops[i], start.disk, s.disk) {
      forall path | path in Batch.PathsOf(prepared[i])
        ensures path in Batch.PostOne(prepared[i]) && At(s.disk, path) == Batch.PostOne(prepared[i])[path]
      {
        Batch.PostIsStable(prepared, start.disk, i, path);
      }
      if prepared[i].Move? { Batch.MovePaths(prepared, start.disk, i); }
      PreparedOpDone(parse, accepts, ops[i], prepared[i], start.disk, s.disk);
    }
    forall p | !Named(ops, p) ensures At(s.disk, p) == At(start.disk, p) {
      if p in Batch.PostAll(prepared) {
        Batch.AppliedContents(prepared, start.disk, p);
        BatchRun.SamePaths(parse, accepts, ops, prepared, start.disk);
        TouchedIsNamed(ops, p);
      }
    }
  }

  lemma {:induction false} TouchedIsNamed(ops: seq<Batch.Op>, path: Path)
    requires path in BatchRun.TouchedBy(ops)
    ensures Named(ops, path)
  {
    var n := |ops| - 1;
    if path in BatchRun.TouchedBy(ops[..n]) {
      TouchedIsNamed(ops[..n], path);
      var i :| 0 <= i < n && Names(ops[..n][i], path);
      assert Names(ops[i], path);
    } else {
      assert Names(ops[n], path);
    }
  }
}
