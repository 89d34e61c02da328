/** Preparing a plan and giving one up: the log is written, the sources never are. */
module Prepare {
  import opened Prelude
  import Paths
  import opened Steps
  import opened Wal
  import opened Worlds
  import opened Undo
  import opened Splice
  import opened Regions
  import opened Commit

  /** The files' bytes, staged edits and the format, lint and parse floor all allow the plan. */
  ghost predicate Stageable(parse: Parser, accepts: (Path, Bytes) -> bool, edits: seq<Edit>, path: Path, live: Bytes) {
    var staged := Stage(parse, path, live, EditsOf(edits, path));
    staged.Ok? && accepts(path, staged.value.out)
  }

  /** Every file the plan edits is there, can be staged, and has its bytes recorded. */
  ghost predicate Prepared(parse: Parser, accepts: (Path, Bytes) -> bool, edits: seq<Edit>, paths: set<Path>,
                           originals: map<Path, Bytes>, disk: Disk) {
    && originals.Keys == paths
    && forall p :: p in paths ==> At(disk, p) == Some(originals[p]) && Stageable(parse, accepts, edits, p, originals[p])
  }

  /** Every edit on the file is found, they splice, and what comes of it is let through. */
  ghost predicate StagesTo(parse: Parser, accepts: (Path, Bytes) -> bool, edits: seq<Edit>, path: Path, live: Bytes,
                           out: Bytes, at: seq<nat>, resolved: seq<FileEdit>) {
    EditsFound(parse, path, live, edits, at, resolved) && Spliced(live, resolved) == Ok(out) && accepts(path, out)
  }

  ghost predicate Stages(parse: Parser, accepts: (Path, Bytes) -> bool, edits: seq<Edit>, path: Path, live: Bytes) {
    exists out, at, resolved :: StagesTo(parse, accepts, edits, path, live, out, at, resolved)
  }

  ghost predicate HasEdit(edits: seq<Edit>, path: Path) {
    exists i :: 0 <= i < |edits| && edits[i].region.path == path
  }

  /** The files that have an edit were there and stage, and their bytes and no others are recorded. */
  ghost predicate EveryFileStaged(parse: Parser, accepts: (Path, Bytes) -> bool, edits: seq<Edit>, disk: Disk,
                                  originals: map<Path, Bytes>) {
    && (forall p :: p in originals <==> HasEdit(edits, p))
    && (forall p :: p in originals ==>
          At(disk, p) == Some(originals[p]) && Stages(parse, accepts, edits, p, originals[p]))
  }

  lemma {:induction false} StageableStages(parse: Parser, accepts: (Path, Bytes) -> bool, edits: seq<Edit>, path: Path,
                                           live: Bytes)
    requires Stageable(parse, accepts, edits, path, live)
    ensures Stages(parse, accepts, edits, path, live)
  {
    var at, resolved := StageMeans(parse, path, live, edits);
    var out := Stage(parse, path, live, EditsOf(edits, path)).value.out;
    assert StagesTo(parse, accepts, edits, path, live, out, at, resolved);
  }

  lemma {:induction false} PathsHaveEdits(edits: seq<Edit>, path: Path)
    ensures path in Commit.PathsOf(edits) <==> HasEdit(edits, path)
  {
    if path in Commit.PathsOf(edits) {
      var e :| e in edits && e.region.path == path;
      var i :| 0 <= i < |edits| && edits[i] == e;
    }
    if i :| 0 <= i < |edits| && edits[i].region.path == path { assert edits[i] in edits; }
  }

  lemma {:induction false} PreparedIsStaged(parse: Parser, accepts: (Path, Bytes) -> bool, edits: seq<Edit>,
                                            originals: map<Path, Bytes>, disk: Disk)
    requires Prepared(parse, accepts, edits, Commit.PathsOf(edits), originals, disk)
    ensures EveryFileStaged(parse, accepts, edits, disk, originals)
  {
    forall p ensures p in originals <==> HasEdit(edits, p) { PathsHaveEdits(edits, p); }
    forall p | p in originals ensures Stages(parse, accepts, edits, p, originals[p]) {
      StageableStages(parse, accepts, edits, p, originals[p]);
    }
  }

  /** The file's bytes are refused although its edits are found and splice. */
  ghost predicate LetsNotThrough(parse: Parser, accepts: (Path, Bytes) -> bool, edits: seq<Edit>, path: Path,
                                 live: Bytes) {
    exists out, at, resolved ::
      EditsFound(parse, path, live, edits, at, resolved) && Spliced(live, resolved) == Ok(out) && !accepts(path, out)
  }

  /** Why a plan is refused: a file that cannot be read, an edit not found, an overlap, or bytes not let through. */
  ghost predicate RefusedFor(parse: Parser, accepts: (Path, Bytes) -> bool, edits: seq<Edit>, disk: Disk,
                             error: SessionError) {
    match error
    case Io(p) => HasEdit(edits, p)
    case Conflict(p) => HasEdit(edits, p) && p in disk && SomeUnfound(parse, p, disk[p], edits)
    case SpliceFailed(p) =>
      && HasEdit(edits, p) && p in disk && !SomeUnfound(parse, p, disk[p], edits)
      && Stage(parse, p, disk[p], EditsOf(edits, p)).Err?
    case Rejected(p) => HasEdit(edits, p) && p in disk && LetsNotThrough(parse, accepts, edits, p, disk[p])
    case _ => false
  }

  /** Reads and stages one file. */
  method StageFile(w: World, parse: Parser, accepts: (Path, Bytes) -> bool, edits: seq<Edit>, path: Path)
    returns (r: Result<Bytes, SessionError>)
    requires HasEdit(edits, path)
    ensures r.Ok? ==> At(w.disk, path) == Some(r.value) && Stageable(parse, accepts, edits, path, r.value)
    ensures r.Err? ==> RefusedFor(parse, accepts, edits, w.disk, r.error)
  {
    var live := w.Read(path);
    if live.Err? || live.value.None? {
      return Err(Io(path));
    }
    r := StageLive(parse, accepts, edits, path, live.value.value);
  }

  /** Stages one file that was read; what cannot be staged is told as it is. */
  method StageLive(parse: Parser, accepts: (Path, Bytes) -> bool, edits: seq<Edit>, path: Path, live: Bytes)
    returns (r: Result<Bytes, SessionError>)
    ensures r.Ok? <==> Stageable(parse, accepts, edits, path, live)
    ensures r.Ok? ==> r.value == live
    ensures r == Err(SessionError.Conflict(path)) <==> SomeUnfound(parse, path, live, edits)
    ensures r == Err(SpliceFailed(path)) <==>
              !SomeUnfound(parse, path, live, edits) && Stage(parse, path, live, EditsOf(edits, path)).Err?
    ensures var stage := Stage(parse, path, live, EditsOf(edits, path));
            r == Err(Rejected(path)) <==> stage.Ok? && !accepts(path, stage.value.out)
    ensures r == Err(Rejected(path)) ==> LetsNotThrough(parse, accepts, edits, path, live)
    ensures r.Err? ==> r.error in {SessionError.Conflict(path), SpliceFailed(path), Rejected(path)}
  {
    ghost var at, found := StageMeans(parse, path, live, edits);
    var staged := Stage(parse, path, live, EditsOf(edits, path));
    if staged.Err? {
      return Err(staged.error);
    }
    if !accepts(path, staged.value.out) {
      return Err(Rejected(path));
    }
    return Ok(live);
  }

  function EmptyIntent(id: IntentId): Intent {
    Intent(id, map[], [], [], [], false, map[])
  }

  /** No snapshot since `before` shows a changed source. */
  ghost predicate SourcesKept(disk: Disk, before: seq<Snapshot>, trace: seq<Snapshot>) {
    before <= trace && forall k :: |before| <= k < |trace| ==> trace[k].disk == disk
  }

  function Elements(paths: seq<Path>): set<Path> {
    set p | p in paths
  }

  lemma {:induction false} OneMoreFile(parse: Parser, accepts: (Path, Bytes) -> bool, edits: seq<Edit>,
                                       paths: set<Path>, originals: map<Path, Bytes>, disk: Disk, path: Path)
    requires Prepared(parse, accepts, edits, paths, originals, disk)
    requires path in disk && Stageable(parse, accepts, edits, path, disk[path])
    ensures Prepared(parse, accepts, edits, paths + {path}, originals[path := disk[path]], disk)
  {
  }

  /** Reads and stages every file, and keeps the bytes it was staged over. */
  method StageAll(w: World, parse: Parser, accepts: (Path, Bytes) -> bool, edits: seq<Edit>)
    returns (r: Result<map<Path, Bytes>, SessionError>)
    ensures r.Ok? ==> Prepared(parse, accepts, edits, Commit.PathsOf(edits), r.value, w.disk)
    ensures r.Err? ==> RefusedFor(parse, accepts, edits, w.disk, r.error)
  {
    var paths := Paths.Sorted(Commit.PathsOf(edits));
    var originals: map<Path, Bytes> := map[];
    for i := 0 to |paths|
      invariant Prepared(parse, accepts, edits, Elements(paths[..i]), originals, w.disk)
    {
      var path := paths[i];
      assert path in paths;
      PathsHaveEdits(edits, path);
      var live := StageFile(w, parse, accepts, edits, path);
      if live.Err? {
        return Err(live.error);
      }
      OneMoreFile(parse, accepts, edits, Elements(paths[..i]), originals, w.disk, path);
      assert paths[..i + 1] == paths[..i] + [path];
      assert Elements(paths[..i + 1]) == Elements(paths[..i]) + {path};
      originals := originals[path := live.value];
    }
    assert paths[..|paths|] == paths;
    assert Elements(paths) == Commit.PathsOf(edits);
    return Ok(originals);
  }

  /**
   * Resolves and stages every file's edits and records one intent. No source is ever written; a plan
   * holds the bytes it was staged over and its record asks recovery for nothing; a failure that left
   * nothing behind left the log as it was.
   */
  method PrepareEdits(w: World, parse: Parser, accepts: (Path, Bytes) -> bool, edits: seq<Edit>)
    returns (r: Result<Plan, SessionError>)
    requires w.Valid()
    modifies w
    ensures w.Valid() && w.disk == old(w.disk) && SourcesKept(old(w.disk), old(w.trace), w.trace)
    ensures r.Ok? ==> && r.value.edits == edits && r.value.intent.id !in old(w.wal)
                      && w.wal == old(w.wal)[r.value.intent.id := Recorded(r.value.intent)]
                      && !HasLifecycleOp(r.value.intent)
                      && Prepared(parse, accepts, edits, Commit.PathsOf(edits), r.value.intent.originals, w.disk)
    ensures r.Ok? ==> IntentSteps(Recorded(r.value.intent), 0) == Ok([])
    ensures r.Ok? ==> EveryFileStaged(parse, accepts, edits, w.disk, r.value.intent.originals)
    ensures r.Err? && CauseOf(r.error) != WalFailed ==>
              && RefusedFor(parse, accepts, edits, w.disk, r.error)
              && w.wal == old(w.wal) && w.trace == old(w.trace)
    ensures r.Err? && !r.error.LeftBehind? ==> w.wal == old(w.wal)
  {
    var staged := StageAll(w, parse, accepts, edits);
    if staged.Err? {
      return Err(staged.error);
    }
    PreparedIsStaged(parse, accepts, edits, staged.value, w.disk);
    var id := w.NewIntentId();
    var intent := EmptyIntent(id).(originals := staged.value);
    var ok := w.Append(intent);
    if !ok {
      var e := Abandon(w, id, WalFailed, []);
      return Err(e);
    }
    return Ok(Plan(intent, edits));
  }

  /**
   * Gives a plan up: its edits are discarded and its own record goes, and neither a source nor another
   * intent is touched. A failed clear is told, with the edits discarded all the same.
   */
  method Rollback(w: World, plan: Plan) returns (left: Plan, error: Option<SessionError>)
    requires w.Valid()
    modifies w`wal, w`trace
    ensures w.Valid() && SourcesKept(w.disk, old(w.trace), w.trace) && left == plan.(edits := [])
    ensures w.wal - {plan.intent.id} == old(w.wal) - {plan.intent.id}
    ensures error.None? ==> plan.intent.id !in w.wal
    ensures error.Some? ==> error.value == WalFailed && (w.wal == old(w.wal) || plan.intent.id !in w.wal)
  {
    left := plan.(edits := []);
    var ok := w.Clear(plan.intent.id);
    error := if ok then None else Some(WalFailed);
  }
}
