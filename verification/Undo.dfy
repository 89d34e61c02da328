/** Session errors, and undoing a failed op step by step. */
module Undo {
  import opened Prelude
  import opened Steps
  import opened Wal
  import opened Worlds
  import opened Jobs

  datatype SessionError =
    | Conflict(path: Path)
    | SpliceFailed(path: Path)
    | Rejected(path: Path)
    | Drift(path: Path)
    | Exists(path: Path)
    | NotFound(path: Path)
    | Usage
    | Io(path: Path)
    | WalFailed
    | LandedNotCleared
    | LeftBehind(cause: SessionError, residue: seq<Residue>)

  /** Something a failed op's undo could not finish. */
  datatype Residue = NotUndone(path: Path) | ChangedSince(path: Path) | IntentNotCleared(id: IntentId)

  function ErrorOf<T>(r: Result<T, SessionError>): Option<SessionError> {
    if r.Ok? then None else Some(r.error)
  }

  function WithResidue(cause: SessionError, residue: seq<Residue>): SessionError {
    if residue == [] then cause else LeftBehind(cause, residue)
  }

  /** What an op failed for, whether or not something was left behind. */
  function CauseOf(error: SessionError): SessionError {
    if error.LeftBehind? then error.cause else error
  }

  /** What an error names as left behind. */
  function ResidueOf(error: Option<SessionError>): seq<Residue> {
    if error.Some? && error.value.LeftBehind? then error.value.residue else []
  }

  /** The list names only the job's own paths and intent, and every path of the job that is not back. */
  ghost predicate AccountsFor(job: Job, disk: Disk, residue: seq<Residue>) {
    && (forall x :: x in residue ==> x == IntentNotCleared(job.id) || (x.NotUndone? && x.path in job.post))
    && (forall p :: p in job.post ==> At(disk, p) == Before(job, p) || NotUndone(p) in residue)
  }

  /** An error that says something was left behind says exactly what. */
  ghost predicate Accounts(job: Job, disk: Disk, error: SessionError) {
    error.LeftBehind? ==> error.residue != [] && AccountsFor(job, disk, error.residue)
  }

  /** Whatever the log still holds of the job is its durable marker. */
  ghost predicate MarkedOrCleared(id: IntentId, wal: Log) {
    id in wal ==> wal[id].status == Landed
  }

  lemma AccountsStill(job: Job, disk: Disk, residue: seq<Residue>)
    requires AccountsFor(job, disk, residue)
    ensures AccountsFor(job, disk, residue + [IntentNotCleared(job.id)])
  {
    forall x | x in residue + [IntentNotCleared(job.id)]
      ensures x == IntentNotCleared(job.id) || (x.NotUndone? && x.path in job.post)
    {
    }
  }

  predicate Unfinished(residue: seq<Residue>) {
    exists i :: 0 <= i < |residue| && residue[i].NotUndone?
  }

  function Reversed(steps: seq<Converge>): seq<Converge> {
    if steps == [] then [] else Reversed(steps[1..]) + [steps[0]]
  }

  lemma {:induction false} ReversedContents(steps: seq<Converge>)
    ensures forall c :: c in Reversed(steps) <==> c in steps
  {
    if steps != [] {
      ReversedContents(steps[1..]);
      assert steps == [steps[0]] + steps[1..];
    }
  }

  // ---- where an undo can be ----

  /** Each of the job's paths holds what it held before or what the job leaves there. */
  ghost predicate Between(job: Job, disk: Disk, path: Path) {
    At(disk, path) == Before(job, path) || (path in job.post && At(disk, path) == job.post[path])
  }

  ghost predicate AllBetween(job: Job, disk: Disk) {
    forall p :: p in job.post ==> Between(job, disk, p)
  }

  /** The steps put the job's own bytes back to what they replaced. */
  ghost predicate UndoesJob(job: Job, steps: seq<Converge>) {
    forall c :: c in steps ==>
      c.path in job.post && c == Converge(c.path, HashOf(job.post[c.path]), Before(job, c.path))
  }

  /** Some of the steps' paths went back, and nothing else moved. */
  ghost predicate PutBackSome(job: Job, steps: seq<Converge>, was: Disk, now: Disk) {
    forall p :: At(now, p) == At(was, p)
                || (At(now, p) == Before(job, p) && Between(job, was, p) && exists c :: c in steps && c.path == p)
  }

  ghost predicate UndoTrace(job: Job, steps: seq<Converge>, start: Snapshot, before: seq<Snapshot>,
                            trace: seq<Snapshot>) {
    && before <= trace
    && forall k :: |before| <= k < |trace| ==>
         trace[k].wal == start.wal && PutBackSome(job, steps, start.disk, trace[k].disk)
  }

  ghost predicate SameBeside(a: Disk, b: Disk, path: Path) {
    forall q :: q != path ==> At(a, q) == At(b, q)
  }

  /** Of two disks, one path at most tells them apart. */
  ghost predicate OneApart(a: Disk, b: Disk) {
    exists path :: SameBeside(a, b, path)
  }

  /** The disk just before snapshot `k` of those that follow the first `n`. */
  ghost function DiskBefore(from: Disk, n: nat, trace: seq<Snapshot>, k: nat): Disk
    requires n <= k <= |trace|
  {
    if k == n then from else trace[k - 1].disk
  }

  /** The snapshots since `before` went from one disk to another, changing one path at a time. */
  ghost predicate OneByOne(from: Disk, before: seq<Snapshot>, trace: seq<Snapshot>, to: Disk) {
    && before <= trace
    && (forall k :: |before| <= k < |trace| ==> OneApart(DiskBefore(from, |before|, trace, k), trace[k].disk))
    && to == DiskBefore(from, |before|, trace, |trace|)
  }

  lemma OneMoreStep(from: Disk, before: seq<Snapshot>, was: seq<Snapshot>, mid: Disk, trace: seq<Snapshot>,
                    now: Snapshot)
    requires OneByOne(from, before, was, mid)
    requires trace == was + [now] || (trace == was && now.disk == mid)
    requires OneApart(mid, now.disk)
    ensures OneByOne(from, before, trace, now.disk)
  {
    forall k | |before| <= k < |trace| ensures OneApart(DiskBefore(from, |before|, trace, k), trace[k].disk) {
      if k < |was| { assert OneApart(DiskBefore(from, |before|, was, k), was[k].disk); }
    }
  }

  /** What an undo of one step finds and leaves: nothing but the job's own change is taken back. */
  ghost predicate StepUndone(job: Job, path: Path, was: Disk, now: Disk, residue: seq<Residue>) {
    if Between(job, was, path) then At(now, path) == Before(job, path) || NotUndone(path) in residue
    else At(now, path) == At(was, path) && (ChangedSince(path) in residue || NotUndone(path) in residue)
  }

  /** Undoes one step: its path goes back, or stays and is named. */
  method UndoOne(w: World, c: Converge, ghost job: Job) returns (residue: seq<Residue>)
    requires UndoesJob(job, [c])
    modifies w`disk, w`trace
    ensures w.disk == old(w.disk)
            || (w.disk == Put(old(w.disk), c.path, Before(job, c.path)) && Between(job, old(w.disk), c.path))
    ensures StepUndone(job, c.path, old(w.disk), w.disk, residue)
    ensures || residue == [] || residue == [NotUndone(c.path)]
            || (residue == [ChangedSince(c.path)] && !Between(job, old(w.disk), c.path))
    ensures w.trace == old(w.trace) || w.trace == old(w.trace) + [w.Now()]
    ensures w.disk != old(w.disk) ==> w.trace == old(w.trace) + [w.Now()]
  {
    assert c in [c];
    residue := [];
    var r := w.ConvergePath(c);
    match r
    case Ok(found) =>
      if found == Foreign {
        residue := [ChangedSince(c.path)];
      }
    case Err(_) =>
      residue := [NotUndone(c.path)];
  }

  /** What is named is a step's path: one whose undo failed, or one that held somebody else's content. */
  ghost predicate Names(job: Job, steps: seq<Converge>, was: Disk, residue: seq<Residue>) {
    forall r :: r in residue ==>
      && !r.IntentNotCleared?
      && (exists c :: c in steps && c.path == r.path)
      && (r.ChangedSince? ==> !Between(job, was, r.path))
  }

  /** While the steps' paths hold only what the job found or left, all that is named is a failed undo. */
  lemma OnlyFailuresNamed(job: Job, steps: seq<Converge>, was: Disk, residue: seq<Residue>)
    requires Names(job, steps, was, residue) && forall c :: c in steps ==> Between(job, was, c.path)
    ensures forall i :: 0 <= i < |residue| ==> residue[i].NotUndone?
    ensures residue == [] || Unfinished(residue)
  {
    forall i | 0 <= i < |residue| ensures residue[i].NotUndone? { assert residue[i] in residue; }
    assert residue != [] ==> residue[0].NotUndone?;
  }

  // ---- the order of an undo, and why no byte of a move is lost on the way ----

  /** The steps from the latest to the earliest, but every restore before every removal. */
  ghost predicate LatestFirst(steps: seq<Converge>, order: seq<Converge>, at: seq<nat>) {
    && |order| == |at| == |steps| && RestoresLead(order)
    && (forall k :: 0 <= k < |at| ==> at[k] < |steps| && order[k] == steps[at[k]])
    && (forall i, j :: 0 <= i < j < |at| && order[i].target.Some? == order[j].target.Some? ==> at[i] > at[j])
  }

  lemma {:induction false} ReversedAt(steps: seq<Converge>)
    ensures |Reversed(steps)| == |steps|
    ensures forall k :: 0 <= k < |steps| ==> Reversed(steps)[k] == steps[|steps| - 1 - k]
  {
    if steps != [] { ReversedAt(steps[1..]); }
  }

  lemma UndoOrderIsLatestFirst(steps: seq<Converge>) returns (at: seq<nat>)
    ensures LatestFirst(steps, RestoresFirst(Reversed(steps)), at)
  {
    ReversedAt(steps);
    var n := |steps|;
    var back := RestoresFirstKeepsOrder(Reversed(steps));
    at := seq(n, k requires 0 <= k < n => n - 1 - back[k]);
  }

  /** What is named are paths of the first `n` steps of the order, in that order. */
  ghost predicate NamedInOrder(order: seq<Converge>, n: nat, residue: seq<Residue>, at: seq<nat>) {
    && Increasing(at) && |at| == |residue| && n <= |order|
    && forall k :: 0 <= k < |at| ==> at[k] < n && !residue[k].IntentNotCleared? && residue[k].path == order[at[k]].path
  }

  /** What an undo names, it names in the order it took the steps in. */
  ghost predicate ReportsInOrder(steps: seq<Converge>, residue: seq<Residue>) {
    exists order, at, named :: LatestFirst(steps, order, at) && NamedInOrder(order, |order|, residue, named)
  }

  /** The steps take a move back: its source is restored and its destination removed. */
  ghost predicate TakesBack(steps: seq<Converge>, from: Path, to: Path, live: Bytes) {
    && from != to
    && Converge(from, None, Some(live)) in steps && Converge(to, Some(RawHash(live)), None) in steps
  }

  /**
   * The bytes of every move that is taken back are whole at one of its two paths at every step, unless
   * the restore of its source failed and is named: the undo then still removes the destination.
   */
  ghost predicate BytesKept(job: Job, steps: seq<Converge>, start: Disk, now: Disk, before: seq<Snapshot>,
                            trace: seq<Snapshot>, residue: seq<Residue>) {
    forall from, to, live :: TakesBack(steps, from, to, live) ==>
      BytesOfMoveKept(job, start, now, before, trace, residue, from, to, live)
  }

  ghost predicate BytesOfMoveKept(job: Job, start: Disk, now: Disk, before: seq<Snapshot>, trace: seq<Snapshot>,
                                  residue: seq<Residue>, from: Path, to: Path, live: Bytes) {
    Between(job, start, from) && Safe(start, from, to, live) && NotUndone(from) !in residue ==>
      SafeSince(before, trace, from, to, live) && Safe(now, from, to, live)
  }

  lemma BytesKeptOneMore(job: Job, steps: seq<Converge>, order: seq<Converge>, i: nat, start: Disk, was: Disk,
                         now: Disk, before: seq<Snapshot>, traced: seq<Snapshot>, trace: seq<Snapshot>, wal: Log,
                         residue: seq<Residue>, left: seq<Residue>)
    requires UndoesJob(job, steps) && RestoresLead(order) && (forall c :: c in order <==> c in steps) && i < |order|
    requires BytesKept(job, steps, start, was, before, traced, residue)
    requires now == was || now == Put(was, order[i].path, Before(job, order[i].path))
    requires trace == traced || trace == traced + [Snapshot(now, wal)]
    requires forall k :: 0 <= k < i ==> StepUndone(job, order[k].path, start, was, residue)
    ensures BytesKept(job, steps, start, now, before, trace, residue + left)
  {
    forall from, to, live | TakesBack(steps, from, to, live)
      ensures BytesOfMoveKept(job, start, now, before, trace, residue + left, from, to, live)
    {
      if Between(job, start, from) && Safe(start, from, to, live) && NotUndone(from) !in residue + left {
        assert BytesOfMoveKept(job, start, was, before, traced, residue, from, to, live);
        StepKeepsBytes(job, steps, order, i, start, was, now, residue, from, to, live);
      }
    }
  }

  lemma StepKeepsBytes(job: Job, steps: seq<Converge>, order: seq<Converge>, i: nat, start: Disk, was: Disk, now: Disk,
                       residue: seq<Residue>, from: Path, to: Path, live: Bytes)
    requires UndoesJob(job, steps) && RestoresLead(order) && (forall c :: c in order <==> c in steps) && i < |order|
    requires TakesBack(steps, from, to, live) && Between(job, start, from) && NotUndone(from) !in residue
    requires now == was || now == Put(was, order[i].path, Before(job, order[i].path))
    requires forall k :: 0 <= k < i ==> StepUndone(job, order[k].path, start, was, residue)
    requires Safe(was, from, to, live)
    ensures Safe(now, from, to, live)
  {
    assert order[i] in steps;
    if order[i].path == to {
      var j :| 0 <= j < |order| && order[j] == Converge(from, None, Some(live));
      assert order[i].target.None? && j < i;
      assert StepUndone(job, order[j].path, start, was, residue);
    }
  }

  /**
   * Undoes the steps, latest first and restores before removals, one path after another. A path that
   * holds what the job found or left there is put back unless its undo failed and is named; any other
   * was changed by somebody else since, and is left as found and named.
   */
  method UndoHeld(w: World, steps: seq<Converge>, ghost job: Job) returns (residue: seq<Residue>)
    requires UndoesJob(job, steps)
    modifies w`disk, w`trace
    ensures PutBackSome(job, steps, old(w.disk), w.disk)
    ensures UndoTrace(job, steps, old(w.Now()), old(w.trace), w.trace)
    ensures OneByOne(old(w.disk), old(w.trace), w.trace, w.disk)
    ensures Names(job, steps, old(w.disk), residue) && ReportsInOrder(steps, residue)
    ensures forall c :: c in steps ==> StepUndone(job, c.path, old(w.disk), w.disk, residue)
    ensures BytesKept(job, steps, old(w.disk), w.disk, old(w.trace), w.trace, residue)
  {
    var order := RestoresFirst(Reversed(steps));
    RestoresFirstContents(Reversed(steps));
    ReversedContents(steps);
    ghost var at := UndoOrderIsLatestFirst(steps);
    ghost var named: seq<nat> := [];
    residue := [];
    for i := 0 to |order|
      invariant Undoing(job, steps, order, i, old(w.Now()), w.Now(), old(w.trace), w.trace, residue, named)
    {
      ghost var was, traced := w.Now(), w.trace;
      assert order[i] in steps;
      var left := UndoOne(w, order[i], job);
      UndoneNext(job, steps, order, i, old(w.Now()), was, w.Now(), old(w.trace), traced, w.trace, residue, left, named);
      if left != [] { named := named + [i]; }
      residue := residue + left;
    }
    assert ReportsInOrder(steps, residue);
    forall c | c in steps ensures StepUndone(job, c.path, old(w.disk), w.disk, residue) {
      var k :| 0 <= k < |order| && order[k] == c;
    }
  }

  /** What an undo keeps while it has taken the first `i` steps of its order. */
  ghost predicate Undoing(job: Job, steps: seq<Converge>, order: seq<Converge>, i: nat, start: Snapshot, now: Snapshot,
                          before: seq<Snapshot>, trace: seq<Snapshot>, residue: seq<Residue>, named: seq<nat>) {
    && i <= |order| && PutBackSome(job, steps, start.disk, now.disk) && UndoTrace(job, steps, start, before, trace)
    && OneByOne(start.disk, before, trace, now.disk) && now.wal == start.wal
    && Names(job, steps, start.disk, residue) && NamedInOrder(order, i, residue, named)
    && (forall k :: 0 <= k < i ==> StepUndone(job, order[k].path, start.disk, now.disk, residue))
    && BytesKept(job, steps, start.disk, now.disk, before, trace, residue)
  }

  lemma UndoneNext(job: Job, steps: seq<Converge>, order: seq<Converge>, i: nat, start: Snapshot, was: Snapshot,
                   now: Snapshot, before: seq<Snapshot>, traced: seq<Snapshot>, trace: seq<Snapshot>,
                   residue: seq<Residue>, left: seq<Residue>, named: seq<nat>)
    requires UndoesJob(job, steps) && RestoresLead(order) && (forall c :: c in order <==> c in steps) && i < |order|
    requires Undoing(job, steps, order, i, start, was, before, traced, residue, named)
    requires || now == was
             || (now == Snapshot(Put(was.disk, order[i].path, Before(job, order[i].path)), was.wal)
                 && Between(job, was.disk, order[i].path))
    requires trace == traced + [now] || (trace == traced && now == was)
    requires StepUndone(job, order[i].path, was.disk, now.disk, left)
    requires || left == [] || left == [NotUndone(order[i].path)]
             || (left == [ChangedSince(order[i].path)] && !Between(job, was.disk, order[i].path))
    ensures Undoing(job, steps, order, i + 1, start, now, before, trace, residue + left,
                    if left == [] then named else named + [i])
  {
    assert order[i] in steps;
    assert SameBeside(was.disk, now.disk, order[i].path);
    OneMoreStep(start.disk, before, traced, was.disk, trace, now);
    BytesKeptOneMore(job, steps, order, i, start.disk, was.disk, now.disk, before, traced, trace, now.wal, residue,
                     left);
    UndoneOneMore(job, steps, order, i, start.disk, was.disk, now.disk, residue, left);
    TraceOneMore(job, steps, start, before, traced, trace, now);
    NamedOneMore(order, i, residue, left, named);
  }

  lemma TraceOneMore(job: Job, steps: seq<Converge>, start: Snapshot, before: seq<Snapshot>, traced: seq<Snapshot>,
                     trace: seq<Snapshot>, now: Snapshot)
    requires UndoTrace(job, steps, start, before, traced) && (trace == traced + [now] || trace == traced)
    requires now.wal == start.wal && PutBackSome(job, steps, start.disk, now.disk)
    ensures UndoTrace(job, steps, start, before, trace)
  {
  }

  lemma NamedOneMore(order: seq<Converge>, i: nat, residue: seq<Residue>, left: seq<Residue>, named: seq<nat>)
    requires i < |order| && NamedInOrder(order, i, residue, named)
    requires left == [] || (|left| == 1 && !left[0].IntentNotCleared? && left[0].path == order[i].path)
    ensures NamedInOrder(order, i + 1, residue + left, if left == [] then named else named + [i])
  {
    if left == [] {
      assert residue + left == residue;
    } else {
      var all, at := residue + left, named + [i];
      forall k | 0 <= k < |at|
        ensures at[k] < i + 1 && !all[k].IntentNotCleared? && all[k].path == order[at[k]].path
      {
        if k < |named| { assert at[k] == named[k] && all[k] == residue[k]; }
      }
      assert Increasing(at);
    }
  }

  lemma UndoneOneMore(job: Job, steps: seq<Converge>, order: seq<Converge>, i: nat, start: Disk, was: Disk, now: Disk,
                      residue: seq<Residue>, left: seq<Residue>)
    requires UndoesJob(job, steps) && i < |order| && order[i] in steps
    requires PutBackSome(job, steps, start, was) && Names(job, steps, start, residue)
    requires now == was
             || (now == Put(was, order[i].path, Before(job, order[i].path)) && Between(job, was, order[i].path))
    requires StepUndone(job, order[i].path, was, now, left)
    requires || left == [] || left == [NotUndone(order[i].path)]
             || (left == [ChangedSince(order[i].path)] && !Between(job, was, order[i].path))
    requires forall k :: 0 <= k < i ==> StepUndone(job, order[k].path, start, was, residue)
    ensures PutBackSome(job, steps, start, now) && Names(job, steps, start, residue + left)
    ensures forall k :: 0 <= k <= i ==> StepUndone(job, order[k].path, start, now, residue + left)
  {
    assert Between(job, was, order[i].path) ==> Between(job, start, order[i].path);
    assert Between(job, start, order[i].path) ==> Between(job, was, order[i].path);
  }

  // ---- an undo under a marker that stayed ----

  /** A durable marker over a change that is half taken back: recovery will keep both halves. */
  ghost predicate Stranded(job: Job, s: Snapshot) {
    job.id in s.wal && s.wal[job.id].status == Landed && Halfway(job, s.disk)
  }

  ghost predicate StrandedIn(job: Job, before: seq<Snapshot>, trace: seq<Snapshot>) {
    exists k :: |before| <= k < |trace| && Stranded(job, trace[k])
  }

  ghost predicate Changes(job: Job, path: Path) {
    path in job.post && job.post[path] != Before(job, path)
  }

  ghost predicate ChangesTwo(job: Job) {
    exists p, q :: p != q && Changes(job, p) && Changes(job, q)
  }

  lemma BackButOne(job: Job, was: Disk, now: Disk)
    requires AllBefore(job, now) && OneApart(was, now) && ChangesTwo(job)
    ensures !AllAfter(job, was)
  {
    var path :| SameBeside(was, now, path);
    var p, q :| p != q && Changes(job, p) && Changes(job, q);
    if p != path {
      assert At(now, p) == At(was, p);
    } else {
      assert At(now, q) == At(was, q);
    }
  }

  lemma AfterIsNotBefore(job: Job, disk: Disk)
    requires AllAfter(job, disk) && ChangesTwo(job)
    ensures !AllBefore(job, disk)
  {
    var p, q :| p != q && Changes(job, p) && Changes(job, q);
    assert At(disk, p) == job.post[p];
  }

  ghost predicate Halfway(job: Job, disk: Disk) {
    !AllBefore(job, disk) && !AllAfter(job, disk)
  }

  /** A change of two paths that is taken back one path at a time is half taken back in between. */
  lemma {:induction false} HalfwaySomewhere(job: Job, from: Disk, n: nat, trace: seq<Snapshot>, m: nat) returns (k: nat)
    requires n <= m <= |trace| && ChangesTwo(job)
    requires forall i :: n <= i < m ==> OneApart(DiskBefore(from, n, trace, i), trace[i].disk)
    requires AllAfter(job, from) && AllBefore(job, DiskBefore(from, n, trace, m))
    ensures n <= k < m && Halfway(job, trace[k].disk)
    decreases m
  {
    AfterIsNotBefore(job, from);
    var earlier := DiskBefore(from, n, trace, m - 1);
    BackButOne(job, earlier, trace[m - 1].disk);
    if AllBefore(job, earlier) {
      k := HalfwaySomewhere(job, from, n, trace, m - 1);
    } else {
      k := m - 2;
    }
  }

  /** An undo of two changed paths that goes through under a durable marker leaves a half state on the way. */
  lemma UndoStrands(job: Job, steps: seq<Converge>, s: Snapshot, before: seq<Snapshot>, was: seq<Snapshot>,
                    trace: seq<Snapshot>, to: Disk)
    requires job.id in s.wal && s.wal[job.id].status == Landed && before <= was
    requires UndoTrace(job, steps, s, was, trace) && OneByOne(s.disk, was, trace, to)
    requires AllAfter(job, s.disk) && AllBefore(job, to) && ChangesTwo(job)
    ensures StrandedIn(job, before, trace)
  {
    var k := HalfwaySomewhere(job, s.disk, |was|, trace, |trace|);
    assert Stranded(job, trace[k]);
  }

  lemma StrandedStill(job: Job, before: seq<Snapshot>, was: seq<Snapshot>, trace: seq<Snapshot>)
    requires StrandedIn(job, before, was) && was <= trace
    ensures StrandedIn(job, before, trace)
  {
    var k :| |before| <= k < |was| && Stranded(job, was[k]);
    assert Stranded(job, trace[k]);
  }

  /**
   * Finishes a failed op whose intent may be recorded. While an undo is unfinished the intent is
   * kept; otherwise it is cleared.
   */
  method Abandon(w: World, id: IntentId, cause: SessionError, residue: seq<Residue>) returns (e: SessionError)
    modifies w`wal, w`trace
    ensures Unfinished(residue) ==> w.wal == old(w.wal) && w.trace == old(w.trace) && e == LeftBehind(cause, residue)
    ensures !Unfinished(residue) ==>
              && (w.wal == old(w.wal) || w.wal == old(w.wal) - {id})
              && w.trace == old(w.trace) + [w.Now()]
              && ((e == WithResidue(cause, residue) && w.wal == old(w.wal) - {id})
                  || e == LeftBehind(cause, residue + [IntentNotCleared(id)]))
    ensures !cause.LeftBehind? ==> CauseOf(e) == cause
  {
    if Unfinished(residue) {
      return WithResidue(cause, residue);
    }
    var ok := w.Clear(id);
    if ok {
      return WithResidue(cause, residue);
    }
    return WithResidue(cause, residue + [IntentNotCleared(id)]);
  }
}
