/**
 * Any number of ops running at once: every op takes its per-path locks in the one path order, reads
 * and writes a path only while it holds that path's lock, and releases them together.
 */
module Locks {
  import opened Prelude
  import opened Paths

  /** One op: the lock lists it still has to take, one after another, and how far it is with the first. */
  datatype Thread = Thread(todo: seq<seq<Path>>, held: nat, seen: map<Path, Option<Bytes>>)

  /** One write that was made: what the writer had read under its lock, and what it left. */
  datatype Write = Write(path: Path, was: Option<Bytes>, now: Option<Bytes>)

  datatype Session = Session(threads: seq<Thread>, disk: Disk, history: seq<Write>)

  /** The lock list of an op over several paths: sorted, each path once. */
  method LockList(paths: seq<Path>) returns (locks: seq<Path>)
    ensures [locks] == Program(Together(paths))
    ensures Ascending(locks) && forall p :: p in locks <==> p in paths
  {
    locks := SortDedup(paths);
    AscendingIsUnique(locks, Sorted(set p | p in paths));
  }

  predicate Unfinished(t: Thread) {
    t.todo != []
  }

  function Holds(t: Thread): seq<Path> {
    if t.todo == [] || t.held > |t.todo[0]| then [] else t.todo[0][..t.held]
  }

  predicate Waiting(t: Thread) {
    Unfinished(t) && t.held < |t.todo[0]|
  }

  ghost predicate Free(s: Session, p: Path) {
    forall i :: 0 <= i < |s.threads| ==> p !in Holds(s.threads[i])
  }

  // ---- steps ----

  ghost predicate CanAcquire(s: Session, i: nat) {
    i < |s.threads| && Waiting(s.threads[i]) && Free(s, s.threads[i].todo[0][s.threads[i].held])
  }

  /** With every lock of its list, an op can work and then let go of all of them. */
  ghost predicate CanWork(s: Session, i: nat) {
    i < |s.threads| && Unfinished(s.threads[i]) && s.threads[i].held == |s.threads[i].todo[0]|
  }

  ghost function Acquire(s: Session, i: nat): Session
    requires CanAcquire(s, i)
  {
    s.(threads := s.threads[i := s.threads[i].(held := s.threads[i].held + 1)])
  }

  ghost function Release(s: Session, i: nat): Session
    requires CanWork(s, i)
  {
    s.(threads := s.threads[i := Thread(s.threads[i].todo[1..], 0, map[])])
  }

  ghost function ReadUnderLock(s: Session, i: nat, p: Path): Session
    requires CanWork(s, i) && p in s.threads[i].todo[0]
  {
    s.(threads := s.threads[i := s.threads[i].(seen := s.threads[i].seen[p := At(s.disk, p)])])
  }

  ghost function WriteUnderLock(s: Session, i: nat, p: Path, content: Option<Bytes>): Session
    requires CanWork(s, i) && p in s.threads[i].seen
  {
    var t := s.threads[i];
    Session(s.threads[i := t.(seen := t.seen[p := content])],
            Put(s.disk, p, content),
            s.history + [Write(p, t.seen[p], content)])
  }

  ghost predicate Next(s: Session, s': Session) {
    || (exists i :: CanAcquire(s, i) && s' == Acquire(s, i))
    || (exists i :: CanWork(s, i) && s' == Release(s, i))
    || (exists i: nat, p :: CanWork(s, i) && p in s.threads[i].todo[0] && s' == ReadUnderLock(s, i, p))
    || (exists i: nat, p, content :: CanWork(s, i) && p in s.threads[i].seen && s' == WriteUnderLock(s, i, p, content))
  }

  /**
   * What an op locks: a commit with its undo, a create and a delete one path at a time; a move and a
   * batch all their paths together.
   */
  datatype Op = OneAtATime(paths: seq<Path>) | Together(paths: seq<Path>)

  ghost function Program(op: Op): seq<seq<Path>> {
    match op
    case OneAtATime(paths) => seq(|paths|, i requires 0 <= i < |paths| => [paths[i]])
    case Together(paths) => [Sorted(set p | p in paths)]
  }

  ghost function Start(disk: Disk, ops: seq<Op>): Session {
    Session(seq(|ops|, i requires 0 <= i < |ops| => Thread(Program(ops[i]), 0, map[])), disk, [])
  }

  /** Every op is about to start. */
  ghost predicate Initial(s: Session) {
    exists ops :: s == Start(s.disk, ops)
  }

  lemma StartsInOrder(s: Session, i: nat)
    requires Initial(s) && i < |s.threads|
    ensures s.threads[i].held == 0 && s.threads[i].seen == map[] && ListsInOrder(s.threads[i])
  {
    var ops :| s == Start(s.disk, ops);
    assert s.threads[i].todo == Program(ops[i]);
  }

  ghost predicate ListsInOrder(t: Thread) {
    forall k :: 0 <= k < |t.todo| ==> Ascending(t.todo[k])
  }

  ghost predicate IsRun(run: seq<Session>) {
    run != [] && Initial(run[0]) && forall k :: 0 < k < |run| ==> Next(run[k - 1], run[k])
  }

  // ---- what every step keeps ----

  ghost predicate ThreadOk(s: Session, i: nat)
    requires i < |s.threads|
  {
    var t := s.threads[i];
    && ListsInOrder(t)
    && (t.todo == [] ==> t.held == 0)
    && (t.todo != [] ==> t.held <= |t.todo[0]|)
    && (forall p :: p in t.seen ==> p in Holds(t) && t.seen[p] == At(s.disk, p))
  }

  ghost predicate Exclusive(s: Session) {
    forall i, j, p :: 0 <= i < |s.threads| && 0 <= j < |s.threads| && i != j && p in Holds(s.threads[i]) ==>
      p !in Holds(s.threads[j])
  }

  /** The writes of one path, each starting from what the one before left. */
  ghost predicate Chained(start: Disk, history: seq<Write>, disk: Disk) {
    forall p :: At(disk, p) == ContentAfter(start, history, p) && ChainedOn(start, history, p)
  }

  ghost function ContentAfter(start: Disk, history: seq<Write>, p: Path): Option<Bytes> {
    if history == [] then At(start, p)
    else
      var last := history[|history| - 1];
      if last.path == p then last.now else ContentAfter(start, history[..|history| - 1], p)
  }

  ghost predicate ChainedOn(start: Disk, history: seq<Write>, p: Path) {
    forall k :: 0 <= k < |history| && history[k].path == p ==> history[k].was == ContentAfter(start, history[..k], p)
  }

  ghost predicate Invariant(start: Disk, s: Session) {
    && (forall i :: 0 <= i < |s.threads| ==> ThreadOk(s, i))
    && Exclusive(s) && Chained(start, s.history, s.disk)
  }

  lemma AcquireKeeps(start: Disk, s: Session, i: nat)
    requires Invariant(start, s) && CanAcquire(s, i)
    ensures Invariant(start, Acquire(s, i))
  {
    var s', t := Acquire(s, i), s.threads[i];
    assert Holds(s'.threads[i]) == Holds(t) + [t.todo[0][t.held]];
    forall j | 0 <= j < |s'.threads| ensures ThreadOk(s', j) { assert ThreadOk(s, j); }
    assert forall j :: 0 <= j < |s.threads| && j != i ==> s'.threads[j] == s.threads[j];
  }

  lemma ReleaseKeeps(start: Disk, s: Session, i: nat)
    requires Invariant(start, s) && CanWork(s, i)
    ensures Invariant(start, Release(s, i))
  {
    var s' := Release(s, i);
    assert ThreadOk(s, i);
    assert Holds(s'.threads[i]) == [];
    forall j | 0 <= j < |s'.threads| ensures ThreadOk(s', j) { assert ThreadOk(s, j); }
    assert forall j :: 0 <= j < |s.threads| && j != i ==> s'.threads[j] == s.threads[j];
  }

  lemma ReadKeeps(start: Disk, s: Session, i: nat, p: Path)
    requires Invariant(start, s) && CanWork(s, i) && p in s.threads[i].todo[0]
    ensures Invariant(start, ReadUnderLock(s, i, p))
  {
    var s' := ReadUnderLock(s, i, p);
    assert ThreadOk(s, i);
    assert Holds(s.threads[i]) == s.threads[i].todo[0];
    forall j | 0 <= j < |s'.threads| ensures ThreadOk(s', j) && Holds(s'.threads[j]) == Holds(s.threads[j]) {
      assert ThreadOk(s, j);
    }
  }

  /** One more write of a path starts where the one before it ended. */
  lemma WriteChains(start: Disk, history: seq<Write>, disk: Disk, w: Write)
    requires Chained(start, history, disk) && w.was == At(disk, w.path)
    ensures Chained(start, history + [w], Put(disk, w.path, w.now))
  {
    forall q
      ensures At(Put(disk, w.path, w.now), q) == ContentAfter(start, history + [w], q)
      ensures ChainedOn(start, history + [w], q)
    {
      assert At(disk, q) == ContentAfter(start, history, q) && ChainedOn(start, history, q);
      ContentAfterMore(start, history, w, q);
      WriteChainsOn(start, history, w, q);
    }
  }

  lemma PrefixOfMore(history: seq<Write>, w: Write, k: nat)
    requires k <= |history|
    ensures (history + [w])[..k] == history[..k] && history[..|history|] == history
    ensures k < |history| ==> (history + [w])[k] == history[k]
  {
  }

  lemma ContentAfterMore(start: Disk, history: seq<Write>, w: Write, q: Path)
    ensures ContentAfter(start, history + [w], q) == if w.path == q then w.now else ContentAfter(start, history, q)
  {
    PrefixOfMore(history, w, |history|);
  }

  lemma {:induction false} WriteChainsOn(start: Disk, history: seq<Write>, w: Write, q: Path)
    requires ChainedOn(start, history, q) && (w.path == q ==> w.was == ContentAfter(start, history, q))
    ensures ChainedOn(start, history + [w], q)
  {
    var more := history + [w];
    forall k | 0 <= k < |more| && more[k].path == q ensures more[k].was == ContentAfter(start, more[..k], q) {
      PrefixOfMore(history, w, k);
    }
  }

  lemma WriteKeeps(start: Disk, s: Session, i: nat, p: Path, content: Option<Bytes>)
    requires Invariant(start, s) && CanWork(s, i) && p in s.threads[i].seen
    ensures Invariant(start, WriteUnderLock(s, i, p, content))
  {
    var s' := WriteUnderLock(s, i, p, content);
    assert ThreadOk(s, i);
    forall j | 0 <= j < |s'.threads| ensures ThreadOk(s', j) && Holds(s'.threads[j]) == Holds(s.threads[j]) {
      assert ThreadOk(s, j);
      if j != i { assert p !in Holds(s.threads[j]); }
    }
    WriteChains(start, s.history, s.disk, Write(p, s.threads[i].seen[p], content));
  }

  lemma InitialKeeps(s: Session)
    requires Initial(s)
    ensures Invariant(s.disk, s)
  {
    forall i | 0 <= i < |s.threads| ensures ThreadOk(s, i) && Holds(s.threads[i]) == [] { StartsInOrder(s, i); }
    assert s.history == [];
  }

  lemma {:induction false} RunKeepsInvariant(run: seq<Session>, k: nat)
    requires IsRun(run) && k < |run|
    ensures Invariant(run[0].disk, run[k])
  {
    if k == 0 {
      InitialKeeps(run[0]);
    } else {
      RunKeepsInvariant(run, k - 1);
      NextKeeps(run[0].disk, run[k - 1], run[k]);
    }
  }

  lemma NextKeeps(start: Disk, s: Session, s': Session)
    requires Invariant(start, s) && Next(s, s')
    ensures Invariant(start, s')
  {
    if i :| CanAcquire(s, i) && s' == Acquire(s, i) {
      AcquireKeeps(start, s, i);
    } else if i :| CanWork(s, i) && s' == Release(s, i) {
      ReleaseKeeps(start, s, i);
    } else if i: nat, p :| CanWork(s, i) && p in s.threads[i].todo[0] && s' == ReadUnderLock(s, i, p) {
      ReadKeeps(start, s, i, p);
    } else {
      var i: nat, p, content :| CanWork(s, i) && p in s.threads[i].seen && s' == WriteUnderLock(s, i, p, content);
      WriteKeeps(start, s, i, p, content);
    }
  }

  // ---- no deadlock ----

  function Wanted(t: Thread): Path
    requires Waiting(t)
  {
    t.todo[0][t.held]
  }

  lemma HeldBeforeWanted(t: Thread, p: Path)
    requires ListsInOrder(t) && Waiting(t) && p in Holds(t)
    ensures Before(p, Wanted(t))
  {
    var x :| 0 <= x < t.held && t.todo[0][x] == p;
    assert Before(t.todo[0][x], t.todo[0][t.held]);
  }

  /** Of the waiting threads, one wants a path that comes after, or is, what any other wants. */
  lemma {:induction false} LastWanted(s: Session, n: nat) returns (i: nat)
    requires n <= |s.threads| && exists k :: 0 <= k < n && Waiting(s.threads[k])
    ensures i < n && Waiting(s.threads[i])
    ensures forall k :: 0 <= k < n && Waiting(s.threads[k]) ==> !Before(Wanted(s.threads[i]), Wanted(s.threads[k]))
  {
    var m := n - 1;
    if exists k :: 0 <= k < m && Waiting(s.threads[k]) {
      i := LastWanted(s, m);
      if Waiting(s.threads[m]) && Before(Wanted(s.threads[i]), Wanted(s.threads[m])) {
        forall k | 0 <= k < n && Waiting(s.threads[k]) ensures !Before(Wanted(s.threads[m]), Wanted(s.threads[k])) {
          if Before(Wanted(s.threads[m]), Wanted(s.threads[k])) {
            BeforeIsTransitive(Wanted(s.threads[i]), Wanted(s.threads[m]), Wanted(s.threads[k]));
            BeforeIsTotal(Wanted(s.threads[m]), Wanted(s.threads[m]));
          }
        }
        i := m;
      }
    } else {
      i := m;
      BeforeIsTotal(Wanted(s.threads[m]), Wanted(s.threads[m]));
    }
  }

  /**
   * Deadlock freedom: in every state of every run, if some op is unfinished then some op can take its
   * next lock or, holding its whole list, work and release.
   */
  lemma NeverDeadlocked(run: seq<Session>, k: nat)
    requires IsRun(run) && k < |run|
    requires exists i :: 0 <= i < |run[k].threads| && Unfinished(run[k].threads[i])
    ensures exists i :: CanAcquire(run[k], i) || CanWork(run[k], i)
  {
    var s := run[k];
    RunKeepsInvariant(run, k);
    var u :| 0 <= u < |s.threads| && Unfinished(s.threads[u]);
    assert ThreadOk(s, u);
    if !CanWork(s, u) {
      assert Waiting(s.threads[u]);
      var i := LastWanted(s, |s.threads|);
      var wanted := Wanted(s.threads[i]);
      if !CanAcquire(s, i) {
        var j :| 0 <= j < |s.threads| && wanted in Holds(s.threads[j]);
        assert ThreadOk(s, j);
        var t := s.threads[j];
        if Waiting(t) { HeldBeforeWanted(t, wanted); }
        assert CanWork(s, j);
      }
    }
  }

  /**
   * In every state of every run, each write to a path began with exactly the bytes the previous write
   * to it left, or the initial ones, and the disk holds what the last one left.
   */
  lemma WritesChain(run: seq<Session>, k: nat, p: Path)
    requires IsRun(run) && k < |run|
    ensures At(run[k].disk, p) == ContentAfter(run[0].disk, run[k].history, p)
    ensures ChainedOn(run[0].disk, run[k].history, p)
  {
    RunKeepsInvariant(run, k);
  }
}
