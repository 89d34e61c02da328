/**
 * Commits that run at once with their log: every step an op takes under its locks or in the log, and
 * what recovery makes of a session that stopped anywhere.
 */
module Sessions {
  import opened Prelude
  import opened Steps
  import opened Cycles
  import opened Wal
  import opened Locks
  import Recovery

  /** One record an op made: it is about to turn `was` into `now`. */
  datatype Record = Record(owner: IntentId, path: Path, was: Bytes, now: Bytes)

  /**
   * The session, each op's intent, the log, every record ever made, and for each path the records whose
   * writes are in force, one on top of the other.
   */
  datatype State = State(session: Session, ids: seq<IntentId>, wal: Log, records: seq<Record>,
                         lines: map<Path, seq<nat>>)

  function Line(s: State, p: Path): seq<nat> {
    if p in s.lines then s.lines[p] else []
  }

  /** The record's intent is in the log and has neither landed nor been dropped. */
  predicate IsPending(s: State, r: nat) {
    r < |s.records| && s.records[r].owner in s.wal && s.wal[s.records[r].owner].status == Pending
  }

  // ---- steps ----

  /** A lock is taken, the locks are let go, or a path is read. */
  ghost predicate LockStep(s: State, s': State) {
    && Next(s.session, s'.session) && s'.session.disk == s.session.disk
    && s' == s.(session := s'.session)
  }

  /** The op's intent is recorded, whole or torn. */
  ghost predicate PrepareStep(s: State, s': State, i: nat, intent: Intent, status: Status) {
    && i < |s.ids| && intent.id == s.ids[i] && intent.id !in s.wal && status != Landed && !HasLifecycleOp(intent)
    && (forall r :: 0 <= r < |s.records| ==> s.records[r].owner != intent.id)
    && s' == s.(wal := s.wal[intent.id := Replayed(intent, [], status)])
  }

  function RecordOf(intent: Intent, p: Path, was: Bytes, now: Bytes): Applying {
    Applying(p, RawHash(now), if At(intent.originals, p) != Some(was) then Some(was) else None)
  }

  ghost predicate Works(s: State, i: nat, p: Path, seen: Bytes) {
    && CanWork(s.session, i) && i < |s.ids| && p in s.session.threads[i].seen
    && s.session.threads[i].seen[p] == Some(seen)
  }

  /** Under the lock of the path, the op records the write it is about to make. */
  ghost predicate RecordStep(s: State, s': State, i: nat, p: Path, was: Bytes, now: Bytes) {
    && Works(s, i, p, was) && s.ids[i] in s.wal && s.wal[s.ids[i]].status == Pending
    && var entry := s.wal[s.ids[i]];
       s' == s.(wal := s.wal[s.ids[i] := entry.(applied := entry.applied + [RecordOf(entry.intent, p, was, now)])],
                records := s.records + [Record(s.ids[i], p, was, now)])
  }

  /** Under the lock, it makes the write of the path's last record. */
  ghost predicate WriteStep(s: State, s': State, i: nat, p: Path, r: nat) {
    && r < |s.records| && Works(s, i, p, s.records[r].was) && s.records[r].owner == s.ids[i] && s.records[r].path == p
    && (forall q :: r < q < |s.records| ==> s.records[q].path != p) && r !in Line(s, p)
    && s' == s.(session := WriteUnderLock(s.session, i, p, Some(s.records[r].now)),
                lines := s.lines[p := Line(s, p) + [r]])
  }

  function WithoutLast(line: seq<nat>): seq<nat> {
    if line == [] then [] else line[..|line| - 1]
  }

  /** Under the lock, it puts back what one of its writes replaced, if the path still holds that write. */
  ghost predicate UndoStep(s: State, s': State, i: nat, p: Path, r: nat) {
    && IsPending(s, r) && Works(s, i, p, s.records[r].now) && s.records[r].owner == s.ids[i] && s.records[r].path == p
    && s' == s.(session := WriteUnderLock(s.session, i, p, Some(s.records[r].was)),
                lines := s.lines[p := WithoutLast(Line(s, p))])
  }

  /** The intent is marked landed, or dropped. */
  ghost predicate FinishStep(s: State, s': State, id: IntentId) {
    && id in s.wal
    && (s' == s.(wal := s.wal[id := s.wal[id].(status := Landed)]) || s' == s.(wal := s.wal - {id}))
  }

  ghost predicate Advances(s: State, s': State) {
    || LockStep(s, s')
    || (exists i, intent, status :: PrepareStep(s, s', i, intent, status))
    || (exists i, p, was, now :: RecordStep(s, s', i, p, was, now))
    || (exists i, p, r :: WriteStep(s, s', i, p, r))
    || (exists i, p, r :: UndoStep(s, s', i, p, r))
    || (exists id :: FinishStep(s, s', id))
  }

  ghost predicate Begins(s: State) {
    && Initial(s.session) && |s.ids| == |s.session.threads| && s.wal == map[] && s.records == [] && s.lines == map[]
  }

  ghost predicate IsSession(run: seq<State>) {
    run != [] && Begins(run[0]) && forall k :: 0 < k < |run| ==> Advances(run[k - 1], run[k])
  }

  // ---- what every step keeps ----

  /** The recovery step that undoes a record's write. */
  function UndoOf(r: Record): Step {
    Step(r.owner, Converge(r.path, Some(RawHash(r.now)), Some(r.was)), None)
  }

  ghost predicate IsOf(s: State, id: IntentId, a: Applying, r: nat) {
    && id in s.wal && r < |s.records| && s.records[r].owner == id
    && AppliedStep(s.wal[id].intent, a) == UndoOf(s.records[r])
  }

  ghost predicate HasRecord(s: State, id: IntentId, a: Applying) {
    exists r: nat :: IsOf(s, id, a, r)
  }

  ghost predicate HasApplying(s: State, id: IntentId, r: nat) {
    id in s.wal && exists a :: a in s.wal[id].applied && IsOf(s, id, a, r)
  }

  /** An intent's entry in the log holds its records and nothing else. */
  ghost predicate EntryOk(s: State, id: IntentId)
    requires id in s.wal
  {
    && s.wal[id].intent.id == id && !HasLifecycleOp(s.wal[id].intent)
    && (forall a :: a in s.wal[id].applied ==> HasRecord(s, id, a))
    && (forall r: nat :: r < |s.records| && s.records[r].owner == id ==> HasApplying(s, id, r))
  }

  ghost predicate LogOk(s: State) {
    forall id :: id in s.wal ==> EntryOk(s, id)
  }

  /** What the path held under its `m`-th write in force, from the bottom; 0 is what it began with. */
  function ContentAt(start: Disk, s: State, p: Path, m: nat): Option<Bytes> {
    if m == 0 || m > |Line(s, p)| || Line(s, p)[m - 1] >= |s.records| then At(start, p)
    else Some(s.records[Line(s, p)[m - 1]].now)
  }

  /** The contents the path went through and did not go back from. */
  ghost function Contents(start: Disk, s: State, p: Path): seq<Option<Bytes>> {
    seq(|Line(s, p)| + 1, m requires 0 <= m => ContentAt(start, s, p, m))
  }

  /** The `m`-th write in force is one of the path, and began with the content of the one below it. */
  ghost predicate InForce(start: Disk, s: State, p: Path, m: nat)
    requires m < |Line(s, p)|
  {
    var r := Line(s, p)[m];
    r < |s.records| && s.records[r].path == p && Some(s.records[r].was) == ContentAt(start, s, p, m)
  }

  /** Each write in force began with the content of the one below it, and the path holds the last. */
  ghost predicate LineOk(start: Disk, s: State, p: Path) {
    && Increasing(Line(s, p)) && (forall m: nat :: m < |Line(s, p)| ==> InForce(start, s, p, m))
    && At(s.session.disk, p) == ContentAt(start, s, p, |Line(s, p)|)
  }

  /** A record that still matters on its path: its write is in force, or recovery would undo it. */
  ghost predicate Matters(s: State, p: Path, r: nat) {
    r < |s.records| && s.records[r].path == p && (r in Line(s, p) || IsPending(s, r))
  }

  /** No two records that matter brought the same content, nor the one the path began with. */
  ghost predicate Distinct(start: Disk, s: State, p: Path) {
    && (forall r: nat :: Matters(s, p, r) ==> Some(s.records[r].now) != At(start, p))
    && (forall q: nat, r: nat :: Matters(s, p, q) && Matters(s, p, r) && q != r ==>
          s.records[q].now != s.records[r].now)
  }

  ghost predicate PendingEdge(s: State, p: Path, e: Edge) {
    exists r: nat :: IsPending(s, r) && s.records[r].path == p && e == EdgeOf(UndoOf(s.records[r]))
  }

  /** The edge of the `k`-th node of the walk to the next is pending. */
  ghost predicate PendingLink(s: State, p: Path, walk: seq<Node>, k: nat)
    requires k + 1 < |walk|
  {
    walk[k] != walk[k + 1] && PendingEdge(s, p, Edge(walk[k], walk[k + 1]))
  }

  ghost predicate PendingWalk(s: State, p: Path, walk: seq<Node>) {
    forall k: nat :: k + 1 < |walk| ==> PendingLink(s, p, walk, k)
  }

  /** The pending records of the path can be ordered. */
  ghost predicate Orderable(s: State, p: Path) {
    forall walk :: |walk| >= 2 && PendingWalk(s, p, walk) ==> walk[0] != walk[|walk| - 1]
  }

  ghost predicate Invariant(start: Disk, s: State, p: Path) {
    Locks.Invariant(start, s.session) && LogOk(s) && LineOk(start, s, p) && Orderable(s, p)
  }

  // ---- steps that leave the path's line alone ----

  /** A record and its entry stay matched while the entry keeps its intent and the records grow. */
  lemma StillOf(s: State, s': State, id: IntentId, a: Applying, r: nat)
    requires IsOf(s, id, a, r) && id in s'.wal && s'.wal[id].intent == s.wal[id].intent && s.records <= s'.records
    ensures IsOf(s', id, a, r)
  {
    assert s'.records[r] == s.records[r];
  }

  lemma StillHasRecord(s: State, s': State, id: IntentId, a: Applying)
    requires HasRecord(s, id, a) && id in s'.wal && s'.wal[id].intent == s.wal[id].intent && s.records <= s'.records
    ensures HasRecord(s', id, a)
  {
    var r: nat :| IsOf(s, id, a, r);
    StillOf(s, s', id, a, r);
  }

  lemma StillHasApplying(s: State, s': State, id: IntentId, r: nat)
    requires HasApplying(s, id, r) && id in s'.wal && s'.wal[id].intent == s.wal[id].intent && s.records <= s'.records
    requires s.wal[id].applied <= s'.wal[id].applied
    ensures HasApplying(s', id, r)
  {
    var a :| a in s.wal[id].applied && IsOf(s, id, a, r);
    StillOf(s, s', id, a, r);
  }

  /** An entry stays right while it keeps its intent and gets no record. */
  lemma SameEntry(s: State, s': State, id: IntentId)
    requires LogOk(s) && id in s.wal && id in s'.wal
    requires s'.wal[id].intent == s.wal[id].intent && s'.wal[id].applied == s.wal[id].applied
    requires s.records <= s'.records && forall r :: |s.records| <= r < |s'.records| ==> s'.records[r].owner != id
    ensures EntryOk(s', id)
  {
    assert EntryOk(s, id);
    forall a | a in s'.wal[id].applied ensures HasRecord(s', id, a) { StillHasRecord(s, s', id, a); }
    forall r: nat | r < |s'.records| && s'.records[r].owner == id ensures HasApplying(s', id, r) {
      assert r < |s.records| && s'.records[r] == s.records[r];
      StillHasApplying(s, s', id, r);
    }
  }

  lemma FewerPending(s: State, s': State, p: Path)
    requires Orderable(s, p) && s'.records == s.records && forall r: nat :: IsPending(s', r) ==> IsPending(s, r)
    ensures Orderable(s', p)
  {
    forall e | PendingEdge(s', p, e) ensures PendingEdge(s, p, e) {
      var r: nat :| IsPending(s', r) && s'.records[r].path == p && e == EdgeOf(UndoOf(s'.records[r]));
      assert IsPending(s, r);
    }
    forall walk | |walk| >= 2 && PendingWalk(s', p, walk) ensures walk[0] != walk[|walk| - 1] {
      forall k: nat | k + 1 < |walk| ensures PendingLink(s, p, walk, k) { assert PendingLink(s', p, walk, k); }
      assert PendingWalk(s, p, walk);
    }
  }

  lemma SameLine(start: Disk, s: State, s': State, p: Path)
    requires LineOk(start, s, p) && Line(s', p) == Line(s, p) && s.records <= s'.records
    requires At(s'.session.disk, p) == At(s.session.disk, p)
    ensures LineOk(start, s', p)
  {
    forall m: nat | m <= |Line(s, p)| ensures ContentAt(start, s', p, m) == ContentAt(start, s, p, m) {
      if m > 0 { assert InForce(start, s, p, m - 1); }
    }
    forall m: nat | m < |Line(s, p)| ensures InForce(start, s', p, m) { assert InForce(start, s, p, m); }
  }

  lemma SameLog(s: State, s': State, p: Path)
    requires LogOk(s) && Orderable(s, p) && s'.wal == s.wal && s'.records == s.records
    ensures LogOk(s') && Orderable(s', p)
  {
    forall id | id in s'.wal ensures EntryOk(s', id) { SameEntry(s, s', id); }
    FewerPending(s, s', p);
  }

  lemma LockKeeps(start: Disk, s: State, s': State, p: Path)
    requires Invariant(start, s, p) && LockStep(s, s')
    ensures Invariant(start, s', p)
  {
    NextKeeps(start, s.session, s'.session);
    SameLog(s, s', p);
    SameLine(start, s, s', p);
  }

  lemma PrepareKeeps(start: Disk, s: State, s': State, p: Path, i: nat, intent: Intent, status: Status)
    requires Invariant(start, s, p) && PrepareStep(s, s', i, intent, status)
    ensures Invariant(start, s', p)
  {
    forall id | id in s'.wal ensures EntryOk(s', id) {
      if id != intent.id { SameEntry(s, s', id); }
    }
    FewerPending(s, s', p);
    SameLine(start, s, s', p);
  }

  lemma FinishKeeps(start: Disk, s: State, s': State, p: Path, id: IntentId)
    requires Invariant(start, s, p) && FinishStep(s, s', id)
    ensures Invariant(start, s', p)
  {
    forall other | other in s'.wal ensures EntryOk(s', other) { SameEntry(s, s', other); }
    FewerPending(s, s', p);
    SameLine(start, s, s', p);
  }

  // ---- a record ----

  /** The node is a content of the path's line. */
  ghost predicate OnLine(start: Disk, s: State, p: Path, x: Node) {
    exists m: nat :: m <= |Line(s, p)| && x == HashOf(ContentAt(start, s, p, m))
  }

  /** A pending record whose content is on the line is the write there, and its edge leads one down. */
  lemma LineDescends(start: Disk, s: State, p: Path, e: Edge)
    requires LineOk(start, s, p) && Distinct(start, s, p) && PendingEdge(s, p, e) && OnLine(start, s, p, e.from)
    ensures OnLine(start, s, p, e.to)
  {
    var r: nat :| IsPending(s, r) && s.records[r].path == p && e == EdgeOf(UndoOf(s.records[r]));
    var m: nat :| m <= |Line(s, p)| && e.from == HashOf(ContentAt(start, s, p, m));
    assert Matters(s, p, r);
    if m > 0 {
      var q := Line(s, p)[m - 1];
      assert InForce(start, s, p, m - 1) && q in Line(s, p) && Matters(s, p, q);
      assert e.to == HashOf(ContentAt(start, s, p, m - 1));
    }
  }

  /** The edge of the `k`-th node of the walk to the next is pending, or it is the one more edge. */
  ghost predicate LinkOr(s: State, p: Path, more: Edge, walk: seq<Node>, k: nat)
    requires k + 1 < |walk|
  {
    PendingLink(s, p, walk, k) || Edge(walk[k], walk[k + 1]) == more
  }

  ghost predicate WalkOr(s: State, p: Path, more: Edge, walk: seq<Node>) {
    forall k: nat :: k + 1 < |walk| ==> LinkOr(s, p, more, walk, k)
  }

  /** From the line, pending edges and an edge that starts elsewhere stay on the line. */
  lemma {:induction false} StaysOnLine(start: Disk, s: State, p: Path, more: Edge, walk: seq<Node>, i: nat, j: nat)
    requires LineOk(start, s, p) && Distinct(start, s, p) && !OnLine(start, s, p, more.from)
    requires i <= j < |walk| && OnLine(start, s, p, walk[i]) && WalkOr(s, p, more, walk)
    ensures OnLine(start, s, p, walk[j])
    decreases j
  {
    if i < j {
      StaysOnLine(start, s, p, more, walk, i, j - 1);
      assert LinkOr(s, p, more, walk, j - 1);
      OneLink(start, s, p, more, walk, j - 1);
    }
  }

  lemma OneLink(start: Disk, s: State, p: Path, more: Edge, walk: seq<Node>, k: nat)
    requires LineOk(start, s, p) && Distinct(start, s, p) && !OnLine(start, s, p, more.from)
    requires k + 1 < |walk| && OnLine(start, s, p, walk[k]) && LinkOr(s, p, more, walk, k)
    ensures OnLine(start, s, p, walk[k + 1])
  {
    LineDescends(start, s, p, Edge(walk[k], walk[k + 1]));
  }

  /** One more edge, from off the line to it, closes no cycle. */
  lemma NoNewCycle(start: Disk, s: State, p: Path, more: Edge, walk: seq<Node>)
    requires LineOk(start, s, p) && Distinct(start, s, p) && Orderable(s, p)
    requires !OnLine(start, s, p, more.from) && OnLine(start, s, p, more.to)
    requires |walk| >= 2 && WalkOr(s, p, more, walk)
    ensures walk[0] != walk[|walk| - 1]
  {
    if k: nat :| k + 1 < |walk| && !PendingLink(s, p, walk, k) {
      assert LinkOr(s, p, more, walk, k);
      StaysOnLine(start, s, p, more, walk, k + 1, |walk| - 1);
      if OnLine(start, s, p, walk[0]) { StaysOnLine(start, s, p, more, walk, 0, k); }
    } else {
      assert PendingWalk(s, p, walk);
    }
  }

  lemma RecordOrders(start: Disk, s: State, s': State, p: Path, i: nat, q: Path, was: Bytes, now: Bytes)
    requires Invariant(start, s, p) && RecordStep(s, s', i, q, was, now) && Distinct(start, s, p)
             && Distinct(start, s', p)
    ensures Orderable(s', p)
  {
    var n, more := |s.records|, EdgeOf(UndoOf(Record(s.ids[i], q, was, now)));
    forall e | PendingEdge(s', p, e) ensures PendingEdge(s, p, e) || (p == q && e == more) {
      var r: nat :| IsPending(s', r) && s'.records[r].path == p && e == EdgeOf(UndoOf(s'.records[r]));
      if r < n { assert s'.records[r] == s.records[r] && IsPending(s, r); }
    }
    if p == q { NewEdgeLeadsToLine(start, s, s', p, i, was, now); }
    forall walk | |walk| >= 2 && PendingWalk(s', p, walk) ensures walk[0] != walk[|walk| - 1] {
      forall k: nat | k + 1 < |walk|
        ensures if p == q then LinkOr(s, p, more, walk, k) else PendingLink(s, p, walk, k)
      {
        assert PendingLink(s', p, walk, k);
      }
      if p == q {
        assert WalkOr(s, p, more, walk);
        NoNewCycle(start, s, p, more, walk);
      } else {
        assert PendingWalk(s, p, walk);
      }
    }
  }

  lemma NewEdgeLeadsToLine(start: Disk, s: State, s': State, p: Path, i: nat, was: Bytes, now: Bytes)
    requires Invariant(start, s, p) && RecordStep(s, s', i, p, was, now) && Distinct(start, s', p)
    ensures OnLine(start, s, p, HashOf(Some(was))) && !OnLine(start, s, p, HashOf(Some(now)))
  {
    var n := |s.records|;
    assert ThreadOk(s.session, i);
    assert ContentAt(start, s, p, |Line(s, p)|) == Some(was);
    assert s'.records[n] == Record(s.ids[i], p, was, now) && IsPending(s', n) && Matters(s', p, n);
    forall m: nat | m <= |Line(s, p)| ensures ContentAt(start, s, p, m) != Some(now) {
      if m > 0 {
        var r := Line(s, p)[m - 1];
        assert InForce(start, s, p, m - 1) && r in Line(s', p) && s'.records[r] == s.records[r] && Matters(s', p, r);
      }
    }
  }

  lemma RecordLogs(s: State, s': State, i: nat, q: Path, was: Bytes, now: Bytes)
    requires LogOk(s) && RecordStep(s, s', i, q, was, now)
    ensures LogOk(s')
  {
    var id, n := s.ids[i], |s.records|;
    var intent := s.wal[id].intent;
    forall other | other in s'.wal ensures EntryOk(s', other) {
      if other != id {
        SameEntry(s, s', other);
      } else {
        assert EntryOk(s, id);
        var a := RecordOf(intent, q, was, now);
        assert s'.records[n] == Record(id, q, was, now) && IsOf(s', id, a, n);
        forall b | b in s'.wal[id].applied ensures HasRecord(s', id, b) {
          if b in s.wal[id].applied { StillHasRecord(s, s', id, b); }
        }
        forall r: nat | r < |s'.records| && s'.records[r].owner == id ensures HasApplying(s', id, r) {
          if r < n { StillHasApplying(s, s', id, r); }
        }
      }
    }
  }

  lemma RecordKeeps(start: Disk, s: State, s': State, p: Path, i: nat, q: Path, was: Bytes, now: Bytes)
    requires Invariant(start, s, p) && RecordStep(s, s', i, q, was, now) && Distinct(start, s, p)
             && Distinct(start, s', p)
    ensures Invariant(start, s', p)
  {
    RecordLogs(s, s', i, q, was, now);
    RecordOrders(start, s, s', p, i, q, was, now);
    SameLine(start, s, s', p);
  }

  // ---- a write, and its undo ----

  lemma WriteKeepsLine(start: Disk, s: State, s': State, p: Path, i: nat, r: nat)
    requires Invariant(start, s, p) && WriteStep(s, s', i, p, r)
    ensures LineOk(start, s', p)
  {
    assert ThreadOk(s.session, i);
    LineGrows(start, s, s', p, r);
  }

  lemma LineGrows(start: Disk, s: State, s': State, p: Path, r: nat)
    requires LineOk(start, s, p) && s'.records == s.records && Line(s', p) == Line(s, p) + [r]
    requires r < |s.records| && s.records[r].path == p && At(s.session.disk, p) == Some(s.records[r].was)
    requires At(s'.session.disk, p) == Some(s.records[r].now)
    requires r !in Line(s, p) && forall q :: r < q < |s.records| ==> s.records[q].path != p
    ensures LineOk(start, s', p)
  {
    var line := Line(s, p);
    forall m: nat | m < |line| ensures line[m] < r { assert InForce(start, s, p, m) && line[m] in line; }
    forall m: nat | m < |Line(s', p)| ensures InForce(start, s', p, m) { GrownInForce(start, s, s', p, r, m); }
  }

  lemma GrownInForce(start: Disk, s: State, s': State, p: Path, r: nat, m: nat)
    requires LineOk(start, s, p) && s'.records == s.records && Line(s', p) == Line(s, p) + [r] && m <= |Line(s, p)|
    requires r < |s.records| && s.records[r].path == p && At(s.session.disk, p) == Some(s.records[r].was)
    ensures InForce(start, s', p, m)
  {
    if m < |Line(s, p)| { assert InForce(start, s, p, m); }
  }

  lemma WriteKeeps(start: Disk, s: State, s': State, p: Path, i: nat, q: Path, r: nat)
    requires Invariant(start, s, p) && WriteStep(s, s', i, q, r)
    ensures Invariant(start, s', p)
  {
    Locks.WriteKeeps(start, s.session, i, q, Some(s.records[r].now));
    SameLog(s, s', p);
    if q == p { WriteKeepsLine(start, s, s', p, i, r); } else { SameLine(start, s, s', p); }
  }

  lemma UndoKeepsLine(start: Disk, s: State, s': State, p: Path, i: nat, r: nat)
    requires Invariant(start, s, p) && Distinct(start, s, p) && UndoStep(s, s', i, p, r)
    ensures LineOk(start, s', p)
  {
    assert ThreadOk(s.session, i);
    TopOfLine(start, s, p, r);
    LineShrinks(start, s, s', p);
  }

  /** A pending record whose content the path holds is the write on top. */
  lemma TopOfLine(start: Disk, s: State, p: Path, r: nat)
    requires LineOk(start, s, p) && Distinct(start, s, p)
    requires IsPending(s, r) && s.records[r].path == p && At(s.session.disk, p) == Some(s.records[r].now)
    ensures Line(s, p) != [] && Line(s, p)[|Line(s, p)| - 1] == r
  {
    var line := Line(s, p);
    assert Matters(s, p, r);
    assert line != [];
    assert InForce(start, s, p, |line| - 1) && line[|line| - 1] in line && Matters(s, p, line[|line| - 1]);
  }

  lemma LineShrinks(start: Disk, s: State, s': State, p: Path)
    requires LineOk(start, s, p) && s'.records == s.records && Line(s, p) != []
             && Line(s', p) == WithoutLast(Line(s, p))
    requires InForce(start, s, p, |Line(s, p)| - 1)
    requires At(s'.session.disk, p) == Some(s.records[Line(s, p)[|Line(s, p)| - 1]].was)
    ensures LineOk(start, s', p)
  {
    forall m: nat | m < |Line(s', p)| ensures InForce(start, s', p, m) { assert InForce(start, s, p, m); }
  }

  lemma UndoKeeps(start: Disk, s: State, s': State, p: Path, i: nat, q: Path, r: nat)
    requires Invariant(start, s, p) && Distinct(start, s, p) && UndoStep(s, s', i, q, r)
    ensures Invariant(start, s', p)
  {
    Locks.WriteKeeps(start, s.session, i, q, Some(s.records[r].was));
    SameLog(s, s', p);
    if q == p { UndoKeepsLine(start, s, s', p, i, r); } else { UndoneElsewhere(start, s, s', p, i, q, r); }
  }

  lemma UndoneElsewhere(start: Disk, s: State, s': State, p: Path, i: nat, q: Path, r: nat)
    requires LineOk(start, s, p) && UndoStep(s, s', i, q, r) && q != p
    ensures LineOk(start, s', p)
  {
    SameLine(start, s, s', p);
  }

  // ---- over whole runs ----

  lemma AdvanceKeeps(start: Disk, s: State, s': State, p: Path)
    requires Invariant(start, s, p) && Advances(s, s') && Distinct(start, s, p) && Distinct(start, s', p)
    ensures Invariant(start, s', p)
  {
    if LockStep(s, s') {
      LockKeeps(start, s, s', p);
    } else if i, intent, status :| PrepareStep(s, s', i, intent, status) {
      PrepareKeeps(start, s, s', p, i, intent, status);
    } else if i, q, was, now :| RecordStep(s, s', i, q, was, now) {
      RecordKeeps(start, s, s', p, i, q, was, now);
    } else if i, q, r :| WriteStep(s, s', i, q, r) {
      WriteKeeps(start, s, s', p, i, q, r);
    } else if i, q, r :| UndoStep(s, s', i, q, r) {
      UndoKeeps(start, s, s', p, i, q, r);
    } else {
      var id :| FinishStep(s, s', id);
      FinishKeeps(start, s, s', p, id);
    }
  }

  lemma BeginsOrderable(s: State, p: Path)
    requires s.wal == map[]
    ensures Orderable(s, p)
  {
    forall walk: seq<Node> | |walk| >= 2 ensures !PendingWalk(s, p, walk) {
      assert !PendingLink(s, p, walk, 0);
    }
  }

  lemma {:induction false} SessionKeepsInvariant(run: seq<State>, k: nat, p: Path)
    requires IsSession(run) && k < |run|
    requires forall j :: 0 <= j <= k ==> Distinct(run[0].session.disk, run[j], p)
    ensures Invariant(run[0].session.disk, run[k], p)
  {
    if k == 0 {
      InitialKeeps(run[0].session);
      BeginsOrderable(run[0], p);
    } else {
      SessionKeepsInvariant(run, k - 1, p);
      AdvanceKeeps(run[0].session.disk, run[k - 1], run[k], p);
    }
  }

  // ---- what the log's replay comes to ----

  lemma {:induction false} AppliedStepsOk(intent: Intent, applied: seq<Applying>)
    requires forall a :: a in applied ==> AppliedStep(intent, a).work.target.Some?
    ensures AppliedSteps(intent, applied).Ok?
  {
    if applied != [] {
      AppliedStepsOk(intent, applied[..|applied| - 1]);
      assert applied[|applied| - 1] in applied;
    }
  }

  lemma EntryStepsOk(s: State, r: Replayed, base: nat)
    requires LogOk(s) && r.intent.id in s.wal && r == s.wal[r.intent.id]
    ensures IntentSteps(r, base).Ok?
  {
    var id := r.intent.id;
    assert EntryOk(s, id);
    forall a | a in r.applied ensures AppliedStep(r.intent, a).work.target.Some? {
      assert HasRecord(s, id, a);
      var k: nat :| IsOf(s, id, a, k);
    }
    AppliedStepsOk(r.intent, r.applied);
  }

  lemma {:induction false} LogStepsOk(s: State, log: seq<Replayed>)
    requires LogOk(s) && forall r :: r in log ==> r.intent.id in s.wal && r == s.wal[r.intent.id]
    ensures LogSteps(log).Ok?
  {
    if log != [] {
      var front := log[..|log| - 1];
      LogStepsOk(s, front);
      assert log[|log| - 1] in log;
      EntryStepsOk(s, log[|log| - 1], |LogSteps(front).value|);
    }
  }

  /** Every step of the replay undoes a pending record. */
  lemma StepIsPending(s: State, log: seq<Replayed>, st: Step) returns (r: nat)
    requires LogOk(s) && Replays(s.wal, log) && LogSteps(log).Ok? && st in LogSteps(log).value
    ensures IsPending(s, r) && st == UndoOf(s.records[r])
  {
    var k := StepHasIntent(log, st);
    var entry := log[k];
    var id := entry.intent.id;
    assert entry in log && EntryOk(s, id);
    AppliedStepsContents(entry.intent, entry.applied);
    assert FromApplied(entry.intent, entry.applied, st);
    var a :| a in entry.applied && st == AppliedStep(entry.intent, a);
    assert HasRecord(s, id, a);
    r :| IsOf(s, id, a, r);
  }

  /** Every pending record has its step in the replay. */
  lemma PendingIsStep(s: State, log: seq<Replayed>, r: nat)
    requires LogOk(s) && Replays(s.wal, log) && LogSteps(log).Ok? && IsPending(s, r)
    ensures UndoOf(s.records[r]) in LogSteps(log).value
  {
    var id := s.records[r].owner;
    var entry := s.wal[id];
    assert EntryOk(s, id) && HasApplying(s, id, r);
    var a :| a in entry.applied && IsOf(s, id, a, r);
    var k :| 0 <= k < |log| && log[k] == entry;
    AppliedIsStep(log, k, a);
  }

  lemma AppliedIsStep(log: seq<Replayed>, k: nat, a: Applying)
    requires LogSteps(log).Ok? && k < |log| && log[k].status == Pending && a in log[k].applied
    ensures AppliedStep(log[k].intent, a) in LogSteps(log).value
  {
    var entry, base := log[k], BaseOf(log, k);
    IntentStepsAt(log, k);
    AppliedStepsContents(entry.intent, entry.applied);
    assert FromApplied(entry.intent, entry.applied, AppliedStep(entry.intent, a));
    StepOfPiece(LogSteps(log).value, IntentSteps(entry, base).value, base, AppliedStep(entry.intent, a));
  }

  lemma StepOfPiece(all: seq<Step>, piece: seq<Step>, base: nat, st: Step)
    requires SitsAt(all, piece, base) && st in piece
    ensures st in all
  {
    var i :| 0 <= i < |piece| && piece[i] == st;
    assert all[base..base + |piece|][i] == all[base + i];
  }

  /** So the path's recorded edges are those of its pending records. */
  lemma EdgesArePending(s: State, log: seq<Replayed>, p: Path, e: Edge)
    requires LogOk(s) && Replays(s.wal, log) && LogSteps(log).Ok?
    ensures e in PathEdges(LogSteps(log).value, p) <==> PendingEdge(s, p, e)
  {
    var steps := LogSteps(log).value;
    Recovery.PathEdgesContents(steps, p);
    if PendingEdge(s, p, e) {
      var r: nat :| IsPending(s, r) && s.records[r].path == p && e == EdgeOf(UndoOf(s.records[r]));
      PendingIsStep(s, log, r);
      var i :| 0 <= i < |steps| && steps[i] == UndoOf(s.records[r]);
      assert HasEdge(steps, p, e);
    }
    if e in PathEdges(steps, p) {
      assert HasEdge(steps, p, e);
      var i :| 0 <= i < |steps| && steps[i].work.path == p && EdgeOf(steps[i]) == e;
      var r := StepIsPending(s, log, steps[i]);
    }
  }

  /** The `m`-th write in force is one that recovery would undo. */
  ghost predicate UnfinishedAt(s: State, p: Path, m: nat) {
    0 < m <= |Line(s, p)| && IsPending(s, Line(s, p)[m - 1])
  }

  ghost function Unfinished(s: State, p: Path): set<nat> {
    set m: nat | m <= |Line(s, p)| && UnfinishedAt(s, p, m)
  }

  /** An edge of the log undoes a write in force, or starts from a content that is not on the line. */
  lemma EdgeUndoesOrIsAside(start: Disk, s: State, p: Path, e: Edge)
    requires LineOk(start, s, p) && Distinct(start, s, p) && PendingEdge(s, p, e)
    ensures Recovery.UndoesOne(e, Contents(start, s, p), Unfinished(s, p)) || Recovery.Aside(e, Contents(start, s, p))
  {
    var b := Contents(start, s, p);
    if k :| 0 <= k < |b| && e.from == HashOf(b[k]) {
      var r: nat :| IsPending(s, r) && s.records[r].path == p && e == EdgeOf(UndoOf(s.records[r]));
      assert Matters(s, p, r) && k > 0;
      var q := Line(s, p)[k - 1];
      assert InForce(start, s, p, k - 1) && q in Line(s, p) && Matters(s, p, q);
      assert q == r && UnfinishedAt(s, p, k);
      assert e == Edge(HashOf(b[k]), HashOf(b[k - 1]));
    }
  }

  lemma UnfinishedHasEdge(start: Disk, s: State, p: Path, m: nat)
    requires LineOk(start, s, p) && UnfinishedAt(s, p, m)
    ensures PendingEdge(s, p, Edge(HashOf(ContentAt(start, s, p, m)), HashOf(ContentAt(start, s, p, m - 1))))
  {
    var r := Line(s, p)[m - 1];
    assert InForce(start, s, p, m - 1) && IsPending(s, r);
    assert EdgeOf(UndoOf(s.records[r])) == Edge(HashOf(ContentAt(start, s, p, m)),
                                                HashOf(ContentAt(start, s, p, m - 1)));
  }

  lemma ContentsDiffer(start: Disk, s: State, p: Path, i: nat, j: nat)
    requires LineOk(start, s, p) && Distinct(start, s, p) && i < j <= |Line(s, p)|
    ensures ContentAt(start, s, p, i) != ContentAt(start, s, p, j)
  {
    var line := Line(s, p);
    assert InForce(start, s, p, j - 1) && line[j - 1] in line && Matters(s, p, line[j - 1]);
    if i > 0 { assert InForce(start, s, p, i - 1) && line[i - 1] in line && Matters(s, p, line[i - 1]); }
  }

  lemma LogOrders(s: State, log: seq<Replayed>, p: Path)
    requires LogOk(s) && Orderable(s, p) && Replays(s.wal, log) && LogSteps(log).Ok?
    ensures !Ambiguous(LogSteps(log).value, p)
  {
    var edges := PathEdges(LogSteps(log).value, p);
    forall walk | |walk| >= 2 && IsWalk(edges, walk) ensures walk[0] != walk[|walk| - 1] {
      forall k: nat | k + 1 < |walk| ensures PendingLink(s, p, walk, k) {
        assert Linked(edges, walk[k + 1 - 1], walk[k + 1]);
        EdgesArePending(s, log, p, Edge(walk[k], walk[k + 1]));
      }
      assert PendingWalk(s, p, walk);
    }
  }

  lemma NoneWaits(s: State, log: seq<Replayed>, p: Path)
    requires LogOk(s) && Replays(s.wal, log) && LogSteps(log).Ok?
    ensures forall i :: 0 <= i < |LogSteps(log).value| ==> LogSteps(log).value[i].waitsFor.None?
  {
    var steps := LogSteps(log).value;
    forall i | 0 <= i < |steps| ensures steps[i].waitsFor.None? { var r := StepIsPending(s, log, steps[i]); }
  }

  lemma AllContentsDiffer(start: Disk, s: State, p: Path)
    requires LineOk(start, s, p) && Distinct(start, s, p)
    ensures var b := Contents(start, s, p); forall i, j :: 0 <= i < j < |b| ==> b[i] != b[j]
  {
    var b := Contents(start, s, p);
    forall i, j | 0 <= i < j < |b| ensures b[i] != b[j] { ContentsDiffer(start, s, p, i, j); }
  }

  lemma UnfinishedIsRecorded(start: Disk, s: State, log: seq<Replayed>, p: Path, k: nat)
    requires LineOk(start, s, p) && LogOk(s) && Replays(s.wal, log) && LogSteps(log).Ok? && UnfinishedAt(s, p, k)
    ensures Edge(HashOf(ContentAt(start, s, p, k)), HashOf(ContentAt(start, s, p, k - 1)))
            in PathEdges(LogSteps(log).value, p)
  {
    UnfinishedHasEdge(start, s, p, k);
    EdgesArePending(s, log, p, Edge(HashOf(ContentAt(start, s, p, k)), HashOf(ContentAt(start, s, p, k - 1))));
  }

  lemma UnfinishedInContents(start: Disk, s: State, log: seq<Replayed>, p: Path, k: nat, b: seq<Option<Bytes>>)
    requires LineOk(start, s, p) && LogOk(s) && Replays(s.wal, log) && LogSteps(log).Ok? && k in Unfinished(s, p)
    requires b == Contents(start, s, p)
    ensures 0 < k < |b| && Edge(HashOf(b[k]), HashOf(b[k - 1])) in PathEdges(LogSteps(log).value, p)
  {
    assert UnfinishedAt(s, p, k);
    ContentsAt(start, s, p, k);
    ContentsAt(start, s, p, k - 1);
    UnfinishedIsRecorded(start, s, log, p, k);
  }

  lemma ContentsAt(start: Disk, s: State, p: Path, m: nat)
    requires m <= |Line(s, p)|
    ensures |Contents(start, s, p)| == |Line(s, p)| + 1 && Contents(start, s, p)[m] == ContentAt(start, s, p, m)
  {
  }

  /** What the log holds of a path is what recovery needs: its pending writes, and edges that lead to them. */
  lemma LogWroteThrough(start: Disk, s: State, log: seq<Replayed>, p: Path)
    requires Invariant(start, s, p) && Distinct(start, s, p) && Replays(s.wal, log) && LogSteps(log).Ok?
    ensures Recovery.WroteThrough(LogSteps(log).value, p, Contents(start, s, p), Unfinished(s, p))
  {
    var steps, b, unfinished := LogSteps(log).value, Contents(start, s, p), Unfinished(s, p);
    AllContentsDiffer(start, s, p);
    forall k | k in unfinished ensures 0 < k < |b| && Edge(HashOf(b[k]), HashOf(b[k - 1])) in PathEdges(steps, p) {
      UnfinishedInContents(start, s, log, p, k, b);
    }
    forall e | e in PathEdges(steps, p) ensures Recovery.UndoesOne(e, b, unfinished) || Recovery.Aside(e, b) {
      EdgesArePending(s, log, p, e);
      EdgeUndoesOrIsAside(start, s, p, e);
    }
    LogOrders(s, log, p);
    NoneWaits(s, log, p);
    MakeWroteThrough(steps, p, b, unfinished);
  }

  lemma MakeWroteThrough(steps: seq<Step>, p: Path, b: seq<Option<Bytes>>, unfinished: set<nat>)
    requires b != [] && (forall i, j :: 0 <= i < j < |b| ==> b[i] != b[j]) && !Ambiguous(steps, p)
    requires forall k :: k in unfinished ==> 0 < k < |b| && Edge(HashOf(b[k]), HashOf(b[k - 1])) in PathEdges(steps, p)
    requires forall e :: e in PathEdges(steps, p) ==> Recovery.UndoesOne(e, b, unfinished) || Recovery.Aside(e, b)
    requires forall i :: 0 <= i < |steps| ==> steps[i].waitsFor.None?
    ensures Recovery.WroteThrough(steps, p, b, unfinished)
  {
  }

  /**
   * A session of commits that stopped at any state of any run, as long as the records that mattered on
   * a path were distinct throughout: the log it left replays, and whatever order recovery takes its
   * steps in, and however often it crashes first, the path ends at the content after its last write
   * that had landed (`landed` is 0 if there is none).
   */
  lemma CrashedSessionRecovers(run: seq<State>, k: nat, p: Path, log: seq<Replayed>, landed: nat, final: Progress)
    requires IsSession(run) && k < |run|
    requires forall j :: 0 <= j <= k ==> Distinct(run[0].session.disk, run[j], p)
    requires Replays(run[k].wal, log)
    ensures LogSteps(log).Ok? && WellFormed(LogSteps(log).value)
    ensures Recovered(LogSteps(log).value, run[k].session.disk, final)
            && Recovery.LastLanded(Unfinished(run[k], p), landed, |Line(run[k], p)|) ==>
              At(final.disk, p) == ContentAt(run[0].session.disk, run[k], p, landed)
  {
    var start, s := run[0].session.disk, run[k];
    SessionKeepsInvariant(run, k, p);
    LogStepsOk(s, log);
    LogStepsWellFormed(log);
    if && Recovered(LogSteps(log).value, s.session.disk, final)
       && Recovery.LastLanded(Unfinished(s, p), landed, |Line(s, p)|) {
      LogWroteThrough(start, s, log, p);
      Recovery.TrailingRunUndone(LogSteps(log).value, p, Contents(start, s, p), Unfinished(s, p), |Line(s, p)|, landed,
                                 s.session.disk, final);
    }
  }

  /** And at no crash of that recovery does the path hold anything older. */
  lemma LandedCommitSurvives(run: seq<State>, k: nat, p: Path, log: seq<Replayed>, landed: nat, disks: seq<Disk>)
    returns (m: nat)
    requires IsSession(run) && k < |run|
    requires forall j :: 0 <= j <= k ==> Distinct(run[0].session.disk, run[j], p)
    requires Replays(run[k].wal, log) && LogSteps(log).Ok? && WellFormed(LogSteps(log).value)
    requires Crashes(LogSteps(log).value, disks) && disks[0] == run[k].session.disk
    requires Recovery.LastLanded(Unfinished(run[k], p), landed, |Line(run[k], p)|)
    ensures landed <= m <= |Line(run[k], p)|
    ensures At(disks[|disks| - 1], p) == ContentAt(run[0].session.disk, run[k], p, m)
  {
    var start, s := run[0].session.disk, run[k];
    SessionKeepsInvariant(run, k, p);
    LogWroteThrough(start, s, log, p);
    var b := Contents(start, s, p);
    Recovery.LandedWriteSurvivesEveryCrash(LogSteps(log).value, p, b, Unfinished(s, p), |Line(s, p)|, landed, disks);
    m :| landed <= m <= |Line(s, p)| && At(disks[|disks| - 1], p) == b[m];
  }
}
