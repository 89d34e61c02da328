/** What any order of taking the undo steps leads to, and what a crash on the way changes: nothing. */
module Recovery {
  import opened Prelude
  import opened Cycles
  import opened Steps

  // ---- reachability along a path's edges ----

  /** A path's edges are those of the steps on it. */
  lemma {:induction false} PathEdgesContents(steps: seq<Step>, path: Path)
    ensures forall i :: 0 <= i < |steps| && steps[i].work.path == path ==> EdgeOf(steps[i]) in PathEdges(steps, path)
    ensures forall e :: e in PathEdges(steps, path) ==> HasEdge(steps, path, e)
  {
    if steps != [] {
      var front := steps[..|steps| - 1];
      PathEdgesContents(front, path);
      forall e | HasEdge(front, path, e) ensures HasEdge(steps, path, e) {
        var i :| 0 <= i < |front| && front[i].work.path == path && EdgeOf(front[i]) == e;
        assert steps[i] == front[i];
      }
      assert forall i :: 0 <= i < |front| ==> steps[i] == front[i];
    }
  }

  lemma {:induction false} ReachesTransitive(edges: seq<Edge>, a: Node, b: Node, c: Node)
    requires Reaches(edges, a, b) && Reaches(edges, b, c)
    ensures Reaches(edges, a, c)
  {
    var w1 :| WalkFromTo(edges, w1, a, b);
    var w2 :| WalkFromTo(edges, w2, b, c);
    var w := w1 + w2[1..];
    forall i | 0 < i < |w| ensures Linked(edges, w[i - 1], w[i]) {
      if i >= |w1| {
        assert w[i] == w2[i - |w1| + 1];
        assert w[i - 1] == w2[i - |w1|];
      }
    }
    assert WalkFromTo(edges, w, a, c);
  }

  /** A set of contents that every edge keeps is never left. */
  lemma ReachesStaysIn(edges: seq<Edge>, a: Node, b: Node, kept: set<Node>)
    requires Reaches(edges, a, b) && a in kept
    requires forall e :: e in edges && e.from in kept ==> e.to in kept
    ensures b in kept
  {
    var walk :| WalkFromTo(edges, walk, a, b);
    WalkStaysIn(edges, walk, kept, |walk| - 1);
  }

  lemma {:induction false} WalkStaysIn(edges: seq<Edge>, walk: seq<Node>, kept: set<Node>, n: nat)
    requires IsWalk(edges, walk) && walk[0] in kept && n < |walk|
    requires forall e :: e in edges && e.from in kept ==> e.to in kept
    ensures walk[n] in kept
  {
    if n > 0 {
      WalkStaysIn(edges, walk, kept, n - 1);
      assert Linked(edges, walk[n - 1], walk[n]);
      assert Edge(walk[n - 1], walk[n]).to in kept;
    }
  }

  // ---- what every run keeps ----

  /** Between runs: an ambiguous path is untouched, any other moved along recorded edges only. */
  ghost predicate MovedAlong(steps: seq<Step>, before: Disk, after: Disk, path: Path) {
    if Ambiguous(steps, path) then At(after, path) == At(before, path)
    else Reaches(PathEdges(steps, path), HashOf(At(before, path)), HashOf(At(after, path)))
  }

  /** Within a run: a finished step's path has moved on along the edges from that step's target. */
  ghost predicate Tracks(steps: seq<Step>, before: Disk, s: Progress) {
    && |s.done| == |steps|
    && (forall path :: MovedAlong(steps, before, s.disk, path))
    && (forall i :: 0 <= i < |steps| && s.done[i] ==> FinishedAt(steps, s.disk, i))
  }

  ghost predicate FinishedAt(steps: seq<Step>, disk: Disk, i: nat)
    requires i < |steps|
  {
    var work := steps[i].work;
    && !Ambiguous(steps, work.path)
    && Reaches(PathEdges(steps, work.path), HashOf(work.target), HashOf(At(disk, work.path)))
  }

  lemma VisitKeepsTracks(steps: seq<Step>, before: Disk, s: Progress, i: nat)
    requires WellFormed(steps) && Tracks(steps, before, s) && i < |steps|
    ensures Tracks(steps, before, Visit(steps, s, i))
  {
    var work := steps[i].work;
    var s' := Visit(steps, s, i);
    var edges := PathEdges(steps, work.path);
    PathEdgesContents(steps, work.path);
    ReachesSelf(edges, HashOf(work.target));
    if s'.disk != s.disk {
      assert Linked(edges, HashOf(At(s.disk, work.path)), HashOf(work.target));
      forall path ensures MovedAlong(steps, before, s'.disk, path) {
        assert MovedAlong(steps, before, s.disk, path);
        if path == work.path {
          ReachesThenEdge(edges, HashOf(At(before, path)), HashOf(At(s.disk, path)), HashOf(work.target));
        }
      }
      forall j | 0 <= j < |steps| && s'.done[j] ensures FinishedAt(steps, s'.disk, j) {
        if j != i && steps[j].work.path == work.path {
          assert FinishedAt(steps, s.disk, j);
          ReachesThenEdge(edges, HashOf(steps[j].work.target), HashOf(At(s.disk, work.path)), HashOf(work.target));
        } else if j != i {
          assert FinishedAt(steps, s.disk, j);
        }
      }
    } else {
      forall j | 0 <= j < |steps| && s'.done[j] ensures FinishedAt(steps, s'.disk, j) {
        if j != i || s.done[i] { assert FinishedAt(steps, s.disk, j); }
      }
    }
  }

  lemma {:induction false} RunKeepsTracks(steps: seq<Step>, before: Disk, visits: seq<nat>)
    requires WellFormed(steps) && Visits(steps, visits)
    ensures Tracks(steps, before, Run(steps, Start(steps, before), visits))
  {
    if visits == [] {
      forall path ensures MovedAlong(steps, before, before, path) {
        ReachesSelf(PathEdges(steps, path), HashOf(At(before, path)));
      }
    } else {
      var n := |visits| - 1;
      RunKeepsTracks(steps, before, visits[..n]);
      VisitKeepsTracks(steps, before, Run(steps, Start(steps, before), visits[..n]), visits[n]);
    }
  }

  lemma MovedAlongTransitive(steps: seq<Step>, a: Disk, b: Disk, c: Disk, path: Path)
    requires MovedAlong(steps, a, b, path) && MovedAlong(steps, b, c, path)
    ensures MovedAlong(steps, a, c, path)
  {
    if !Ambiguous(steps, path) {
      ReachesTransitive(PathEdges(steps, path), HashOf(At(a, path)), HashOf(At(b, path)), HashOf(At(c, path)));
    }
  }

  lemma {:induction false} CrashesMoveAlong(steps: seq<Step>, disks: seq<Disk>, path: Path)
    requires WellFormed(steps) && Crashes(steps, disks)
    ensures MovedAlong(steps, disks[0], disks[|disks| - 1], path)
  {
    var n := |disks| - 1;
    if n == 0 {
      ReachesSelf(PathEdges(steps, path), HashOf(At(disks[0], path)));
    } else {
      var front := disks[..n];
      assert Crashes(steps, front);
      CrashesMoveAlong(steps, front, path);
      assert PartialRun(steps, disks[n - 1], disks[n]);
      var visits :| Visits(steps, visits) && Run(steps, Start(steps, disks[n - 1]), visits).disk == disks[n];
      RunKeepsTracks(steps, disks[n - 1], visits);
      MovedAlongTransitive(steps, disks[0], disks[n - 1], disks[n], path);
    }
  }

  // ---- where a complete recovery ends ----

  /** The recorded edge of step `i` still leads away from what its path holds. */
  ghost predicate LeadsAway(step: Step, disk: Disk) {
    HashOf(At(disk, step.work.path)) == step.work.expected && step.work.expected != HashOf(step.work.target)
  }

  /**
   * Terminal: on a path the log can order, no recorded edge, done or not, leads away from the
   * final content, except that of a move source still waiting on its destination.
   */
  lemma EndsAtSink(steps: seq<Step>, before: Disk, s: Progress, i: nat)
    requires WellFormed(steps) && Tracks(steps, before, s) && Stuck(steps, s)
    requires i < |steps| && !Ambiguous(steps, steps[i].work.path)
    requires LeadsAway(steps[i], s.disk)
    ensures !MayAct(steps[i], s.done)
  {
    var step := steps[i];
    assert Visit(steps, s, i) == s;
    if MayAct(step, s.done) {
      if s.done[i] {
        var edges := PathEdges(steps, step.work.path);
        PathEdgesContents(steps, step.work.path);
        assert Edge(step.work.expected, HashOf(step.work.target)) == EdgeOf(step);
        assert FinishedAt(steps, s.disk, i);
        EdgeClosesCycle(edges, step.work.expected, HashOf(step.work.target));
      }
    }
  }

  /** A step left undone on an orderable path does not hold its target. */
  lemma UndoneIsNotAtTarget(steps: seq<Step>, s: Progress, i: nat)
    requires WellFormed(steps) && |s.done| == |steps| && Stuck(steps, s)
    requires i < |steps| && !Ambiguous(steps, steps[i].work.path) && !s.done[i]
    ensures HashOf(At(s.disk, steps[i].work.path)) != HashOf(steps[i].work.target)
  {
    assert Visit(steps, s, i) == s;
  }

  /** A recovery that ran to its end can be described from the disk its first attempt found. */
  lemma RecoveredFrom(steps: seq<Step>, disk: Disk, s: Progress) returns (last: Disk)
    requires WellFormed(steps) && Recovered(steps, disk, s)
    ensures Tracks(steps, last, s) && Stuck(steps, s)
    ensures forall path :: MovedAlong(steps, disk, s.disk, path)
  {
    var disks :| Crashes(steps, disks) && disks[0] == disk && CompleteRun(steps, disks[|disks| - 1], s);
    last := disks[|disks| - 1];
    var visits :| Visits(steps, visits) && s == Run(steps, Start(steps, last), visits) && Stuck(steps, s);
    RunKeepsTracks(steps, last, visits);
    forall path ensures MovedAlong(steps, disk, s.disk, path) {
      CrashesMoveAlong(steps, disks, path);
      MovedAlongTransitive(steps, disk, last, s.disk, path);
    }
  }

  /** A path whose recorded edges form a cycle is left as found at every crash, and none of its steps is done. */
  lemma AmbiguousPathStays(steps: seq<Step>, disk: Disk, s: Progress, path: Path)
    requires WellFormed(steps) && Recovered(steps, disk, s) && Cyclic(PathEdges(steps, path))
    ensures At(s.disk, path) == At(disk, path)
    ensures |s.done| == |steps| && forall i :: 0 <= i < |steps| && steps[i].work.path == path ==> !s.done[i]
    ensures forall disks :: Crashes(steps, disks) && disks[0] == disk ==>
              At(disks[|disks| - 1], path) == At(disk, path)
  {
    var last := RecoveredFrom(steps, disk, s);
    assert MovedAlong(steps, disk, s.disk, path);
    forall i | 0 <= i < |steps| && steps[i].work.path == path ensures !s.done[i] {
      assert s.done[i] ==> FinishedAt(steps, s.disk, i);
    }
    forall disks | Crashes(steps, disks) && disks[0] == disk ensures At(disks[|disks| - 1], path) == At(disk, path) {
      CrashesMoveAlong(steps, disks, path);
    }
  }

  // ---- running again over the same log ----

  /** Over a finished recovery's disk, a second run marks only steps the first had finished. */
  ghost predicate Repeats(steps: seq<Step>, first: Progress, second: Progress) {
    && |first.done| == |second.done| == |steps|
    && second.disk == first.disk
    && forall i :: 0 <= i < |steps| && second.done[i] ==> first.done[i]
  }

  lemma VisitRepeats(steps: seq<Step>, before: Disk, first: Progress, second: Progress, i: nat)
    requires WellFormed(steps) && Tracks(steps, before, first) && Stuck(steps, first)
    requires Repeats(steps, first, second) && i < |steps|
    ensures Repeats(steps, first, Visit(steps, second, i))
  {
    var step := steps[i];
    if !second.done[i] && !Ambiguous(steps, step.work.path) {
      match Compare(step.work, At(second.disk, step.work.path))
      case AlreadyThere =>
        if !first.done[i] { UndoneIsNotAtTarget(steps, first, i); }
      case Foreign =>
      case Done =>
        EndsAtSink(steps, before, first, i);
    }
  }

  /** Idempotent: a second run over the same log, in any order and however far it gets, writes nothing. */
  lemma {:induction false} SecondRunWritesNothing(steps: seq<Step>, disk: Disk, first: Progress, visits: seq<nat>)
    requires WellFormed(steps) && Recovered(steps, disk, first) && Visits(steps, visits)
    ensures Repeats(steps, first, Run(steps, Start(steps, first.disk), visits))
  {
    if visits != [] {
      var n := |visits| - 1;
      SecondRunWritesNothing(steps, disk, first, visits[..n]);
      var last := RecoveredFrom(steps, disk, first);
      VisitRepeats(steps, last, first, Run(steps, Start(steps, first.disk), visits[..n]), visits[n]);
    } else {
      var last := RecoveredFrom(steps, disk, first);
    }
  }

  // ---- one step, one write ----

  ghost predicate Writes(steps: seq<Step>, s: Progress, i: nat)
    requires WellFormed(steps) && i < |steps|
  {
    && |s.done| == |steps| && !s.done[i] && !Ambiguous(steps, steps[i].work.path) && MayAct(steps[i], s.done)
    && Compare(steps[i].work, At(s.disk, steps[i].work.path)).Done?
  }

  predicate Finished(s: Progress, i: nat) {
    i < |s.done| && s.done[i]
  }

  lemma {:induction false} DoneStaysDone(steps: seq<Step>, s: Progress, visits: seq<nat>, n: nat, i: nat)
    requires WellFormed(steps) && Visits(steps, visits)
    requires n <= |visits| && Finished(Run(steps, s, visits[..n]), i)
    ensures Finished(Run(steps, s, visits), i)
  {
    if n == |visits| {
      assert visits[..n] == visits;
    } else {
      var front := visits[..|visits| - 1];
      assert front[..n] == visits[..n];
      DoneStaysDone(steps, s, front, n, i);
      assert Run(steps, s, visits) == Visit(steps, Run(steps, s, front), visits[|visits| - 1]);
    }
  }

  /** Each step writes at most once in a run: two visits that write are visits of different steps. */
  lemma WritesAtMostOnce(steps: seq<Step>, s: Progress, visits: seq<nat>, j: nat, k: nat)
    requires WellFormed(steps) && Visits(steps, visits)
    requires j < k < |visits|
    requires Writes(steps, Run(steps, s, visits[..j]), visits[j])
    requires Writes(steps, Run(steps, s, visits[..k]), visits[k])
    ensures visits[j] != visits[k]
  {
    assert visits[..k][..j + 1] == visits[..j + 1];
    assert visits[..j + 1][..j] == visits[..j];
    assert Finished(Run(steps, s, visits[..j + 1]), visits[j]);
    DoneStaysDone(steps, s, visits[..k], j + 1, visits[j]);
  }

  // ---- the trailing unfinished run ----

  /**
   * One path went through the pairwise-distinct contents `b`; write `k` took it from `b[k - 1]`
   * to `b[k]`, and of these writes exactly the ones in `unfinished` left a step in the log. The log may
   * also hold steps that lead away from other contents, as long as it can be ordered.
   */
  ghost predicate WroteThrough(steps: seq<Step>, path: Path, b: seq<Option<Bytes>>, unfinished: set<nat>) {
    && b != [] && (forall i, j :: 0 <= i < j < |b| ==> b[i] != b[j])
    && (forall k :: k in unfinished ==> 0 < k < |b| && Edge(HashOf(b[k]), HashOf(b[k - 1])) in PathEdges(steps, path))
    && (forall i :: 0 <= i < |steps| && steps[i].work.path == path ==> steps[i].waitsFor.None?)
    && (forall e :: e in PathEdges(steps, path) ==> UndoesOne(e, b, unfinished) || Aside(e, b))
    && ((exists e :: e in PathEdges(steps, path) && Aside(e, b)) ==> !Ambiguous(steps, path))
  }

  /** The edge of a write that was never made, or is undone: it starts from a content the path did not go through. */
  ghost predicate Aside(e: Edge, b: seq<Option<Bytes>>) {
    forall k :: 0 <= k < |b| ==> e.from != HashOf(b[k])
  }

  ghost predicate UndoesOne(e: Edge, b: seq<Option<Bytes>>, unfinished: set<nat>) {
    exists k :: k in unfinished && 0 < k < |b| && e == Edge(HashOf(b[k]), HashOf(b[k - 1]))
  }

  /** Write `landed` is the last landed one at or before content `m` (0 if there is none). */
  ghost predicate LastLanded(unfinished: set<nat>, landed: nat, m: nat) {
    && landed <= m && landed !in unfinished
    && forall k :: landed < k <= m ==> k in unfinished
  }

  lemma UndoneWrite(e: Edge, b: seq<Option<Bytes>>, unfinished: set<nat>, m: nat) returns (k: nat)
    requires forall i, j :: 0 <= i < j < |b| ==> b[i] != b[j]
    requires UndoesOne(e, b, unfinished) && m < |b| && e.from == HashOf(b[m])
    ensures k == m && m in unfinished && 0 < m && e.to == HashOf(b[m - 1])
  {
    k :| k in unfinished && 0 < k < |b| && e == Edge(HashOf(b[k]), HashOf(b[k - 1]));
    assert b[k] == b[m];
  }

  lemma {:induction false} WalkDescendsWrites(steps: seq<Step>, path: Path, b: seq<Option<Bytes>>, unfinished: set<nat>,
                           walk: seq<Node>, m: nat, n: nat) returns (k: nat)
    requires WroteThrough(steps, path, b, unfinished) && IsWalk(PathEdges(steps, path), walk)
    requires m < |b| && walk[0] == HashOf(b[m]) && n < |walk|
    ensures k + n == m && walk[n] == HashOf(b[k]) && forall i :: k < i <= m ==> i in unfinished
  {
    if n == 0 {
      k := m;
    } else {
      var k' := WalkDescendsWrites(steps, path, b, unfinished, walk, m, n - 1);
      assert Linked(PathEdges(steps, path), walk[n - 1], walk[n]);
      var e := Edge(walk[n - 1], walk[n]);
      EdgeUndoesOne(steps, path, b, unfinished, e);
      k := UndoneWrite(e, b, unfinished, k');
      k := k - 1;
    }
  }

  lemma DistinctWritesAreOrderable(steps: seq<Step>, path: Path, b: seq<Option<Bytes>>, unfinished: set<nat>)
    requires WroteThrough(steps, path, b, unfinished)
    ensures !Ambiguous(steps, path)
  {
    var edges := PathEdges(steps, path);
    if forall e :: e in edges ==> !Aside(e, b) {
      forall walk | |walk| >= 2 && IsWalk(edges, walk) ensures walk[0] != walk[|walk| - 1] {
        WalkNeverReturns(steps, path, b, unfinished, walk);
      }
    }
  }

  /** A walk of at least one edge ends at an older content than it began with. */
  lemma WalkNeverReturns(steps: seq<Step>, path: Path, b: seq<Option<Bytes>>, unfinished: set<nat>, walk: seq<Node>)
    requires WroteThrough(steps, path, b, unfinished)
    requires |walk| >= 2 && IsWalk(PathEdges(steps, path), walk)
    requires forall e :: e in PathEdges(steps, path) ==> !Aside(e, b)
    ensures walk[0] != walk[|walk| - 1]
  {
    var m := WalkStart(steps, path, b, unfinished, walk);
    var k := WalkDescendsWrites(steps, path, b, unfinished, walk, m, |walk| - 1);
    assert b[k] != b[m];
  }

  lemma EdgeUndoesOne(steps: seq<Step>, path: Path, b: seq<Option<Bytes>>, unfinished: set<nat>, e: Edge)
    requires WroteThrough(steps, path, b, unfinished) && e in PathEdges(steps, path) && !Aside(e, b)
    ensures UndoesOne(e, b, unfinished)
  {
  }

  lemma EdgeStart(e: Edge, b: seq<Option<Bytes>>, unfinished: set<nat>) returns (m: nat)
    requires UndoesOne(e, b, unfinished)
    ensures m < |b| && e.from == HashOf(b[m])
  {
    m :| m in unfinished && 0 < m < |b| && e == Edge(HashOf(b[m]), HashOf(b[m - 1]));
  }

  lemma FirstEdge(edges: seq<Edge>, walk: seq<Node>)
    requires |walk| >= 2 && IsWalk(edges, walk)
    ensures Edge(walk[0], walk[1]) in edges
  {
    assert Linked(edges, walk[1 - 1], walk[1]);
  }

  lemma WalkStart(steps: seq<Step>, path: Path, b: seq<Option<Bytes>>, unfinished: set<nat>, walk: seq<Node>)
    returns (m: nat)
    requires WroteThrough(steps, path, b, unfinished)
    requires |walk| >= 2 && IsWalk(PathEdges(steps, path), walk)
    requires forall e :: e in PathEdges(steps, path) ==> !Aside(e, b)
    ensures m < |b| && walk[0] == HashOf(b[m])
  {
    FirstEdge(PathEdges(steps, path), walk);
    EdgeUndoesOne(steps, path, b, unfinished, Edge(walk[0], walk[1]));
    m := EdgeStart(Edge(walk[0], walk[1]), b, unfinished);
  }

  /**
   * Recovery undoes exactly the trailing unfinished run: whatever order it takes the steps in, and
   * however often it crashes first, the path ends at the content after its last landed write.
   */
  lemma TrailingRunUndone(steps: seq<Step>, path: Path, b: seq<Option<Bytes>>, unfinished: set<nat>,
                          m: nat, landed: nat, disk: Disk, s: Progress)
    requires WellFormed(steps) && WroteThrough(steps, path, b, unfinished)
    requires m < |b| && LastLanded(unfinished, landed, m) && At(disk, path) == b[m]
    requires Recovered(steps, disk, s)
    ensures At(s.disk, path) == b[landed]
  {
    DistinctWritesAreOrderable(steps, path, b, unfinished);
    var last := RecoveredFrom(steps, disk, s);
    assert MovedAlong(steps, disk, s.disk, path);
    var edges := PathEdges(steps, path);
    var walk :| WalkFromTo(edges, walk, HashOf(b[m]), HashOf(At(s.disk, path)));
    var k := WalkDescendsWrites(steps, path, b, unfinished, walk, m, |walk| - 1);
    assert At(s.disk, path) == b[k];
    if k in unfinished {
      PathEdgesContents(steps, path);
      assert HasEdge(steps, path, Edge(HashOf(b[k]), HashOf(b[k - 1])));
      var i :| 0 <= i < |steps| && steps[i].work.path == path
        && EdgeOf(steps[i]) == Edge(HashOf(b[k]), HashOf(b[k - 1]));
      assert b[k] != b[k - 1];
      EndsAtSink(steps, last, s, i);
      assert false;
    }
    assert k > landed ==> k in unfinished;
  }

  /** A landed write is never undone: at no point of any recovery does the path hold older bytes. */
  lemma LandedWriteSurvivesEveryCrash(steps: seq<Step>, path: Path, b: seq<Option<Bytes>>, unfinished: set<nat>,
                                      m: nat, landed: nat, disks: seq<Disk>)
    requires WellFormed(steps) && WroteThrough(steps, path, b, unfinished)
    requires m < |b| && LastLanded(unfinished, landed, m)
    requires Crashes(steps, disks) && At(disks[0], path) == b[m]
    ensures exists k :: landed <= k <= m && At(disks[|disks| - 1], path) == b[k]
  {
    DistinctWritesAreOrderable(steps, path, b, unfinished);
    CrashesMoveAlong(steps, disks, path);
    var now := HashOf(At(disks[|disks| - 1], path));
    var walk :| WalkFromTo(PathEdges(steps, path), walk, HashOf(b[m]), now);
    var k := WalkDescendsWrites(steps, path, b, unfinished, walk, m, |walk| - 1);
    assert At(disks[|disks| - 1], path) == b[k];
    assert k < landed ==> landed in unfinished;
  }

  // ---- what the recovery loop's contract gives ----

  /** A complete run needs no earlier attempt. */
  lemma CompleteIsRecovered(steps: seq<Step>, disk: Disk, s: Progress)
    requires WellFormed(steps) && CompleteRun(steps, disk, s)
    ensures Recovered(steps, disk, s)
  {
    var disks := [disk];
    assert Crashes(steps, disks) && disks[0] == disk;
  }

  lemma OneMoreCrash(steps: seq<Step>, disk: Disk, disks: seq<Disk>)
    requires WellFormed(steps) && Crashes(steps, disks) && PartialRun(steps, disk, disks[0])
    ensures Crashes(steps, [disk] + disks)
  {
    var more := [disk] + disks;
    forall k | 0 < k < |more| ensures PartialRun(steps, more[k - 1], more[k]) {
      if k > 1 { assert PartialRun(steps, disks[k - 1 - 1], disks[k - 1]); }
    }
  }

  /** An attempt that crashed anywhere can be put in front of any recovery of what it left. */
  lemma {:induction false} CrashedThenRecovered(steps: seq<Step>, disk: Disk, crashed: Disk, s: Progress)
    requires WellFormed(steps) && PartialRun(steps, disk, crashed) && Recovered(steps, crashed, s)
    ensures Recovered(steps, disk, s)
  {
    var disks :| Crashes(steps, disks) && disks[0] == crashed && CompleteRun(steps, disks[|disks| - 1], s);
    OneMoreCrash(steps, disk, disks);
    var all := [disk] + disks;
    assert all[|all| - 1] == disks[|disks| - 1];
    RecoveredBy(steps, all, s);
  }

  lemma RecoveredBy(steps: seq<Step>, disks: seq<Disk>, s: Progress)
    requires WellFormed(steps) && Crashes(steps, disks) && CompleteRun(steps, disks[|disks| - 1], s)
    ensures Recovered(steps, disks[0], s)
  {
  }

  /** With nothing to undo, a recovery ends where it began. */
  lemma NoStepsRecover(disk: Disk)
    ensures WellFormed([]) && Recovered([], disk, Progress(disk, []))
  {
    var none: seq<Step> := [];
    var s := Progress(disk, []);
    var visits: seq<nat> := [];
    assert Visits(none, visits) && s == Run(none, Start(none, disk), visits) && Stuck(none, s);
    CompleteIsRecovered(none, disk, s);
  }
}
