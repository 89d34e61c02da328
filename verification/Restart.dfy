/** The restart path: replay the log, converge every intent, report what was left, clear the log. */
module Restart {
  import opened Prelude
  import opened Cycles
  import opened Steps
  import opened Wal
  import opened Worlds

  datatype LeftPath = LeftPath(intent: IntentId, path: Path)

  datatype RecoverFailure = Unreadable | Malformed(error: RecoverError) | IoFailed | NotCleared

  /** The steps left undone, in log order. */
  function LeftOf(steps: seq<Step>, done: seq<bool>): seq<LeftPath>
    requires |steps| == |done|
  {
    if steps == [] then []
    else
      var n := |steps| - 1;
      var front := LeftOf(steps[..n], done[..n]);
      if done[n] then front else front + [LeftPath(steps[n].intent, steps[n].work.path)]
  }

  /**
   * A report with one entry for each step left undone, in log order, that says whose step it was and on
   * which path; `at` are the places of those steps in the log.
   */
  ghost predicate ReportsUndone(steps: seq<Step>, done: seq<bool>, left: seq<LeftPath>, at: seq<nat>) {
    && |steps| == |done| && |left| == |at| && Increasing(at)
    && (forall k :: 0 <= k < |at| ==>
          && at[k] < |steps| && !done[at[k]]
          && left[k].intent == steps[at[k]].intent && left[k].path == steps[at[k]].work.path)
    && (forall i: nat :: i < |steps| && !done[i] ==> i in at)
  }

  method ReportLeft(steps: seq<Step>, done: seq<bool>) returns (left: seq<LeftPath>, ghost at: seq<nat>)
    requires |steps| == |done|
    ensures left == LeftOf(steps, done) && ReportsUndone(steps, done, left, at)
  {
    left := [];
    at := [];
    for i := 0 to |steps|
      invariant left == LeftOf(steps[..i], done[..i]) && ReportsUndone(steps[..i], done[..i], left, at)
    {
      assert steps[..i + 1][..i] == steps[..i] && done[..i + 1][..i] == done[..i];
      ReportOneMore(steps, done, i, left, at);
      if !done[i] {
        left := left + [LeftPath(steps[i].intent, steps[i].work.path)];
        at := at + [i];
      }
    }
    assert steps[..|steps|] == steps && done[..|done|] == done;
  }

  lemma ReportOneMore(steps: seq<Step>, done: seq<bool>, i: nat, left: seq<LeftPath>, at: seq<nat>)
    requires |steps| == |done| && i < |steps| && ReportsUndone(steps[..i], done[..i], left, at)
    ensures done[i] ==> ReportsUndone(steps[..i + 1], done[..i + 1], left, at)
    ensures var entry := LeftPath(steps[i].intent, steps[i].work.path);
            !done[i] ==> ReportsUndone(steps[..i + 1], done[..i + 1], left + [entry], at + [i])
  {
    forall j: nat | j < i && !done[j] ensures j in at { assert !done[..i][j]; }
    forall k | 0 <= k < |at| ensures at[k] < i && !done[at[k]] { assert !done[..i][at[k]]; }
  }

  /** An entry is in such a report exactly when some undone step has its intent and its path. */
  lemma ReportedIffUndone(steps: seq<Step>, done: seq<bool>, left: seq<LeftPath>, at: seq<nat>, id: IntentId,
                          path: Path)
    requires ReportsUndone(steps, done, left, at)
    ensures LeftPath(id, path) in left
            <==> exists i :: 0 <= i < |steps| && !done[i] && steps[i].intent == id && steps[i].work.path == path
  {
    if i: nat :| i < |steps| && !done[i] && steps[i].intent == id && steps[i].work.path == path {
      var k :| 0 <= k < |at| && at[k] == i;
      assert left[k] == LeftPath(id, path);
    }
  }

  ghost predicate Grouped(steps: seq<Step>, edges: map<Path, seq<Edge>>) {
    && (forall p :: p in edges ==> edges[p] == PathEdges(steps, p))
    && (forall j :: 0 <= j < |steps| ==> steps[j].work.path in edges)
  }

  lemma {:induction false} NoStepsNoEdges(steps: seq<Step>, p: Path)
    requires forall j :: 0 <= j < |steps| ==> steps[j].work.path != p
    ensures PathEdges(steps, p) == []
  {
    if steps != [] { NoStepsNoEdges(steps[..|steps| - 1], p); }
  }

  lemma GroupOneMore(steps: seq<Step>, step: Step, edges: map<Path, seq<Edge>>)
    requires Grouped(steps, edges)
    ensures var p := step.work.path;
            Grouped(steps + [step], edges[p := (if p in edges then edges[p] else []) + [EdgeOf(step)]])
  {
    var more, p := steps + [step], step.work.path;
    assert more[..|steps|] == steps;
    if p !in edges { NoStepsNoEdges(steps, p); }
  }

  /** Each path's edges, in log order. */
  method GroupEdges(steps: seq<Step>) returns (edges: map<Path, seq<Edge>>)
    ensures Grouped(steps, edges)
  {
    edges := map[];
    for i := 0 to |steps|
      invariant Grouped(steps[..i], edges)
    {
      assert steps[..i + 1] == steps[..i] + [steps[i]];
      GroupOneMore(steps[..i], steps[i], edges);
      var p := steps[i].work.path;
      edges := edges[p := (if p in edges then edges[p] else []) + [EdgeOf(steps[i])]];
    }
    assert steps[..|steps|] == steps;
  }

  /** The set holds exactly those of the steps' paths whose edges form a cycle. */
  ghost predicate KnowsAmbiguous(steps: seq<Step>, ambiguous: set<Path>) {
    forall i :: 0 <= i < |steps| ==> (steps[i].work.path in ambiguous <==> Ambiguous(steps, steps[i].work.path))
  }

  /** The paths whose recorded edges form a cycle. */
  method AmbiguousPaths(steps: seq<Step>) returns (ambiguous: set<Path>)
    ensures KnowsAmbiguous(steps, ambiguous)
  {
    var edges := GroupEdges(steps);
    ambiguous := {};
    var todo := edges.Keys;
    while todo != {}
      invariant todo <= edges.Keys
      invariant forall p :: p in edges && p !in todo ==> (p in ambiguous <==> Ambiguous(steps, p))
      invariant ambiguous <= edges.Keys - todo
      decreases |todo|
    {
      var p :| p in todo;
      var cyclic, _ := HasCycle(edges[p]);
      assert cyclic <==> Ambiguous(steps, p);
      if cyclic {
        ambiguous := ambiguous + {p};
      }
      todo := todo - {p};
    }
  }

  /** One turn of the loop body. */
  method VisitStep(w: World, steps: seq<Step>, ambiguous: set<Path>, done: seq<bool>, i: nat)
    returns (r: Result<bool, ()>)
    requires WellFormed(steps) && |done| == |steps| && i < |steps|
    requires !done[i] && (steps[i].work.path in ambiguous <==> Ambiguous(steps, steps[i].work.path))
    modifies w`disk, w`trace
    ensures var s := Progress(old(w.disk), done);
            var next := Visit(steps, s, i);
            && (r.Ok? ==> w.disk == next.disk && next.done == (if r.value then done[i := true] else done))
            && (r.Ok? && !r.value ==> next == s)
            && (w.disk == old(w.disk) || w.disk == next.disk)
            && (w.trace == old(w.trace) || w.trace == old(w.trace) + [w.Now()])
  {
    var step := steps[i];
    if step.work.path in ambiguous {
      return Ok(false);
    }
    if step.waitsFor.Some? && !done[step.waitsFor.value] {
      var now := w.Read(step.work.path);
      if now.Err? {
        return Err(());
      }
      return Ok(HashOf(now.value) == HashOf(step.work.target));
    }
    var outcome := w.ConvergePath(step.work);
    if outcome.Err? {
      return Err(());
    }
    return Ok(outcome.value != Foreign);
  }

  ghost predicate IsRun(steps: seq<Step>, disk: Disk, visits: seq<nat>, s: Progress)
    requires WellFormed(steps)
  {
    Visits(steps, visits) && s == Run(steps, Start(steps, disk), visits)
  }

  lemma RunIsPartial(steps: seq<Step>, disk: Disk, visits: seq<nat>, s: Progress)
    requires WellFormed(steps) && IsRun(steps, disk, visits, s)
    ensures PartialRun(steps, disk, s.disk)
  {
  }

  /** Every snapshot since `before` kept the log and is what some partial run leaves. */
  ghost predicate RunTrace(steps: seq<Step>, disk: Disk, wal: Log, before: seq<Snapshot>, trace: seq<Snapshot>)
    requires WellFormed(steps)
  {
    && before <= trace
    && forall k :: |before| <= k < |trace| ==> trace[k].wal == wal && PartialRun(steps, disk, trace[k].disk)
  }

  // ---- the order of the passes, and why no byte of a move is lost on the way ----

  /**
   * Step `i` restores a move's source from `live` and the later step `j` removes its destination; the
   * paths have no other steps, and hold what the move found or left.
   */
  ghost predicate TakesBackAt(steps: seq<Step>, start: Disk, i: nat, j: nat, from: Path, to: Path, live: Bytes) {
    && i < j < |steps| && from != to && !Ambiguous(steps, from)
    && steps[i].work == Steps.Converge(from, None, Some(live))
    && steps[j].work == Steps.Converge(to, Some(RawHash(live)), None)
    && (forall k :: 0 <= k < |steps| && steps[k].work.path == from ==>
          steps[k].work == steps[i].work && steps[k].waitsFor.None?)
    && (forall k :: 0 <= k < |steps| && steps[k].work.path == to ==> i < k && steps[k].work == steps[j].work)
    && Movable(start, from, to, live)
  }

  /** The source is whole or gone, and the bytes are whole at one of the two paths. */
  ghost predicate Movable(disk: Disk, from: Path, to: Path, live: Bytes) {
    (At(disk, from).None? || At(disk, from) == Some(live)) && Safe(disk, from, to, live)
  }

  ghost predicate BackSince(before: seq<Snapshot>, trace: seq<Snapshot>, from: Path, to: Path, live: Bytes) {
    forall k :: |before| <= k < |trace| ==> Movable(trace[k].disk, from, to, live)
  }

  /** Once the passes have been through the first `n` steps, restores among them are made. */
  ghost predicate SourceBack(disk: Disk, n: nat, i: nat, from: Path, to: Path, live: Bytes) {
    && Movable(disk, from, to, live)
    && (i < n ==> At(disk, from) == Some(live))
  }

  ghost predicate SourcesBack(steps: seq<Step>, start: Disk, disk: Disk, n: nat) {
    forall i, j, from, to, live :: TakesBackAt(steps, start, i, j, from, to, live) ==>
      SourceBack(disk, n, i, from, to, live)
  }

  /** The bytes of every move that is taken back are whole at one of its paths at every snapshot. */
  ghost predicate MovesKeepBytes(steps: seq<Step>, start: Disk, before: seq<Snapshot>, trace: seq<Snapshot>) {
    forall i, j, from, to, live :: TakesBackAt(steps, start, i, j, from, to, live) ==>
      BackSince(before, trace, from, to, live)
  }

  lemma VisitKeepsSource(steps: seq<Step>, start: Disk, s: Progress, v: nat, n: nat,
                         i: nat, j: nat, from: Path, to: Path, live: Bytes)
    requires WellFormed(steps) && |s.done| == |steps| && v < |steps| && v <= n && !s.done[v]
    requires TakesBackAt(steps, start, i, j, from, to, live) && SourceBack(s.disk, n, i, from, to, live)
    ensures SourceBack(Visit(steps, s, v).disk, if n == v then n + 1 else n, i, from, to, live)
    ensures SourceBack(Visit(steps, s, v).disk, n, i, from, to, live)
  {
  }

  lemma VisitKeepsSources(steps: seq<Step>, start: Disk, s: Progress, v: nat, n: nat)
    requires WellFormed(steps) && |s.done| == |steps| && v < |steps| && v <= n && !s.done[v]
    requires SourcesBack(steps, start, s.disk, n)
    ensures SourcesBack(steps, start, Visit(steps, s, v).disk, if n == v then n + 1 else n)
    ensures SourcesBack(steps, start, Visit(steps, s, v).disk, n)
  {
    forall i, j, from, to, live | TakesBackAt(steps, start, i, j, from, to, live)
      ensures SourceBack(Visit(steps, s, v).disk, if n == v then n + 1 else n, i, from, to, live)
      ensures SourceBack(Visit(steps, s, v).disk, n, i, from, to, live)
    {
      VisitKeepsSource(steps, start, s, v, n, i, j, from, to, live);
    }
  }

  lemma BytesKeptOneMore(steps: seq<Step>, start: Disk, n: nat, before: seq<Snapshot>, was: seq<Snapshot>,
                         trace: seq<Snapshot>, now: Snapshot)
    requires MovesKeepBytes(steps, start, before, was) && SourcesBack(steps, start, now.disk, n)
    requires trace == was || trace == was + [now]
    ensures MovesKeepBytes(steps, start, before, trace)
  {
    forall i, j, from, to, live | TakesBackAt(steps, start, i, j, from, to, live)
      ensures BackSince(before, trace, from, to, live)
    {
      assert BackSince(before, was, from, to, live) && SourceBack(now.disk, n, i, from, to, live);
    }
  }

  /** One turn of the loop body, as one more visit of the run. */
  method Turn(w: World, steps: seq<Step>, ambiguous: set<Path>, done: seq<bool>, i: nat,
              ghost disk0: Disk, ghost visits: seq<nat>, ghost reach: nat, ghost before: seq<Snapshot>)
    returns (r: Result<bool, ()>, ghost more: seq<nat>)
    requires i <= reach && SourcesBack(steps, disk0, w.disk, reach) && MovesKeepBytes(steps, disk0, before, w.trace)
    requires WellFormed(steps) && |done| == |steps| && i < |steps| && !done[i] && KnowsAmbiguous(steps, ambiguous)
    requires IsRun(steps, disk0, visits, Progress(w.disk, done)) && RunTrace(steps, disk0, w.wal, before, w.trace)
    modifies w`disk, w`trace
    ensures PartialRun(steps, disk0, w.disk) && RunTrace(steps, disk0, w.wal, before, w.trace)
    ensures r.Ok? ==> IsRun(steps, disk0, more, Progress(w.disk, if r.value then done[i := true] else done))
    ensures r.Ok? && !r.value ==> w.disk == old(w.disk)
                                  && Visit(steps, Progress(w.disk, done), i) == Progress(w.disk, done)
    ensures MovesKeepBytes(steps, disk0, before, w.trace)
    ensures r.Ok? ==> SourcesBack(steps, disk0, w.disk, if reach == i then i + 1 else reach)
  {
    ghost var s, traced := Progress(w.disk, done), w.trace;
    VisitKeepsSources(steps, disk0, s, i, reach);
    more := visits + [i];
    RunIsPartial(steps, disk0, visits, s);
    RunIsPartial(steps, disk0, more, Visit(steps, s, i));
    r := VisitStep(w, steps, ambiguous, done, i);
    BytesKeptOneMore(steps, disk0, reach, before, traced, w.trace, w.Now());
  }

  ghost predicate NothingMoved(steps: seq<Step>, s: Progress, upTo: nat)
    requires WellFormed(steps) && |s.done| == |steps|
  {
    forall j :: 0 <= j < upTo && j < |steps| ==> Visit(steps, s, j) == s
  }

  lemma NothingMovedOneMore(steps: seq<Step>, s: Progress, i: nat)
    requires WellFormed(steps) && |s.done| == |steps| && i < |steps| && NothingMoved(steps, s, i)
    requires s.done[i] || Visit(steps, s, i) == s
    ensures NothingMoved(steps, s, i + 1)
    ensures i + 1 == |steps| ==> Stuck(steps, s)
  {
  }

  function Pending(done: seq<bool>): nat {
    if done == [] then 0 else Pending(done[..|done| - 1]) + if done[|done| - 1] then 0 else 1
  }

  lemma {:induction false} MarkingShrinks(done: seq<bool>, i: nat)
    requires i < |done| && !done[i]
    ensures Pending(done[i := true]) + 1 == Pending(done)
  {
    var n := |done| - 1;
    if i < n {
      MarkingShrinks(done[..n], i);
      assert done[i := true][..n] == done[..n][i := true];
    } else {
      assert done[i := true][..n] == done[..n];
    }
  }

  lemma {:induction false} PendingAtMost(done: seq<bool>)
    ensures Pending(done) <= |done|
  {
    if done != [] { PendingAtMost(done[..|done| - 1]); }
  }

  /** One pass over the steps, in order. */
  method Pass(w: World, steps: seq<Step>, ambiguous: set<Path>, done0: seq<bool>,
              ghost disk0: Disk, ghost visits0: seq<nat>, ghost reach0: nat, ghost before: seq<Snapshot>)
    returns (r: Result<seq<bool>, ()>, progress: bool, ghost visits: seq<nat>)
    requires SourcesBack(steps, disk0, w.disk, reach0) && MovesKeepBytes(steps, disk0, before, w.trace)
    requires reach0 <= |steps| && forall k :: 0 <= k < |done0| && done0[k] ==> k < reach0
    requires WellFormed(steps) && |done0| == |steps| && KnowsAmbiguous(steps, ambiguous)
    requires IsRun(steps, disk0, visits0, Progress(w.disk, done0)) && RunTrace(steps, disk0, w.wal, before, w.trace)
    modifies w`disk, w`trace
    ensures PartialRun(steps, disk0, w.disk) && RunTrace(steps, disk0, w.wal, before, w.trace)
    ensures r.Ok? ==> |r.value| == |steps| && IsRun(steps, disk0, visits, Progress(w.disk, r.value))
    ensures r.Ok? && !progress ==> Stuck(steps, Progress(w.disk, r.value))
    ensures r.Ok? ==> if progress then Pending(r.value) < Pending(done0) else Pending(r.value) == Pending(done0)
    ensures MovesKeepBytes(steps, disk0, before, w.trace)
    ensures r.Ok? ==> SourcesBack(steps, disk0, w.disk, |steps|)
  {
    ghost var reach := reach0;
    var done := done0;
    progress := false;
    visits := visits0;
    RunIsPartial(steps, disk0, visits, Progress(w.disk, done));
    for i := 0 to |steps|
      invariant |done| == |steps| && IsRun(steps, disk0, visits, Progress(w.disk, done))
      invariant PartialRun(steps, disk0, w.disk) && RunTrace(steps, disk0, w.wal, before, w.trace)
      invariant !progress ==> NothingMoved(steps, Progress(w.disk, done), i)
      invariant !progress && i == |steps| ==> Stuck(steps, Progress(w.disk, done))
      invariant if progress then Pending(done) < Pending(done0) else Pending(done) == Pending(done0)
      invariant i <= reach <= |steps| && reach == (if i <= reach0 then reach0 else i)
      invariant SourcesBack(steps, disk0, w.disk, reach) && MovesKeepBytes(steps, disk0, before, w.trace)
      invariant forall k :: 0 <= k < |done| && done[k] ==> k < reach
    {
      ghost var s := Progress(w.disk, done);
      if done[i] {
        if !progress { NothingMovedOneMore(steps, s, i); }
      } else {
        var acted;
        acted, visits := Turn(w, steps, ambiguous, done, i, disk0, visits, reach, before);
        if acted.Err? {
          return Err(()), progress, visits;
        }
        if reach == i { reach := i + 1; }
        if acted.value {
          MarkingShrinks(done, i);
          done := done[i := true];
          progress := true;
        } else if !progress {
          NothingMovedOneMore(steps, s, i);
        }
      }
    }
    r := Ok(done);
  }

  /**
   * Passes until one makes no progress. `passes` counts them: at most one more than there are steps.
   */
  method Converge(w: World, steps: seq<Step>, ambiguous: set<Path>)
    returns (r: Result<seq<bool>, ()>, passes: nat)
    requires WellFormed(steps) && KnowsAmbiguous(steps, ambiguous)
    modifies w`disk, w`trace
    ensures PartialRun(steps, old(w.disk), w.disk) && RunTrace(steps, old(w.disk), w.wal, old(w.trace), w.trace)
    ensures r.Ok? ==> |r.value| == |steps| && CompleteRun(steps, old(w.disk), Progress(w.disk, r.value))
    ensures passes <= |steps| + 1
    ensures MovesKeepBytes(steps, old(w.disk), old(w.trace), w.trace)
    ensures r.Ok? ==> SourcesBack(steps, old(w.disk), w.disk, |steps|)
  {
    var done := seq(|steps|, _ => false);
    ghost var reach: nat := 0;
    ghost var visits: seq<nat> := [];
    var progress := true;
    passes := 0;
    PendingAtMost(done);
    assert Progress(w.disk, done) == Start(steps, w.disk);
    RunIsPartial(steps, w.disk, visits, Progress(w.disk, done));
    while progress
      invariant |done| == |steps| && IsRun(steps, old(w.disk), visits, Progress(w.disk, done))
      invariant PartialRun(steps, old(w.disk), w.disk) && RunTrace(steps, old(w.disk), w.wal, old(w.trace), w.trace)
      invariant passes + Pending(done) <= |steps| + (if progress then 0 else 1)
      invariant !progress ==> Stuck(steps, Progress(w.disk, done))
      invariant SourcesBack(steps, old(w.disk), w.disk, reach)
                && MovesKeepBytes(steps, old(w.disk), old(w.trace), w.trace)
      invariant reach <= |steps| && forall k :: 0 <= k < |done| && done[k] ==> k < reach
      invariant !progress ==> reach == |steps|
      decreases progress, Pending(done)
    {
      var pass;
      pass, progress, visits := Pass(w, steps, ambiguous, done, old(w.disk), visits, reach, old(w.trace));
      passes := passes + 1;
      reach := |steps|;
      if pass.Err? {
        return Err(()), passes;
      }
      done := pass.value;
    }
    r := Ok(done);
  }

  /** The log after some of its intents were cleared. */
  ghost predicate PartlyCleared(wal: Log, before: Log) {
    wal.Keys <= before.Keys && forall id :: id in wal ==> wal[id] == before[id]
  }

  /** What each crash of a recovery leaves: the whole log over a partial run, or a final disk over part of it. */
  ghost predicate RecoverSnapshot(steps: seq<Step>, start: Snapshot, done: seq<bool>, s: Snapshot)
    requires WellFormed(steps)
  {
    && PartialRun(steps, start.disk, s.disk) && PartlyCleared(s.wal, start.wal)
    && (s.wal != start.wal ==> |done| == |steps| && CompleteRun(steps, start.disk, Progress(s.disk, done)))
  }

  ghost predicate RecoverTrace(steps: seq<Step>, start: Snapshot, done: seq<bool>, before: seq<Snapshot>,
                               trace: seq<Snapshot>)
    requires WellFormed(steps)
  {
    before <= trace && forall k :: |before| <= k < |trace| ==> RecoverSnapshot(steps, start, done, trace[k])
  }

  /** Clears every replayed intent, one by one. */
  method ClearAll(w: World, replayed: seq<Replayed>, ghost steps: seq<Step>, ghost start: Snapshot,
                  ghost done: seq<bool>, ghost before: seq<Snapshot>)
    returns (ok: bool)
    requires w.Valid() && w.wal == start.wal && Replays(start.wal, replayed) && WellFormed(steps)
    requires |done| == |steps| && CompleteRun(steps, start.disk, Progress(w.disk, done))
    requires RecoverTrace(steps, start, done, before, w.trace)
    modifies w`wal, w`trace
    ensures w.Valid() && PartlyCleared(w.wal, start.wal) && RecoverTrace(steps, start, done, before, w.trace)
    ensures old(w.trace) <= w.trace && forall k :: |old(w.trace)| <= k < |w.trace| ==> w.trace[k].disk == w.disk
    ensures ok ==> w.wal == map[]
  {
    assert PartialRun(steps, start.disk, w.disk) by {
      var visits :| Visits(steps, visits) && Progress(w.disk, done) == Run(steps, Start(steps, start.disk), visits);
    }
    for i := 0 to |replayed|
      invariant w.Valid() && PartlyCleared(w.wal, start.wal) && RecoverTrace(steps, start, done, before, w.trace)
      invariant forall j :: 0 <= j < i ==> replayed[j].intent.id !in w.wal
      invariant old(w.trace) <= w.trace && forall k :: |old(w.trace)| <= k < |w.trace| ==> w.trace[k].disk == w.disk
    {
      var cleared := w.Clear(replayed[i].intent.id);
      FinalSnapshot(steps, start, done, w.Now());
      if !cleared {
        return false;
      }
    }
    AllCleared(start.wal, replayed, w.wal);
    return true;
  }

  lemma FinalSnapshot(steps: seq<Step>, start: Snapshot, done: seq<bool>, s: Snapshot)
    requires WellFormed(steps) && |done| == |steps| && PartialRun(steps, start.disk, s.disk)
    requires CompleteRun(steps, start.disk, Progress(s.disk, done)) && PartlyCleared(s.wal, start.wal)
    ensures RecoverSnapshot(steps, start, done, s)
  {
  }

  lemma AllCleared(before: Log, replayed: seq<Replayed>, wal: Log)
    requires Keyed(before) && Replays(before, replayed) && PartlyCleared(wal, before)
    requires forall j :: 0 <= j < |replayed| ==> replayed[j].intent.id !in wal
    ensures wal == map[]
  {
    forall id ensures id !in wal {
      if id in before {
        var j :| 0 <= j < |replayed| && replayed[j] == before[id];
        assert replayed[j].intent.id !in wal;
      }
    }
  }

  /** A recovery that has not begun has left everything as it was. */
  lemma NothingYet(steps: seq<Step>, log: seq<Replayed>, start: Snapshot)
    requires LogSteps(log) == Ok(steps)
    ensures WellFormed(steps) && RecoverSnapshot(steps, start, [], start)
  {
    LogStepsWellFormed(log);
    var none: seq<nat> := [];
    assert IsRun(steps, start.disk, none, Start(steps, start.disk));
    RunIsPartial(steps, start.disk, none, Start(steps, start.disk));
  }

  /** The entry is of an intent that was unfinished in the log, and of one of that intent's paths. */
  ghost predicate NamesUnfinished(log: seq<Replayed>, l: LeftPath) {
    exists k :: 0 <= k < |log|
      && log[k].status.Pending? && log[k].intent.id == l.intent && l.path in TouchedPaths(log[k])
  }

  lemma EntriesNameUnfinished(log: seq<Replayed>, steps: seq<Step>, done: seq<bool>, left: seq<LeftPath>, at: seq<nat>)
    requires LogSteps(log) == Ok(steps) && ReportsUndone(steps, done, left, at)
    ensures forall l :: l in left ==> NamesUnfinished(log, l)
  {
    forall l | l in left ensures NamesUnfinished(log, l) {
      var k :| 0 <= k < |left| && left[k] == l;
      var i := StepHasIntent(log, steps[at[k]]);
      IntentStepsTouch(log[i], BaseOf(log, i), steps[at[k]]);
    }
  }

  /** What a recovery that made its steps did, told from its result. */
  ghost predicate RecoverOutcome(log: seq<Replayed>, steps: seq<Step>, start: Snapshot, done: seq<bool>,
                                 r: Result<seq<LeftPath>, RecoverFailure>, now: Snapshot)
    requires WellFormed(steps)
  {
    match r
    case Ok(left) =>
      && now.wal == map[] && |done| == |steps| && CompleteRun(steps, start.disk, Progress(now.disk, done))
      && left == LeftOf(steps, done) && (exists at :: ReportsUndone(steps, done, left, at))
      && forall l :: l in left ==> NamesUnfinished(log, l)
    case Err(IoFailed) => now.wal == start.wal
    case Err(NotCleared) => |done| == |steps| && CompleteRun(steps, start.disk, Progress(now.disk, done))
    case Err(_) => now == start
  }

  /** Makes the steps, reports what is left and clears the log. */
  method MendAndClear(w: World, replayed: seq<Replayed>, steps: seq<Step>)
    returns (r: Result<seq<LeftPath>, RecoverFailure>, ghost done: seq<bool>)
    requires w.Valid() && Replays(w.wal, replayed) && LogSteps(replayed) == Ok(steps) && WellFormed(steps)
    modifies w`disk, w`wal, w`trace
    ensures w.Valid() && RecoverTrace(steps, old(w.Now()), done, old(w.trace), w.trace)
    ensures RecoverSnapshot(steps, old(w.Now()), done, w.Now())
    ensures RecoverOutcome(replayed, steps, old(w.Now()), done, r, w.Now())
            && (r.Err? ==> r.error in {IoFailed, NotCleared})
    ensures MovesKeepBytes(steps, old(w.disk), old(w.trace), w.trace)
  {
    done := [];
    var ambiguous := AmbiguousPaths(steps);
    var converged, _ := Converge(w, steps, ambiguous);
    if converged.Err? {
      return Err(IoFailed), done;
    }
    done := converged.value;
    var left, at := ReportLeft(steps, converged.value);
    EntriesNameUnfinished(replayed, steps, done, left, at);
    ghost var traced := w.trace;
    var cleared := ClearAll(w, replayed, steps, old(w.Now()), done, old(w.trace));
    ClearingKeepsBytes(steps, old(w.disk), w.disk, old(w.trace), traced, w.trace);
    r := if cleared then Ok(left) else Err(NotCleared);
  }

  lemma ClearingKeepsBytes(steps: seq<Step>, start: Disk, disk: Disk, before: seq<Snapshot>, mid: seq<Snapshot>,
                           trace: seq<Snapshot>)
    requires SourcesBack(steps, start, disk, |steps|) && MovesKeepBytes(steps, start, before, mid) && mid <= trace
    requires forall k :: |mid| <= k < |trace| ==> trace[k].disk == disk
    ensures MovesKeepBytes(steps, start, before, trace)
  {
    forall i, j, from, to, live | TakesBackAt(steps, start, i, j, from, to, live)
      ensures BackSince(before, trace, from, to, live)
    {
      assert BackSince(before, mid, from, to, live) && SourceBack(disk, |steps|, i, from, to, live);
    }
  }

  /** The restart path once the log is read: a log that makes no steps is told as such and left alone. */
  method RecoverReplayed(w: World, replayed: seq<Replayed>)
    returns (r: Result<seq<LeftPath>, RecoverFailure>, ghost done: seq<bool>)
    requires w.Valid() && Replays(w.wal, replayed)
    modifies w`disk, w`wal, w`trace
    ensures w.Valid()
    ensures LogSteps(replayed).Err? ==>
              && r == Err(Malformed(LogSteps(replayed).error)) && done == []
              && w.Now() == old(w.Now()) && w.trace == old(w.trace)
    ensures LogSteps(replayed).Ok? ==>
              && WellFormed(LogSteps(replayed).value)
              && RecoverTrace(LogSteps(replayed).value, old(w.Now()), done, old(w.trace), w.trace)
              && RecoverSnapshot(LogSteps(replayed).value, old(w.Now()), done, w.Now())
              && RecoverOutcome(replayed, LogSteps(replayed).value, old(w.Now()), done, r, w.Now())
              && (r.Err? ==> r.error in {IoFailed, NotCleared})
              && MovesKeepBytes(LogSteps(replayed).value, old(w.disk), old(w.trace), w.trace)
  {
    var built := BuildSteps(replayed);
    if built.Err? {
      return Err(Malformed(built.error)), [];
    }
    LogStepsWellFormed(replayed);
    r, done := MendAndClear(w, replayed, built.value);
  }

  /**
   * The restart path. Until it starts clearing, every crash leaves the whole log and what a partial
   * run leaves on disk; from then on the disk is final. A complete recovery empties the log and
   * reports exactly the steps it left undone, one entry each in log order. A log that cannot be read, or
   * makes no steps, is left alone.
   */
  method Recover(w: World)
    returns (r: Result<seq<LeftPath>, RecoverFailure>, ghost log: seq<Replayed>, ghost done: seq<bool>)
    requires w.Valid()
    modifies w`disk, w`wal, w`trace
    ensures w.Valid() && log == ReplayOf(old(w.wal)) && Replays(old(w.wal), log)
    ensures LogSteps(log).Err? ==> r == Err(Unreadable) || r == Err(Malformed(LogSteps(log).error))
    ensures LogSteps(log).Err? || r == Err(Unreadable) ==> w.Now() == old(w.Now()) && w.trace == old(w.trace)
    ensures LogSteps(log).Ok? ==>
              && WellFormed(LogSteps(log).value)
              && RecoverTrace(LogSteps(log).value, old(w.Now()), done, old(w.trace), w.trace)
              && RecoverSnapshot(LogSteps(log).value, old(w.Now()), done, w.Now())
              && RecoverOutcome(log, LogSteps(log).value, old(w.Now()), done, r, w.Now())
              && (r.Err? ==> !r.error.Malformed?)
              && MovesKeepBytes(LogSteps(log).value, old(w.disk), old(w.trace), w.trace)
  {
    done := [];
    ghost var start := w.Now();
    log := ReplayOf(w.wal);
    ReplayOfReplays(w.wal);
    if LogSteps(log).Ok? { NothingYet(LogSteps(log).value, log, start); }
    var read := w.Replay();
    if read.Err? {
      return Err(Unreadable), log, done;
    }
    r, done := RecoverReplayed(w, read.value);
  }
}
