/**
 * The undo steps recovery takes, and what it is to run them.
 *
 * A step is a compare-and-set on one path. A run visits steps in any order, any number of times;
 * recovery's own loop is one such run, and a recovery that crashed part-way is another.
 */
module Steps {
  import opened Prelude
  import opened Cycles

  type IntentId = nat

  /** While `path` holds `expected` (`None` = absent), make it hold `target` (`None` = absent). */
  datatype Converge = Converge(path: Path, expected: Option<Digest>, target: Option<Bytes>)

  /** A step of `intent`; `waitsFor` is the index of a step that must finish first. */
  datatype Step = Step(intent: IntentId, work: Converge, waitsFor: Option<nat>)

  datatype Converged = Done | AlreadyThere | Foreign

  /** What a compare-and-set finds on a path that holds `now`. */
  function Compare(work: Converge, now: Option<Bytes>): Converged {
    if HashOf(now) == HashOf(work.target) then AlreadyThere
    else if HashOf(now) != work.expected then Foreign
    else Done
  }

  function EdgeOf(step: Step): Edge {
    Edge(step.work.expected, HashOf(step.work.target))
  }

  /** The edges recorded for one path, in log order. */
  function PathEdges(steps: seq<Step>, path: Path): seq<Edge> {
    if steps == [] then []
    else
      var last := |steps| - 1;
      var r := PathEdges(steps[..last], path);
      if steps[last].work.path == path then r + [EdgeOf(steps[last])] else r
  }

  /** Some step on the path has this edge. */
  ghost predicate HasEdge(steps: seq<Step>, path: Path, e: Edge) {
    exists i :: 0 <= i < |steps| && steps[i].work.path == path && EdgeOf(steps[i]) == e
  }

  /** The log cannot order the writes of a path whose edges form a cycle. */
  ghost predicate Ambiguous(steps: seq<Step>, path: Path) {
    Cyclic(PathEdges(steps, path))
  }

  /** A step waits only on an earlier one. */
  ghost predicate WellFormed(steps: seq<Step>) {
    forall i :: 0 <= i < |steps| && steps[i].waitsFor.Some? ==> steps[i].waitsFor.value < i
  }

  datatype Progress = Progress(disk: Disk, done: seq<bool>)

  function Start(steps: seq<Step>, disk: Disk): Progress {
    Progress(disk, seq(|steps|, _ => false))
  }

  predicate MayAct(step: Step, done: seq<bool>)
    requires step.waitsFor.Some? ==> step.waitsFor.value < |done|
  {
    step.waitsFor.Some? ==> done[step.waitsFor.value]
  }

  /** One turn of the loop body: a blocked step may only notice that its target is already there. */
  ghost function Visit(steps: seq<Step>, s: Progress, i: nat): Progress
    requires WellFormed(steps) && i < |steps|
  {
    var step := steps[i];
    if |s.done| != |steps| || s.done[i] || Ambiguous(steps, step.work.path) then s
    else
      match Compare(step.work, At(s.disk, step.work.path))
      case AlreadyThere => s.(done := s.done[i := true])
      case Foreign => s
      case Done =>
        if MayAct(step, s.done)
        then Progress(Put(s.disk, step.work.path, step.work.target), s.done[i := true])
        else s
  }

  ghost function Run(steps: seq<Step>, s: Progress, visits: seq<nat>): Progress
    requires WellFormed(steps) && Visits(steps, visits)
  {
    if visits == [] then s
    else
      var n := |visits| - 1;
      Visit(steps, Run(steps, s, visits[..n]), visits[n])
  }

  ghost predicate Visits(steps: seq<Step>, visits: seq<nat>) {
    forall k :: 0 <= k < |visits| ==> visits[k] < |steps|
  }

  /** No visit changes anything any more. */
  ghost predicate Stuck(steps: seq<Step>, s: Progress)
    requires WellFormed(steps)
  {
    forall i :: 0 <= i < |steps| ==> Visit(steps, s, i) == s
  }

  /** A run from `disk` that may have stopped anywhere leaves `after`. */
  ghost predicate PartialRun(steps: seq<Step>, disk: Disk, after: Disk)
    requires WellFormed(steps)
  {
    exists visits :: Visits(steps, visits) && Run(steps, Start(steps, disk), visits).disk == after
  }

  /** Recovery crashed and was started over any number of times on the way from `disk` to `after`. */
  ghost predicate Crashes(steps: seq<Step>, disks: seq<Disk>)
    requires WellFormed(steps)
  {
    disks != [] && forall k :: 0 < k < |disks| ==> PartialRun(steps, disks[k - 1], disks[k])
  }

  /** A run that took every step it could, started from `disk`. */
  ghost predicate CompleteRun(steps: seq<Step>, disk: Disk, s: Progress)
    requires WellFormed(steps)
  {
    exists visits :: Visits(steps, visits) && s == Run(steps, Start(steps, disk), visits) && Stuck(steps, s)
  }

  /** Recovery ran to its end from `disk`, after any number of crashed attempts. */
  ghost predicate Recovered(steps: seq<Step>, disk: Disk, s: Progress)
    requires WellFormed(steps)
  {
    exists disks :: Crashes(steps, disks) && disks[0] == disk && CompleteRun(steps, disks[|disks| - 1], s)
  }
}
