/** The write-ahead log's records, and the undo steps each replayed intent stands for. */
module Wal {
  import opened Prelude
  import opened Paths
  import opened Steps

  datatype Move = Move(from: Path, to: Path)

  /** What an op records before it changes anything. */
  datatype Intent = Intent(
    id: IntentId,
    originals: map<Path, Bytes>,
    creates: seq<Path>, deletes: seq<Path>, moves: seq<Move>, batch: bool,
    after: map<Path, Option<Digest>>)

  /** A commit's record that it is about to write one path; `before` is `None` when it is the original. */
  datatype Applying = Applying(path: Path, after: Digest, before: Option<Bytes>)

  datatype Status = Torn | Pending | Landed

  datatype Replayed = Replayed(intent: Intent, applied: seq<Applying>, status: Status)

  type Log = map<IntentId, Replayed>

  datatype RecoverError = Unusable(id: IntentId) | MissingOriginal(from: Path, to: Path)

  // ---- undo steps of a lifecycle intent ----

  /** While a touched path holds the intent's after-image, put back what it held before. */
  function UndoSteps(intent: Intent, paths: seq<Path>): seq<Converge> {
    if paths == [] then []
    else
      var p := paths[|paths| - 1];
      var front := UndoSteps(intent, paths[..|paths| - 1]);
      if p in intent.after then front + [Converge(p, intent.after[p], At(intent.originals, p))] else front
  }

  function Restores(steps: seq<Converge>): seq<Converge> {
    if steps == [] then []
    else if steps[0].target.Some? then [steps[0]] + Restores(steps[1..])
    else Restores(steps[1..])
  }

  function Removals(steps: seq<Converge>): seq<Converge> {
    if steps == [] then []
    else if steps[0].target.None? then [steps[0]] + Removals(steps[1..])
    else Removals(steps[1..])
  }

  /** The stable order that puts every restore before every removal. */
  function RestoresFirst(steps: seq<Converge>): seq<Converge> {
    Restores(steps) + Removals(steps)
  }

  // ---- steps of one replayed intent ----

  function Unconditional(id: IntentId, work: seq<Converge>): seq<Step> {
    if work == [] then []
    else Unconditional(id, work[..|work| - 1]) + [Step(id, work[|work| - 1], None)]
  }

  function AppliedSteps(intent: Intent, applied: seq<Applying>): Result<seq<Step>, RecoverError> {
    if applied == [] then Ok([])
    else
      var a := applied[|applied| - 1];
      var front :- AppliedSteps(intent, applied[..|applied| - 1]);
      var before := if a.before.Some? then a.before else At(intent.originals, a.path);
      if before.None? then Err(Unusable(intent.id))
      else Ok(front + [Step(intent.id, Converge(a.path, Some(a.after), before), None)])
  }

  /** A single-op move goes forward: write the destination if absent, and only then remove the source. */
  function MoveSteps(intent: Intent, moves: seq<Move>, base: nat): Result<seq<Step>, RecoverError> {
    if moves == [] then Ok([])
    else
      var mv := moves[|moves| - 1];
      var front :- MoveSteps(intent, moves[..|moves| - 1], base);
      if mv.from !in intent.originals then Err(MissingOriginal(mv.from, mv.to))
      else
        var bytes := intent.originals[mv.from];
        Ok(front + [Step(intent.id, Converge(mv.to, None, Some(bytes)), None),
                    Step(intent.id, Converge(mv.from, Some(RawHash(bytes)), None), Some(base + |front|))])
  }

  predicate HasLifecycleOp(intent: Intent) {
    intent.creates != [] || intent.deletes != [] || intent.moves != []
  }

  /** The steps of one replayed intent, when `base` steps precede them. */
  function IntentSteps(r: Replayed, base: nat): Result<seq<Step>, RecoverError> {
    var intent := r.intent;
    if r.status != Pending then Ok([])
    else if r.applied != [] then AppliedSteps(intent, r.applied)
    else if !HasLifecycleOp(intent) then Ok([])
    else if intent.after == map[] then Err(Unusable(intent.id))
    else if !intent.batch && intent.moves != [] then MoveSteps(intent, intent.moves, base)
    else Ok(Unconditional(intent.id, RestoresFirst(UndoSteps(intent, Sorted(intent.after.Keys)))))
  }

  /** The steps of a whole replayed log. */
  function LogSteps(log: seq<Replayed>): Result<seq<Step>, RecoverError> {
    if log == [] then Ok([])
    else
      var front :- LogSteps(log[..|log| - 1]);
      var more :- IntentSteps(log[|log| - 1], |front|);
      Ok(front + more)
  }

  method BuildSteps(log: seq<Replayed>) returns (r: Result<seq<Step>, RecoverError>)
    ensures r == LogSteps(log)
  {
    var steps: seq<Step> := [];
    for i := 0 to |log|
      invariant LogSteps(log[..i]) == Ok(steps)
    {
      assert log[..i + 1][..i] == log[..i];
      var more := IntentSteps(log[i], |steps|);
      if more.Err? {
        LogStepsError(log, i + 1);
        return Err(more.error);
      }
      steps := steps + more.value;
    }
    assert log[..|log|] == log;
    return Ok(steps);
  }

  lemma {:induction false} LogStepsError(log: seq<Replayed>, i: nat)
    requires i <= |log| && LogSteps(log[..i]).Err?
    ensures LogSteps(log) == Err(LogSteps(log[..i]).error)
    decreases |log|
  {
    if i == |log| {
      assert log[..i] == log;
    } else {
      assert log[..|log| - 1][..i] == log[..i];
      LogStepsError(log[..|log| - 1], i);
    }
  }

  // ---- the steps one by one ----

  /** Each record has its step, in order. */
  lemma {:induction false} AppliedStepsInOrder(intent: Intent, applied: seq<Applying>)
    requires AppliedSteps(intent, applied).Ok?
    ensures |AppliedSteps(intent, applied).value| == |applied|
    ensures forall i :: 0 <= i < |applied| ==> AppliedSteps(intent, applied).value[i] == AppliedStep(intent, applied[i])
  {
    if applied != [] { AppliedStepsInOrder(intent, applied[..|applied| - 1]); }
  }

  /** Each move has two steps, in order: its write, and its removal that waits for it. */
  lemma {:induction false} MoveStepsInOrder(intent: Intent, moves: seq<Move>, base: nat)
    requires MoveSteps(intent, moves, base).Ok?
    ensures |MoveSteps(intent, moves, base).value| == 2 * |moves|
    ensures forall i: nat :: i < |moves| ==>
              IsMovePair(intent, moves[i], base, MoveSteps(intent, moves, base).value, 2 * i)
  {
    if moves != [] {
      var n := |moves| - 1;
      MoveStepsInOrder(intent, moves[..n], base);
      var front, steps := MoveSteps(intent, moves[..n], base).value, MoveSteps(intent, moves, base).value;
      forall i: nat | i < n ensures IsMovePair(intent, moves[i], base, steps, 2 * i) {
        assert IsMovePair(intent, moves[..n][i], base, front, 2 * i);
      }
    }
  }

  ghost predicate IsMovePair(intent: Intent, mv: Move, base: nat, steps: seq<Step>, k: nat) {
    && mv.from in intent.originals && k + 1 < |steps|
    && var bytes := intent.originals[mv.from];
       && steps[k] == Step(intent.id, Converge(mv.to, None, Some(bytes)), None)
       && steps[k + 1] == Step(intent.id, Converge(mv.from, Some(RawHash(bytes)), None), Some(base + k))
  }

  /** The undo steps follow the paths that have an after-image. */
  lemma {:induction false} UndoStepsInOrder(intent: Intent, paths: seq<Path>) returns (at: seq<nat>)
    ensures Increasing(at) && |UndoSteps(intent, paths)| == |at|
    ensures forall i: nat :: i < |paths| ==> (i in at <==> paths[i] in intent.after)
    ensures forall k :: 0 <= k < |at| ==>
              && at[k] < |paths| && paths[at[k]] in intent.after
              && var p := paths[at[k]];
                 UndoSteps(intent, paths)[k] == Converge(p, intent.after[p], At(intent.originals, p))
  {
    if paths == [] {
      at := [];
    } else {
      var n := |paths| - 1;
      at := UndoStepsInOrder(intent, paths[..n]);
      if paths[n] in intent.after { at := at + [n]; }
    }
  }

  lemma {:induction false} UnconditionalInOrder(id: IntentId, work: seq<Converge>)
    ensures |Unconditional(id, work)| == |work|
    ensures forall i :: 0 <= i < |work| ==> Unconditional(id, work)[i] == Step(id, work[i], None)
  {
    if work != [] { UnconditionalInOrder(id, work[..|work| - 1]); }
  }

  // ---- when a log makes no steps ----

  /** A record that cannot be undone: it names no bytes and the intent has none for its path either. */
  ghost predicate Lacks(intent: Intent, a: Applying) {
    a.before.None? && a.path !in intent.originals
  }

  ghost predicate SomeLacks(intent: Intent, applied: seq<Applying>) {
    exists i :: 0 <= i < |applied| && Lacks(intent, applied[i])
  }

  lemma {:induction false} AppliedStepsFail(intent: Intent, applied: seq<Applying>, e: RecoverError)
    ensures AppliedSteps(intent, applied) == Err(e)
            <==> e == Unusable(intent.id) && SomeLacks(intent, applied)
  {
    if applied != [] {
      var n := |applied| - 1;
      AppliedStepsFail(intent, applied[..n], e);
      if AppliedSteps(intent, applied[..n]).Err? {
        AppliedStepsFail(intent, applied[..n], AppliedSteps(intent, applied[..n]).error);
      }
      AppliedStepsFail(intent, applied[..n], Unusable(intent.id));
      forall i | 0 <= i < n ensures Lacks(intent, applied[..n][i]) == Lacks(intent, applied[i]) {}
    }
  }

  /** The first move whose bytes are missing. */
  ghost predicate FirstMissing(intent: Intent, moves: seq<Move>, k: nat) {
    && k < |moves| && moves[k].from !in intent.originals
    && forall j :: 0 <= j < k ==> moves[j].from in intent.originals
  }

  lemma {:induction false} MoveStepsFail(intent: Intent, moves: seq<Move>, base: nat, e: RecoverError)
    ensures MoveSteps(intent, moves, base) == Err(e)
            <==> exists k: nat :: FirstMissing(intent, moves, k) && e == MissingOriginal(moves[k].from, moves[k].to)
    ensures MoveSteps(intent, moves, base).Ok? <==> forall j :: 0 <= j < |moves| ==> moves[j].from in intent.originals
  {
    if moves != [] {
      var n := |moves| - 1;
      var front := moves[..n];
      MoveStepsFail(intent, front, base, e);
      if MoveSteps(intent, front, base).Err? {
        if k: nat :| FirstMissing(intent, front, k) && e == MissingOriginal(front[k].from, front[k].to) {
          assert FirstMissing(intent, moves, k);
        }
        if k: nat :| FirstMissing(intent, moves, k) && e == MissingOriginal(moves[k].from, moves[k].to) {
          var j :| 0 <= j < n && front[j].from !in intent.originals;
          assert moves[j].from !in intent.originals && k <= j && FirstMissing(intent, front, k);
        }
      } else {
        forall j | 0 <= j < n ensures moves[j].from in intent.originals { assert front[j].from in intent.originals; }
        if moves[n].from !in intent.originals { assert FirstMissing(intent, moves, n); }
      }
    }
  }

  /** Why an unfinished intent makes no steps. */
  ghost predicate EntryFails(r: Replayed, e: RecoverError) {
    var intent := r.intent;
    && r.status == Pending
    && if r.applied != [] then e == Unusable(intent.id) && SomeLacks(intent, r.applied)
       else if intent.after == map[] then HasLifecycleOp(intent) && e == Unusable(intent.id)
       else && !intent.batch
            && exists k: nat :: FirstMissing(intent, intent.moves, k)
                           && e == MissingOriginal(intent.moves[k].from, intent.moves[k].to)
  }

  lemma IntentStepsFail(r: Replayed, base: nat, e: RecoverError)
    ensures IntentSteps(r, base) == Err(e) <==> EntryFails(r, e)
  {
    AppliedStepsFail(r.intent, r.applied, e);
    MoveStepsFail(r.intent, r.intent.moves, base, e);
  }

  ghost predicate EntryIsFine(r: Replayed) {
    forall e :: !EntryFails(r, e)
  }

  lemma IntentStepsFine(r: Replayed, base: nat)
    ensures IntentSteps(r, base).Ok? <==> EntryIsFine(r)
  {
    if IntentSteps(r, base).Err? { IntentStepsFail(r, base, IntentSteps(r, base).error); }
    if e :| EntryFails(r, e) { IntentStepsFail(r, base, e); }
  }

  ghost predicate FirstFailure(log: seq<Replayed>, k: nat, e: RecoverError) {
    k < |log| && EntryFails(log[k], e) && forall j :: 0 <= j < k ==> EntryIsFine(log[j])
  }

  /** A log makes no steps exactly when some unfinished intent in it cannot be undone, and the first says why. */
  lemma {:induction false} LogStepsFail(log: seq<Replayed>, e: RecoverError)
    ensures LogSteps(log) == Err(e) <==> exists k: nat :: FirstFailure(log, k, e)
    ensures LogSteps(log).Ok? <==> forall j :: 0 <= j < |log| ==> EntryIsFine(log[j])
  {
    if log != [] {
      var n := |log| - 1;
      var front := log[..n];
      LogStepsFail(front, e);
      if LogSteps(front).Err? {
        if k: nat :| FirstFailure(front, k, e) { assert FirstFailure(log, k, e); }
        var j :| 0 <= j < n && !EntryIsFine(front[j]);
        assert !EntryIsFine(log[j]);
        if k: nat :| FirstFailure(log, k, e) { assert k <= j && FirstFailure(front, k, e); }
      } else {
        var base := |LogSteps(front).value|;
        forall j | 0 <= j < n ensures EntryIsFine(log[j]) { assert EntryIsFine(front[j]); }
        IntentStepsFine(log[n], base);
        IntentStepsFail(log[n], base, e);
        if LogSteps(log) == Err(e) { assert FirstFailure(log, n, e); }
      }
    }
  }

  // ---- facts about the steps of a log ----

  /** The replay lists every intent of the log once, in some order. */
  ghost predicate Replays(wal: Log, log: seq<Replayed>) {
    && (forall i, j :: 0 <= i < j < |log| ==> log[i].intent.id != log[j].intent.id)
    && (forall r :: r in log ==> r.intent.id in wal && wal[r.intent.id] == r)
    && (forall id :: id in wal ==> wal[id] in log)
  }

  // ---- the order of a replay ----

  predicate IsFirst(id: IntentId, ids: set<IntentId>) {
    id in ids && forall other :: other in ids ==> id <= other
  }

  lemma {:induction false} FirstExists(ids: set<IntentId>)
    requires ids != {}
    ensures exists id :: IsFirst(id, ids)
  {
    var id :| id in ids;
    var rest := ids - {id};
    if rest == {} {
      assert ids == {id} && IsFirst(id, ids);
    } else {
      FirstExists(rest);
      var other :| IsFirst(other, rest);
      assert forall x :: x in ids ==> x == id || x in rest;
      assert IsFirst(if id <= other then id else other, ids);
    }
  }

  function FirstId(ids: set<IntentId>): (id: IntentId)
    requires ids != {}
    ensures IsFirst(id, ids)
  {
    FirstExists(ids);
    assert forall a, b :: IsFirst(a, ids) && IsFirst(b, ids) ==> a == b;
    var id :| IsFirst(id, ids);
    id
  }

  /** The replay of a log: its intents in the order of their file names, which is the order of their ids. */
  ghost function ReplayOf(wal: Log): seq<Replayed>
    decreases |wal|
  {
    if wal == map[] then []
    else
      var id := FirstId(wal.Keys);
      [wal[id]] + ReplayOf(wal - {id})
  }

  /** Every intent sits under its own id. */
  ghost predicate Keyed(wal: Log) {
    forall id :: id in wal ==> wal[id].intent.id == id
  }

  lemma {:induction false} ReplayOfReplays(wal: Log)
    requires Keyed(wal)
    ensures Replays(wal, ReplayOf(wal))
    decreases |wal|
  {
    if wal != map[] {
      var id := FirstId(wal.Keys);
      var rest := wal - {id};
      ReplayOfReplays(rest);
      var log := ReplayOf(wal);
      assert log == [wal[id]] + ReplayOf(rest);
      forall r | r in log ensures r.intent.id in wal && wal[r.intent.id] == r {
        assert r == wal[id] || r in ReplayOf(rest);
      }
      forall i, j | 0 <= i < j < |log| ensures log[i].intent.id != log[j].intent.id {
        assert log[j] in ReplayOf(rest);
      }
      forall other | other in wal ensures wal[other] in log {
        assert other == id || (other in rest && rest[other] in ReplayOf(rest));
      }
    }
  }

  lemma {:induction false} UndoStepsContents(intent: Intent, paths: seq<Path>)
    ensures forall c :: c in UndoSteps(intent, paths) <==>
              && c.path in paths && c.path in intent.after
              && c == Converge(c.path, intent.after[c.path], At(intent.originals, c.path))
  {
    if paths != [] {
      UndoStepsContents(intent, paths[..|paths| - 1]);
      assert paths == paths[..|paths| - 1] + [paths[|paths| - 1]];
    }
  }

  lemma {:induction false} RestoresFirstContents(steps: seq<Converge>)
    ensures forall c :: c in RestoresFirst(steps) <==> c in steps
    ensures forall c :: c in Restores(steps) <==> c in steps && c.target.Some?
    ensures forall c :: c in Removals(steps) <==> c in steps && c.target.None?
  {
    if steps != [] {
      RestoresFirstContents(steps[1..]);
      assert steps == [steps[0]] + steps[1..];
    }
  }

  // ---- the order of an undo ----

  /** Where the restores are, in order. */
  lemma {:induction false} RestoresPicked(steps: seq<Converge>) returns (at: seq<nat>)
    ensures Picks(steps, at, Restores(steps))
    ensures forall i: nat :: i < |steps| ==> (i in at <==> steps[i].target.Some?)
  {
    if steps == [] {
      at := [];
    } else {
      var rest := RestoresPicked(steps[1..]);
      at := Shifted(rest);
      if steps[0].target.Some? { at := [0] + at; }
      assert forall i: nat :: i < |steps[1..]| ==> steps[1..][i] == steps[i + 1];
      PickedAfterFirst(steps, rest, Restores(steps[1..]));
    }
  }

  lemma {:induction false} RemovalsPicked(steps: seq<Converge>) returns (at: seq<nat>)
    ensures Picks(steps, at, Removals(steps))
    ensures forall i: nat :: i < |steps| ==> (i in at <==> steps[i].target.None?)
  {
    if steps == [] {
      at := [];
    } else {
      var rest := RemovalsPicked(steps[1..]);
      at := Shifted(rest);
      if steps[0].target.None? { at := [0] + at; }
      assert forall i: nat :: i < |steps[1..]| ==> steps[1..][i] == steps[i + 1];
      PickedAfterFirst(steps, rest, Removals(steps[1..]));
    }
  }

  function Shifted(at: seq<nat>): seq<nat> {
    seq(|at|, k requires 0 <= k < |at| => at[k] + 1)
  }

  lemma ShiftedIn(at: seq<nat>)
    ensures forall i: nat :: (i + 1 in Shifted(at) <==> i in at) && 0 !in Shifted(at)
  {
    forall i: nat | i in at ensures i + 1 in Shifted(at) {
      var k :| 0 <= k < |at| && at[k] == i;
      assert Shifted(at)[k] == i + 1;
    }
  }

  lemma PickedLater(steps: seq<Converge>, at: seq<nat>, picked: seq<Converge>)
    requires steps != [] && Picks(steps[1..], at, picked)
    ensures Picks(steps, Shifted(at), picked) && 0 !in Shifted(at)
  {
    forall k | 0 <= k < |at| ensures Shifted(at)[k] < |steps| && picked[k] == steps[Shifted(at)[k]] {
      assert picked[k] == steps[1..][at[k]] == steps[at[k] + 1];
    }
  }

  lemma PickedFirst(steps: seq<Converge>, at: seq<nat>, picked: seq<Converge>)
    requires steps != [] && Picks(steps, at, picked) && 0 !in at
    ensures Picks(steps, [0] + at, [steps[0]] + picked)
  {
    var all, more := [0] + at, [steps[0]] + picked;
    forall k | 0 <= k < |all| ensures all[k] < |steps| && more[k] == steps[all[k]] && (k > 0 ==> all[k] > 0) {
      if k > 0 { assert all[k] == at[k - 1] && at[k - 1] in at && more[k] == picked[k - 1]; }
    }
    forall i, j | 0 <= i < j < |all| ensures all[i] < all[j] {
      if i > 0 { assert at[i - 1] < at[j - 1]; }
    }
  }

  lemma PickedAfterFirst(steps: seq<Converge>, at: seq<nat>, picked: seq<Converge>)
    requires steps != [] && Picks(steps[1..], at, picked)
    ensures Picks(steps, Shifted(at), picked) && Picks(steps, [0] + Shifted(at), [steps[0]] + picked)
    ensures forall i: nat :: (i + 1 in Shifted(at) <==> i in at) && 0 !in Shifted(at)
  {
    ShiftedIn(at);
    PickedLater(steps, at, picked);
    PickedFirst(steps, Shifted(at), picked);
  }

  ghost predicate RestoresLead(order: seq<Converge>) {
    forall i, j :: 0 <= i < j < |order| && order[i].target.None? ==> order[j].target.None?
  }

  /** The same steps in an order that puts every restore before every removal and changes nothing else. */
  ghost predicate IsRestoresFirst(steps: seq<Converge>, order: seq<Converge>, at: seq<nat>) {
    && |order| == |at| == |steps| && RestoresLead(order)
    && (forall k :: 0 <= k < |at| ==> at[k] < |steps| && order[k] == steps[at[k]])
    && (forall i, j :: 0 <= i < j < |at| && order[i].target.Some? == order[j].target.Some? ==> at[i] < at[j])
  }

  lemma RestoresFirstKeepsOrder(steps: seq<Converge>) returns (at: seq<nat>)
    ensures IsRestoresFirst(steps, RestoresFirst(steps), at)
  {
    var first := RestoresPicked(steps);
    var last := RemovalsPicked(steps);
    at := first + last;
    RestoresFirstContents(steps);
    RestoresFirstSize(steps);
    forall c | c in Restores(steps) ensures c.target.Some? {}
    PickedInTwo(steps, first, Restores(steps), last, Removals(steps));
  }

  lemma PickedInTwo(steps: seq<Converge>, first: seq<nat>, a: seq<Converge>, last: seq<nat>, b: seq<Converge>)
    requires Picks(steps, first, a) && Picks(steps, last, b) && |a| + |b| == |steps|
    requires (forall c :: c in a ==> c.target.Some?) && forall c :: c in b ==> c.target.None?
    ensures IsRestoresFirst(steps, a + b, first + last)
  {
    var order, at := a + b, first + last;
    forall k | 0 <= k < |order| ensures order[k].target.Some? <==> k < |a| {
      if k < |a| { assert a[k] in a; } else { assert b[k - |a|] in b; }
    }
  }

  lemma {:induction false} RestoresFirstSize(steps: seq<Converge>)
    ensures |Restores(steps)| + |Removals(steps)| == |steps|
  {
    if steps != [] { RestoresFirstSize(steps[1..]); }
  }

  lemma {:induction false} UnconditionalContents(id: IntentId, work: seq<Converge>)
    ensures forall s :: s in Unconditional(id, work) <==> s.work in work && s == Step(id, s.work, None)
  {
    if work != [] {
      UnconditionalContents(id, work[..|work| - 1]);
      assert work == work[..|work| - 1] + [work[|work| - 1]];
    }
  }

  /** With `base` steps before these, each waits only on an earlier one. */
  ghost predicate WaitsBelow(steps: seq<Step>, base: nat) {
    forall i :: 0 <= i < |steps| && steps[i].waitsFor.Some? ==> steps[i].waitsFor.value < base + i
  }

  lemma {:induction false} MoveStepsWellFormed(intent: Intent, moves: seq<Move>, base: nat)
    requires MoveSteps(intent, moves, base).Ok?
    ensures WaitsBelow(MoveSteps(intent, moves, base).value, base)
  {
    if moves != [] {
      MoveStepsWellFormed(intent, moves[..|moves| - 1], base);
    }
  }

  lemma {:induction false} AppliedStepsContents(intent: Intent, applied: seq<Applying>)
    requires AppliedSteps(intent, applied).Ok?
    ensures forall s :: s in AppliedSteps(intent, applied).value <==> FromApplied(intent, applied, s)
    ensures forall s :: s in AppliedSteps(intent, applied).value ==> s.waitsFor.None?
  {
    AppliedStepsInOrder(intent, applied);
    var steps := AppliedSteps(intent, applied).value;
    forall s ensures s in steps <==> FromApplied(intent, applied, s) {
      if s in steps {
        var i :| 0 <= i < |steps| && steps[i] == s;
        assert applied[i] in applied;
      }
      if a :| a in applied && s == AppliedStep(intent, a) {
        var i :| 0 <= i < |applied| && applied[i] == a;
        assert steps[i] == s;
      }
    }
  }

  ghost predicate FromApplied(intent: Intent, applied: seq<Applying>, s: Step) {
    exists a :: a in applied && s == AppliedStep(intent, a)
  }

  ghost function AppliedStep(intent: Intent, a: Applying): Step {
    var before := if a.before.Some? then a.before else At(intent.originals, a.path);
    Step(intent.id, Converge(a.path, Some(a.after), before), None)
  }

  lemma IntentStepsWaitBelow(r: Replayed, base: nat)
    requires IntentSteps(r, base).Ok?
    ensures WaitsBelow(IntentSteps(r, base).value, base)
  {
    var intent := r.intent;
    if r.status == Pending {
      if r.applied != [] {
        AppliedStepsContents(intent, r.applied);
        var steps := AppliedSteps(intent, r.applied).value;
        forall i | 0 <= i < |steps| ensures steps[i].waitsFor.None? { assert steps[i] in steps; }
      } else if HasLifecycleOp(intent) {
        if !intent.batch && intent.moves != [] {
          MoveStepsWellFormed(intent, intent.moves, base);
        } else {
          var work := RestoresFirst(UndoSteps(intent, Sorted(intent.after.Keys)));
          UnconditionalContents(intent.id, work);
          var steps := Unconditional(intent.id, work);
          forall i | 0 <= i < |steps| ensures steps[i].waitsFor.None? { assert steps[i] in steps; }
        }
      }
    }
  }

  lemma {:induction false} LogStepsWellFormed(log: seq<Replayed>)
    requires LogSteps(log).Ok?
    ensures WellFormed(LogSteps(log).value)
  {
    if log != [] {
      var front := LogSteps(log[..|log| - 1]).value;
      LogStepsWellFormed(log[..|log| - 1]);
      IntentStepsWaitBelow(log[|log| - 1], |front|);
      var steps := LogSteps(log).value;
      forall i | 0 <= i < |steps| && steps[i].waitsFor.Some? ensures steps[i].waitsFor.value < i {
        if i >= |front| {
          assert steps[i] == IntentSteps(log[|log| - 1], |front|).value[i - |front|];
        }
      }
    }
  }

  // ---- the paths an intent may step on ----

  ghost function TouchedPaths(r: Replayed): set<Path> {
    (set a | a in r.applied :: a.path) + r.intent.after.Keys
    + (set mv | mv in r.intent.moves :: mv.from) + (set mv | mv in r.intent.moves :: mv.to)
  }

  lemma {:induction false} MoveStepsTouch(intent: Intent, moves: seq<Move>, base: nat, s: Step) returns (mv: Move)
    requires MoveSteps(intent, moves, base).Ok? && s in MoveSteps(intent, moves, base).value
    ensures mv in moves && (s.work.path == mv.from || s.work.path == mv.to) && s.intent == intent.id
  {
    var front := moves[..|moves| - 1];
    if s in MoveSteps(intent, front, base).value {
      mv := MoveStepsTouch(intent, front, base, s);
      assert mv in front;
    } else {
      mv := moves[|moves| - 1];
    }
  }

  lemma IntentStepsTouch(r: Replayed, base: nat, s: Step)
    requires IntentSteps(r, base).Ok? && s in IntentSteps(r, base).value
    ensures s.intent == r.intent.id && s.work.path in TouchedPaths(r) && r.status == Pending
  {
    var intent := r.intent;
    if r.applied != [] {
      AppliedStepsContents(intent, r.applied);
      assert FromApplied(intent, r.applied, s);
      var a :| a in r.applied && s == AppliedStep(intent, a);
    } else if !intent.batch && intent.moves != [] {
      var _ := MoveStepsTouch(intent, intent.moves, base, s);
    } else {
      var undo := UndoSteps(intent, Sorted(intent.after.Keys));
      UnconditionalContents(intent.id, RestoresFirst(undo));
      RestoresFirstContents(undo);
      UndoStepsContents(intent, Sorted(intent.after.Keys));
    }
  }

  /** How many steps the intents before `k` have. */
  function BaseOf(log: seq<Replayed>, k: nat): nat
    requires k <= |log|
  {
    var front := LogSteps(log[..k]);
    if front.Ok? then |front.value| else 0
  }

  /** Where one intent's steps sit among the log's. */
  lemma {:induction false} IntentStepsAt(log: seq<Replayed>, k: nat)
    requires LogSteps(log).Ok? && k < |log|
    ensures var base := BaseOf(log, k);
            IntentSteps(log[k], base).Ok? && SitsAt(LogSteps(log).value, IntentSteps(log[k], base).value, base)
  {
    var n := |log| - 1;
    var front, more := LogStepsLast(log);
    EarlierBase(log, k);
    if k < n {
      IntentStepsAt(log[..n], k);
      var base := BaseOf(log, k);
      SitsStill(front, more, IntentSteps(log[k], base).value, base);
    } else {
      SitsLast(front, more);
    }
  }

  ghost predicate SitsAt(all: seq<Step>, piece: seq<Step>, base: nat) {
    base + |piece| <= |all| && all[base..base + |piece|] == piece
  }

  lemma {:induction false} LogStepsLast(log: seq<Replayed>) returns (front: seq<Step>, more: seq<Step>)
    requires LogSteps(log).Ok? && log != []
    ensures LogSteps(log[..|log| - 1]) == Ok(front) && IntentSteps(log[|log| - 1], |front|) == Ok(more)
    ensures LogSteps(log).value == front + more
  {
    front := LogSteps(log[..|log| - 1]).value;
    more := IntentSteps(log[|log| - 1], |front|).value;
  }

  lemma EarlierBase(log: seq<Replayed>, k: nat)
    requires k < |log|
    ensures BaseOf(log[..|log| - 1], k) == BaseOf(log, k)
    ensures k < |log| - 1 ==> log[..|log| - 1][k] == log[k]
  {
    assert log[..|log| - 1][..k] == log[..k];
  }

  lemma SitsStill(front: seq<Step>, more: seq<Step>, piece: seq<Step>, base: nat)
    requires SitsAt(front, piece, base)
    ensures SitsAt(front + more, piece, base)
  {
    assert (front + more)[base..base + |piece|] == front[base..base + |piece|];
  }

  lemma SitsLast(front: seq<Step>, more: seq<Step>)
    ensures SitsAt(front + more, more, |front|)
  {
  }

  /** Whose step is at one place of the log, and where among that intent's own. */
  lemma {:induction false} StepAtHasIntent(log: seq<Replayed>, i: nat) returns (k: nat)
    requires LogSteps(log).Ok? && i < |LogSteps(log).value|
    ensures k < |log| && IntentSteps(log[k], BaseOf(log, k)).Ok?
    ensures var base, own := BaseOf(log, k), IntentSteps(log[k], BaseOf(log, k)).value;
            base <= i < base + |own| && own[i - base] == LogSteps(log).value[i]
  {
    var front, more := LogStepsLast(log);
    if i < |front| {
      k := StepAtHasIntent(log[..|log| - 1], i);
      EarlierBase(log, k);
    } else {
      k := |log| - 1;
    }
  }

  lemma {:induction false} StepAtTouches(log: seq<Replayed>, i: nat) returns (k: nat)
    requires LogSteps(log).Ok? && i < |LogSteps(log).value|
    ensures k < |log| && IntentSteps(log[k], BaseOf(log, k)).Ok?
    ensures var base, own := BaseOf(log, k), IntentSteps(log[k], BaseOf(log, k)).value;
            base <= i < base + |own| && own[i - base] == LogSteps(log).value[i]
    ensures log[k].status == Pending && LogSteps(log).value[i].work.path in TouchedPaths(log[k])
  {
    k := StepAtHasIntent(log, i);
    var own := IntentSteps(log[k], BaseOf(log, k)).value;
    assert own[i - BaseOf(log, k)] in own;
    IntentStepsTouch(log[k], BaseOf(log, k), own[i - BaseOf(log, k)]);
  }

  /** Every step of the log is a step of one of its intents. */
  lemma {:induction false} StepHasIntent(log: seq<Replayed>, s: Step) returns (k: nat)
    requires LogSteps(log).Ok? && s in LogSteps(log).value
    ensures k < |log| && IntentSteps(log[k], BaseOf(log, k)).Ok? && s in IntentSteps(log[k], BaseOf(log, k)).value
  {
    var n := |log| - 1;
    var front := LogSteps(log[..n]).value;
    if s in front {
      k := StepHasIntent(log[..n], s);
      assert log[..n][..k] == log[..k];
    } else {
      k := n;
    }
  }
}
