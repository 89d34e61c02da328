/**
 * The files and the log an op works on, through steps that are atomic or fail.
 *
 * Every step appends to `trace` what a crash right after it would leave, so a claim about every
 * crash point of an op is a claim about every snapshot the op appended.
 */
module Worlds {
  import opened Prelude
  import opened Steps
  import opened Wal

  /** What survives a crash. */
  datatype Snapshot = Snapshot(disk: Disk, wal: Log)

  /** A record of which only the id can be read back. */
  function TornRecord(id: IntentId): Replayed {
    Replayed(Intent(id, map[], [], [], [], false, map[]), [], Torn)
  }

  function Recorded(intent: Intent): Replayed {
    Replayed(intent, [], Pending)
  }

  function Marked(wal: Log, id: IntentId): Log
    requires id in wal
  {
    wal[id := wal[id].(status := Landed)]
  }

  /** At every snapshot since, the source content of a move is whole at one of its two paths. */
  ghost predicate SafeSince(before: seq<Snapshot>, trace: seq<Snapshot>, from: Path, to: Path, live: Bytes) {
    forall k :: |before| <= k < |trace| ==> Safe(trace[k].disk, from, to, live)
  }

  class World {
    var disk: Disk
    var wal: Log
    var nextId: IntentId
    ghost var trace: seq<Snapshot>

    /** Every intent sits under its own id, and ids handed out later are new. */
    ghost predicate Valid()
      reads this
    {
      forall id :: id in wal ==> id < nextId && wal[id].intent.id == id
    }

    ghost function Now(): Snapshot
      reads this
    {
      Snapshot(disk, wal)
    }

    method NewIntentId() returns (id: IntentId)
      requires Valid()
      modifies this`nextId
      ensures Valid() && id !in wal && nextId == id + 1
    {
      id := nextId;
      nextId := nextId + 1;
    }

    method Read(path: Path) returns (r: Result<Option<Bytes>, ()>)
      ensures r.Ok? ==> r.value == At(disk, path)
    {
      var failed: bool := *;
      r := if failed then Err(()) else Ok(At(disk, path));
    }

    /** Replaces a file in one step. A failure after the rename leaves the new bytes. */
    method AtomicWrite(path: Path, data: Bytes) returns (ok: bool)
      modifies this`disk, this`trace
      ensures ok ==> disk == Put(old(disk), path, Some(data))
      ensures disk == old(disk) || disk == Put(old(disk), path, Some(data))
      ensures trace == old(trace) + [Now()]
    {
      var failed: bool := *;
      var renamed: bool := *;
      ok := !failed;
      if ok || renamed {
        disk := Put(disk, path, Some(data));
      }
      trace := trace + [Now()];
    }

    /** Unlinks a file; a missing one is a failure. */
    method Unlink(path: Path) returns (ok: bool)
      modifies this`disk, this`trace
      ensures ok ==> path in old(disk) && disk == Put(old(disk), path, None)
      ensures !ok ==> disk == old(disk)
      ensures trace == old(trace) + [Now()]
    {
      var failed: bool := *;
      ok := !failed && path in disk;
      if ok {
        disk := Put(disk, path, None);
      }
      trace := trace + [Now()];
    }

    /** Removes a file; a missing one is a success. */
    method RemoveIfExists(path: Path) returns (ok: bool)
      modifies this`disk, this`trace
      ensures ok ==> disk == Put(old(disk), path, None)
      ensures !ok ==> disk == old(disk)
      ensures trace == old(trace) + [Now()]
    {
      var failed: bool := *;
      ok := !failed;
      if ok {
        disk := Put(disk, path, None);
      }
      trace := trace + [Now()];
    }

    /** Creates an empty file where there was none, in one step. */
    method Claim(path: Path) returns (ok: bool)
      modifies this`disk, this`trace
      ensures ok ==> path !in old(disk) && disk == Put(old(disk), path, Some([]))
      ensures !ok ==> disk == old(disk)
      ensures trace == old(trace) + [Now()]
    {
      var failed: bool := *;
      ok := !failed && path !in disk;
      if ok {
        disk := Put(disk, path, Some([]));
      }
      trace := trace + [Now()];
    }

    /** Fills a claimed file. A crash or a failure on the way leaves some prefix of the data. */
    method WriteAndSync(path: Path, data: Bytes) returns (ok: bool, ghost first: nat, ghost last: nat)
      modifies this`disk, this`trace
      ensures first <= |data| && last <= |data| && (ok ==> last == |data|)
      ensures disk == Put(old(disk), path, Some(data[..last]))
      ensures trace == old(trace) + [Snapshot(Put(old(disk), path, Some(data[..first])), wal), Now()]
    {
      ghost var before := disk;
      var n: nat :| n <= |data|;
      first, last := n, n;
      disk := Put(disk, path, Some(data[..n]));
      trace := trace + [Now()];
      var failed: bool := *;
      ok := !failed;
      if ok {
        disk := Put(disk, path, Some(data));
        last := |data|;
        assert data[..last] == data;
      }
      trace := trace + [Now()];
      assert disk == Put(before, path, Some(data[..last]));
    }

    /** Records an intent. A failure may leave nothing, a torn record or the whole one. */
    method Append(intent: Intent) returns (ok: bool)
      requires intent.id !in wal
      modifies this`wal, this`trace
      ensures ok ==> wal == old(wal)[intent.id := Recorded(intent)]
      ensures || wal == old(wal)
              || wal == old(wal)[intent.id := Recorded(intent)]
              || wal == old(wal)[intent.id := TornRecord(intent.id)]
      ensures trace == old(trace) + [Now()]
    {
      var failed: bool := *;
      var left: bool := *;
      var torn: bool := *;
      ok := !failed;
      if ok || left {
        wal := wal[intent.id := if ok || !torn then Recorded(intent) else TornRecord(intent.id)];
      }
      trace := trace + [Now()];
    }

    /** Records that a commit is about to write a path. An intent that is not recorded is refused. */
    method RecordApplying(id: IntentId, rec: Applying) returns (ok: bool)
      requires id in wal ==> wal[id].status.Pending?
      modifies this`wal, this`trace
      ensures ok ==> id in old(wal) && wal == old(wal)[id := old(wal)[id].(applied := old(wal)[id].applied + [rec])]
      ensures !ok ==>
                || wal == old(wal)
                || (id in old(wal) && wal == old(wal)[id := old(wal)[id].(applied := old(wal)[id].applied + [rec])])
      ensures trace == old(trace) + [Now()]
    {
      var failed: bool := *;
      var left: bool := *;
      ok := !failed && id in wal;
      if id in wal && (ok || left) {
        wal := wal[id := wal[id].(applied := wal[id].applied + [rec])];
      }
      trace := trace + [Now()];
    }

    /**
     * Marks an intent landed. An intent that is not recorded is refused. A failed mark is taken back,
     * and a crash may fall in between; the take-back may fail as well, and the marker is then `kept`
     * although the caller is told it is not there.
     */
    method MarkLanded(id: IntentId) returns (ok: bool, ghost kept: bool)
      modifies this`wal, this`trace
      ensures ok || kept ==> id in old(wal) && wal == Marked(old(wal), id) && trace == old(trace) + [Now()]
      ensures kept ==> !ok
      ensures !ok && !kept ==>
                && wal == old(wal)
                && (trace == old(trace) + [Now()]
                    || (id in old(wal) && trace == old(trace) + [Snapshot(disk, Marked(old(wal), id)), Now()]))
    {
      var failed: bool := *;
      var written: bool := *;
      var takenBack: bool := *;
      ok := !failed && id in wal;
      kept := !ok && written && id in wal && !takenBack;
      if ok || (written && id in wal && !takenBack) {
        wal := Marked(wal, id);
      } else if written && id in wal {
        trace := trace + [Snapshot(disk, Marked(wal, id))];
      }
      trace := trace + [Now()];
    }

    /** Removes an intent's record. A failure may come before or after the removal. */
    method Clear(id: IntentId) returns (ok: bool)
      modifies this`wal, this`trace
      ensures ok ==> wal == old(wal) - {id}
      ensures wal == old(wal) || wal == old(wal) - {id}
      ensures trace == old(trace) + [Now()]
    {
      var failed: bool := *;
      var removed: bool := *;
      ok := !failed;
      if ok || removed {
        wal := wal - {id};
      }
      trace := trace + [Now()];
    }

    /** Reads the log back, in the order of the intents' file names. Reading may fail. */
    method Replay() returns (r: Result<seq<Replayed>, ()>)
      ensures r.Ok? ==> r.value == ReplayOf(wal)
    {
      var failed: bool := *;
      if failed {
        return Err(());
      }
      var log: seq<Replayed> := [];
      var rest := wal;
      while rest != map[]
        invariant log + ReplayOf(rest) == ReplayOf(wal)
        decreases |rest|
      {
        var id := FirstId(rest.Keys);
        log := log + [rest[id]];
        rest := rest - {id};
      }
      return Ok(log);
    }

    /**
     * The compare-and-set: acts only while the path holds exactly what the step expects. `Err` is a
     * failed read or write; a failed write may still have put the target there.
     */
    method ConvergePath(work: Converge) returns (r: Result<Converged, ()>)
      modifies this`disk, this`trace
      ensures r.Ok? ==> r.value == Compare(work, At(old(disk), work.path))
      ensures r.Ok? ==> disk == if r.value.Done? then Put(old(disk), work.path, work.target) else old(disk)
      ensures disk != old(disk) ==> Compare(work, At(old(disk), work.path)).Done?
                                    && disk == Put(old(disk), work.path, work.target)
      ensures trace == old(trace) || trace == old(trace) + [Now()]
      ensures disk != old(disk) ==> trace == old(trace) + [Now()]
    {
      var now := Read(work.path);
      if now.Err? {
        return Err(());
      }
      if HashOf(now.value) == HashOf(work.target) {
        return Ok(AlreadyThere);
      }
      if HashOf(now.value) != work.expected {
        return Ok(Foreign);
      }
      var ok: bool;
      if work.target.Some? {
        ok := AtomicWrite(work.path, work.target.value);
      } else {
        ok := RemoveIfExists(work.path);
      }
      r := if ok then Ok(Done) else Err(());
    }
  }
}
