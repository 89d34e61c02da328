/** Bytes, optional values, results and the content digest shared by every other module. */
module Prelude {

  newtype byte = b: int | 0 <= b < 256

  type Bytes = seq<byte>

  type Path = string

  const LF: byte := 10

  datatype Option<+T> = None | Some(value: T)

  datatype Result<+T, +E> = Ok(value: T) | Err(error: E) {
    predicate IsFailure() { Err? }

    function PropagateFailure<U>(): (r: Result<U, E>)
      requires Err?
    {
      Err(error)
    }

    function Extract(): T
      requires Ok?
    {
      value
    }
  }

  /** The raw content hash, idealised: two contents share a digest only when they are equal. */
  datatype Digest = Digest(content: Bytes)

  function RawHash(b: Bytes): Digest {
    Digest(b)
  }

  /** The hash of what a path holds; `None` for an absent path. */
  function HashOf(content: Option<Bytes>): Option<Digest> {
    if content.Some? then Some(RawHash(content.value)) else None
  }

  /** Positions in a list, each once and from front to back. */
  ghost predicate Increasing(at: seq<nat>) {
    forall i, j :: 0 <= i < j < |at| ==> at[i] < at[j]
  }

  /** The elements at these positions, in order. */
  ghost predicate Picks<T(!new)>(all: seq<T>, at: seq<nat>, picked: seq<T>) {
    && Increasing(at) && |picked| == |at|
    && forall k :: 0 <= k < |at| ==> at[k] < |all| && picked[k] == all[at[k]]
  }

  /** The files on disk. */
  type Disk = map<Path, Bytes>

  function At(disk: Disk, path: Path): Option<Bytes> {
    if path in disk then Some(disk[path]) else None
  }

  /** The whole source content of a move is at its source or at its destination. */
  ghost predicate Safe(disk: Disk, from: Path, to: Path, live: Bytes) {
    At(disk, from) == Some(live) || At(disk, to) == Some(live)
  }

  function Put(disk: Disk, path: Path, content: Option<Bytes>): Disk {
    if content.Some? then disk[path := content.value] else disk - {path}
  }
}
