/** Line tables: where each line starts, and rows and columns by binary search. */
module LineTable {
  import opened Prelude

  datatype Point = Point(row: nat, col: nat)

  // ---- the reference: counting byte by byte ----

  /** The point reached by writing `text` from `from`, one byte at a time. */
  function Walk(from: Point, text: Bytes): Point {
    if text == [] then from
    else
      var n := |text| - 1;
      var p := Walk(from, text[..n]);
      if text[n] == LF then Point(p.row + 1, 0) else Point(p.row, p.col + 1)
  }

  function Clamp(off: nat, size: nat): (r: nat)
    ensures r <= size && r <= off
  {
    if off < size then off else size
  }

  /** The true row and column of an offset; an offset past the end is the end. */
  function TruePoint(src: Bytes, off: nat): Point {
    Walk(Point(0, 0), src[..Clamp(off, |src|)])
  }

  method PointAt(src: Bytes, off: nat) returns (p: Point)
    ensures p == TruePoint(src, off)
  {
    var end := Clamp(off, |src|);
    p := Point(0, 0);
    for i := 0 to end
      invariant p == Walk(Point(0, 0), src[..i])
    {
      assert src[..i + 1][..i] == src[..i];
      if src[i] == LF {
        p := Point(p.row + 1, 0);
      } else {
        p := Point(p.row, p.col + 1);
      }
    }
  }

  function CountLF(text: Bytes): nat {
    if text == [] then 0
    else CountLF(text[..|text| - 1]) + if text[|text| - 1] == LF then 1 else 0
  }

  /** One past the last newline; 0 if there is none. */
  function AfterLastLF(text: Bytes): (n: nat)
    ensures n <= |text| && LF !in text[n..] && (n > 0 ==> text[n - 1] == LF)
  {
    if text == [] then 0
    else if text[|text| - 1] == LF then |text|
    else
      var n := AfterLastLF(text[..|text| - 1]);
      assert text[n..] == text[..|text| - 1][n..] + [text[|text| - 1]];
      n
  }

  /** The closed form: rows by counting newlines, the column by the last one. */
  function Advance(from: Point, text: Bytes): Point {
    var last := AfterLastLF(text);
    if last > 0 then Point(from.row + CountLF(text), |text| - last)
    else Point(from.row, from.col + |text|)
  }

  lemma {:induction false} NoNewlineNoCount(text: Bytes)
    ensures AfterLastLF(text) == 0 <==> CountLF(text) == 0
  {
    if text != [] { NoNewlineNoCount(text[..|text| - 1]); }
  }

  /** Advancing in closed form is walking byte by byte. */
  lemma {:induction false} AdvanceIsWalk(from: Point, text: Bytes)
    ensures Advance(from, text) == Walk(from, text)
  {
    if text != [] {
      AdvanceIsWalk(from, text[..|text| - 1]);
      NoNewlineNoCount(text);
      NoNewlineNoCount(text[..|text| - 1]);
    }
  }

  lemma {:induction false} WalkConcat(from: Point, a: Bytes, b: Bytes)
    ensures Walk(from, a + b) == Walk(Walk(from, a), b)
  {
    if b == [] {
      assert a + b == a;
    } else {
      var n := |b| - 1;
      WalkConcat(from, a, b[..n]);
      assert (a + b)[..|a| + n] == a + b[..n];
    }
  }

  /**
   * For an edit of `[start, end)` to `text`, advancing from the start point over `text` gives the
   * true point of the new end in the spliced bytes.
   */
  lemma AdvanceGivesNewEnd(src: Bytes, start: nat, end: nat, text: Bytes)
    requires start <= end <= |src|
    ensures Advance(TruePoint(src, start), text)
         == TruePoint(src[..start] + text + src[end..], start + |text|)
  {
    var out := src[..start] + text + src[end..];
    AdvanceIsWalk(TruePoint(src, start), text);
    WalkConcat(Point(0, 0), src[..start], text);
    assert out[..start + |text|] == src[..start] + text;
  }

  // ---- the table ----

  /** `starts[i]` is the byte where line `i + 1` begins; `size` is the length of the source. */
  datatype LineIndex = LineIndex(starts: seq<nat>, size: nat)

  /** The starts of `src`'s lines, one more after each newline. */
  function LineStarts(src: Bytes): (r: seq<nat>)
    ensures r != [] && r[0] == 0
    ensures forall i :: 0 <= i < |r| ==> r[i] <= |src|
    ensures forall i, j :: 0 <= i < j < |r| ==> r[i] < r[j]
  {
    if src == [] then [0]
    else
      var r := LineStarts(src[..|src| - 1]);
      if src[|src| - 1] == LF then r + [|src|] else r
  }

  /** A line starts at the front of the source and after each newline, and nowhere else. */
  lemma {:induction false} StartsAre(src: Bytes, s: nat)
    ensures s in LineStarts(src) <==> s == 0 || (s <= |src| && src[s - 1] == 10)
  {
    if src != [] { StartsAre(src[..|src| - 1], s); }
  }

  function IndexOf(src: Bytes): LineIndex {
    LineIndex(LineStarts(src), |src|)
  }

  method NewLineIndex(src: Bytes) returns (li: LineIndex)
    ensures li == IndexOf(src)
  {
    var starts := [0];
    for i := 0 to |src|
      invariant starts == LineStarts(src[..i])
    {
      assert src[..i + 1][..i] == src[..i];
      if src[i] == LF {
        starts := starts + [i + 1];
      }
    }
    assert src[..|src|] == src;
    li := LineIndex(starts, |src|);
  }

  /** The result of a binary search: the index of the key, or where it would be inserted. */
  datatype Search = Found(index: nat) | Missing(insertAt: nat)

  ghost predicate IsSearch(s: seq<nat>, key: nat, r: Search) {
    match r
    case Found(i) => i < |s| && s[i] == key
    case Missing(i) =>
      && i <= |s|
      && (forall k :: 0 <= k < i ==> s[k] < key)
      && (forall k :: i <= k < |s| ==> key < s[k])
  }

  method BinarySearch(s: seq<nat>, key: nat) returns (r: Search)
    requires forall i, j :: 0 <= i < j < |s| ==> s[i] < s[j]
    ensures IsSearch(s, key, r)
  {
    var lo, hi := 0, |s|;
    while lo < hi
      invariant 0 <= lo <= hi <= |s|
      invariant forall k :: 0 <= k < lo ==> s[k] < key
      invariant forall k :: hi <= k < |s| ==> key < s[k]
    {
      var mid := (lo + hi) / 2;
      if s[mid] == key {
        return Found(mid);
      } else if s[mid] < key {
        lo := mid + 1;
      } else {
        hi := mid;
      }
    }
    return Missing(lo);
  }

  /** Line `line` is the last one that starts at or before `off`. */
  ghost predicate IsLineOf(starts: seq<nat>, off: nat, line: nat) {
    && 1 <= line <= |starts|
    && starts[line - 1] <= off
    && forall k :: line <= k < |starts| ==> off < starts[k]
  }

  /** The 1-based line and 0-based byte column of `off`, by binary search. */
  method PositionForByte(li: LineIndex, off: nat) returns (line: nat, col: nat)
    requires li.starts != [] && li.starts[0] == 0
    requires forall i, j :: 0 <= i < j < |li.starts| ==> li.starts[i] < li.starts[j]
    ensures IsLineOf(li.starts, Clamp(off, li.size), line)
    ensures col == Clamp(off, li.size) - li.starts[line - 1]
  {
    var o := Clamp(off, li.size);
    if o == 0 {
      line := 1;
    } else {
      var r := BinarySearch(li.starts, o);
      match r
      case Found(i) => line := i + 1;
      case Missing(i) => line := i;
    }
    col := o - li.starts[line - 1];
  }

  /** The table's last line is the walked row, and its start the last newline. */
  lemma {:induction false} StartsOfWalk(text: Bytes)
    ensures var p := Walk(Point(0, 0), text);
            |LineStarts(text)| == p.row + 1 && p.col <= |text| && LineStarts(text)[p.row] == |text| - p.col
  {
    if text != [] { StartsOfWalk(text[..|text| - 1]); }
  }

  /** The starts up to an offset are those of the text up to it. */
  lemma {:induction false} StartsOfPrefix(src: Bytes, off: nat)
    requires off <= |src|
    ensures LineStarts(src[..off]) <= LineStarts(src)
    ensures forall k :: |LineStarts(src[..off])| <= k < |LineStarts(src)| ==> off < LineStarts(src)[k]
  {
    var n := |src| - 1;
    if off == |src| {
      assert src[..off] == src;
    } else {
      StartsOfPrefix(src[..n], off);
      assert src[..n][..off] == src[..off];
    }
  }

  /** The walked row is the line that contains the offset. */
  lemma {:induction false} TrueRowIsLine(src: Bytes, o: nat)
    requires o <= |src|
    ensures var p := Walk(Point(0, 0), src[..o]);
            IsLineOf(LineStarts(src), o, p.row + 1) && LineStarts(src)[p.row] == o - p.col
  {
    StartsOfWalk(src[..o]);
    StartsOfPrefix(src, o);
    var prefix, all := LineStarts(src[..o]), LineStarts(src);
    assert forall k :: 0 <= k < |prefix| ==> all[k] == prefix[k];
  }

  /** The column is how far the offset is behind the last newline, and as many lines start before it as the row says. */
  lemma {:induction false} TruePointIs(src: Bytes, off: nat) returns (starts: seq<nat>)
    requires off <= |src|
    ensures var p := TruePoint(src, off);
            && p.col <= off && (p.col == off || src[off - p.col - 1] == 10)
            && (forall k :: off - p.col <= k < off ==> src[k] != 10)
            && |starts| == p.row + 1 && forall i, j :: 0 <= i < j < |starts| ==> starts[i] < starts[j]
    ensures forall s: nat :: s in starts <==> s == 0 || (s <= off && src[s - 1] == 10)
  {
    assert src[..Clamp(off, |src|)] == src[..off];
    starts := LineStarts(src[..off]);
    StartsOfWalk(src[..off]);
    forall s: nat ensures s in starts <==> s == 0 || (s <= off && src[s - 1] == 10) { StartsAre(src[..off], s); }
    NothingAfterLast(src, off, starts);
  }

  lemma NothingAfterLast(src: Bytes, off: nat, starts: seq<nat>)
    requires off <= |src| && starts != [] && forall i, j :: 0 <= i < j < |starts| ==> starts[i] < starts[j]
    requires forall s: nat :: s in starts <==> s == 0 || (s <= off && src[s - 1] == 10)
    ensures var last := starts[|starts| - 1];
            && (last == 0 || (last <= off && src[last - 1] == 10))
            && forall k :: last <= k < off ==> src[k] != 10
  {
    assert starts[|starts| - 1] in starts;
    forall k | starts[|starts| - 1] <= k < off ensures src[k] != 10 {
      assert src[k] == 10 ==> k + 1 in starts;
    }
  }

  /** Row and column by binary search are row and column by counting, for every source and offset. */
  method PointForByte(src: Bytes, li: LineIndex, off: nat) returns (p: Point)
    requires li == IndexOf(src)
    ensures p == TruePoint(src, off)
  {
    var line, col := PositionForByte(li, off);
    ghost var o := Clamp(off, |src|);
    ghost var walked := Walk(Point(0, 0), src[..o]);
    TrueRowIsLine(src, o);
    p := Point(line - 1, col);
  }

  /** Where a 1-based line begins; lines below 1 clamp to the start, lines past the last to the end. */
  function ByteForLine(li: LineIndex, line: int): nat {
    if line < 1 then 0
    else if line > |li.starts| then li.size
    else li.starts[line - 1]
  }
}
