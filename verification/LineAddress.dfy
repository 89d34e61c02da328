/** Addressing whole lines, and what replacing them does to every other line. */
module LineAddress {
  import opened Prelude
  import opened LineTable

  /** How a caller addresses bytes; -1 stands for unset. */
  datatype Address = Address(line: int, lines: Option<(int, int)>, start: int, end: int)

  datatype AddressError = BothModes | NoMode | NeedBothEnds | BothLineForms | BadLine | StartPastEnd

  datatype ByteRange = ByteRange(start: int, end: int)

  /** The 1-based inclusive line range of a line address. */
  function LineRange(a: Address): Result<(int, int), AddressError> {
    if a.line >= 0 && a.lines.Some? then Err(BothLineForms)
    else if a.line >= 0 then (if a.line < 1 then Err(BadLine) else Ok((a.line, a.line)))
    else if a.lines.None? then Err(BadLine)
    else
      var (lo, hi) := a.lines.value;
      if lo < 1 || hi < 1 then Err(BadLine) else if lo > hi then Err(StartPastEnd) else Ok((lo, hi))
  }

  /** The bytes of a line range, without the newline that ends its last line. */
  function LineBytes(src: Bytes, li: LineIndex, lo: int, hi: int): ByteRange {
    var start, end := ByteForLine(li, lo), ByteForLine(li, hi + 1);
    if end > start && end <= |src| && src[end - 1] == LF then ByteRange(start, end - 1) else ByteRange(start, end)
  }

  /** Exactly one addressing mode, resolved to bytes. */
  function ResolveRange(src: Bytes, a: Address): Result<ByteRange, AddressError> {
    var byteMode := a.start >= 0 || a.end >= 0;
    var lineMode := a.line >= 0 || a.lines.Some?;
    if byteMode && lineMode then Err(BothModes)
    else if byteMode then
      if a.start < 0 || a.end < 0 then Err(NeedBothEnds) else Ok(ByteRange(a.start, a.end))
    else if lineMode then
      var range :- LineRange(a);
      Ok(LineBytes(src, IndexOf(src), range.0, range.1))
    else Err(NoMode)
  }

  /** Which addresses name lines, and which lines. */
  lemma LineRangeMeans(a: Address, lo: int, hi: int)
    ensures LineRange(a) == Ok((lo, hi)) <==>
              || (a.line >= 1 && a.lines.None? && lo == hi == a.line)
              || (a.line < 0 && a.lines.Some? && a.lines.value.0 == lo && a.lines.value.1 == hi && 1 <= lo <= hi)
    ensures LineRange(a) == Err(BothLineForms) <==> a.line >= 0 && a.lines.Some?
    ensures LineRange(a) == Err(StartPastEnd) <==>
              a.line < 0 && a.lines.Some? && 1 <= a.lines.value.1 < a.lines.value.0
    ensures LineRange(a).Err? ==> LineRange(a).error in {BothLineForms, StartPastEnd, BadLine}
  {
  }

  /** An address names bytes, lines, both or nothing; bytes are taken as they stand, both ends or none. */
  lemma AddressMeans(src: Bytes, a: Address, start: int, end: int)
    ensures var bytes, lines := a.start >= 0 || a.end >= 0, a.line >= 0 || a.lines.Some?;
            && (ResolveRange(src, a) == Err(BothModes) <==> bytes && lines)
            && (ResolveRange(src, a) == Err(NoMode) <==> !bytes && !lines)
            && (ResolveRange(src, a) == Err(NeedBothEnds) <==> bytes && !lines && (a.start < 0 || a.end < 0))
            && (bytes ==> (ResolveRange(src, a) == Ok(ByteRange(start, end)) <==>
                             !lines && 0 <= a.start == start && 0 <= a.end == end))
            && (!bytes && lines ==> (ResolveRange(src, a).Ok? <==> LineRange(a).Ok?))
            && (!bytes && lines && LineRange(a).Err? ==> ResolveRange(src, a) == Err(LineRange(a).error))
  {
  }

  // ---- lines ----

  /** One more byte: a newline opens an empty line, any other byte extends the last line. */
  ghost function Push(lines: seq<Bytes>, c: byte): (r: seq<Bytes>)
    requires lines != []
    ensures r != []
  {
    var n := |lines| - 1;
    if c == LF then lines + [[]] else lines[..n] + [lines[n] + [c]]
  }

  /** The lines of a text, without their newlines; a final newline is followed by an empty line. */
  ghost function Lines(src: Bytes): (r: seq<Bytes>)
    ensures r != []
  {
    if src == [] then [[]] else Push(Lines(src[..|src| - 1]), src[|src| - 1])
  }

  lemma LinesPush(text: Bytes, c: byte)
    ensures Lines(text + [c]) == Push(Lines(text), c)
  {
    assert (text + [c])[..|text|] == text;
  }

  lemma PushAfter(a: seq<Bytes>, b: seq<Bytes>, c: byte)
    requires b != []
    ensures Push(a + b, c) == a + Push(b, c)
  {
    var n := |b| - 1;
    assert (a + b)[..|a| + n] == a + b[..n];
  }

  lemma {:induction false} LinesConcat(a: Bytes, b: Bytes)
    ensures Lines(a + [LF] + b) == Lines(a) + Lines(b)
  {
    if b == [] {
      assert a + [LF] + [] == a + [LF];
      LinesPush(a, LF);
    } else {
      var n := |b| - 1;
      LinesConcat(a, b[..n]);
      assert a + [LF] + b == (a + [LF] + b[..n]) + [b[n]];
      LinesPush(a + [LF] + b[..n], b[n]);
      PushAfter(Lines(a), Lines(b[..n]), b[n]);
    }
  }

  lemma {:induction false} LinesWithoutNewline(text: Bytes)
    requires LF !in text
    ensures |Lines(text)| == 1 && Lines(text)[0] == text
    decreases |text|
  {
    if text != [] {
      var front, c := FrontAndLast(text);
      LinesWithoutNewline(front);
      LinesPush(front, c);
      LastLineGrows(Lines(front), front, c);
    }
  }

  lemma FrontAndLast(text: Bytes) returns (front: Bytes, c: byte)
    requires text != [] && LF !in text
    ensures text == front + [c] && LF !in front && c != LF
  {
    front, c := text[..|text| - 1], text[|text| - 1];
  }

  lemma LastLineGrows(lines: seq<Bytes>, line: Bytes, c: byte)
    requires |lines| == 1 && lines[0] == line && c != LF
    ensures |Push(lines, c)| == 1 && Push(lines, c)[0] == line + [c]
  {
  }

  lemma {:induction false} LinesAreStarts(src: Bytes)
    ensures |Lines(src)| == |LineStarts(src)|
    ensures Lines(src)[|Lines(src)| - 1] == src[LineStarts(src)[|LineStarts(src)| - 1]..]
  {
    if src != [] { LinesAreStarts(src[..|src| - 1]); }
  }

  /** Before the start of line `k + 1` lie exactly `k` lines, ended by a newline. */
  lemma {:induction false} BeforeStart(src: Bytes, k: nat)
    requires 0 < k < |LineStarts(src)|
    ensures var s := LineStarts(src)[k];
            0 < s <= |src| && src[s - 1] == LF && |Lines(src[..s - 1])| == k
  {
    var n := |src| - 1;
    if k < |LineStarts(src[..n])| {
      BeforeStart(src[..n], k);
      var s := LineStarts(src)[k];
      assert src[..n][..s - 1] == src[..s - 1];
    } else {
      LinesAreStarts(src[..n]);
    }
  }

  ghost function Head(before: Option<Bytes>): Bytes {
    if before.Some? then before.value + [LF] else []
  }

  ghost function Tail(after: Option<Bytes>): Bytes {
    if after.Some? then [LF] + after.value else []
  }

  ghost function LinesOf(part: Option<Bytes>): seq<Bytes> {
    if part.Some? then Lines(part.value) else []
  }

  lemma LinesOfTail(middle: Bytes, after: Option<Bytes>)
    ensures Lines(middle + Tail(after)) == Lines(middle) + LinesOf(after)
  {
    if after.Some? {
      assert middle + ([LF] + after.value) == middle + [LF] + after.value;
      LinesConcat(middle, after.value);
    } else {
      assert middle + [] == middle;
    }
  }

  /** A text cut into what comes before a run of whole lines, the run, and what comes after. */
  lemma LinesOfCut(before: Option<Bytes>, middle: Bytes, after: Option<Bytes>)
    ensures Lines(Head(before) + (middle + Tail(after))) == LinesOf(before) + (Lines(middle) + LinesOf(after))
  {
    LinesOfTail(middle, after);
    if before.Some? {
      LinesConcat(before.value, middle + Tail(after));
    } else {
      assert [] + (middle + Tail(after)) == middle + Tail(after);
    }
  }

  /** The one case a replacement cannot fold in: the empty line after a final newline, taken with others. */
  ghost predicate EndsInPhantomLine(src: Bytes, lo: int, hi: int)
    requires 1 <= lo <= hi <= |Lines(src)|
  {
    lo < hi && hi == |Lines(src)| && Lines(src)[hi - 1] == []
  }

  /** What comes before line `lo`: nothing, or `lo - 1` lines and a newline. */
  lemma CutBefore(src: Bytes, lo: int) returns (before: Option<Bytes>)
    requires 1 <= lo <= |LineStarts(src)|
    ensures src[..LineStarts(src)[lo - 1]] == Head(before) && |LinesOf(before)| == lo - 1
  {
    var s := LineStarts(src)[lo - 1];
    if lo == 1 {
      before := None;
    } else {
      BeforeStart(src, lo - 1);
      before := Some(src[..s - 1]);
      assert src[..s] == src[..s - 1] + [LF];
    }
  }

  /** `middle` is the run of lines `[start, end)`, and `after` what follows it. */
  ghost predicate CutAt(src: Bytes, start: int, end: int, before: Option<Bytes>, middle: Bytes, after: Option<Bytes>) {
    && 0 <= start <= end <= |src|
    && src[..start] == Head(before) && src[start..end] == middle && src[end..] == Tail(after)
  }

  lemma Pieces(src: Bytes, start: nat, end: nat)
    requires start <= end <= |src|
    ensures src == src[..start] + (src[start..end] + src[end..])
    ensures src[..end] == src[..start] + src[start..end]
  {
  }

  lemma {:induction false} CutIsWhole(src: Bytes, start: int, end: int, before: Option<Bytes>, middle: Bytes,
                                      after: Option<Bytes>)
    requires CutAt(src, start, end, before, middle, after)
    ensures Lines(src) == LinesOf(before) + (Lines(middle) + LinesOf(after))
    ensures Lines(src[..end]) == LinesOf(before) + Lines(middle)
  {
    Pieces(src, start, end);
    LinesOfCut(before, middle, after);
    assert middle + Tail(None) == middle;
    LinesOfCut(before, middle, None);
    assert Lines(middle) + LinesOf(None) == Lines(middle);
  }

  /** How an in-range line address cuts the text. */
  lemma CutAtLines(src: Bytes, lo: int, hi: int) returns (before: Option<Bytes>, middle: Bytes, after: Option<Bytes>)
    requires 1 <= lo <= hi <= |Lines(src)|
    ensures var r := LineBytes(src, IndexOf(src), lo, hi); CutAt(src, r.start, r.end, before, middle, after)
    ensures |LinesOf(before)| == lo - 1
    ensures |Lines(middle)| == if EndsInPhantomLine(src, lo, hi) then hi - lo else hi - lo + 1
    ensures EndsInPhantomLine(src, lo, hi) ==> after == Some([])
  {
    LinesAreStarts(src);
    before := CutBefore(src, lo);
    if hi < |LineStarts(src)| {
      middle, after := CutInside(src, lo, hi, before);
    } else {
      middle, after := CutToEnd(src, lo, before);
    }
  }

  /** A range that stops before the last line. */
  lemma CutInside(src: Bytes, lo: int, hi: int, before: Option<Bytes>) returns (middle: Bytes, after: Option<Bytes>)
    requires 1 <= lo <= hi < |LineStarts(src)|
    requires src[..LineStarts(src)[lo - 1]] == Head(before) && |LinesOf(before)| == lo - 1
    ensures var r := LineBytes(src, IndexOf(src), lo, hi); CutAt(src, r.start, r.end, before, middle, after)
    ensures |Lines(middle)| == hi - lo + 1
  {
    var start, end := LineStarts(src)[lo - 1], LineStarts(src)[hi] - 1;
    InsideBytes(src, lo, hi);
    middle, after := src[start..end], Some(src[end + 1..]);
    CutAtNewline(src, start, end, before);
    CutCounts(src, start, end, before, middle, after);
  }

  lemma CutAtNewline(src: Bytes, start: int, end: int, before: Option<Bytes>)
    requires 0 <= start <= end < |src| && src[end] == LF && src[..start] == Head(before)
    ensures CutAt(src, start, end, before, src[start..end], Some(src[end + 1..]))
  {
    assert src[end..] == [LF] + src[end + 1..];
  }

  lemma CutCounts(src: Bytes, start: int, end: int, before: Option<Bytes>, middle: Bytes, after: Option<Bytes>)
    requires CutAt(src, start, end, before, middle, after)
    ensures |Lines(src[..end])| == |LinesOf(before)| + |Lines(middle)|
  {
    CutIsWhole(src, start, end, before, middle, after);
  }

  /** The bytes of lines that stop before the last one end just before a newline. */
  lemma InsideBytes(src: Bytes, lo: int, hi: int)
    requires 1 <= lo <= hi < |LineStarts(src)|
    ensures var start, end := LineStarts(src)[lo - 1], LineStarts(src)[hi] - 1;
            && 0 <= start <= end < |src| && src[end] == LF && |Lines(src[..end])| == hi
            && LineBytes(src, IndexOf(src), lo, hi) == ByteRange(start, end)
  {
    BeforeStart(src, hi);
    assert LineStarts(src)[lo - 1] < LineStarts(src)[hi];
  }

  /** A range that runs to the last line. */
  lemma CutToEnd(src: Bytes, lo: int, before: Option<Bytes>) returns (middle: Bytes, after: Option<Bytes>)
    requires 1 <= lo <= |Lines(src)| == |LineStarts(src)|
    requires src[..LineStarts(src)[lo - 1]] == Head(before) && |LinesOf(before)| == lo - 1
    ensures var r := LineBytes(src, IndexOf(src), lo, |Lines(src)|); CutAt(src, r.start, r.end, before, middle, after)
    ensures |Lines(middle)|
            == if EndsInPhantomLine(src, lo, |Lines(src)|) then |Lines(src)| - lo else |Lines(src)| - lo + 1
    ensures EndsInPhantomLine(src, lo, |Lines(src)|) ==> after == Some([])
  {
    var size, start := |src|, LineStarts(src)[lo - 1];
    ToEndBytes(src, lo);
    if start < size && src[size - 1] == LF {
      middle, after := src[start..size - 1], Some([]);
      CutBeforeFinalNewline(src, start, before);
    } else {
      middle, after := src[start..], None;
      CutNothingAfter(src, start, before);
    }
  }

  lemma {:induction false} CutNothingAfter(src: Bytes, start: int, before: Option<Bytes>)
    requires 0 <= start <= |src| && src[..start] == Head(before)
    ensures CutAt(src, start, |src|, before, src[start..], None)
    ensures |Lines(src)| == |LinesOf(before)| + |Lines(src[start..])|
  {
    CutCounts(src, start, |src|, before, src[start..], None);
    assert src[..|src|] == src;
  }

  /** Up to a final newline there is one line less: the empty one after it. */
  lemma CutBeforeFinalNewline(src: Bytes, start: int, before: Option<Bytes>)
    requires 0 <= start < |src| && src[|src| - 1] == LF && src[..start] == Head(before)
    ensures CutAt(src, start, |src| - 1, before, src[start..|src| - 1], Some([]))
    ensures |Lines(src)| == |LinesOf(before)| + |Lines(src[start..|src| - 1])| + 1
  {
    CutAtNewline(src, start, |src| - 1, before);
    assert src[|src|..] == [];
    CutIsWhole(src, start, |src| - 1, before, src[start..|src| - 1], Some([]));
    assert Lines([]) == [[]];
  }

  /** The bytes of lines that run to the last one, and when that last one is the empty line. */
  lemma ToEndBytes(src: Bytes, lo: int)
    requires 1 <= lo <= |Lines(src)| == |LineStarts(src)|
    ensures var size, start := |src|, LineStarts(src)[lo - 1];
            && 0 <= start <= size
            && LineBytes(src, IndexOf(src), lo, |Lines(src)|)
               == ByteRange(start, if start < size && src[size - 1] == LF then size - 1 else size)
            && (EndsInPhantomLine(src, lo, |Lines(src)|) <==> start < size && src[size - 1] == LF)
  {
    assert lo < |LineStarts(src)| ==> LineStarts(src)[lo - 1] < LineStarts(src)[|LineStarts(src)| - 1];
  }

  /**
   * Replacing lines `lo..hi` by text without a newline turns them into that one line and leaves every
   * other line as it was, exactly when the range is not the empty line after a final newline taken
   * together with lines before it.
   */
  lemma {:induction false} ReplacedLinesBecomeOne(src: Bytes, lo: int, hi: int, text: Bytes)
    requires 1 <= lo <= hi <= |Lines(src)| && LF !in text
    ensures var r := LineBytes(src, IndexOf(src), lo, hi);
            && 0 <= r.start <= r.end <= |src|
            && (Lines(src[..r.start] + text + src[r.end..]) == Lines(src)[..lo - 1] + [text] + Lines(src)[hi..]
                <==> !EndsInPhantomLine(src, lo, hi))
  {
    var r := LineBytes(src, IndexOf(src), lo, hi);
    var before, middle, after := CutAtLines(src, lo, hi);
    CutIsWhole(src, r.start, r.end, before, middle, after);
    var out := src[..r.start] + text + src[r.end..];
    assert out == Head(before) + (text + Tail(after));
    LinesOfCut(before, text, after);
    LinesWithoutNewline(text);
    assert Lines(text) == [text];
    KeptLines(LinesOf(before), Lines(middle), LinesOf(after), text, hi);
    if EndsInPhantomLine(src, lo, hi) { assert Lines([]) == [[]]; }
  }

  lemma KeptLines(a: seq<Bytes>, m: seq<Bytes>, b: seq<Bytes>, text: Bytes, hi: int)
    requires |a| <= hi <= |a| + |m| + |b|
    ensures hi == |a| + |m| ==> (a + (m + b))[..|a|] + [text] + (a + (m + b))[hi..] == a + ([text] + b)
    ensures hi > |a| + |m| ==> (a + (m + b))[..|a|] + [text] + (a + (m + b))[hi..] != a + ([text] + b)
  {
    var all := a + (m + b);
    assert all[..|a|] == a;
    if hi == |a| + |m| {
      assert all[hi..] == b;
    } else if hi > |a| + |m| {
      assert |all[..|a|] + [text] + all[hi..]| < |a + ([text] + b)|;
    }
  }

  // ---- as a caller addresses them ----

  /** Lines past the last one are clamped: the range ends with the text, or is the empty range after it. */
  lemma LinesPastEnd(src: Bytes, lo: int, hi: int)
    requires 1 <= lo <= hi && hi >= |Lines(src)|
    ensures lo <= |Lines(src)| ==>
              LineBytes(src, IndexOf(src), lo, hi) == LineBytes(src, IndexOf(src), lo, |Lines(src)|)
    ensures lo > |Lines(src)| ==> LineBytes(src, IndexOf(src), lo, hi) == ByteRange(|src|, |src|)
  {
    LinesAreStarts(src);
  }

  /** Text without a newline, put after a text, extends its last line. */
  lemma {:induction false} LinesExtended(src: Bytes, text: Bytes)
    requires LF !in text
    ensures Lines(src + text) == Extended(Lines(src), text)
    decreases |text|
  {
    if text == [] {
      assert src + text == src;
      var n := |Lines(src)| - 1;
      assert Lines(src)[n] + [] == Lines(src)[n] && Lines(src) == Lines(src)[..n] + [Lines(src)[n]];
    } else {
      var front, c := FrontAndLast(text);
      LinesExtended(src, front);
      assert src + text == src + front + [c];
      LinesPush(src + front, c);
      ExtendedOnce(Lines(src), front, c);
      assert text == front + [c];
    }
  }

  lemma ExtendedOnce(lines: seq<Bytes>, front: Bytes, c: byte)
    requires lines != [] && c != LF
    ensures Push(Extended(lines, front), c) == Extended(lines, front + [c])
  {
    var last := lines[|lines| - 1];
    assert last + front + [c] == last + (front + [c]);
  }

  /** The lines with more text in the last one. */
  ghost function Extended(lines: seq<Bytes>, text: Bytes): seq<Bytes>
    requires lines != []
  {
    lines[..|lines| - 1] + [lines[|lines| - 1] + text]
  }

  /**
   * A line address with a first line that exists: its lines, up to the last one there is, become the
   * one line, again exactly when they do not end in the empty last line. A first line past the end
   * addresses nothing, and the text joins the last line.
   */
  lemma {:induction false} AddressedLinesBecomeOne(src: Bytes, a: Address, text: Bytes)
    requires a.start < 0 && a.end < 0 && LineRange(a).Ok? && LF !in text
    ensures ResolveRange(src, a).Ok?
    ensures var r, lo, n := ResolveRange(src, a).value, LineRange(a).value.0, |Lines(src)|;
            var hi := if LineRange(a).value.1 <= n then LineRange(a).value.1 else n;
            && 0 <= r.start <= r.end <= |src|
            && (lo <= n ==>
                  (Lines(src[..r.start] + text + src[r.end..]) == Lines(src)[..lo - 1] + [text] + Lines(src)[hi..]
                   <==> !EndsInPhantomLine(src, lo, hi)))
            && (lo > n ==> Lines(src[..r.start] + text + src[r.end..]) == Extended(Lines(src), text))
  {
    var lo, hi, n := LineRange(a).value.0, LineRange(a).value.1, |Lines(src)|;
    if hi >= n { LinesPastEnd(src, lo, hi); }
    if lo <= n {
      ReplacedLinesBecomeOne(src, lo, if hi <= n then hi else n, text);
    } else {
      assert src[..|src|] + text + src[|src|..] == src + text;
      LinesExtended(src, text);
    }
  }
}
