/** The content-normalization rule behind every normalized hash. */
module Normalize {
  import opened Prelude

  const CR: byte := 13
  const TAB: byte := 9
  const SPACE: byte := 32
  const BOM: Bytes := [0xEF, 0xBB, 0xBF]

  predicate IsBlank(c: byte) {
    c == SPACE || c == TAB
  }

  // ---- the rule, stated line by line ----

  function DropCR(b: Bytes): (r: Bytes)
    ensures CR !in r
  {
    if b == [] then []
    else
      var n := |b| - 1;
      if b[n] == CR then DropCR(b[..n]) else DropCR(b[..n]) + [b[n]]
  }

  function RightStrip(line: Bytes): (r: Bytes)
    ensures r <= line && (r != [] ==> !IsBlank(r[|r| - 1]))
  {
    if line == [] || !IsBlank(line[|line| - 1]) then line else RightStrip(line[..|line| - 1])
  }

  /** The length of the first line, without its newline; the whole length if there is none. */
  function FirstLine(b: Bytes): (n: nat)
    ensures n <= |b| && LF !in b[..n] && (n < |b| ==> b[n] == LF)
  {
    if b == [] || b[0] == LF then 0
    else
      var n := FirstLine(b[1..]);
      assert b[..n + 1] == [b[0]] + b[1..][..n];
      n + 1
  }

  function StripLines(b: Bytes): Bytes {
    var n := FirstLine(b);
    if n == |b| then RightStrip(b) else RightStrip(b[..n]) + [LF] + StripLines(b[n + 1..])
  }

  function StripBoms(b: Bytes): (r: Bytes)
    ensures !(BOM <= r)
  {
    if BOM <= b then StripBoms(b[3..]) else b
  }

  function NormalForm(b: Bytes): Bytes {
    StripBoms(StripLines(DropCR(b)))
  }

  // ---- appending one byte ----

  /** The longest run of blanks and tabs at the end. */
  function TrailingBlanks(line: Bytes): Bytes {
    if line == [] || !IsBlank(line[|line| - 1]) then []
    else TrailingBlanks(line[..|line| - 1]) + [line[|line| - 1]]
  }

  lemma {:induction false} StrippedPlusBlanks(line: Bytes)
    ensures line == RightStrip(line) + TrailingBlanks(line)
  {
    if line != [] && IsBlank(line[|line| - 1]) {
      StrippedPlusBlanks(line[..|line| - 1]);
      assert line == line[..|line| - 1] + [line[|line| - 1]];
    }
  }

  lemma TrailingBlanksExtend(b: Bytes, c: byte)
    ensures TrailingBlanks(b + [c]) == if IsBlank(c) then TrailingBlanks(b) + [c] else []
    ensures RightStrip(b + [c]) == if IsBlank(c) then RightStrip(b) else b + [c]
  {
    assert (b + [c])[..|b|] == b;
  }

  /** The trailing blanks of the last line are those of the whole. */
  lemma {:induction false} TrailingBlanksAfterLine(line: Bytes, rest: Bytes)
    ensures TrailingBlanks(line + [LF] + rest) == TrailingBlanks(rest)
  {
    if rest == [] {
      TrailingBlanksExtend(line, LF);
      assert line + [LF] + [] == line + [LF];
    } else {
      var n := |rest| - 1;
      TrailingBlanksAfterLine(line, rest[..n]);
      TrailingBlanksExtend(line + [LF] + rest[..n], rest[n]);
      TrailingBlanksExtend(rest[..n], rest[n]);
      LastByte(line + [LF], rest);
    }
  }

  lemma LastByte(front: Bytes, rest: Bytes)
    requires rest != []
    ensures rest == rest[..|rest| - 1] + [rest[|rest| - 1]]
    ensures front + rest == front + rest[..|rest| - 1] + [rest[|rest| - 1]]
  {
  }

  lemma {:induction false} FirstLineOf(line: Bytes, rest: Bytes)
    requires LF !in line
    ensures FirstLine(line) == |line| && FirstLine(line + [LF] + rest) == |line|
  {
    if line != [] {
      FirstLineOf(line[1..], rest);
      assert (line + [LF] + rest)[1..] == line[1..] + [LF] + rest;
    }
  }

  lemma StripLine(line: Bytes, rest: Bytes)
    requires LF !in line
    ensures StripLines(line) == RightStrip(line)
    ensures StripLines(line + [LF] + rest) == RightStrip(line) + [LF] + StripLines(rest)
  {
    FirstLineOf(line, rest);
    var b := line + [LF] + rest;
    assert b[..|line|] == line && b[|line| + 1..] == rest;
  }

  /** A buffer is its first line alone, or its first line, a newline and the rest. */
  lemma SplitFirstLine(b: Bytes) returns (line: Bytes, rest: Bytes)
    ensures LF !in line && (b == line || (b == line + [LF] + rest && |rest| < |b|))
  {
    var n := FirstLine(b);
    line := b[..n];
    if n == |b| {
      rest := [];
    } else {
      rest := b[n + 1..];
      assert b == line + [LF] + rest;
    }
  }

  /** What one more byte brings into the stripped text. */
  function Added(b: Bytes, c: byte): Bytes {
    if c == LF then [LF] else if IsBlank(c) then [] else TrailingBlanks(b) + [c]
  }

  lemma LastLineEnds(line: Bytes)
    requires LF !in line
    ensures StripLines(line + [LF]) == StripLines(line) + [LF]
  {
    StripLine(line, []);
    assert line + [LF] + [] == line + [LF];
    assert StripLines([]) == [];
  }

  lemma {:induction false} LastLineGrows(line: Bytes, c: byte)
    requires LF !in line && c != LF
    ensures StripLines(line + [c]) == StripLines(line) + if IsBlank(c) then [] else TrailingBlanks(line) + [c]
  {
    StripLine(line, []);
    StripLine(line + [c], []);
    TrailingBlanksExtend(line, c);
    StrippedPlusBlanks(line);
  }

  lemma {:induction false} LastLineExtends(line: Bytes, c: byte)
    requires LF !in line
    ensures StripLines(line + [c]) == StripLines(line) + Added(line, c)
  {
    if c == LF { LastLineEnds(line); } else { LastLineGrows(line, c); }
  }

  lemma Regrouped(a: Bytes, b: Bytes, c: Bytes)
    ensures a + [LF] + (b + c) == (a + [LF] + b) + c
  {
  }

  lemma LaterLineExtends(line: Bytes, rest: Bytes, c: byte)
    requires LF !in line && StripLines(rest + [c]) == StripLines(rest) + Added(rest, c)
    ensures StripLines(line + [LF] + rest + [c]) == StripLines(line + [LF] + rest) + Added(line + [LF] + rest, c)
  {
    Regrouped(line, rest, [c]);
    StripLine(line, rest + [c]);
    StripLine(line, rest);
    TrailingBlanksAfterLine(line, rest);
    Regrouped(RightStrip(line), StripLines(rest), Added(rest, c));
  }

  lemma {:induction false} StripLinesExtends(b: Bytes, c: byte)
    ensures StripLines(b + [c]) == StripLines(b) + Added(b, c)
    decreases |b|
  {
    var line, rest := SplitFirstLine(b);
    if b == line {
      LastLineExtends(line, c);
    } else {
      StripLinesExtends(rest, c);
      LaterLineExtends(line, rest, c);
    }
  }

  lemma DropCRExtends(b: Bytes, i: nat)
    requires i < |b|
    ensures DropCR(b[..i + 1]) == if b[i] == CR then DropCR(b[..i]) else DropCR(b[..i]) + [b[i]]
  {
    assert b[..i + 1][..i] == b[..i];
  }

  /** What one more byte does to the stripped text and to its trailing blanks. */
  lemma OneMoreByte(b: Bytes, i: nat)
    requires i < |b|
    ensures var seen, now := DropCR(b[..i]), DropCR(b[..i + 1]);
            && StripLines(now) == StripLines(seen) + (if b[i] == CR then [] else Added(seen, b[i]))
            && TrailingBlanks(now) == if b[i] == CR then TrailingBlanks(seen)
                                      else if IsBlank(b[i]) then TrailingBlanks(seen) + [b[i]]
                                      else []
  {
    var seen := DropCR(b[..i]);
    DropCRExtends(b, i);
    StripLinesExtends(seen, b[i]);
    TrailingBlanksExtend(seen, b[i]);
  }

  /** Buffers blanks until a byte proves them interior, then strips the leading byte-order marks. */
  method Normalize(b: Bytes) returns (out: Bytes)
    ensures out == NormalForm(b)
  {
    out := [];
    var pending: Bytes := [];
    for i := 0 to |b|
      invariant out == StripLines(DropCR(b[..i]))
      invariant pending == TrailingBlanks(DropCR(b[..i]))
    {
      var c := b[i];
      OneMoreByte(b, i);
      if c == CR {
      } else if c == SPACE || c == TAB {
        pending := pending + [c];
      } else if c == LF {
        pending := [];
        out := out + [LF];
      } else {
        out := out + pending + [c];
        pending := [];
      }
    }
    assert b[..|b|] == b;
    out := DropBoms(out);
  }

  method DropBoms(b: Bytes) returns (out: Bytes)
    ensures out == StripBoms(b)
  {
    var start := 0;
    while BOM <= b[start..]
      invariant 0 <= start <= |b|
      invariant StripBoms(b[start..]) == StripBoms(b)
      decreases |b| - start
    {
      assert b[start..][3..] == b[start + 3..];
      start := start + 3;
    }
    out := b[start..];
  }

  // ---- normal forms ----

  /** No carriage return, no blank before a newline or at the end, no leading byte-order mark. */
  ghost predicate IsNormal(b: Bytes) {
    CR !in b && NoTrailingBlank(b) && !(BOM <= b)
  }

  ghost predicate NoTrailingBlank(b: Bytes) {
    && (forall i :: 0 <= i < |b| - 1 && IsBlank(b[i]) ==> b[i + 1] != LF)
    && (b != [] ==> !IsBlank(b[|b| - 1]))
  }

  lemma CleanConcat(line: Bytes, rest: Bytes)
    requires LF !in line && (line != [] ==> !IsBlank(line[|line| - 1]))
    requires NoTrailingBlank(rest)
    ensures NoTrailingBlank(line + [LF] + rest)
  {
    var all := line + [LF] + rest;
    forall i | 0 <= i < |all| - 1 && IsBlank(all[i]) ensures all[i + 1] != LF {
      if i > |line| {
        assert all[i] == rest[i - |line| - 1] && all[i + 1] == rest[i - |line|];
      } else if i < |line| - 1 {
        assert all[i + 1] == line[i + 1];
      }
    }
    assert all[|all| - 1] == if rest == [] then LF else rest[|rest| - 1];
  }

  lemma {:induction false} StripLinesIsClean(b: Bytes)
    requires CR !in b
    ensures CR !in StripLines(b) && NoTrailingBlank(StripLines(b))
    decreases |b|
  {
    var line, rest := SplitFirstLine(b);
    StripLine(line, rest);
    var kept := RightStrip(line);
    assert LF !in kept && CR !in kept;
    if b == line {
      assert forall i :: 0 <= i < |kept| ==> kept[i] != LF;
    } else {
      StripLinesIsClean(rest);
      CleanConcat(kept, StripLines(rest));
    }
  }

  lemma {:induction false} StripBomsIsSuffix(b: Bytes)
    requires CR !in b && NoTrailingBlank(b)
    ensures CR !in StripBoms(b) && NoTrailingBlank(StripBoms(b))
    decreases |b|
  {
    if BOM <= b {
      var rest := b[3..];
      forall i | 0 <= i < |rest| - 1 && IsBlank(rest[i]) ensures rest[i + 1] != LF {
        assert rest[i] == b[i + 3] && rest[i + 1] == b[i + 4];
      }
      StripBomsIsSuffix(rest);
    }
  }

  lemma {:induction false} DropCRKeeps(b: Bytes)
    requires CR !in b
    ensures DropCR(b) == b
  {
    if b != [] {
      DropCRKeeps(b[..|b| - 1]);
    }
  }

  lemma {:induction false} StripLinesKeeps(b: Bytes)
    requires NoTrailingBlank(b)
    ensures StripLines(b) == b
    decreases |b|
  {
    var line, rest := SplitFirstLine(b);
    StripLine(line, rest);
    if b != line {
      LineAndRestKeep(b, line, rest);
      StripLinesKeeps(rest);
    }
  }

  lemma LineAndRestKeep(b: Bytes, line: Bytes, rest: Bytes)
    requires NoTrailingBlank(b) && b == line + [LF] + rest
    ensures NoTrailingBlank(rest) && RightStrip(line) == line
  {
    var n := |line|;
    assert forall i :: 0 <= i < |rest| ==> rest[i] == b[i + n + 1];
    forall i | 0 <= i < |rest| - 1 && IsBlank(rest[i]) ensures rest[i + 1] != LF {
      assert rest[i] == b[i + n + 1] && rest[i + 1] == b[i + n + 1 + 1];
    }
    assert b[n] == LF;
    assert n > 0 ==> !IsBlank(b[n - 1]);
  }

  /** The output is in normal form, and a buffer is its own output exactly when it is in normal form. */
  lemma NormalizedExactly(b: Bytes)
    ensures IsNormal(NormalForm(b))
    ensures NormalForm(b) == b <==> IsNormal(b)
  {
    StripLinesIsClean(DropCR(b));
    StripBomsIsSuffix(StripLines(DropCR(b)));
    if IsNormal(b) {
      DropCRKeeps(b);
      StripLinesKeeps(b);
    }
  }

  lemma NormalizeIsIdempotent(b: Bytes)
    ensures NormalForm(NormalForm(b)) == NormalForm(b)
  {
    NormalizedExactly(b);
    NormalizedExactly(NormalForm(b));
  }

  // ---- the rule, stated byte by byte ----

  /** Up to the end of the line there are only spaces, tabs and carriage returns. */
  predicate OnlyBlanks(b: Bytes) {
    b == [] || b[0] == 10 || (b[0] in [9, 13, 32] && OnlyBlanks(b[1..]))
  }

  /** Every byte but carriage returns, and the spaces and tabs with nothing but such bytes after them on their line. */
  function Kept(b: Bytes): Bytes {
    if b == [] then []
    else if b[0] == 13 || (b[0] in [9, 32] && OnlyBlanks(b[1..])) then Kept(b[1..])
    else [b[0]] + Kept(b[1..])
  }

  lemma {:induction false} DropCRFront(c: byte, b: Bytes)
    ensures DropCR([c] + b) == (if c == CR then [] else [c]) + DropCR(b)
  {
    var all := [c] + b;
    if b == [] {
      assert all[..0] == [] && DropCR([]) == [];
    } else {
      var n := |b| - 1;
      DropCRFront(c, b[..n]);
      assert all[..n + 1] == [c] + b[..n] && all[n + 1] == b[n];
    }
  }

  lemma {:induction false} KeptIgnoresCR(b: Bytes)
    ensures Kept(DropCR(b)) == Kept(b) && (OnlyBlanks(DropCR(b)) <==> OnlyBlanks(b))
  {
    if b != [] {
      KeptIgnoresCR(b[1..]);
      DropCRFront(b[0], b[1..]);
      assert [b[0]] + b[1..] == b;
      var d := DropCR(b[1..]);
      assert ([b[0]] + d)[1..] == d && [] + d == d;
    }
  }

  lemma {:induction false} RightStripFront(c: byte, line: Bytes)
    ensures RightStrip([c] + line) == if RightStrip(line) == [] && IsBlank(c) then [] else [c] + RightStrip(line)
  {
    var all := [c] + line;
    if line == [] {
      assert all[..0] == [];
    } else {
      var n := |line| - 1;
      assert all[..n + 1] == [c] + line[..n] && all[n + 1] == line[n];
      if IsBlank(line[n]) { RightStripFront(c, line[..n]); }
    }
  }

  /** One more byte at the front of a line. */
  lemma {:induction false} StripLinesFront(c: byte, b: Bytes)
    requires c != CR
    ensures StripLines([c] + b)
            == if c == LF then [LF] + StripLines(b)
               else if IsBlank(c) && RightStrip(b[..FirstLine(b)]) == [] then StripLines(b)
               else [c] + StripLines(b)
  {
    var all, n := [c] + b, FirstLine(b);
    assert all[1..] == b;
    if c == LF {
      assert FirstLine(all) == 0 && all[..0] == [] && RightStrip([]) == [] && [] + [LF] == [LF];
    } else {
      assert FirstLine(all) == n + 1 && all[..n + 1] == [c] + b[..n];
      RightStripFront(c, b[..n]);
      if n == |b| {
        assert b[..n] == b && all[..n + 1] == all;
      } else {
        assert all[n + 2..] == b[n + 1..];
        FrontOfThree(c, RightStrip(b[..n]), StripLines(b[n + 1..]));
      }
    }
  }

  lemma FrontOfThree(c: byte, line: Bytes, rest: Bytes)
    ensures [c] + line + [LF] + rest == [c] + (line + [LF] + rest)
  {
  }

  lemma {:induction false} BlankFirstLine(b: Bytes)
    requires CR !in b
    ensures RightStrip(b[..FirstLine(b)]) == [] <==> OnlyBlanks(b)
  {
    if b != [] && b[0] != LF {
      BlankFirstLine(b[1..]);
      var n := FirstLine(b[1..]);
      assert FirstLine(b) == n + 1 && b[..n + 1] == [b[0]] + b[1..][..n];
      RightStripFront(b[0], b[1..][..n]);
    }
  }

  lemma {:induction false} StripLinesKeepsRest(b: Bytes)
    requires CR !in b
    ensures StripLines(b) == Kept(b)
  {
    if b != [] {
      StripLinesKeepsRest(b[1..]);
      StripLinesFront(b[0], b[1..]);
      BlankFirstLine(b[1..]);
      assert [b[0]] + b[1..] == b;
    }
  }

  /** This many byte-order marks of UTF-8 in a row. */
  function Boms(k: nat): Bytes {
    if k == 0 then [] else [0xEF, 0xBB, 0xBF] + Boms(k - 1)
  }

  lemma {:induction false} StripBomsKeeps(b: Bytes) returns (k: nat)
    ensures b == Boms(k) + StripBoms(b)
  {
    if BOM <= b {
      var rest := StripBomsKeeps(b[3..]);
      k := rest + 1;
      assert b == BOM + b[3..];
      assert BOM + (Boms(rest) + StripBoms(b)) == Boms(k) + StripBoms(b);
    } else {
      k := 0;
    }
  }

  /**
   * Byte by byte: what is left of a text is every byte of it but its carriage returns, the blanks that
   * end its lines, and the byte-order marks that then stand in front.
   */
  lemma NormalFormKeeps(b: Bytes) returns (k: nat)
    ensures Kept(b) == Boms(k) + NormalForm(b) && !(BOM <= NormalForm(b))
  {
    KeptIgnoresCR(b);
    StripLinesKeepsRest(DropCR(b));
    k := StripBomsKeeps(Kept(b));
  }
}
