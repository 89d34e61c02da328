/** Splicing a set of byte-range edits into one file's bytes, and where each one lands. */
module Splice {
  import opened Prelude
  import opened LineTable
  import Normalize

  /** Replace `[start, end)` by `text`. */
  datatype FileEdit = FileEdit(start: nat, end: nat, text: Bytes)

  datatype EditError =
    | Overlap(aStart: nat, aEnd: nat, bStart: nat, bEnd: nat)
    | OutOfBounds(start: nat, end: nat, len: nat)

  /** `out` with `[start, end)` replaced, unless the range is inverted or out of bounds. */
  function SpliceOne(out: Bytes, e: FileEdit): Result<Bytes, EditError> {
    if e.end < e.start || e.end > |out| then Err(OutOfBounds(e.start, e.end, |out|))
    else Ok(out[..e.start] + e.text + out[e.end..])
  }

  /** Stable insertion by descending start: before the first edit that does not start later. */
  function InsertDescending(e: FileEdit, sorted: seq<FileEdit>): seq<FileEdit> {
    if sorted == [] || sorted[0].start <= e.start then [e] + sorted
    else [sorted[0]] + InsertDescending(e, sorted[1..])
  }

  /** The stable sort by descending start. */
  function SortDescending(edits: seq<FileEdit>): seq<FileEdit> {
    if edits == [] then [] else InsertDescending(edits[0], SortDescending(edits[1..]))
  }

  /** Stable insertion by ascending start: before the first edit that does not start earlier. */
  function InsertAscending(e: FileEdit, sorted: seq<FileEdit>): seq<FileEdit> {
    if sorted == [] || e.start <= sorted[0].start then [e] + sorted
    else [sorted[0]] + InsertAscending(e, sorted[1..])
  }

  /** The stable sort by ascending start. */
  function SortAscending(edits: seq<FileEdit>): seq<FileEdit> {
    if edits == [] then [] else InsertAscending(edits[0], SortAscending(edits[1..]))
  }

  /** The first neighbours in descending order that share a byte. */
  function FirstOverlap(sorted: seq<FileEdit>): Option<EditError> {
    if |sorted| < 2 then None
    else if sorted[1].end > sorted[0].start then
      Some(Overlap(sorted[1].start, sorted[1].end, sorted[0].start, sorted[0].end))
    else FirstOverlap(sorted[1..])
  }

  /** One splice after another, each over the bytes the one before left. */
  function ApplyAll(out: Bytes, sorted: seq<FileEdit>): Result<Bytes, EditError>
    decreases |sorted|
  {
    if sorted == [] then Ok(out)
    else
      var next :- SpliceOne(out, sorted[0]);
      ApplyAll(next, sorted[1..])
  }

  function Spliced(src: Bytes, edits: seq<FileEdit>): Result<Bytes, EditError> {
    if edits == [] then Ok(src)
    else
      var sorted := SortDescending(edits);
      var overlap := FirstOverlap(sorted);
      if overlap.Some? then Err(overlap.value) else ApplyAll(src, sorted)
  }

  method SpliceEdits(src: Bytes, edits: seq<FileEdit>) returns (r: Result<Bytes, EditError>)
    ensures r == Spliced(src, edits)
  {
    if edits == [] {
      return Ok(src);
    }
    var sorted := SortDescending(edits);
    assert sorted[0..] == sorted;
    for i := 1 to |sorted|
      invariant FirstOverlap(sorted) == FirstOverlap(sorted[i - 1..])
    {
      assert sorted[i - 1..][1..] == sorted[i..];
      if sorted[i].end > sorted[i - 1].start {
        return Err(Overlap(sorted[i].start, sorted[i].end, sorted[i - 1].start, sorted[i - 1].end));
      }
    }
    var out := src;
    for i := 0 to |sorted|
      invariant ApplyAll(src, sorted) == ApplyAll(out, sorted[i..])
    {
      assert sorted[i..][1..] == sorted[i + 1..];
      var next := SpliceOne(out, sorted[i]);
      if next.Err? {
        return next;
      }
      out := next.value;
    }
    return Ok(out);
  }

  // ---- what a splice is for ----

  ghost predicate DistinctStarts(edits: seq<FileEdit>) {
    forall i, j :: 0 <= i < j < |edits| ==> edits[i].start != edits[j].start
  }

  ghost predicate Ascending(edits: seq<FileEdit>) {
    forall i, j :: 0 <= i < j < |edits| ==> edits[i].start < edits[j].start
  }

  ghost predicate Apart(a: FileEdit, b: FileEdit) {
    a.end <= b.start || b.end <= a.start
  }

  /** Every range is well-formed and within the original, and no two share a byte. */
  ghost predicate Applicable(src: Bytes, edits: seq<FileEdit>) {
    && (forall e :: e in edits ==> e.start <= e.end <= |src|)
    && (forall a, b :: a in edits && b in edits && a != b ==> Apart(a, b))
  }

  /** In order, well-formed, each ending before the next begins, and all before `to`. */
  ghost predicate Chained(edits: seq<FileEdit>, to: nat) {
    && (forall i :: 0 <= i < |edits| ==> edits[i].start <= edits[i].end)
    && (forall i :: 0 < i < |edits| ==> edits[i - 1].end <= edits[i].start)
    && (edits != [] ==> edits[|edits| - 1].end <= to)
  }

  /** Simultaneous substitution: the kept gaps of `src[..to]`, interleaved with the new texts. */
  ghost function Substitute(src: Bytes, edits: seq<FileEdit>, to: nat): Bytes
    requires to <= |src| && Chained(edits, to)
  {
    if edits == [] then src[..to]
    else
      var n := |edits| - 1;
      Substitute(src, edits[..n], edits[n].start) + edits[n].text + src[edits[n].end..to]
  }

  // ---- sorting ----

  lemma {:induction false} InsertAscendingContents(e: FileEdit, sorted: seq<FileEdit>)
    ensures multiset(InsertAscending(e, sorted)) == multiset(sorted) + multiset{e}
    ensures forall f :: f in InsertAscending(e, sorted) <==> f in sorted || f == e
  {
    if sorted != [] && e.start > sorted[0].start {
      InsertAscendingContents(e, sorted[1..]);
      assert sorted == [sorted[0]] + sorted[1..];
    }
  }

  lemma {:induction false} InsertAscendingKeeps(e: FileEdit, sorted: seq<FileEdit>)
    requires Ascending(sorted) && forall f :: f in sorted ==> f.start != e.start
    ensures Ascending(InsertAscending(e, sorted))
    ensures multiset(InsertAscending(e, sorted)) == multiset(sorted) + multiset{e}
    ensures forall f :: f in InsertAscending(e, sorted) <==> f in sorted || f == e
  {
    InsertAscendingContents(e, sorted);
    if sorted != [] && e.start > sorted[0].start {
      var rest := sorted[1..];
      forall f | f in rest ensures f.start != e.start && sorted[0].start < f.start { assert f in sorted; }
      InsertAscendingKeeps(e, rest);
    }
  }

  lemma {:induction false} SortAscendingSorts(edits: seq<FileEdit>)
    requires DistinctStarts(edits)
    ensures Ascending(SortAscending(edits)) && multiset(SortAscending(edits)) == multiset(edits)
    ensures forall f :: f in SortAscending(edits) <==> f in edits
  {
    if edits != [] {
      SortAscendingSorts(edits[1..]);
      assert edits == [edits[0]] + edits[1..];
      forall f | f in edits[1..] ensures f.start != edits[0].start {
        var k :| 0 <= k < |edits[1..]| && edits[1..][k] == f;
        assert edits[k + 1] == f;
      }
      InsertAscendingKeeps(edits[0], SortAscending(edits[1..]));
    }
  }

  ghost function Reverse(s: seq<FileEdit>): seq<FileEdit> {
    if s == [] then [] else Reverse(s[1..]) + [s[0]]
  }

  lemma {:induction false} ReverseSnoc(s: seq<FileEdit>, x: FileEdit)
    ensures Reverse(s + [x]) == [x] + Reverse(s)
  {
    if s != [] {
      ReverseSnoc(s[1..], x);
      assert (s + [x])[1..] == s[1..] + [x];
    }
  }

  lemma {:induction false} ReverseElements(s: seq<FileEdit>)
    ensures |Reverse(s)| == |s| && forall f :: f in Reverse(s) <==> f in s
  {
    if s != [] { ReverseElements(s[1..]); }
  }

  lemma {:induction false} InsertDescendingLast(e: FileEdit, t: seq<FileEdit>)
    requires forall f :: f in t ==> e.start < f.start
    ensures InsertDescending(e, t) == t + [e]
  {
    if t != [] { InsertDescendingLast(e, t[1..]); }
  }

  lemma {:induction false} InsertDescendingBefore(e: FileEdit, t: seq<FileEdit>, x: FileEdit)
    requires x.start <= e.start
    ensures InsertDescending(e, t + [x]) == InsertDescending(e, t) + [x]
  {
    if t != [] {
      InsertDescendingBefore(e, t[1..], x);
      assert (t + [x])[1..] == t[1..] + [x];
    }
  }

  lemma {:induction false} InsertReverses(e: FileEdit, sorted: seq<FileEdit>)
    requires Ascending(sorted) && forall f :: f in sorted ==> f.start != e.start
    ensures InsertDescending(e, Reverse(sorted)) == Reverse(InsertAscending(e, sorted))
  {
    if sorted == [] || e.start <= sorted[0].start {
      ReverseElements(sorted);
      forall f | f in Reverse(sorted) ensures e.start < f.start {
        var k :| 0 <= k < |sorted| && sorted[k] == f;
      }
      InsertDescendingLast(e, Reverse(sorted));
      assert ([e] + sorted)[1..] == sorted;
    } else {
      InsertReverses(e, sorted[1..]);
      InsertDescendingBefore(e, Reverse(sorted[1..]), sorted[0]);
    }
  }

  /** With distinct starts the two stable sorts are each other's reverse. */
  lemma {:induction false} SortsAreReverse(edits: seq<FileEdit>)
    requires DistinctStarts(edits)
    ensures SortDescending(edits) == Reverse(SortAscending(edits))
  {
    if edits != [] {
      SortsAreReverse(edits[1..]);
      SortAscendingSorts(edits[1..]);
      forall f | f in SortAscending(edits[1..]) ensures f.start != edits[0].start {
        var k :| 0 <= k < |edits[1..]| && edits[1..][k] == f;
        assert edits[k + 1] == f;
      }
      InsertReverses(edits[0], SortAscending(edits[1..]));
    }
  }

  lemma FirstIsLeast(a: seq<FileEdit>, e: FileEdit)
    requires Ascending(a) && e in a
    ensures e == a[0] || a[0].start < e.start
  {
  }

  lemma SameFirst(a: seq<FileEdit>, b: seq<FileEdit>)
    requires Ascending(a) && Ascending(b) && multiset(a) == multiset(b) && a != [] && b != []
    ensures a[0] == b[0] && multiset(a[1..]) == multiset(b[1..])
  {
    assert a[0] in multiset(a) && b[0] in multiset(b);
    FirstIsLeast(a, b[0]);
    FirstIsLeast(b, a[0]);
    WithoutFirst(a);
    WithoutFirst(b);
  }

  lemma WithoutFirst(s: seq<FileEdit>)
    requires s != []
    ensures multiset(s[1..]) == multiset(s) - multiset{s[0]}
  {
    assert s == [s[0]] + s[1..];
  }

  lemma SameSize(a: seq<FileEdit>, b: seq<FileEdit>)
    requires multiset(a) == multiset(b)
    ensures |a| == |b|
  {
    assert |a| == |multiset(a)| == |multiset(b)| == |b|;
  }

  lemma {:induction false} AscendingIsCanonical(a: seq<FileEdit>, b: seq<FileEdit>)
    requires Ascending(a) && Ascending(b) && multiset(a) == multiset(b)
    ensures a == b
  {
    SameSize(a, b);
    if a != [] {
      SameFirst(a, b);
      AscendingIsCanonical(a[1..], b[1..]);
      assert a == [a[0]] + a[1..] && b == [b[0]] + b[1..];
    }
  }

  lemma {:induction false} ApplyIsSubstitute(src: Bytes, edits: seq<FileEdit>, to: nat, tail: Bytes)
    requires to <= |src| && Chained(edits, to)
    ensures ApplyAll(src[..to] + tail, Reverse(edits)) == Ok(Substitute(src, edits, to) + tail)
  {
    if edits != [] {
      var n := |edits| - 1;
      var last, front := edits[n], edits[..n];
      ReverseSnoc(front, last);
      assert edits == front + [last];
      assert Reverse(edits)[1..] == Reverse(front);
      var out := src[..to] + tail;
      var tail' := last.text + src[last.end..to] + tail;
      assert out[..last.start] == src[..last.start];
      assert out[last.end..] == src[last.end..to] + tail;
      assert out[..last.start] + last.text + out[last.end..] == src[..last.start] + tail';
      ApplyIsSubstitute(src, front, last.start, tail');
      assert Substitute(src, front, last.start) + tail' == Substitute(src, edits, to) + tail;
    }
  }

  /** An edit list whose splices all succeed, neighbours not overlapping, is chained. */
  lemma {:induction false} ApplyNeedsChain(src: Bytes, edits: seq<FileEdit>, to: nat, tail: Bytes)
    requires to <= |src| && (forall i :: 0 < i < |edits| ==> edits[i - 1].end <= edits[i].start)
    requires edits != [] ==> edits[|edits| - 1].end <= to
    requires ApplyAll(src[..to] + tail, Reverse(edits)).Ok?
    ensures Chained(edits, to)
  {
    if edits != [] {
      var n := |edits| - 1;
      var last, front := edits[n], edits[..n];
      ReverseSnoc(front, last);
      assert edits == front + [last];
      assert Reverse(edits)[1..] == Reverse(front);
      var out := src[..to] + tail;
      var tail' := last.text + src[last.end..to] + tail;
      assert out[..last.start] == src[..last.start];
      assert out[last.end..] == src[last.end..to] + tail;
      assert out[..last.start] + last.text + out[last.end..] == src[..last.start] + tail';
      ApplyNeedsChain(src, front, last.start, tail');
    }
  }

  lemma {:induction false} NoOverlapIsAdjacent(edits: seq<FileEdit>)
    ensures FirstOverlap(Reverse(edits)).None? <==> forall i :: 0 < i < |edits| ==> edits[i - 1].end <= edits[i].start
  {
    if |edits| > 1 {
      var n := |edits| - 1;
      var last, front := edits[n], edits[..n];
      ReverseSnoc(front, last);
      ReverseSnoc(front[..n - 1], front[n - 1]);
      assert edits == front + [last] && front == front[..n - 1] + [front[n - 1]];
      assert Reverse(edits)[1..] == Reverse(front);
      NoOverlapIsAdjacent(front);
    } else if |edits| == 1 {
      assert Reverse(edits) == [edits[0]];
    }
  }

  lemma ChainedIsApplicable(src: Bytes, edits: seq<FileEdit>)
    requires Ascending(edits)
    ensures Chained(edits, |src|) <==> Applicable(src, edits)
  {
    if Chained(edits, |src|) {
      forall i, j | 0 <= i < j < |edits| ensures edits[i].end <= edits[j].start {
        ChainedPair(edits, |src|, i, j);
      }
      forall a, b | a in edits && b in edits && a != b ensures Apart(a, b) {
        var i :| 0 <= i < |edits| && edits[i] == a;
        var j :| 0 <= j < |edits| && edits[j] == b;
      }
      forall a | a in edits ensures a.end <= |src| {
        var i :| 0 <= i < |edits| && edits[i] == a;
        assert i < |edits| - 1 ==> edits[i].end <= edits[|edits| - 1].start;
      }
    }
    if Applicable(src, edits) {
      forall i | 0 < i < |edits| ensures edits[i - 1].end <= edits[i].start {
        assert edits[i - 1] in edits && edits[i] in edits && edits[i - 1] != edits[i];
        assert Apart(edits[i - 1], edits[i]);
      }
      forall i | 0 <= i < |edits| ensures edits[i].start <= edits[i].end {
        assert edits[i] in edits;
      }
      if edits != [] { assert edits[|edits| - 1] in edits; }
    }
  }

  lemma {:induction false} ChainedPair(edits: seq<FileEdit>, to: nat, i: nat, j: nat)
    requires Chained(edits, to) && i < j < |edits|
    ensures edits[i].end <= edits[j].start
    decreases j
  {
    if i < j - 1 { ChainedPair(edits, to, i, j - 1); }
  }

  lemma ChainedSplices(src: Bytes, edits: seq<FileEdit>)
    requires DistinctStarts(edits)
    ensures Chained(SortAscending(edits), |src|) ==>
              Spliced(src, edits) == Ok(Substitute(src, SortAscending(edits), |src|))
  {
    var asc := SortAscending(edits);
    if Chained(asc, |src|) {
      SortsAreReverse(edits);
      NoOverlapIsAdjacent(asc);
      ApplyIsSubstitute(src, asc, |src|, []);
      assert src[..|src|] + [] == src;
      assert Substitute(src, asc, |src|) + [] == Substitute(src, asc, |src|);
      assert edits == [] ==> Substitute(src, asc, |src|) == src;
    }
  }

  lemma SplicedIsChained(src: Bytes, edits: seq<FileEdit>)
    requires DistinctStarts(edits) && edits != [] && Spliced(src, edits).Ok?
    ensures Chained(SortAscending(edits), |src|)
  {
    var asc := SortAscending(edits);
    SortsAreReverse(edits);
    NoOverlapIsAdjacent(asc);
    assert src[..|src|] + [] == src;
    if asc != [] {
      var n := |asc| - 1;
      ReverseSnoc(asc[..n], asc[n]);
      assert asc == asc[..n] + [asc[n]];
      assert SpliceOne(src, asc[n]).Ok?;
    }
    ApplyNeedsChain(src, asc, |src|, []);
  }

  /**
   * With distinct starts a splice succeeds exactly when every range is well-formed, inside the
   * original and apart from the others, and is then the simultaneous substitution.
   */
  lemma {:induction false} SpliceIsSubstitution(src: Bytes, edits: seq<FileEdit>)
    requires DistinctStarts(edits)
    ensures Spliced(src, edits).Ok? <==> Applicable(src, edits)
    ensures Spliced(src, edits).Ok? <==> Chained(SortAscending(edits), |src|)
    ensures Spliced(src, edits).Ok? ==> Spliced(src, edits).value == Substitute(src, SortAscending(edits), |src|)
  {
    SortedIsApplicable(src, edits);
    ChainedSplices(src, edits);
    if edits != [] && Spliced(src, edits).Ok? {
      SplicedIsChained(src, edits);
    }
  }

  lemma SortedIsApplicable(src: Bytes, edits: seq<FileEdit>)
    requires DistinctStarts(edits)
    ensures Ascending(SortAscending(edits))
    ensures Chained(SortAscending(edits), |src|) <==> Applicable(src, edits)
  {
    SortAscendingSorts(edits);
    ChainedIsApplicable(src, SortAscending(edits));
  }

  /** The order the edits are given in does not matter, not even for the error. */
  lemma SpliceIgnoresOrder(src: Bytes, a: seq<FileEdit>, b: seq<FileEdit>)
    requires multiset(a) == multiset(b) && DistinctStarts(a) && DistinctStarts(b)
    ensures Spliced(src, a) == Spliced(src, b)
  {
    SortAscendingSorts(a);
    SortAscendingSorts(b);
    AscendingIsCanonical(SortAscending(a), SortAscending(b));
    SortsAreReverse(a);
    SortsAreReverse(b);
    assert a == [] <==> b == [] by { assert |a| == |multiset(a)| == |multiset(b)| == |b|; }
  }

  // ---- where each edit landed ----

  /** The changed range of one applied edit in the new bytes, its hashes and its 1-based lines. */
  datatype EditResult = EditResult(
    changedStart: nat, changedEnd: nat,
    regionHash: Digest, fileRawHash: Digest, fileNormHash: Digest,
    startLine: nat, endLine: nat)

  /** The hash of a region's normalized bytes. */
  function HashRegion(src: Bytes, start: nat, end: nat): Digest
    requires start <= end <= |src|
  {
    Digest(Normalize.NormalForm(src[start..end]))
  }

  ghost predicate Describes(r: EditResult, out: Bytes, start: int, e: FileEdit) {
    && r.changedStart == start && r.changedEnd == start + |e.text| <= |out|
    && r.regionHash == HashRegion(out, r.changedStart, r.changedEnd)
    && r.fileRawHash == RawHash(out) && r.fileNormHash == Digest(Normalize.NormalForm(out))
    && r.startLine == TruePoint(out, r.changedStart).row + 1
    && r.endLine == TruePoint(out, r.changedEnd).row + 1
  }

  /** The net growth of a list of edits. */
  function Growth(edits: seq<FileEdit>): int {
    if edits == [] then 0
    else
      var e := edits[|edits| - 1];
      Growth(edits[..|edits| - 1]) + |e.text| - (e.end - e.start)
  }

  /** Where the running delta of the edits before it puts edit `k`. */
  function NewStart(ascending: seq<FileEdit>, k: nat): int
    requires k < |ascending|
  {
    ascending[k].start + Growth(ascending[..k])
  }

  function InRange(out: Bytes, ascending: seq<FileEdit>, k: nat): bool
    requires k < |ascending|
  {
    0 <= NewStart(ascending, k) && NewStart(ascending, k) + |ascending[k].text| <= |out|
  }

  ghost predicate AllInRange(out: Bytes, ascending: seq<FileEdit>) {
    forall k :: 0 <= k < |ascending| ==> InRange(out, ascending, k)
  }

  /** The first results, one for each of the first edits. */
  ghost predicate DescribesFirst(results: seq<EditResult>, out: Bytes, ascending: seq<FileEdit>) {
    && |results| <= |ascending|
    && forall k :: 0 <= k < |results| ==>
         InRange(out, ascending, k) && Describes(results[k], out, NewStart(ascending, k), ascending[k])
  }

  lemma {:induction false} DescribesOneMore(results: seq<EditResult>, r: EditResult, out: Bytes,
                                            ascending: seq<FileEdit>)
    requires DescribesFirst(results, out, ascending) && |results| < |ascending|
    requires InRange(out, ascending, |results|)
    requires Describes(r, out, NewStart(ascending, |results|), ascending[|results|])
    ensures DescribesFirst(results + [r], out, ascending)
  {
  }

  lemma GrowthOneMore(edits: seq<FileEdit>, i: nat)
    requires i < |edits|
    ensures Growth(edits[..i + 1]) == Growth(edits[..i]) + |edits[i].text| - (edits[i].end - edits[i].start)
  {
    assert edits[..i + 1][..i] == edits[..i];
  }

  method ResultOf(out: Bytes, li: LineIndex, norm: Bytes, start: nat, e: FileEdit) returns (r: EditResult)
    requires li == IndexOf(out) && norm == Normalize.NormalForm(out) && start + |e.text| <= |out|
    ensures Describes(r, out, start, e)
  {
    var end := start + |e.text|;
    var startPoint := PointForByte(out, li, start);
    var endPoint := PointForByte(out, li, end);
    r := EditResult(start, end, HashRegion(out, start, end), RawHash(out), Digest(norm),
                    startPoint.row + 1, endPoint.row + 1);
  }

  /** A whole file as one edit: its content put into nothing. */
  function WholeFile(content: Bytes): FileEdit {
    FileEdit(0, 0, content)
  }

  /** The result covers the whole content, from its first line to its last. */
  ghost predicate DescribesFile(r: EditResult, content: Bytes) {
    && r.changedStart == 0 && r.changedEnd == |content|
    && r.regionHash == r.fileNormHash == Digest(Normalize.NormalForm(content)) && r.fileRawHash == RawHash(content)
    && r.startLine == 1 && r.endLine == TruePoint(content, |content|).row + 1
  }

  /** The result for a file that was brought into being: all of it changed. */
  method WholeFileResult(content: Bytes) returns (r: EditResult)
    ensures DescribesFile(r, content)
  {
    var li := NewLineIndex(content);
    var norm := Normalize.Normalize(content);
    r := ResultOf(content, li, norm, 0, WholeFile(content));
    assert content[0..|content|] == content && content[..0] == [];
  }

  /**
   * One result per edit, in ascending order. `None` when a shifted range leaves the new bytes: the
   * program slices outside its buffer and panics there.
   */
  method EditResults(out: Bytes, resolved: seq<FileEdit>) returns (r: Option<seq<EditResult>>)
    ensures r.Some? <==> AllInRange(out, SortAscending(resolved))
    ensures r.Some? ==> |r.value| == |SortAscending(resolved)| && DescribesFirst(r.value, out, SortAscending(resolved))
  {
    var li := NewLineIndex(out);
    var norm := Normalize.Normalize(out);
    var asc := SortAscending(resolved);
    var results: seq<EditResult> := [];
    var delta := 0;
    for i := 0 to |asc|
      invariant delta == Growth(asc[..i]) && |results| == i && DescribesFirst(results, out, asc)
    {
      var e := asc[i];
      GrowthOneMore(asc, i);
      var newStart := e.start + delta;
      if newStart < 0 || newStart + |e.text| > |out| {
        assert !InRange(out, asc, i);
        return None;
      }
      var result := ResultOf(out, li, norm, newStart, e);
      DescribesOneMore(results, result, out, asc);
      results := results + [result];
      delta := delta + |e.text| - (e.end - e.start);
    }
    return Some(results);
  }

  lemma {:induction false} SubstituteGrows(src: Bytes, edits: seq<FileEdit>, to: nat)
    requires to <= |src| && Chained(edits, to)
    ensures |Substitute(src, edits, to)| == to + Growth(edits)
  {
    if edits != [] {
      SubstituteGrows(src, edits[..|edits| - 1], edits[|edits| - 1].start);
    }
  }

  lemma SameInFront(left: Bytes, more: Bytes, a: int, b: int)
    requires 0 <= a <= b <= |left|
    ensures (left + more)[a..b] == left[a..b]
  {
  }

  /** Byte `q` of the original is `g` further on in the substitution. */
  ghost predicate KeptAt(src: Bytes, edits: seq<FileEdit>, to: nat, g: int, q: nat)
    requires to <= |src| && Chained(edits, to) && q < to
  {
    0 <= q + g < |Substitute(src, edits, to)| && Substitute(src, edits, to)[q + g] == src[q]
  }

  /** A byte between two edits is still there, moved by the growth of the edits before it. */
  lemma {:induction false} SubstituteKeeps(src: Bytes, edits: seq<FileEdit>, to: nat, k: nat, q: nat)
    requires to <= |src| && Chained(edits, to) && k <= |edits|
    requires k > 0 ==> edits[k - 1].end <= q
    requires q < to && (k < |edits| ==> q < edits[k].start)
    ensures KeptAt(src, edits, to, Growth(edits[..k]), q)
  {
    if edits != [] {
      var n := |edits| - 1;
      if k <= n {
        if k < n { ChainedPair(edits, to, k, n); }
        SubstituteKeeps(src, edits[..n], edits[n].start, k, q);
        assert edits[..n][..k] == edits[..k];
        KeptInFront(src, edits, to, Growth(edits[..k]), q);
      } else {
        assert edits[..k] == edits;
        KeptBehind(src, edits, to, q);
      }
    }
  }

  lemma {:induction false} KeptInFront(src: Bytes, edits: seq<FileEdit>, to: nat, g: int, q: nat)
    requires to <= |src| && Chained(edits, to) && edits != [] && q < edits[|edits| - 1].start
    requires KeptAt(src, edits[..|edits| - 1], edits[|edits| - 1].start, g, q)
    ensures KeptAt(src, edits, to, g, q)
  {
    var n := |edits| - 1;
    FirstGaps(Substitute(src, edits[..n], edits[n].start), edits[n].text, src, edits[n].end, to, q + g);
  }

  lemma {:induction false} KeptBehind(src: Bytes, edits: seq<FileEdit>, to: nat, q: nat)
    requires to <= |src| && Chained(edits, to) && edits != [] && edits[|edits| - 1].end <= q < to
    ensures KeptAt(src, edits, to, Growth(edits), q)
  {
    var n := |edits| - 1;
    SubstituteGrows(src, edits[..n], edits[n].start);
    LastGap(Substitute(src, edits[..n], edits[n].start), edits[n].text, src, edits[n].end, to, q);
  }

  lemma FirstGaps(left: Bytes, text: Bytes, src: Bytes, from: nat, to: nat, at: nat)
    requires at < |left| && from <= to <= |src|
    ensures at < |left + text + src[from..to]| && (left + text + src[from..to])[at] == left[at]
  {
  }

  lemma LastGap(left: Bytes, text: Bytes, src: Bytes, from: nat, to: nat, q: nat)
    requires from <= q < to <= |src|
    ensures |left| + |text| + (q - from) < |left + text + src[from..to]|
    ensures (left + text + src[from..to])[|left| + |text| + (q - from)] == src[q]
  {
  }

  /** An error names an edit that is ill-formed or past the bytes, or two edits that share a byte. */
  lemma {:induction false} SpliceErrors(src: Bytes, edits: seq<FileEdit>)
    requires Spliced(src, edits).Err?
    ensures match Spliced(src, edits).error
            case Overlap(aStart, aEnd, bStart, bEnd) =>
              && aStart <= bStart < aEnd
              && (exists a :: a in edits && a.start == aStart && a.end == aEnd)
              && (exists b :: b in edits && b.start == bStart && b.end == bEnd)
            case OutOfBounds(start, end, len) =>
              (end < start || end > len) && exists e :: e in edits && e.start == start && e.end == end
  {
    var sorted := SortDescending(edits);
    SortDescendingContents(edits);
    if FirstOverlap(sorted).Some? { OverlapNamed(sorted); } else { BoundsNamed(src, sorted); }
  }

  lemma {:induction false} OverlapNamed(sorted: seq<FileEdit>)
    requires FirstOverlap(sorted).Some? && Descending(sorted)
    ensures var e := FirstOverlap(sorted).value;
            && e.Overlap? && e.aStart <= e.bStart < e.aEnd
            && (exists a :: a in sorted && a.start == e.aStart && a.end == e.aEnd)
            && (exists b :: b in sorted && b.start == e.bStart && b.end == e.bEnd)
  {
    if sorted[1].end > sorted[0].start {
      assert sorted[1] in sorted && sorted[0] in sorted;
    } else {
      OverlapNamed(sorted[1..]);
      assert forall x :: x in sorted[1..] ==> x in sorted;
    }
  }

  lemma {:induction false} BoundsNamed(out: Bytes, sorted: seq<FileEdit>)
    requires ApplyAll(out, sorted).Err?
    ensures var e := ApplyAll(out, sorted).error;
            && e.OutOfBounds? && (e.end < e.start || e.end > e.len)
            && exists f :: f in sorted && f.start == e.start && f.end == e.end
    decreases |sorted|
  {
    var next := SpliceOne(out, sorted[0]);
    if next.Err? {
      assert sorted[0] in sorted;
    } else {
      BoundsNamed(next.value, sorted[1..]);
      assert forall x :: x in sorted[1..] ==> x in sorted;
    }
  }

  ghost predicate Descending(edits: seq<FileEdit>) {
    forall i, j :: 0 <= i < j < |edits| ==> edits[j].start <= edits[i].start
  }

  lemma {:induction false} SortDescendingContents(edits: seq<FileEdit>)
    ensures Descending(SortDescending(edits)) && forall f :: f in SortDescending(edits) <==> f in edits
  {
    if edits != [] {
      SortDescendingContents(edits[1..]);
      InsertedDescending(edits[0], SortDescending(edits[1..]));
      assert edits == [edits[0]] + edits[1..];
    }
  }

  lemma {:induction false} InsertedDescending(e: FileEdit, s: seq<FileEdit>)
    requires Descending(s)
    ensures Descending(InsertDescending(e, s)) && forall f :: f in InsertDescending(e, s) <==> f in s || f == e
  {
    if s != [] && e.start < s[0].start {
      InsertedDescending(e, s[1..]);
      DescendingBehind(s[0], InsertDescending(e, s[1..]));
      assert s == [s[0]] + s[1..];
    } else {
      DescendingBehind(e, s);
    }
  }

  lemma DescendingBehind(first: FileEdit, rest: seq<FileEdit>)
    requires Descending(rest)
             && (rest != [] ==> first.start >= rest[0].start || forall f :: f in rest ==> first.start >= f.start)
    ensures Descending([first] + rest)
  {
    var all := [first] + rest;
    forall i, j | 0 <= i < j < |all| ensures all[j].start <= all[i].start {
      assert all[j] == rest[j - 1] && rest[j - 1] in rest;
      if i > 0 { assert all[i] == rest[i - 1]; }
    }
  }

  /** The new text of edit `k` sits in the substitution right where the running delta puts it. */
  lemma {:induction false} SubstitutePlaces(src: Bytes, edits: seq<FileEdit>, to: nat, k: nat)
    requires to <= |src| && Chained(edits, to) && k < |edits|
    ensures InRange(Substitute(src, edits, to), edits, k)
    ensures Substitute(src, edits, to)[NewStart(edits, k)..NewStart(edits, k) + |edits[k].text|] == edits[k].text
  {
    var n := |edits| - 1;
    var front, last := edits[..n], edits[n];
    var left := Substitute(src, front, last.start);
    var out := Substitute(src, edits, to);
    SubstituteGrows(src, front, last.start);
    if k == n {
      assert out[|left|..|left| + |last.text|] == last.text;
    } else {
      SubstitutePlaces(src, front, last.start, k);
      assert front[..k] == edits[..k];
      SameInFront(left, last.text + src[last.end..to], NewStart(edits, k), NewStart(edits, k) + |edits[k].text|);
      assert out == left + (last.text + src[last.end..to]);
    }
  }

  /**
   * After a successful splice of edits with distinct starts, the running delta keeps every offset
   * in bounds, and each reported range holds exactly that edit's new text.
   */
  lemma {:induction false} ResultsHoldTheirText(src: Bytes, edits: seq<FileEdit>, k: nat)
    requires DistinctStarts(edits) && Spliced(src, edits).Ok? && k < |edits|
    ensures |SortAscending(edits)| == |edits| && multiset(SortAscending(edits)) == multiset(edits)
    ensures var out, asc := Spliced(src, edits).value, SortAscending(edits);
            && InRange(out, asc, k)
            && out[NewStart(asc, k)..NewStart(asc, k) + |asc[k].text|] == asc[k].text
  {
    SortedSameSize(edits);
    SpliceIsSubstitution(src, edits);
    SubstitutePlaces(src, SortAscending(edits), |src|, k);
  }

  lemma SortedSameSize(edits: seq<FileEdit>)
    requires DistinctStarts(edits)
    ensures |SortAscending(edits)| == |edits| && multiset(SortAscending(edits)) == multiset(edits)
  {
    SortAscendingSorts(edits);
    assert |multiset(SortAscending(edits))| == |multiset(edits)|;
  }

  /** A replacement and an insertion sharing a start: the splice succeeds and the delta then runs below zero. */
  lemma SharedStartCanLeaveTheBuffer()
    ensures var edits := [FileEdit(0, 2, []), FileEdit(0, 0, [1])];
            && Spliced([7, 8, 9], edits) == Ok([1, 9])
            && SortAscending(edits) == edits && NewStart(edits, 1) == -2
  {
    var e, f := FileEdit(0, 2, []), FileEdit(0, 0, [1]);
    var edits := [e, f];
    assert edits[1..] == [f];
    assert SortAscending([f]) == [f] && SortDescending([f]) == [f];
    assert SortDescending(edits) == edits && SortAscending(edits) == edits;
    assert FirstOverlap(edits) == FirstOverlap(edits[1..]);
    var src: Bytes := [7, 8, 9];
    assert src[..0] + [] + src[2..] == [9];
    assert ApplyAll(src, edits) == ApplyAll([9], [f]);
    var mid: Bytes := [9];
    assert mid[..0] + [1] + mid[0..] == [1, 9];
    assert ApplyAll(mid, [f]) == ApplyAll([1, 9], []);
    assert edits[..1] == [e] && [e][..0] == [];
    assert Growth([e]) == Growth([]) - 2;
  }
}
