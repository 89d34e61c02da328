/** Region anchors: finding a content-anchored range again in the live bytes. */
module Regions {
  import opened Prelude
  import opened Splice
  import opened Trees
  import Normalize

  /** A byte range and the hash of its normalized bytes; `None` makes the range authoritative. */
  datatype Region = Region(path: Path, startByte: int, endByte: int, hash: Option<Digest>)

  datatype Edit = Edit(region: Region, newText: Bytes)

  datatype ResolveStatus = Exact | Shifted

  datatype Located = Located(start: nat, end: nat, status: ResolveStatus)

  datatype ResolveError = InvalidRange | Unparsed | Conflict | Ambiguous(count: nat)

  datatype Span = Span(start: nat, end: nat)

  function CheckedRange(r: Region): Result<Span, ResolveError> {
    if r.startByte < 0 || r.endByte < 0 || r.endByte < r.startByte then Err(InvalidRange)
    else Ok(Span(r.startByte, r.endByte))
  }

  predicate Matches(n: Node, src: Bytes, want: Digest) {
    && n.info.endByte <= |src| && n.info.startByte <= n.info.endByte
    && HashRegion(src, n.info.startByte, n.info.endByte) == want
  }

  /** The spans of the matching nodes, each once, in the order first met. */
  function SpansOf(nodes: seq<Node>, src: Bytes, want: Digest): seq<Span> {
    if nodes == [] then []
    else
      var last := nodes[|nodes| - 1];
      var earlier := SpansOf(nodes[..|nodes| - 1], src, want);
      var span := Span(last.info.startByte, last.info.endByte);
      if Matches(last, src, want) && span !in earlier then earlier + [span] else earlier
  }

  method MatchNodes(root: Node, src: Bytes, want: Digest) returns (matches: seq<Span>)
    ensures matches == SpansOf(Preorder(root), src, want)
  {
    matches := [];
    var seen: set<Span> := {};
    var nodes := Preorder(root);
    for i := 0 to |nodes|
      invariant matches == SpansOf(nodes[..i], src, want)
      invariant forall s :: s in seen <==> s in matches
    {
      assert nodes[..i + 1][..i] == nodes[..i];
      var n := nodes[i];
      if n.info.endByte <= |src| && n.info.startByte <= n.info.endByte
         && HashRegion(src, n.info.startByte, n.info.endByte) == want {
        var span := Span(n.info.startByte, n.info.endByte);
        if span !in seen {
          seen := seen + {span};
          matches := matches + [span];
        }
      }
    }
    assert nodes[..|nodes|] == nodes;
  }

  /** The region's own range still carries its hash. */
  predicate InPlace(live: Bytes, r: Region) {
    var range := CheckedRange(r);
    r.hash.Some? && range.Ok? && range.value.end <= |live|
    && HashRegion(live, range.value.start, range.value.end) == r.hash.value
  }

  /** Maps a region onto the live bytes; `tree` is the parse of those bytes, `None` if there is none. */
  function Resolve(tree: Option<Node>, live: Bytes, r: Region): Result<Located, ResolveError> {
    if r.hash.None? then
      var range :- CheckedRange(r);
      Ok(Located(range.start, range.end, Exact))
    else if InPlace(live, r) then Ok(Located(r.startByte, r.endByte, Exact))
    else if tree.None? then Err(Unparsed)
    else
      var spans := SpansOf(Preorder(tree.value), live, r.hash.value);
      if |spans| == 1 then Ok(Located(spans[0].start, spans[0].end, Shifted))
      else if |spans| == 0 then Err(Conflict)
      else Err(Ambiguous(|spans|))
  }

  // ---- what a resolve promises ----

  /** Some node in the list spans `s`, in bounds, and its normalized bytes carry the hash. */
  ghost predicate MatchAmong(nodes: seq<Node>, live: Bytes, want: Digest, s: Span) {
    exists n :: n in nodes && Matches(n, live, want) && s == Span(n.info.startByte, n.info.endByte)
  }

  /** Some node of the tree spans `s`, in bounds, and its normalized bytes carry the hash. */
  ghost predicate IsMatch(root: Node, live: Bytes, want: Digest, s: Span) {
    exists n :: Within(root, n) && NodeMatches(n, live, want, s)
  }

  ghost predicate NodeMatches(n: Node, live: Bytes, want: Digest, s: Span) {
    && s.start == n.info.startByte && s.end == n.info.endByte && s.start <= s.end <= |live|
    && Digest(Normalize.NormalForm(live[s.start..s.end])) == want
  }

  lemma MatchesOfTree(root: Node, live: Bytes, want: Digest, s: Span)
    ensures MatchAmong(Preorder(root), live, want, s) <==> IsMatch(root, live, want, s)
  {
    if n :| n in Preorder(root) && Matches(n, live, want) && s == Span(n.info.startByte, n.info.endByte) {
      PreorderIsWithin(root, n);
      assert NodeMatches(n, live, want, s);
    }
    if n :| Within(root, n) && NodeMatches(n, live, want, s) {
      PreorderIsWithin(root, n);
      assert Matches(n, live, want);
    }
  }

  ghost predicate DistinctSpans(spans: seq<Span>) {
    forall i, j :: 0 <= i < j < |spans| ==> spans[i] != spans[j]
  }

  lemma {:induction false} SpansAreMatches(nodes: seq<Node>, src: Bytes, want: Digest)
    ensures DistinctSpans(SpansOf(nodes, src, want))
    ensures forall s :: s in SpansOf(nodes, src, want) <==> MatchAmong(nodes, src, want, s)
  {
    if nodes != [] {
      var front, last := nodes[..|nodes| - 1], nodes[|nodes| - 1];
      SpansAreMatches(front, src, want);
      assert nodes == front + [last];
      forall s ensures MatchAmong(nodes, src, want, s) <==>
                  || MatchAmong(front, src, want, s)
                  || (Matches(last, src, want) && s == Span(last.info.startByte, last.info.endByte))
      {
        assert last in nodes && forall n :: n in nodes <==> n in front || n == last;
      }
    }
  }

  /** An anchored resolve succeeds only on an in-bounds range whose normalized bytes carry the hash. */
  lemma ResolvedCarriesHash(tree: Option<Node>, live: Bytes, r: Region)
    requires r.hash.Some? && Resolve(tree, live, r).Ok?
    ensures var at := Resolve(tree, live, r).value;
            at.start <= at.end <= |live| && HashRegion(live, at.start, at.end) == r.hash.value
  {
    if !InPlace(live, r) {
      SpansAreMatches(Preorder(tree.value), live, r.hash.value);
      var spans := SpansOf(Preorder(tree.value), live, r.hash.value);
      assert MatchAmong(Preorder(tree.value), live, r.hash.value, spans[0]);
    }
  }

  /** There are this many distinct spans that match. */
  ghost predicate CountsMatches(root: Node, live: Bytes, want: Digest, count: nat) {
    exists spans :: DistinctSpans(spans) && |spans| == count && forall b :: b in spans <==> IsMatch(root, live, want, b)
  }

  /** Where a resolve needs no tree: a range with no hash is taken as it stands, one in its place too. */
  lemma ResolveInPlace(tree: Option<Node>, live: Bytes, r: Region)
    ensures r.hash.None? ==>
              Resolve(tree, live, r) == if 0 <= r.startByte <= r.endByte then Ok(Located(r.startByte, r.endByte, Exact))
                                        else Err(InvalidRange)
    ensures r.hash.Some? && 0 <= r.startByte <= r.endByte <= |live|
            && Digest(Normalize.NormalForm(live[r.startByte..r.endByte])) == r.hash.value ==>
              Resolve(tree, live, r) == Ok(Located(r.startByte, r.endByte, Exact))
    ensures r.hash.Some? ==> (Resolve(tree, live, r) == Err(Unparsed) <==> !InPlace(live, r) && tree.None?)
    ensures InPlace(live, r) <==>
              && r.hash.Some? && 0 <= r.startByte <= r.endByte <= |live|
              && Digest(Normalize.NormalForm(live[r.startByte..r.endByte])) == r.hash.value
  {
  }

  /**
   * When the region has left its place the verdict is exactly how many distinct spans of the tree
   * match: one is the shifted range, none a conflict, several ambiguous.
   */
  lemma ResolveVerdict(root: Node, live: Bytes, r: Region, a: Span)
    requires r.hash.Some? && !InPlace(live, r)
    ensures var want, verdict := r.hash.value, Resolve(Some(root), live, r);
            && (verdict == Ok(Located(a.start, a.end, Shifted)) <==>
                  IsMatch(root, live, want, a) && forall b :: IsMatch(root, live, want, b) ==> b == a)
            && (verdict == Err(Conflict) <==> !exists b :: IsMatch(root, live, want, b))
            && ((verdict.Err? && verdict.error.Ambiguous?) <==>
                  exists b, c :: IsMatch(root, live, want, b) && IsMatch(root, live, want, c) && b != c)
            && (verdict.Err? && verdict.error.Ambiguous? ==> CountsMatches(root, live, want, verdict.error.count))
  {
    var want := r.hash.value;
    var spans := SpansOf(Preorder(root), live, want);
    SpansAreMatches(Preorder(root), live, want);
    forall b ensures IsMatch(root, live, want, b) <==> b in spans {
      assert b in spans <==> MatchAmong(Preorder(root), live, want, b);
      MatchesOfTree(root, live, want, b);
    }
    assert CountsMatches(root, live, want, |spans|);
    if |spans| == 0 {
    } else if |spans| == 1 {
      assert spans[0] in spans && forall b :: b in spans ==> b == spans[0];
    } else {
      assert spans[0] in spans && spans[1] in spans && spans[0] != spans[1];
      assert IsMatch(root, live, want, spans[0]) && IsMatch(root, live, want, spans[1]);
    }
  }

  // ---- all the edits of one file ----

  /** Resolves every edit, stopping at the first that fails. */
  function ResolveEdits(tree: Option<Node>, live: Bytes, edits: seq<Edit>): Result<seq<FileEdit>, ResolveError> {
    if edits == [] then Ok([])
    else
      var at :- Resolve(tree, live, edits[0].region);
      var rest :- ResolveEdits(tree, live, edits[1..]);
      Ok([FileEdit(at.start, at.end, edits[0].newText)] + rest)
  }

  /** This edit of the file is that edit of the plan, where it was found. */
  ghost predicate EditResolves(tree: Option<Node>, live: Bytes, e: Edit, f: FileEdit) {
    exists status :: Resolve(tree, live, e.region) == Ok(Located(f.start, f.end, status)) && f.text == e.newText
  }

  /** The first edit that is not found, and why. */
  ghost predicate FirstUnresolved(tree: Option<Node>, live: Bytes, edits: seq<Edit>, k: nat, error: ResolveError) {
    && k < |edits| && Resolve(tree, live, edits[k].region) == Err(error)
    && forall j :: 0 <= j < k ==> Resolve(tree, live, edits[j].region).Ok?
  }

  /** Every edit is resolved, each in its place, or the first that is not found fails them all. */
  lemma {:induction false} ResolveEditsEach(tree: Option<Node>, live: Bytes, edits: seq<Edit>)
    ensures var r := ResolveEdits(tree, live, edits);
            && (r.Ok? <==> forall i :: 0 <= i < |edits| ==> Resolve(tree, live, edits[i].region).Ok?)
            && (r.Ok? ==> |r.value| == |edits| && forall i :: 0 <= i < |edits| ==>
                            EditResolves(tree, live, edits[i], r.value[i]))
            && (r.Err? ==> exists k: nat :: FirstUnresolved(tree, live, edits, k, r.error))
  {
    if edits != [] {
      ResolveEditsEach(tree, live, edits[1..]);
      var first, rest := Resolve(tree, live, edits[0].region), ResolveEdits(tree, live, edits[1..]);
      if first.Err? {
        assert FirstUnresolved(tree, live, edits, 0, first.error);
      } else if rest.Err? {
        var k: nat :| FirstUnresolved(tree, live, edits[1..], k, rest.error);
        assert edits[k + 1] == edits[1..][k];
        assert FirstUnresolved(tree, live, edits, k + 1, rest.error);
      } else {
        var all := ResolveEdits(tree, live, edits).value;
        forall i | 0 <= i < |edits| ensures EditResolves(tree, live, edits[i], all[i]) {
          if i == 0 {
            assert Resolve(tree, live, edits[0].region) == Ok(Located(all[0].start, all[0].end, first.value.status));
          } else {
            assert EditResolves(tree, live, edits[1..][i - 1], rest.value[i - 1]);
          }
        }
      }
    }
  }
}
