/**
 * Edits that share a start: where a splice puts them, and exactly when the results say so.
 *
 * The splice works from the back and keeps the input order at a shared start, so the texts there end up
 * in the opposite order; the results walk forward and keep the input order as well.
 */
module SharedStarts {
  import opened Prelude
  import opened Splice

  // ---- the edits at one start ----

  /** The edits that start at `p`, in the order given. */
  function Group(edits: seq<FileEdit>, p: nat): seq<FileEdit> {
    if edits == [] then [] else (if edits[0].start == p then [edits[0]] else []) + Group(edits[1..], p)
  }

  function Delta(e: FileEdit): int {
    |e.text| - (e.end - e.start)
  }

  /** The net growth of the edits that start before `p`. */
  function Drift(edits: seq<FileEdit>, p: nat): int {
    if edits == [] then 0 else (if edits[0].start < p then Delta(edits[0]) else 0) + Drift(edits[1..], p)
  }

  /** The new texts, one after another. */
  function Concat(edits: seq<FileEdit>): Bytes {
    if edits == [] then [] else edits[0].text + Concat(edits[1..])
  }

  /** The edits in the order in which a splice leaves their texts. */
  ghost function Landed(edits: seq<FileEdit>): seq<FileEdit> {
    Reverse(SortDescending(edits))
  }

  ghost predicate InOrder(edits: seq<FileEdit>) {
    forall i, j :: 0 <= i < j < |edits| ==> edits[i].start <= edits[j].start
  }

  // ---- sorting keeps the groups ----

  lemma FirstOfBoth(a: seq<FileEdit>, b: seq<FileEdit>)
    requires a != []
    ensures a + b != [] && (a + b)[0] == a[0] && (a + b)[1..] == a[1..] + b
  {
  }

  lemma Regrouped(a: seq<FileEdit>, b: seq<FileEdit>, c: seq<FileEdit>)
    ensures a + (b + c) == (a + b) + c
  {
  }

  lemma {:induction false} GroupSplits(a: seq<FileEdit>, b: seq<FileEdit>, p: nat)
    ensures Group(a + b, p) == Group(a, p) + Group(b, p) && Drift(a + b, p) == Drift(a, p) + Drift(b, p)
  {
    if a == [] {
      assert a + b == b;
    } else {
      FirstOfBoth(a, b);
      GroupSplits(a[1..], b, p);
      Regrouped(if a[0].start == p then [a[0]] else [], Group(a[1..], p), Group(b, p));
    }
  }

  lemma {:induction false} InsertedInGroup(e: FileEdit, s: seq<FileEdit>, p: nat)
    ensures Group(InsertAscending(e, s), p) == Group([e] + s, p) == Group(InsertDescending(e, s), p)
    ensures Drift(InsertAscending(e, s), p) == Drift([e] + s, p) == Drift(InsertDescending(e, s), p)
  {
    assert ([e] + s)[1..] == s;
    if s != [] {
      InsertedInGroup(e, s[1..], p);
      assert ([e] + s[1..])[1..] == s[1..];
    }
  }

  lemma {:induction false} SortedGroup(edits: seq<FileEdit>, p: nat)
    ensures Group(SortAscending(edits), p) == Group(edits, p) == Group(SortDescending(edits), p)
    ensures Drift(SortAscending(edits), p) == Drift(edits, p) == Drift(SortDescending(edits), p)
  {
    if edits != [] {
      SortedGroup(edits[1..], p);
      InsertedInGroup(edits[0], SortAscending(edits[1..]), p);
      InsertedInGroup(edits[0], SortDescending(edits[1..]), p);
      assert ([edits[0]] + SortAscending(edits[1..]))[1..] == SortAscending(edits[1..]);
      assert ([edits[0]] + SortDescending(edits[1..]))[1..] == SortDescending(edits[1..]);
    }
  }

  lemma {:induction false} ReversedGroup(s: seq<FileEdit>, p: nat)
    ensures Group(Reverse(s), p) == Reverse(Group(s, p)) && Drift(Reverse(s), p) == Drift(s, p)
  {
    if s != [] {
      ReversedGroup(s[1..], p);
      GroupSplits(Reverse(s[1..]), [s[0]], p);
      assert [s[0]][1..] == [];
      if s[0].start == p {
        var g := Group(s, p);
        assert g[1..] == Group(s[1..], p) && g[0] == s[0];
      } else {
        assert Group(s, p) == Group(s[1..], p);
      }
    }
  }

  /** At each start a splice leaves the edits in reverse. */
  lemma LandedGroup(edits: seq<FileEdit>, p: nat)
    ensures Group(Landed(edits), p) == Reverse(Group(edits, p)) && Drift(Landed(edits), p) == Drift(edits, p)
  {
    SortedGroup(edits, p);
    ReversedGroup(SortDescending(edits), p);
  }

  lemma {:induction false} InsertedInOrder(e: FileEdit, s: seq<FileEdit>)
    requires InOrder(s)
    ensures InOrder(InsertAscending(e, s)) && |InsertAscending(e, s)| == |s| + 1
    ensures forall f :: f in InsertAscending(e, s) <==> f in s || f == e
  {
    InsertAscendingContents(e, s);
    if s != [] && e.start > s[0].start {
      InsertedInOrder(e, s[1..]);
      InOrderBehind(s[0], InsertAscending(e, s[1..]));
    } else {
      InOrderBehind(e, s);
    }
  }

  lemma InOrderBehind(first: FileEdit, rest: seq<FileEdit>)
    requires InOrder(rest)
             && (rest != [] ==> first.start <= rest[0].start || forall f :: f in rest ==> first.start <= f.start)
    ensures InOrder([first] + rest)
  {
    var all := [first] + rest;
    forall i, j | 0 <= i < j < |all| ensures all[i].start <= all[j].start {
      assert all[j] == rest[j - 1] && rest[j - 1] in rest;
      if i > 0 { assert all[i] == rest[i - 1]; }
    }
  }

  lemma {:induction false} SortAscendingInOrder(edits: seq<FileEdit>)
    ensures InOrder(SortAscending(edits)) && |SortAscending(edits)| == |edits|
    ensures forall f :: f in SortAscending(edits) <==> f in edits
  {
    if edits != [] {
      SortAscendingInOrder(edits[1..]);
      InsertedInOrder(edits[0], SortAscending(edits[1..]));
      assert edits == [edits[0]] + edits[1..];
    }
  }

  lemma {:induction false} ChainedInOrder(edits: seq<FileEdit>, to: nat)
    requires Chained(edits, to)
    ensures InOrder(edits)
  {
    forall i, j | 0 <= i < j < |edits| ensures edits[i].start <= edits[j].start {
      ChainedPair(edits, to, i, j);
    }
  }

  // ---- where a group sits in an ordered list ----

  /** The edits before `b` start before `p`, those of the group follow, and the rest start later. */
  ghost predicate Sits(edits: seq<FileEdit>, p: nat, b: nat) {
    IsStretch(edits, p, b, Group(edits, p), Drift(edits, p))
  }

  /** From `b` on stands `g`, all the edits that start at `p`, behind edits that grow by `drift`. */
  ghost predicate IsStretch(edits: seq<FileEdit>, p: nat, b: nat, g: seq<FileEdit>, drift: int) {
    && b + |g| <= |edits| && edits[b..b + |g|] == g && Growth(edits[..b]) == drift
    && forall i :: 0 <= i < |edits| ==> (edits[i].start == p <==> b <= i < b + |g|)
  }

  lemma {:induction false} GrowthFromFront(e: FileEdit, s: seq<FileEdit>)
    ensures Growth([e] + s) == Delta(e) + Growth(s)
  {
    var all := [e] + s;
    if s == [] {
      assert all[..0] == [];
    } else {
      var n := |s| - 1;
      assert all[..|all| - 1] == [e] + s[..n] && all[|all| - 1] == s[n];
      GrowthFromFront(e, s[..n]);
    }
  }

  lemma {:induction false} NoneLater(edits: seq<FileEdit>, p: nat)
    requires forall i :: 0 <= i < |edits| ==> edits[i].start > p
    ensures Group(edits, p) == [] && Drift(edits, p) == 0
  {
    if edits != [] { NoneLater(edits[1..], p); }
  }

  lemma {:induction false} GroupFirst(edits: seq<FileEdit>, p: nat)
    requires InOrder(edits) && (edits != [] ==> edits[0].start >= p)
    ensures Sits(edits, p, 0)
  {
    assert edits[..0] == [];
    if edits != [] {
      if edits[0].start > p {
        NoneLater(edits, p);
        assert edits[0..0] == [];
      } else {
        GroupFirst(edits[1..], p);
        var g, rest := Group(edits, p), Group(edits[1..], p);
        assert g == [edits[0]] + rest;
        assert edits[0..|g|] == [edits[0]] + edits[1..][0..|rest|];
        forall i | 0 <= i < |edits| ensures edits[i].start == p <==> i < |g| {
          if i > 0 { assert edits[i] == edits[1..][i - 1]; }
        }
      }
    }
  }

  lemma RestOf(edits: seq<FileEdit>, b: nat, n: nat)
    requires edits != [] && b + n <= |edits| - 1
    ensures edits[b + 1..b + 1 + n] == edits[1..][b..b + n]
    ensures edits[..b + 1] == [edits[0]] + edits[1..][..b]
  {
  }

  lemma {:induction false} GroupSits(edits: seq<FileEdit>, p: nat) returns (b: nat)
    requires InOrder(edits)
    ensures Sits(edits, p, b)
  {
    if edits == [] || edits[0].start >= p {
      GroupFirst(edits, p);
      b := 0;
    } else {
      var b' := GroupSits(edits[1..], p);
      SitsFurther(edits, p, b');
      b := b' + 1;
    }
  }

  lemma {:induction false} SitsFurther(edits: seq<FileEdit>, p: nat, b: nat)
    requires edits != [] && edits[0].start < p && Sits(edits[1..], p, b)
    ensures Sits(edits, p, b + 1)
  {
    assert Group(edits, p) == Group(edits[1..], p) && Drift(edits, p) == Delta(edits[0]) + Drift(edits[1..], p);
    StretchFurther(edits, p, b, Group(edits[1..], p), Drift(edits[1..], p));
  }

  lemma {:induction false} StretchFurther(edits: seq<FileEdit>, p: nat, b: nat, g: seq<FileEdit>, drift: int)
    requires edits != [] && edits[0].start < p && IsStretch(edits[1..], p, b, g, drift)
    ensures IsStretch(edits, p, b + 1, g, Delta(edits[0]) + drift)
  {
    RestOf(edits, b, |g|);
    GrowthFromFront(edits[0], edits[1..][..b]);
    forall i | 0 <= i < |edits| ensures edits[i].start == p <==> b + 1 <= i < b + 1 + |g| {
      if i > 0 { assert edits[i] == edits[1..][i - 1]; }
    }
  }

  /** Where the running delta puts an edit of a group. */
  lemma GroupOffset(edits: seq<FileEdit>, p: nat, b: nat, i: nat)
    requires Sits(edits, p, b) && i < |Group(edits, p)|
    ensures edits[b + i] == Group(edits, p)[i]
    ensures NewStart(edits, b + i) == p + Drift(edits, p) + Growth(Group(edits, p)[..i])
  {
    var g := Group(edits, p);
    assert edits[b + i] == edits[b..b + |g|][i];
    assert edits[..b + i] == edits[..b] + g[..i];
    GrowthSplits(edits[..b], g[..i]);
  }

  lemma {:induction false} GrowthSplits(a: seq<FileEdit>, b: seq<FileEdit>)
    ensures Growth(a + b) == Growth(a) + Growth(b)
  {
    if b == [] {
      assert a + b == a;
    } else {
      var n := |b| - 1;
      assert (a + b)[..|a + b| - 1] == a + b[..n] && (a + b)[|a + b| - 1] == b[n];
      GrowthSplits(a, b[..n]);
    }
  }

  // ---- what a splice comes to, shared starts or not ----

  /**
   * A splice succeeds exactly when its edits, in the order it leaves them, are well-formed, within the
   * original and follow one another without overlapping; it is then their simultaneous substitution.
   */
  lemma SpliceIsLandedSubstitution(src: Bytes, edits: seq<FileEdit>)
    ensures Spliced(src, edits).Ok? <==> Chained(Landed(edits), |src|)
    ensures Spliced(src, edits).Ok? ==> Spliced(src, edits).value == Substitute(src, Landed(edits), |src|)
  {
    var landed := Landed(edits);
    ReverseTwice(SortDescending(edits));
    NoOverlapIsAdjacent(landed);
    assert src[..|src|] + [] == src;
    if Chained(landed, |src|) {
      ApplyIsSubstitute(src, landed, |src|, []);
      assert Substitute(src, landed, |src|) + [] == Substitute(src, landed, |src|);
    } else if edits != [] && Spliced(src, edits).Ok? {
      FirstFits(src, landed);
      ApplyNeedsChain(src, landed, |src|, []);
    }
  }

  lemma FirstFits(src: Bytes, landed: seq<FileEdit>)
    requires ApplyAll(src, Reverse(landed)).Ok?
    ensures landed != [] ==> landed[|landed| - 1].end <= |src|
  {
    if landed != [] {
      LastReversed(landed);
      ApplyFirst(src, Reverse(landed));
    }
  }

  lemma LastReversed(s: seq<FileEdit>)
    requires s != []
    ensures Reverse(s) != [] && Reverse(s)[0] == s[|s| - 1]
  {
    ReverseSnoc(s[..|s| - 1], s[|s| - 1]);
    FrontAndLast(s);
  }

  lemma FrontAndLast(s: seq<FileEdit>)
    requires s != []
    ensures s == s[..|s| - 1] + [s[|s| - 1]]
  {
  }

  lemma ApplyFirst(out: Bytes, sorted: seq<FileEdit>)
    requires sorted != [] && ApplyAll(out, sorted).Ok?
    ensures SpliceOne(out, sorted[0]).Ok?
  {
  }

  lemma {:induction false} ReverseTwice(s: seq<FileEdit>)
    ensures Reverse(Reverse(s)) == s && |Reverse(s)| == |s|
  {
    if s != [] {
      ReverseTwice(s[1..]);
      ReverseSnoc(Reverse(s[1..]), s[0]);
      assert [s[0]] + s[1..] == s;
    }
  }

  // ---- where the texts of a group are ----

  predicate Inserts(e: FileEdit) {
    e.start == e.end
  }

  lemma {:induction false} ConcatSplits(a: seq<FileEdit>, b: seq<FileEdit>)
    ensures Concat(a + b) == Concat(a) + Concat(b)
  {
    if a == [] {
      assert a + b == b;
    } else {
      assert (a + b)[0] == a[0] && (a + b)[1..] == a[1..] + b;
      ConcatSplits(a[1..], b);
    }
  }

  lemma ConcatNext(g: seq<FileEdit>, i: nat)
    requires i < |g|
    ensures Concat(g[..i + 1]) == Concat(g[..i]) + g[i].text
  {
    assert g[..i + 1] == g[..i] + [g[i]] && [g[i]][1..] == [];
    ConcatSplits(g[..i], [g[i]]);
  }

  lemma {:induction false} ConcatPrefix(g: seq<FileEdit>, i: nat, j: nat)
    requires i <= j <= |g|
    ensures Concat(g[..i]) <= Concat(g[..j])
  {
    if i < j {
      ConcatPrefix(g, i, j - 1);
      ConcatNext(g, j - 1);
    }
  }

  lemma {:induction false} ConcatReversed(g: seq<FileEdit>)
    ensures |Concat(Reverse(g))| == |Concat(g)|
  {
    if g != [] {
      ConcatReversed(g[1..]);
      ConcatSplits(Reverse(g[1..]), [g[0]]);
      assert [g[0]][1..] == [];
    }
  }

  lemma {:induction false} InsertionsGrow(g: seq<FileEdit>)
    requires forall i :: 0 <= i < |g| ==> Inserts(g[i])
    ensures Growth(g) == |Concat(g)|
  {
    if g != [] {
      var n := |g| - 1;
      InsertionsGrow(g[..n]);
      ConcatNext(g, n);
      assert g[..n + 1] == g;
    }
  }

  /** In a chained list all of a group but its last insert. */
  lemma GroupInserts(landed: seq<FileEdit>, to: nat, p: nat, b: nat, i: nat)
    requires Chained(landed, to) && Sits(landed, p, b) && i + 1 < |Group(landed, p)|
    ensures Inserts(Group(landed, p)[i])
  {
    GroupOffset(landed, p, b, i);
    assert landed[b + i].start == p && landed[b + i + 1].start == p;
    assert landed[b + i + 1 - 1].end <= landed[b + i + 1].start;
  }

  /** The text of one edit of a group stands right after those of the edits before it. */
  lemma PieceStands(src: Bytes, landed: seq<FileEdit>, p: nat, b: nat, i: nat)
    requires Chained(landed, |src|) && Sits(landed, p, b) && i < |Group(landed, p)|
    ensures PieceIn(Substitute(src, landed, |src|), p + Drift(landed, p), Group(landed, p), i)
  {
    var front := Group(landed, p)[..i];
    GroupOffset(landed, p, b, i);
    SubstitutePlaces(src, landed, |src|, b + i);
    forall j | 0 <= j < |front| ensures Inserts(front[j]) { GroupInserts(landed, |src|, p, b, j); }
    InsertionsGrow(front);
  }

  /** The texts of a group stand one after another, as the splice leaves them. */
  lemma GroupStands(src: Bytes, landed: seq<FileEdit>, p: nat, b: nat)
    requires Chained(landed, |src|) && Sits(landed, p, b) && Group(landed, p) != []
    ensures StandsAt(Substitute(src, landed, |src|), p + Drift(landed, p), Concat(Group(landed, p)))
  {
    var out, at, g := Substitute(src, landed, |src|), p + Drift(landed, p), Group(landed, p);
    forall j | 0 <= j < |g| ensures PieceIn(out, at, g, j) {
      PieceStands(src, landed, p, b, j);
    }
    WholeStands(out, at, g);
  }

  ghost predicate PieceIn(out: Bytes, at: int, g: seq<FileEdit>, i: nat)
    requires i < |g|
  {
    StandsAt(out, at + |Concat(g[..i])|, g[i].text)
  }

  lemma {:induction false} PiecesStand(out: Bytes, at: int, g: seq<FileEdit>, i: nat)
    requires 0 < i <= |g| && forall j :: 0 <= j < i ==> PieceIn(out, at, g, j)
    ensures StandsAt(out, at, Concat(g[..i]))
  {
    assert PieceIn(out, at, g, i - 1);
    ConcatNext(g, i - 1);
    if i > 1 {
      PiecesStand(out, at, g, i - 1);
    } else {
      NoText(out, at, g, g[0].text);
    }
    Adjoin(out, at, Concat(g[..i - 1]), g[i - 1].text);
  }

  lemma WholeStands(out: Bytes, at: int, g: seq<FileEdit>)
    requires g != [] && forall j :: 0 <= j < |g| ==> PieceIn(out, at, g, j)
    ensures StandsAt(out, at, Concat(g))
  {
    PiecesStand(out, at, g, |g|);
    assert g[..|g|] == g;
  }

  lemma NoText(out: Bytes, at: int, g: seq<FileEdit>, x: Bytes)
    requires StandsAt(out, at + |Concat(g[..0])|, x)
    ensures Concat(g[..0]) == [] && StandsAt(out, at, [])
  {
    assert g[..0] == [];
  }

  ghost predicate StandsAt(out: Bytes, at: int, text: Bytes) {
    0 <= at && at + |text| <= |out| && out[at..at + |text|] == text
  }

  lemma Adjoin(out: Bytes, at: int, t: Bytes, x: Bytes)
    requires StandsAt(out, at, t) && StandsAt(out, at + |t|, x)
    ensures StandsAt(out, at, t + x)
  {
  }

  // ---- where the results put them ----

  /** How many bytes the first edit of a group replaces. */
  function Width(g: seq<FileEdit>): int {
    if g == [] then 0 else g[0].end - g[0].start
  }

  /** How far into its group's texts the results put an edit. */
  function Shift(g: seq<FileEdit>, i: nat): int
    requires i < |g|
  {
    if i == 0 then 0 else |Concat(g[..i])| - Width(g)
  }

  /** Read where the results put it, the group's own text there is the edit's. */
  ghost predicate ReadsAt(g: seq<FileEdit>, i: nat)
    requires i < |g|
  {
    StandsAt(Concat(Reverse(g)), Shift(g, i), g[i].text)
  }

  ghost predicate Reads(g: seq<FileEdit>) {
    forall i :: 0 <= i < |g| ==> ReadsAt(g, i)
  }

  /** The reported range of an edit lies in the new bytes and holds exactly its text. */
  ghost predicate Right(out: Bytes, asc: seq<FileEdit>, k: nat)
    requires k < |asc|
  {
    InRange(out, asc, k) && out[NewStart(asc, k)..NewStart(asc, k) + |asc[k].text|] == asc[k].text
  }

  ghost predicate AllRight(out: Bytes, asc: seq<FileEdit>) {
    forall k :: 0 <= k < |asc| ==> Right(out, asc, k)
  }

  lemma {:induction false} ReversedLast(g: seq<FileEdit>, f: FileEdit)
    requires g != [] && f in g[1..] && forall i :: 0 <= i < |Reverse(g)| - 1 ==> Inserts(Reverse(g)[i])
    ensures Inserts(f)
  {
    ReverseElements(g[1..]);
    var i :| 0 <= i < |Reverse(g[1..])| && Reverse(g[1..])[i] == f;
    assert Reverse(g)[i] == f;
  }

  /** What a splice makes of a group: its texts in reverse, and all but the first given edit insert. */
  ghost predicate Placed(src: Bytes, edits: seq<FileEdit>, p: nat)
    requires Spliced(src, edits).Ok?
  {
    var g := Group(edits, p);
    && Width(g) >= 0 && (forall j :: 0 < j < |g| ==> Inserts(g[j]))
    && (g != [] ==> StandsAt(Spliced(src, edits).value, p + Drift(edits, p), Concat(Reverse(g))))
  }

  lemma GroupPlaced(src: Bytes, edits: seq<FileEdit>, p: nat)
    requires Spliced(src, edits).Ok?
    ensures Placed(src, edits, p)
  {
    var g, landed := Group(edits, p), Landed(edits);
    if g != [] {
      SpliceIsLandedSubstitution(src, edits);
      LandedGroup(edits, p);
      ChainedInOrder(landed, |src|);
      var b := GroupSits(landed, p);
      ReverseElements(g);
      GroupStands(src, landed, p, b);
      forall j | 0 <= j < |Reverse(g)| - 1 ensures Inserts(Reverse(g)[j]) { GroupInserts(landed, |src|, p, b, j); }
      forall j | 0 < j < |g| ensures Inserts(g[j]) {
        assert g[1..][j - 1] == g[j] && g[j] in g[1..];
        ReversedLast(g, g[j]);
      }
      GroupOffset(landed, p, b, |g| - 1);
      assert Reverse(g)[|g| - 1] == g[0];
    }
  }

  lemma {:induction false} LaterGrow(g: seq<FileEdit>, i: nat)
    requires i <= |g| && forall j :: 0 < j < |g| ==> Inserts(g[j])
    ensures Growth(g[..i]) == if i == 0 then 0 else |Concat(g[..i])| - Width(g)
  {
    if i == 0 {
      assert g[..0] == [];
    } else {
      LaterGrow(g, i - 1);
      GrowthOneMore(g, i - 1);
      ConcatNext(g, i - 1);
      assert g[..0] == [];
    }
  }

  /** The `k`-th result is that of the `i`-th edit at start `p`, and this is where it says that edit landed. */
  ghost predicate Reported(edits: seq<FileEdit>, k: nat, p: nat, i: nat) {
    var asc, g := SortAscending(edits), Group(edits, p);
    k < |asc| && i < |g| && asc[k] == g[i] && NewStart(asc, k) == p + Drift(edits, p) + Shift(g, i)
  }

  /** In ascending order the edits that start at `p` sit from `c` on. */
  ghost predicate SitsSorted(edits: seq<FileEdit>, p: nat, c: nat) {
    var asc := SortAscending(edits);
    Sits(asc, p, c) && Group(asc, p) == Group(edits, p) && Drift(asc, p) == Drift(edits, p)
  }

  /** In an ordered list with the same groups, where a group sits. */
  lemma AscendingSits(edits: seq<FileEdit>, p: nat) returns (c: nat)
    ensures SitsSorted(edits, p, c)
  {
    SortedGroup(edits, p);
    SortAscendingInOrder(edits);
    c := GroupSits(SortAscending(edits), p);
  }

  lemma OffsetIsReported(src: Bytes, edits: seq<FileEdit>, p: nat, c: nat, i: nat)
    requires Spliced(src, edits).Ok? && i < |Group(edits, p)| && SitsSorted(edits, p, c)
    ensures Reported(edits, c + i, p, i)
  {
    GroupPlaced(src, edits, p);
    LaterGrow(Group(edits, p), i);
    GroupOffset(SortAscending(edits), p, c, i);
  }

  lemma ReportOf(src: Bytes, edits: seq<FileEdit>, p: nat, i: nat) returns (k: nat)
    requires Spliced(src, edits).Ok? && i < |Group(edits, p)|
    ensures Reported(edits, k, p, i)
  {
    var c := AscendingSits(edits, p);
    k := c + i;
    OffsetIsReported(src, edits, p, c, i);
  }

  lemma PlaceOf(src: Bytes, edits: seq<FileEdit>, k: nat) returns (i: nat)
    requires Spliced(src, edits).Ok? && k < |SortAscending(edits)|
    ensures Reported(edits, k, SortAscending(edits)[k].start, i)
  {
    var p := SortAscending(edits)[k].start;
    var c := AscendingSits(edits, p);
    i := k - c;
    OffsetIsReported(src, edits, p, c, i);
  }

  lemma ShiftFits(g: seq<FileEdit>, i: nat)
    requires i < |g| && Width(g) >= 0
    ensures Shift(g, i) + |g[i].text| <= |Concat(g)| == |Concat(Reverse(g))|
    ensures i > 0 ==> |g[0].text| - Width(g) <= Shift(g, i)
  {
    ConcatReversed(g);
    ConcatNext(g, i);
    ConcatPrefix(g, i + 1, |g|);
    assert g[..|g|] == g;
    if i > 0 {
      ConcatPrefix(g, 1, i);
      ConcatNext(g, 0);
      assert g[..0] == [];
    } else {
      assert g[..0] == [];
    }
  }

  /** One result is right when, and inside its group's texts only when, the text it points at is its own. */
  lemma RightIffReadsAt(src: Bytes, edits: seq<FileEdit>, k: nat, p: nat, i: nat)
    requires Spliced(src, edits).Ok? && Reported(edits, k, p, i)
    ensures var out, asc, g := Spliced(src, edits).value, SortAscending(edits), Group(edits, p);
            && (ReadsAt(g, i) ==> Right(out, asc, k))
            && (Shift(g, i) >= 0 ==> (Right(out, asc, k) <==> ReadsAt(g, i)))
            && (InRange(out, asc, k) <==> p + Drift(edits, p) + Shift(g, i) >= 0)
            && (i > 0 ==> |g[0].text| - Width(g) <= Shift(g, i))
  {
    GroupPlaced(src, edits, p);
    ShiftFits(Group(edits, p), i);
    RightAt(Spliced(src, edits).value, SortAscending(edits), k, Group(edits, p), i, p + Drift(edits, p));
  }

  lemma RightAt(out: Bytes, asc: seq<FileEdit>, k: nat, g: seq<FileEdit>, i: nat, at: int)
    requires k < |asc| && i < |g| && asc[k] == g[i] && NewStart(asc, k) == at + Shift(g, i)
    requires StandsAt(out, at, Concat(Reverse(g))) && Shift(g, i) + |g[i].text| <= |Concat(Reverse(g))|
    ensures ReadsAt(g, i) ==> Right(out, asc, k)
    ensures Shift(g, i) >= 0 ==> (Right(out, asc, k) <==> ReadsAt(g, i))
    ensures InRange(out, asc, k) <==> at + Shift(g, i) >= 0
  {
    StandingText(out, at, Concat(Reverse(g)), Shift(g, i), g[i].text);
  }

  lemma StandingText(out: Bytes, at: int, t: Bytes, o: int, x: Bytes)
    requires StandsAt(out, at, t) && o + |x| <= |t|
    ensures o >= 0 ==> (StandsAt(out, at + o, x) <==> t[o..o + |x|] == x)
    ensures at + o + |x| <= |out|
  {
    if o >= 0 { Within(out, at, t, o, |x|); }
  }

  lemma Within(out: Bytes, at: int, t: Bytes, o: nat, n: nat)
    requires StandsAt(out, at, t) && o + n <= |t|
    ensures out[at + o..at + o + n] == t[o..o + n]
  {
    SliceOfSlice(out, at, at + |t|, o, n);
  }

  lemma SliceOfSlice(s: Bytes, a: nat, b: nat, o: nat, n: nat)
    requires a <= b <= |s| && o + n <= b - a
    ensures s[a..b][o..o + n] == s[a + o..a + o + n]
  {
    var piece, whole := s[a..b][o..o + n], s[a + o..a + o + n];
    assert |piece| == |whole|;
    assert forall j :: 0 <= j < n ==> piece[j] == s[a + (o + j)] == whole[j];
  }

  // ---- when the results are right ----

  /** A group of several whose first edit replaces more bytes than it brings. */
  predicate Shrinks(g: seq<FileEdit>) {
    |g| >= 2 && |g[0].text| < Width(g)
  }

  ghost predicate AllRead(edits: seq<FileEdit>) {
    forall p: nat :: Reads(Group(edits, p))
  }

  /** Where every group of edits at one start reads right, every result is right. */
  lemma ReadsMakeRight(src: Bytes, edits: seq<FileEdit>)
    requires Spliced(src, edits).Ok? && AllRead(edits)
    ensures AllRight(Spliced(src, edits).value, SortAscending(edits))
  {
    var asc := SortAscending(edits);
    forall k | 0 <= k < |asc| ensures Right(Spliced(src, edits).value, asc, k) {
      var i := PlaceOf(src, edits, k);
      assert Reads(Group(edits, asc[k].start));
      RightIffReadsAt(src, edits, k, asc[k].start, i);
    }
  }

  /**
   * Exactly when the results of a successful splice are right: as long as no edit that shares its start
   * shrinks what it replaces, every reported range holds its edit's text if and only if at each start the
   * texts, read one after another in input order from where the results begin, are found in the reverse
   * order the splice leaves them in.
   */
  lemma ReportedRightIff(src: Bytes, edits: seq<FileEdit>)
    requires Spliced(src, edits).Ok? && forall p: nat :: !Shrinks(Group(edits, p))
    ensures AllRight(Spliced(src, edits).value, SortAscending(edits)) <==> AllRead(edits)
  {
    var out, asc := Spliced(src, edits).value, SortAscending(edits);
    if AllRight(out, asc) {
      forall p: nat ensures Reads(Group(edits, p)) {
        var g := Group(edits, p);
        forall i | 0 <= i < |g| ensures ReadsAt(g, i) {
          var k := ReportOf(src, edits, p, i);
          assert Right(out, asc, k) && !Shrinks(g);
          RightIffReadsAt(src, edits, k, p, i);
        }
      }
    } else {
      if AllRead(edits) { ReadsMakeRight(src, edits); }
    }
  }

  /** Pieces found one after another make up the whole, and the other way round. */
  lemma {:induction false} PiecesMakeUp(t: Bytes, g: seq<FileEdit>)
    requires |t| == |Concat(g)|
    ensures (forall i :: 0 <= i < |g| ==> PieceIn(t, 0, g, i)) <==> t == Concat(g)
    decreases |g|
  {
    if g != [] {
      var n := |g| - 1;
      var front, cut := g[..n], |Concat(g[..n])|;
      ConcatNext(g, n);
      assert g[..n + 1] == g;
      PiecesMakeUp(t[..cut], front);
      assert t == t[..cut] + t[cut..];
      forall i | 0 <= i < n ensures PieceIn(t, 0, g, i) <==> PieceIn(t[..cut], 0, front, i) {
        assert front[..i] == g[..i] && front[..i + 1] == g[..i + 1];
        ConcatPrefix(g, i + 1, n);
        ConcatNext(g, i);
        FrontPiece(t, cut, |Concat(g[..i])|, |g[i].text|);
      }
      assert PieceIn(t, 0, g, n) <==> t[cut..] == g[n].text;
    }
  }

  lemma FrontPiece(t: Bytes, cut: nat, o: nat, n: nat)
    requires o + n <= cut <= |t|
    ensures t[..cut][o..o + n] == t[o..o + n]
  {
  }

  lemma ReadsIsPiece(g: seq<FileEdit>, i: nat)
    requires i < |g| && Width(g) == 0
    ensures ReadsAt(g, i) <==> PieceIn(Concat(Reverse(g)), 0, g, i)
  {
    assert Shift(g, i) == |Concat(g[..i])| by { NothingFirst(g); }
  }

  lemma NothingFirst(g: seq<FileEdit>)
    ensures Concat(g[..0]) == []
  {
  }

  /** Insertions at one start read right exactly when their texts make the same whole in either order. */
  lemma InsertionsReadIff(g: seq<FileEdit>)
    requires |g| >= 2 ==> Width(g) == 0
    ensures Reads(g) <==> Commutes(g)
  {
    ConcatReversed(g);
    if |g| == 1 {
      OneReads(g);
    } else {
      forall i | 0 <= i < |g| ensures ReadsAt(g, i) <==> PieceIn(Concat(Reverse(g)), 0, g, i) {
        ReadsIsPiece(g, i);
      }
      PiecesMakeUp(Concat(Reverse(g)), g);
    }
  }

  lemma OneReads(g: seq<FileEdit>)
    requires |g| == 1
    ensures Reads(g) && Reverse(g) == g
  {
    assert g[1..] == [] && Reverse(g) == [] + [g[0]];
    assert Concat(g) == g[0].text + Concat(g[1..]);
  }

  /** At each start the texts make the same whole in input order and in reverse. */
  ghost predicate AllCommute(edits: seq<FileEdit>) {
    forall p: nat :: Commutes(Group(edits, p))
  }

  ghost predicate Commutes(g: seq<FileEdit>) {
    Concat(g) == Concat(Reverse(g))
  }

  /**
   * Where every edit that shares its start with another is an insertion: all results of a successful
   * splice are right if and only if, at each start, the texts make the same whole in input order and in
   * reverse. Edits with distinct starts are the case of groups of one.
   */
  lemma InsertionsReportedRightIff(src: Bytes, edits: seq<FileEdit>)
    requires Spliced(src, edits).Ok?
    requires forall p: nat :: |Group(edits, p)| >= 2 ==> Width(Group(edits, p)) == 0
    ensures AllRight(Spliced(src, edits).value, SortAscending(edits))
            <==> AllCommute(edits)
  {
    forall p: nat
      ensures !Shrinks(Group(edits, p))
      ensures Reads(Group(edits, p)) <==> Commutes(Group(edits, p))
    {
      InsertionsReadIff(Group(edits, p));
    }
    ReportedRightIff(src, edits);
    assert AllRead(edits) <==> AllCommute(edits);
  }

  /** Whatever shares a start elsewhere, an edit that shares its start with none is reported right. */
  lemma UnsharedReportedRight(src: Bytes, edits: seq<FileEdit>, k: nat)
    requires Spliced(src, edits).Ok? && k < |SortAscending(edits)|
    requires |Group(edits, SortAscending(edits)[k].start)| == 1
    ensures Right(Spliced(src, edits).value, SortAscending(edits), k)
  {
    var p := SortAscending(edits)[k].start;
    var i := PlaceOf(src, edits, k);
    OneReads(Group(edits, p));
    RightIffReadsAt(src, edits, k, p, i);
  }

  /** The second result at a start begins before the new bytes do. */
  predicate FallsOff(edits: seq<FileEdit>, p: nat) {
    var g := Group(edits, p);
    |g| >= 2 && p + Drift(edits, p) + |g[0].text| < Width(g)
  }

  /**
   * Exactly when the program panics over the results of a successful splice: when some edit replaces
   * more bytes than its own text and all new bytes before it, and another is given after it at its start.
   */
  lemma PanicsIff(src: Bytes, edits: seq<FileEdit>)
    requires Spliced(src, edits).Ok?
    ensures !AllInRange(Spliced(src, edits).value, SortAscending(edits)) <==> exists p: nat :: FallsOff(edits, p)
  {
    var out, asc := Spliced(src, edits).value, SortAscending(edits);
    if p: nat :| FallsOff(edits, p) {
      var k := ReportOf(src, edits, p, 1);
      ShiftOfSecond(Group(edits, p));
      RightIffReadsAt(src, edits, k, p, 1);
    } else {
      forall k | 0 <= k < |asc| ensures InRange(out, asc, k) {
        var p := asc[k].start;
        var i := PlaceOf(src, edits, k);
        assert !FallsOff(edits, p);
        GroupPlaced(src, edits, p);
        RightIffReadsAt(src, edits, k, p, i);
      }
    }
  }

  lemma ShiftOfSecond(g: seq<FileEdit>)
    requires |g| >= 2
    ensures Shift(g, 1) == |g[0].text| - Width(g)
  {
    ConcatNext(g, 0);
    assert g[..0] == [];
  }
}
