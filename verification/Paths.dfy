/** The one global order of paths: the order of lock acquisition and of every per-path map. */
module Paths {
  import opened Prelude

  /** Lexicographic order. */
  predicate Before(a: Path, b: Path) {
    b != [] && (a == [] || a[0] < b[0] || (a[0] == b[0] && Before(a[1..], b[1..])))
  }

  /** The paths agree up to `k`, where the first ends or has the smaller character. */
  ghost predicate FirstDifference(a: Path, b: Path, k: nat) {
    k <= |a| && k < |b| && a[..k] == b[..k] && (k == |a| || a[k] < b[k])
  }

  /** A path comes before those it is a prefix of, and otherwise the first differing character decides. */
  lemma {:induction false} BeforeIsLexicographic(a: Path, b: Path)
    ensures Before(a, b) <==> exists k: nat :: FirstDifference(a, b, k)
  {
    if b != [] {
      if a == [] || a[0] < b[0] {
        assert FirstDifference(a, b, 0);
      } else {
        BeforeIsLexicographic(a[1..], b[1..]);
        if a[0] == b[0] {
          if k: nat :| FirstDifference(a[1..], b[1..], k) {
            assert a[..k + 1] == [a[0]] + a[1..][..k] && b[..k + 1] == [b[0]] + b[1..][..k];
            assert FirstDifference(a, b, k + 1);
          }
          if k: nat :| FirstDifference(a, b, k) {
            assert k > 0 && a[1..][..k - 1] == a[..k][1..] && b[1..][..k - 1] == b[..k][1..];
            assert FirstDifference(a[1..], b[1..], k - 1);
          }
        } else {
          forall k: nat | k <= |a| && k < |b| ensures !FirstDifference(a, b, k) {
            if k > 0 { assert a[..k][0] == a[0] && b[..k][0] == b[0]; }
          }
        }
      }
    }
  }

  lemma {:induction false} BeforeIsTotal(a: Path, b: Path)
    ensures Before(a, b) || Before(b, a) || a == b
    ensures !(Before(a, b) && Before(b, a)) && !Before(a, a)
  {
    if a != [] {
      BeforeIsTotal(a[1..], a[1..]);
      if b != [] && a[0] == b[0] {
        BeforeIsTotal(a[1..], b[1..]);
        assert a == [a[0]] + a[1..] && b == [b[0]] + b[1..];
      }
    }
  }

  lemma {:induction false} BeforeIsTransitive(a: Path, b: Path, c: Path)
    requires Before(a, b) && Before(b, c)
    ensures Before(a, c)
  {
    if a != [] && a[0] == b[0] == c[0] { BeforeIsTransitive(a[1..], b[1..], c[1..]); }
  }

  predicate IsLeast(least: Path, paths: set<Path>) {
    least in paths && forall p :: p in paths && p != least ==> Before(least, p)
  }

  lemma {:induction false} LeastExists(paths: set<Path>)
    requires paths != {}
    ensures exists least :: IsLeast(least, paths)
  {
    var p :| p in paths;
    if paths == {p} {
      assert IsLeast(p, paths);
    } else {
      LeastExists(paths - {p});
      var rest :| IsLeast(rest, paths - {p});
      BeforeIsTotal(p, rest);
      if Before(p, rest) {
        forall q | q in paths && q != p ensures Before(p, q) {
          if q != rest { BeforeIsTransitive(p, rest, q); }
        }
        assert IsLeast(p, paths);
      } else {
        assert IsLeast(rest, paths);
      }
    }
  }

  lemma LeastIsUnique(paths: set<Path>)
    ensures forall a, b :: IsLeast(a, paths) && IsLeast(b, paths) ==> a == b
  {
    forall a, b | IsLeast(a, paths) && IsLeast(b, paths) ensures a == b {
      BeforeIsTotal(a, b);
    }
  }

  function Least(paths: set<Path>): (least: Path)
    requires paths != {}
    ensures IsLeast(least, paths)
  {
    LeastExists(paths);
    LeastIsUnique(paths);
    var least :| IsLeast(least, paths);
    least
  }

  ghost predicate Ascending(paths: seq<Path>) {
    forall i, j :: 0 <= i < j < |paths| ==> Before(paths[i], paths[j])
  }

  /** The paths of a set, sorted. */
  function Sorted(paths: set<Path>): (r: seq<Path>)
    ensures Ascending(r)
    ensures forall p :: p in r <==> p in paths
    decreases |paths|
  {
    if paths == {} then []
    else
      var least := Least(paths);
      var rest := Sorted(paths - {least});
      assert forall p :: p in rest ==> p in paths && p != least && Before(least, p);
      [least] + rest
  }

  lemma AscendingIsDistinct(paths: seq<Path>, i: nat, j: nat)
    requires Ascending(paths) && i < j < |paths|
    ensures paths[i] != paths[j]
  {
    BeforeIsTotal(paths[i], paths[j]);
  }

  /** There is one way to sort a set of paths. */
  lemma {:induction false} AscendingIsUnique(a: seq<Path>, b: seq<Path>)
    requires Ascending(a) && Ascending(b) && forall p :: p in a <==> p in b
    ensures a == b
  {
    if a == [] {
      EmptyOrInhabited(b);
    } else {
      assert a[0] in b && b[0] in a;
      BeforeIsTotal(a[0], b[0]);
      assert a[0] == b[0];
      forall p | p in a[1..] ensures p in b[1..] { AscendingTail(a, p); AscendingTail(b, p); }
      forall p | p in b[1..] ensures p in a[1..] { AscendingTail(a, p); AscendingTail(b, p); }
      AscendingIsUnique(a[1..], b[1..]);
      assert a == [a[0]] + a[1..] && b == [b[0]] + b[1..];
    }
  }

  lemma EmptyOrInhabited(a: seq<Path>)
    ensures a == [] || exists p :: p in a
  {
    if a != [] { assert a[0] in a; }
  }

  lemma AscendingTail(a: seq<Path>, p: Path)
    requires Ascending(a) && a != []
    ensures p in a[1..] <==> p in a && p != a[0]
  {
    forall i | 0 < i < |a| ensures a[i] != a[0] {
      AscendingIsDistinct(a, 0, i);
    }
    assert a == [a[0]] + a[1..];
  }

  ghost predicate DistinctPaths(paths: seq<Path>) {
    forall i, j :: 0 <= i < j < |paths| ==> paths[i] != paths[j]
  }

  lemma AllDistinct(paths: seq<Path>)
    requires Ascending(paths)
    ensures DistinctPaths(paths)
  {
    forall i, j | 0 <= i < j < |paths| ensures paths[i] != paths[j] { AscendingIsDistinct(paths, i, j); }
  }

  /** Sorts and deduplicates by insertion. */
  method SortDedup(paths: seq<Path>) returns (r: seq<Path>)
    ensures Ascending(r) && forall p :: p in r <==> p in paths
  {
    r := [];
    for i := 0 to |paths|
      invariant Ascending(r) && forall p :: p in r <==> p in paths[..i]
    {
      assert paths[..i + 1] == paths[..i] + [paths[i]];
      var k := 0;
      while k < |r| && Before(r[k], paths[i])
        invariant 0 <= k <= |r|
        invariant forall j :: 0 <= j < k ==> Before(r[j], paths[i])
      {
        k := k + 1;
      }
      if k == |r| || r[k] != paths[i] {
        InsertKeepsAscending(r, k, paths[i]);
        r := r[..k] + [paths[i]] + r[k..];
      }
    }
    assert paths[..|paths|] == paths;
  }

  lemma InsertKeepsAscending(r: seq<Path>, k: nat, p: Path)
    requires Ascending(r) && k <= |r|
    requires forall j :: 0 <= j < k ==> Before(r[j], p)
    requires k < |r| ==> !Before(r[k], p) && r[k] != p
    ensures Ascending(r[..k] + [p] + r[k..])
    ensures forall q :: q in r[..k] + [p] + r[k..] <==> q in r || q == p
  {
    var s := r[..k] + [p] + r[k..];
    if k < |r| {
      BeforeIsTotal(r[k], p);
      forall j | k < j < |r| ensures Before(p, r[j]) {
        BeforeIsTransitive(p, r[k], r[j]);
      }
    }
    assert r == r[..k] + r[k..];
    forall i, j | 0 <= i < j < |s| ensures Before(s[i], s[j]) {
      var i' := if i < k then i else i - 1;
      var j' := if j < k then j else j - 1;
    }
  }
}
