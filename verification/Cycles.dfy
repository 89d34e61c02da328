/** The worklist test that tells whether one path's undo edges form a cycle. */
module Cycles {

  import opened Prelude

  /** What a path can hold, by raw hash; `None` is absence. */
  type Node = Option<Digest>

  /** One undo step: while the path holds `from`, make it hold `to`. */
  datatype Edge = Edge(from: Node, to: Node)

  /** A self-loop changes nothing, so it does not link its node to itself. */
  ghost predicate Linked(edges: seq<Edge>, a: Node, b: Node) {
    a != b && Edge(a, b) in edges
  }

  ghost predicate IsWalk(edges: seq<Edge>, walk: seq<Node>) {
    && walk != []
    && forall i :: 0 < i < |walk| ==> Linked(edges, walk[i - 1], walk[i])
  }

  ghost predicate WalkFromTo(edges: seq<Edge>, walk: seq<Node>, a: Node, b: Node) {
    IsWalk(edges, walk) && walk[0] == a && walk[|walk| - 1] == b
  }

  /** Some walk, possibly empty, leads from `a` to `b`. */
  ghost predicate Reaches(edges: seq<Edge>, a: Node, b: Node) {
    exists walk :: WalkFromTo(edges, walk, a, b)
  }

  /** Some walk of at least one proper edge returns to where it began. */
  ghost predicate Cyclic(edges: seq<Edge>) {
    exists walk :: |walk| >= 2 && IsWalk(edges, walk) && walk[0] == walk[|walk| - 1]
  }

  lemma ReachesSelf(edges: seq<Edge>, a: Node)
    ensures Reaches(edges, a, a)
  {
    assert WalkFromTo(edges, [a], a, a);
  }

  lemma ReachesThenEdge(edges: seq<Edge>, a: Node, b: Node, c: Node)
    requires Reaches(edges, a, b) && Linked(edges, b, c)
    ensures Reaches(edges, a, c)
  {
    var walk :| WalkFromTo(edges, walk, a, b);
    assert WalkFromTo(edges, walk + [c], a, c);
  }

  lemma EdgeClosesCycle(edges: seq<Edge>, a: Node, b: Node)
    requires Linked(edges, a, b) && Reaches(edges, b, a)
    ensures Cyclic(edges)
  {
    var walk :| WalkFromTo(edges, walk, b, a);
    var closed := [a] + walk;
    assert IsWalk(edges, closed) && closed[0] == closed[|closed| - 1];
  }

  // ---- the specification vocabulary of the worklist ----

  function Proper(edges: seq<Edge>): (r: seq<Edge>)
    ensures forall e :: e in r <==> e in edges && e.from != e.to
  {
    if edges == [] then []
    else if edges[0].from != edges[0].to then [edges[0]] + Proper(edges[1..])
    else Proper(edges[1..])
  }

  function Nodes(edges: seq<Edge>): set<Node> {
    (set e | e in edges :: e.from) + (set e | e in edges :: e.to)
  }

  /** The edges into `n` whose source has not been popped. */
  ghost function WaitingInto(edges: seq<Edge>, popped: set<Node>, n: Node): nat {
    if edges == [] then 0
    else
      var e := edges[|edges| - 1];
      WaitingInto(edges[..|edges| - 1], popped, n) + if e.to == n && e.from !in popped then 1 else 0
  }

  /** The edges whose source has been popped. */
  ghost function Released(edges: seq<Edge>, popped: set<Node>): nat {
    if edges == [] then 0
    else
      Released(edges[..|edges| - 1], popped) + if edges[|edges| - 1].from in popped then 1 else 0
  }

  lemma {:induction false} WaitingIntoZero(edges: seq<Edge>, popped: set<Node>, n: Node)
    ensures WaitingInto(edges, popped, n) == 0 <==> forall e :: e in edges && e.to == n ==> e.from in popped
  {
    if edges != [] {
      WaitingIntoZero(edges[..|edges| - 1], popped, n);
      assert edges == edges[..|edges| - 1] + [edges[|edges| - 1]];
    }
  }

  lemma {:induction false} ReleasedAll(edges: seq<Edge>, popped: set<Node>)
    ensures Released(edges, popped) <= |edges|
    ensures Released(edges, popped) == |edges| <==> forall e :: e in edges ==> e.from in popped
  {
    if edges != [] {
      ReleasedAll(edges[..|edges| - 1], popped);
      assert edges == edges[..|edges| - 1] + [edges[|edges| - 1]];
    }
  }

  lemma {:induction false} NothingPopped(edges: seq<Edge>)
    ensures Released(edges, {}) == 0
  {
    if edges != [] {
      NothingPopped(edges[..|edges| - 1]);
    }
  }

  ghost predicate Distinct(s: seq<Node>) {
    forall i, j :: 0 <= i < j < |s| ==> s[i] != s[j]
  }

  // ---- why the worklist's verdict is right ----

  /** Every popped node comes after all of its predecessors. */
  ghost predicate PopOrder(edges: seq<Edge>, order: seq<Node>) {
    forall k, e :: 0 <= k < |order| && e in edges && e.from != e.to && e.to == order[k] ==> e.from in order[..k]
  }

  lemma PopOrderOneMore(edges: seq<Edge>, order: seq<Node>, node: Node)
    requires PopOrder(edges, order)
    requires forall e :: e in edges && e.to == node ==> e.from in order
    ensures PopOrder(edges, order + [node])
  {
    var more := order + [node];
    forall k, e | 0 <= k < |more| && e in edges && e.from != e.to && e.to == more[k] ensures e.from in more[..k] {
      assert more[..k] == order[..k];
      assert order[..|order|] == order;
    }
  }

  /** In a pop order that follows the edges, a walk ending at a popped node began at an earlier one. */
  lemma {:induction false} WalkDescendsOrder(edges: seq<Edge>, order: seq<Node>, walk: seq<Node>, j: nat)
    requires IsWalk(edges, walk) && |walk| >= 2
    requires PopOrder(edges, order)
    requires j < |order| && order[j] == walk[|walk| - 1]
    ensures walk[0] in order[..j]
  {
    var n := |walk|;
    assert Linked(edges, walk[n - 2], walk[n - 1]);
    assert Edge(walk[n - 2], walk[n - 1]).from in order[..j];
    if n > 2 {
      var i :| 0 <= i < j && order[i] == walk[n - 2];
      assert walk[..n - 1][n - 2] == order[i];
      WalkDescendsOrder(edges, order, walk[..n - 1], i);
      assert walk[..n - 1][0] in order[..i];
    }
  }

  lemma PopOrderRefutesCycle(edges: seq<Edge>, order: seq<Node>)
    requires Distinct(order)
    requires forall e :: e in edges && e.from != e.to ==> e.from in order
    requires PopOrder(edges, order)
    ensures !Cyclic(edges)
  {
    if Cyclic(edges) {
      var walk :| |walk| >= 2 && IsWalk(edges, walk) && walk[0] == walk[|walk| - 1];
      assert Linked(edges, walk[0], walk[1]);
      var j :| 0 <= j < |order| && order[j] == walk[0];
      WalkDescendsOrder(edges, order, walk, j);
    }
  }

  ghost predicate Blocked(edges: seq<Edge>, stuck: set<Node>, n: Node) {
    exists m :: m in stuck && Linked(edges, m, n)
  }

  /** Where every node has a predecessor, walks of any length exist. */
  lemma {:induction false} LongWalk(edges: seq<Edge>, stuck: set<Node>, length: nat) returns (walk: seq<Node>)
    requires stuck != {} && length > 0
    requires forall n :: n in stuck ==> Blocked(edges, stuck, n)
    ensures IsWalk(edges, walk) && |walk| == length && forall i :: 0 <= i < |walk| ==> walk[i] in stuck
  {
    if length == 1 {
      var n :| n in stuck;
      walk := [n];
    } else {
      var rest := LongWalk(edges, stuck, length - 1);
      assert Blocked(edges, stuck, rest[0]);
      var m :| m in stuck && Linked(edges, m, rest[0]);
      walk := [m] + rest;
    }
  }

  lemma {:induction false} Pigeonhole(s: seq<Node>, holes: set<Node>) returns (i: nat, j: nat)
    requires |s| > |holes| && forall k :: 0 <= k < |s| ==> s[k] in holes
    ensures i < j < |s| && s[i] == s[j]
  {
    var last := |s| - 1;
    if exists k :: 0 <= k < last && s[k] == s[last] {
      i :| 0 <= i < last && s[i] == s[last];
      j := last;
    } else {
      i, j := Pigeonhole(s[..last], holes - {s[last]});
    }
  }

  lemma SliceOfWalk(edges: seq<Edge>, walk: seq<Node>, i: nat, j: nat)
    requires IsWalk(edges, walk) && i < j < |walk| && walk[i] == walk[j]
    ensures Cyclic(edges)
  {
    var closed := walk[i..j + 1];
    forall k | 0 < k < |closed| ensures Linked(edges, closed[k - 1], closed[k]) {
      assert Linked(edges, walk[i + k - 1], walk[i + k]);
    }
    assert |closed| >= 2 && IsWalk(edges, closed) && closed[0] == closed[|closed| - 1];
  }

  lemma StuckNodesFormCycle(edges: seq<Edge>, stuck: set<Node>)
    requires stuck != {}
    requires forall n :: n in stuck ==> Blocked(edges, stuck, n)
    ensures Cyclic(edges)
  {
    var walk := LongWalk(edges, stuck, |stuck| + 1);
    var i, j := Pigeonhole(walk, stuck);
    SliceOfWalk(edges, walk, i, j);
  }

  lemma CyclicIgnoresSelfLoops(edges: seq<Edge>)
    ensures Cyclic(edges) <==> Cyclic(Proper(edges))
  {
    forall walk ensures IsWalk(edges, walk) <==> IsWalk(Proper(edges), walk) {
      assert forall a, b :: Linked(edges, a, b) <==> Linked(Proper(edges), a, b);
    }
  }

  /** `node`'s outgoing edges, seen so far, are the difference between the two counts. */
  lemma {:induction false} PoppingOne(edges: seq<Edge>, k: nat, popped: set<Node>, node: Node, n: Node)
    requires k <= |edges|
    ensures k == |edges| ==> WaitingMixed(edges, k, popped, node, n) == WaitingInto(edges, popped + {node}, n)
    ensures k == 0 ==> WaitingMixed(edges, k, popped, node, n) == WaitingInto(edges, popped, n)
  {
    if k == |edges| {
      assert edges[..k] == edges && edges[k..] == [];
    } else if k == 0 {
      assert edges[..k] == [] && edges[k..] == edges;
    }
  }

  ghost function WaitingMixed(edges: seq<Edge>, k: nat, popped: set<Node>, node: Node, n: Node): nat
    requires k <= |edges|
  {
    WaitingInto(edges[..k], popped + {node}, n) + WaitingInto(edges[k..], popped, n)
  }

  lemma {:induction false} WaitingIntoHead(edges: seq<Edge>, popped: set<Node>, n: Node)
    requires edges != []
    ensures WaitingInto(edges, popped, n)
         == (if edges[0].to == n && edges[0].from !in popped then 1 else 0) + WaitingInto(edges[1..], popped, n)
  {
    if |edges| > 1 {
      var front := edges[..|edges| - 1];
      WaitingIntoHead(front, popped, n);
      assert front[1..] == edges[1..][..|edges[1..]| - 1];
    }
  }

  lemma WaitingMixedStep(edges: seq<Edge>, k: nat, popped: set<Node>, node: Node, n: Node)
    requires k < |edges| && node !in popped
    ensures WaitingMixed(edges, k + 1, popped, node, n)
         == WaitingMixed(edges, k, popped, node, n)
            - (if edges[k].to == n && edges[k].from == node then 1 else 0)
    ensures edges[k].to == n && edges[k].from == node ==> WaitingMixed(edges, k, popped, node, n) > 0
  {
    WaitingIntoHead(edges[k..], popped, n);
    assert edges[k..][1..] == edges[k + 1..];
    assert edges[..k + 1][..k] == edges[..k];
  }

  /** The counts at the start: each node's edges in, none of them released. */
  method Indegrees(edges: seq<Edge>) returns (indegree: map<Node, int>)
    ensures Counts(edges, indegree)
  {
    indegree := map[];
    for i := 0 to |edges|
      invariant Counts(edges[..i], indegree)
    {
      var e := edges[i];
      CountsOneMore(edges[..i], e, indegree);
      assert edges[..i + 1] == edges[..i] + [e];
      if e.from !in indegree {
        indegree := indegree[e.from := 0];
      }
      indegree := indegree[e.to := (if e.to in indegree then indegree[e.to] else 0) + 1];
    }
    assert edges[..|edges|] == edges;
  }

  ghost predicate Counts(edges: seq<Edge>, indegree: map<Node, int>) {
    && indegree.Keys == Nodes(edges)
    && forall n :: n in indegree ==> indegree[n] == WaitingInto(edges, {}, n)
  }

  lemma CountsOneMore(edges: seq<Edge>, e: Edge, indegree: map<Node, int>)
    requires Counts(edges, indegree)
    ensures var withFrom := if e.from in indegree then indegree else indegree[e.from := 0];
            Counts(edges + [e], withFrom[e.to := (if e.to in withFrom then withFrom[e.to] else 0) + 1])
  {
    var more := edges + [e];
    assert more[..|edges|] == edges;
    assert Nodes(more) == Nodes(edges) + {e.from, e.to};
    WaitingIntoZero(edges, {}, e.from);
    WaitingIntoZero(edges, {}, e.to);
  }

  /** The nodes nothing leads into, in some order. */
  method InitiallyFree(indegree: map<Node, int>) returns (free: seq<Node>)
    ensures Distinct(free) && (forall n :: n in free <==> n in indegree && indegree[n] == 0)
  {
    free := [];
    var zeros := set n | n in indegree && indegree[n] == 0;
    ghost var allZeros := zeros;
    while zeros != {}
      invariant zeros <= allZeros
      invariant Distinct(free) && (forall n :: n in free <==> n in allZeros - zeros)
      decreases |zeros|
    {
      var n :| n in zeros;
      assert n !in free;
      free := free + [n];
      zeros := zeros - {n};
    }
  }

  /** What the worklist knows between two pops. */
  ghost predicate Draining(edges: seq<Edge>, indegree: map<Node, int>, free: seq<Node>, popped: set<Node>) {
    && indegree.Keys == Nodes(edges) && popped <= indegree.Keys
    && Distinct(free) && (forall n :: n in free ==> n in indegree && n !in popped)
    && (forall n :: n in indegree ==> indegree[n] == WaitingInto(edges, popped, n))
    && (forall n :: n in indegree ==> (indegree[n] == 0 <==> n in popped || n in free))
  }

  /** What the worklist knows while it releases the edges out of `node`, `k` of them looked at. */
  ghost predicate Releasing(edges: seq<Edge>, k: nat, indegree: map<Node, int>, free: seq<Node>, popped: set<Node>,
                            node: Node) {
    && k <= |edges| && indegree.Keys == Nodes(edges) && node !in popped
    && Distinct(free) && (forall n :: n in free ==> n in indegree && n !in popped + {node})
    && (forall n :: n in indegree ==> indegree[n] == WaitingMixed(edges, k, popped, node, n))
    && (forall n :: n in indegree ==> (indegree[n] == 0 <==> n in popped + {node} || n in free))
  }

  /** Looks at one edge: if it leads out of `node`, its target waits on one edge less. */
  method Release(edges: seq<Edge>, k: nat, indegree0: map<Node, int>, free0: seq<Node>, ghost popped: set<Node>,
                 node: Node)
    returns (indegree: map<Node, int>, free: seq<Node>)
    requires k < |edges| && edges[k].from != edges[k].to
    requires Releasing(edges, k, indegree0, free0, popped, node)
    ensures Releasing(edges, k + 1, indegree, free, popped, node)
  {
    indegree, free := indegree0, free0;
    var e := edges[k];
    CountsStep(edges, k, indegree0, free0, popped, node);
    if e.from == node {
      assert e in edges;
      indegree := indegree[e.to := indegree[e.to] - 1];
      if indegree[e.to] == 0 {
        free := free + [e.to];
        OneMoreFree(free0, e.to);
      }
    }
  }

  lemma OneMoreFree(free: seq<Node>, n: Node)
    requires Distinct(free) && n !in free
    ensures Distinct(free + [n]) && forall m :: m in free + [n] <==> m in free || m == n
  {
  }

  /** What one more edge does to the counts the released edges ask for. */
  lemma CountsStep(edges: seq<Edge>, k: nat, indegree: map<Node, int>, free: seq<Node>, popped: set<Node>, node: Node)
    requires k < |edges| && Releasing(edges, k, indegree, free, popped, node)
    ensures forall n :: n in indegree ==>
              WaitingMixed(edges, k + 1, popped, node, n)
              == indegree[n] - (if edges[k].to == n && edges[k].from == node then 1 else 0)
    ensures edges[k].from == node ==>
              && edges[k].to in indegree && indegree[edges[k].to] > 0 && edges[k].to !in free
              && edges[k].to !in popped + {node}
  {
    assert edges[k] in edges;
    forall n | n in indegree
      ensures WaitingMixed(edges, k + 1, popped, node, n)
              == indegree[n] - (if edges[k].to == n && edges[k].from == node then 1 else 0)
    {
      WaitingMixedStep(edges, k, popped, node, n);
    }
    if edges[k].from == node { WaitingMixedStep(edges, k, popped, node, edges[k].to); }
  }

  /** Releases every edge out of `node`, freeing each node whose last waiting edge that was. */
  method Pop(edges: seq<Edge>, indegree0: map<Node, int>, free0: seq<Node>, ghost popped: set<Node>, node: Node)
    returns (indegree: map<Node, int>, free: seq<Node>, released: nat)
    requires forall e :: e in edges ==> e.from != e.to
    requires Draining(edges, indegree0, free0 + [node], popped)
    ensures Draining(edges, indegree, free, popped + {node})
    ensures Released(edges, popped + {node}) == Released(edges, popped) + released
  {
    indegree, free, released := indegree0, free0, 0;
    StartReleasing(edges, indegree, free, popped, node);
    assert edges[..0] == [] && edges[0..] == edges;
    for k := 0 to |edges|
      invariant Releasing(edges, k, indegree, free, popped, node)
      invariant Released(edges[..k], popped + {node}) + Released(edges[k..], popped)
                == Released(edges, popped) + released
    {
      ReleasedStep(edges, k, popped, node);
      assert edges[k] in edges;
      indegree, free := Release(edges, k, indegree, free, popped, node);
      if edges[k].from == node {
        released := released + 1;
      }
    }
    assert edges[..|edges|] == edges && edges[|edges|..] == [];
    DoneReleasing(edges, indegree, free, popped, node);
  }

  lemma StartReleasing(edges: seq<Edge>, indegree: map<Node, int>, free: seq<Node>, popped: set<Node>, node: Node)
    requires Draining(edges, indegree, free + [node], popped)
    ensures Releasing(edges, 0, indegree, free, popped, node)
  {
    assert (free + [node])[|free|] == node;
    assert forall i :: 0 <= i < |free| ==> (free + [node])[i] == free[i];
    forall n | n in indegree ensures indegree[n] == WaitingMixed(edges, 0, popped, node, n) {
      PoppingOne(edges, 0, popped, node, n);
    }
  }

  lemma DoneReleasing(edges: seq<Edge>, indegree: map<Node, int>, free: seq<Node>, popped: set<Node>, node: Node)
    requires Releasing(edges, |edges|, indegree, free, popped, node) && node in indegree && popped <= indegree.Keys
    ensures Draining(edges, indegree, free, popped + {node})
  {
    forall n | n in indegree ensures indegree[n] == WaitingInto(edges, popped + {node}, n) {
      PoppingOne(edges, |edges|, popped, node, n);
    }
  }

  /** When the worklist runs dry, what is left waiting waits on a cycle. */
  lemma LeftoverIsCycle(edges: seq<Edge>, indegree: map<Node, int>, popped: set<Node>, e: Edge)
    requires forall e :: e in edges ==> e.from != e.to
    requires Draining(edges, indegree, [], popped)
    requires e in edges && e.from !in popped
    ensures Cyclic(edges)
  {
    var stuck := indegree.Keys - popped;
    assert e.from in stuck;
    forall n | n in stuck ensures Blocked(edges, stuck, n) {
      WaitingIntoZero(edges, popped, n);
      var into :| into in edges && into.to == n && into.from !in popped;
      assert into == Edge(into.from, n);
      assert Linked(edges, into.from, n);
    }
    StuckNodesFormCycle(edges, stuck);
  }

  /**
   * Whether one path's steps form a directed cycle, self-loops ignored. `order` lists the nodes
   * the worklist popped, so no node is popped twice.
   */
  method HasCycle(allEdges: seq<Edge>) returns (cyclic: bool, ghost order: seq<Node>)
    ensures cyclic <==> Cyclic(allEdges)
    ensures Distinct(order) && (forall n :: n in order ==> n in Nodes(allEdges))
  {
    var edges := Proper(allEdges);
    var indegree := Indegrees(edges);
    forall n | n in indegree ensures indegree[n] >= 0 {}
    var free := InitiallyFree(indegree);
    var removed := 0;
    order := [];
    ghost var popped: set<Node> := {};
    NothingPopped(edges);
    while free != []
      invariant Draining(edges, indegree, free, popped)
      invariant (forall n :: n in order <==> n in popped) && Distinct(order)
      invariant removed == Released(edges, popped)
      invariant PopOrder(edges, order)
      decreases indegree.Keys - popped
    {
      var node := free[|free| - 1];
      var rest := free[..|free| - 1];
      assert free == rest + [node];
      WaitingIntoZero(edges, popped, node);
      assert node in free;
      var released;
      indegree, free, released := Pop(edges, indegree, rest, popped, node);
      removed := removed + released;
      PopOrderOneMore(edges, order, node);
      order := order + [node];
      popped := popped + {node};
    }

    cyclic := removed < |edges|;
    CyclicIgnoresSelfLoops(allEdges);
    DrainedVerdict(edges, indegree, popped, order);
  }

  /** With nothing free left, an edge was never released exactly when there is a cycle. */
  lemma DrainedVerdict(edges: seq<Edge>, indegree: map<Node, int>, popped: set<Node>, order: seq<Node>)
    requires Draining(edges, indegree, [], popped) && PopOrder(edges, order) && Distinct(order)
    requires (forall e :: e in edges ==> e.from != e.to) && forall n :: n in order <==> n in popped
    ensures Released(edges, popped) < |edges| <==> Cyclic(edges)
  {
    ReleasedAll(edges, popped);
    if Released(edges, popped) < |edges| {
      var e :| e in edges && e.from !in popped;
      LeftoverIsCycle(edges, indegree, popped, e);
    } else {
      PopOrderRefutesCycle(edges, order);
    }
  }

  lemma {:induction false} ReleasedHead(edges: seq<Edge>, popped: set<Node>)
    requires edges != []
    ensures Released(edges, popped) == (if edges[0].from in popped then 1 else 0) + Released(edges[1..], popped)
  {
    if |edges| > 1 {
      var front := edges[..|edges| - 1];
      ReleasedHead(front, popped);
      assert front[1..] == edges[1..][..|edges[1..]| - 1];
    }
  }

  lemma ReleasedStep(edges: seq<Edge>, k: nat, popped: set<Node>, node: Node)
    requires k < |edges| && node !in popped
    ensures Released(edges[..k + 1], popped + {node}) + Released(edges[k + 1..], popped)
         == Released(edges[..k], popped + {node}) + Released(edges[k..], popped)
            + (if edges[k].from == node then 1 else 0)
  {
    ReleasedHead(edges[k..], popped);
    assert edges[k..][1..] == edges[k + 1..];
    assert edges[..k + 1][..k] == edges[..k];
  }
}
