/** Building the scope arena of a file, and resolving a name along a scope's chain. */
module Scopes {
  import opened Prelude

  datatype Lang = Rust | JsLike | Python | OtherLang

  datatype Kind = Module | Function | Block

  datatype Binding = Binding(name: string, startByte: nat, hoisted: bool)

  datatype Scope = Scope(parent: Option<nat>, kind: Kind, bindings: seq<Binding>, poison: set<string>,
                         imports: set<string>)

  /**
   * A syntax node, annotated with what the per-language tables say of it: the scope it opens, the
   * names it declares and binds, what it poisons, what it imports, and whether it is an occurrence.
   */
  datatype Syntax = Syntax(
    opens: Option<Kind>,
    declares: Option<Binding>,
    locals: seq<Binding>, localsHoist: bool, poisons: set<string>,
    inner: seq<Binding>, innerPoisons: set<string>,
    imports: set<string>,
    occurs: Option<string>, startByte: nat,
    alternative: Option<nat>,
    children: seq<Syntax>)

  datatype Occurrence = Occurrence(name: string, scope: nat, startByte: nat)

  /** Python has functions and classes, and no blocks. */
  predicate Grammatical(lang: Lang, n: Syntax) {
    && (lang == Python ==> n.opens != Some(Block))
    && forall i :: 0 <= i < |n.children| ==> Grammatical(lang, n.children[i])
  }

  // ---- arenas ----

  /** Scope 0 is the file; every other scope's parent comes before it. */
  ghost predicate Arena(scopes: seq<Scope>) {
    && scopes != [] && scopes[0].parent == None && scopes[0].kind == Module
    && forall i :: 0 < i < |scopes| ==> scopes[i].parent.Some? && scopes[i].parent.value < i
  }

  /** A Python class body is a module scope that has a parent. */
  predicate IsClass(s: Scope) {
    s.kind == Module && s.parent.Some?
  }

  ghost predicate ArenaFor(lang: Lang, scopes: seq<Scope>) {
    && Arena(scopes)
    && (lang == Python ==> forall i :: 0 <= i < |scopes| ==> scopes[i].kind != Block)
    && (lang == Python ==> forall i :: 0 < i < |scopes| && scopes[i].kind == Function ==>
                             !IsClass(scopes[scopes[i].parent.value]))
  }

  /** The same scopes, as far as they go, with at least as many names in each. */
  ghost predicate Extends(was: seq<Scope>, now: seq<Scope>) {
    && |was| <= |now|
    && forall i :: 0 <= i < |was| ==> now[i].parent == was[i].parent && now[i].kind == was[i].kind
                                      && was[i].bindings <= now[i].bindings
                                      && was[i].poison <= now[i].poison && was[i].imports <= now[i].imports
  }

  // ---- chains ----

  /** The scopes from one up to the file, nearest first. */
  function Chain(scopes: seq<Scope>, id: nat): (r: seq<nat>)
    requires Arena(scopes) && id < |scopes|
    ensures r != [] && r[0] == id
    ensures forall i :: 0 <= i < |r| ==> r[i] <= id
  {
    if scopes[id].parent.None? then [id] else [id] + Chain(scopes, scopes[id].parent.value)
  }

  /** Of the scopes on `start`'s chain, `cur` is at position `k`, and every nearer one satisfies `skip`. */
  ghost predicate AtPosition(scopes: seq<Scope>, start: nat, cur: nat, k: nat)
    requires Arena(scopes) && start < |scopes|
  {
    cur < |scopes| && k < |Chain(scopes, start)| && Chain(scopes, start)[k..] == Chain(scopes, cur)
  }

  lemma StepUp(scopes: seq<Scope>, start: nat, cur: nat, k: nat)
    requires Arena(scopes) && start < |scopes| && AtPosition(scopes, start, cur, k)
    ensures Chain(scopes, start)[k] == cur
    ensures scopes[cur].parent.Some? ==> AtPosition(scopes, start, scopes[cur].parent.value, k + 1)
    ensures scopes[cur].parent.None? ==> |Chain(scopes, start)| == k + 1
  {
    var chain := Chain(scopes, start);
    assert chain[k..][0] == cur;
    assert chain[k..][1..] == chain[k + 1..];
    if scopes[cur].parent.Some? {
      assert Chain(scopes, cur)[1..] == Chain(scopes, scopes[cur].parent.value);
    }
  }

  /** The nearest scope of the chain that is no block. */
  ghost function Hoist(scopes: seq<Scope>, id: nat): nat
    requires Arena(scopes) && id < |scopes|
  {
    if scopes[id].kind == Block && scopes[id].parent.Some? then Hoist(scopes, scopes[id].parent.value) else id
  }

  /** The nearest scope of the chain that is no class body. */
  ghost function Nonclass(scopes: seq<Scope>, id: nat): nat
    requires Arena(scopes) && id < |scopes|
  {
    if IsClass(scopes[id]) then Nonclass(scopes, scopes[id].parent.value) else id
  }

  /** The nearest function or module scope: where JavaScript declarations and `var` hoist to. */
  method HoistTarget(scopes: seq<Scope>, start: nat) returns (cur: nat)
    requires Arena(scopes) && start < |scopes|
    ensures HoistsTo(scopes, start, cur) && cur == Hoist(scopes, start)
  {
    cur := start;
    ghost var k := 0;
    StepUp(scopes, start, cur, k);
    while scopes[cur].kind == Block
      invariant AtPosition(scopes, start, cur, k) && Chain(scopes, start)[k] == cur
      invariant forall j :: 0 <= j < k ==> scopes[Chain(scopes, start)[j]].kind == Block
      invariant Hoist(scopes, start) == Hoist(scopes, cur)
      decreases cur
    {
      StepUp(scopes, start, cur, k);
      cur, k := scopes[cur].parent.value, k + 1;
      StepUp(scopes, start, cur, k);
    }
  }

  /** The nearest scope that is not a Python class body. */
  method NonclassAncestor(scopes: seq<Scope>, start: nat) returns (cur: nat)
    requires Arena(scopes) && start < |scopes|
    ensures SkipsClasses(scopes, start, cur) && cur == Nonclass(scopes, start)
  {
    cur := start;
    ghost var k := 0;
    StepUp(scopes, start, cur, k);
    while IsClass(scopes[cur])
      invariant AtPosition(scopes, start, cur, k) && Chain(scopes, start)[k] == cur
      invariant forall j :: 0 <= j < k ==> IsClass(scopes[Chain(scopes, start)[j]])
      invariant Nonclass(scopes, start) == Nonclass(scopes, cur)
      decreases cur
    {
      StepUp(scopes, start, cur, k);
      cur, k := scopes[cur].parent.value, k + 1;
      StepUp(scopes, start, cur, k);
    }
  }

  /** A Python function never sees a class body: none is on its chain. */
  lemma {:induction false} FunctionChainHasNoClass(scopes: seq<Scope>, id: nat, i: nat)
    requires ArenaFor(Python, scopes) && id < |scopes| && (scopes[id].kind == Function || id == 0)
    requires i < |Chain(scopes, id)|
    ensures Chain(scopes, id)[i] < |scopes| && !IsClass(scopes[Chain(scopes, id)[i]])
    decreases id
  {
    if i > 0 {
      var up := scopes[id].parent.value;
      assert Chain(scopes, id)[i] == Chain(scopes, up)[i - 1];
      FunctionChainHasNoClass(scopes, up, i - 1);
    }
  }

  // ---- what the walk adds ----

  /** One scope with more names in it, and the arena's shape as it was. */
  function Added(scopes: seq<Scope>, id: nat, bindings: seq<Binding>, poison: set<string>,
                 imports: set<string>): seq<Scope>
    requires id < |scopes|
  {
    scopes[id := scopes[id].(bindings := scopes[id].bindings + bindings,
                             poison := scopes[id].poison + poison,
                             imports := scopes[id].imports + imports)]
  }

  lemma AddingNothing(scopes: seq<Scope>, id: nat)
    requires id < |scopes|
    ensures Added(scopes, id, [], {}, {}) == scopes
  {
    var s := scopes[id];
    assert s.bindings + [] == s.bindings && s.poison + {} == s.poison && s.imports + {} == s.imports;
  }

  ghost predicate HoistsTo(scopes: seq<Scope>, start: nat, target: nat)
    requires Arena(scopes) && start < |scopes|
  {
    target < |scopes| && scopes[target].kind != Block
    && exists k: nat :: k < |Chain(scopes, start)| && Chain(scopes, start)[k] == target
                        && forall j :: 0 <= j < k ==> scopes[Chain(scopes, start)[j]].kind == Block
  }

  ghost predicate SkipsClasses(scopes: seq<Scope>, start: nat, target: nat)
    requires Arena(scopes) && start < |scopes|
  {
    target < |scopes| && !IsClass(scopes[target])
    && exists k: nat :: k < |Chain(scopes, start)| && Chain(scopes, start)[k] == target
                        && forall j :: 0 <= j < k ==> IsClass(scopes[Chain(scopes, start)[j]])
  }

  function Declared(node: Syntax): seq<Binding> {
    if node.declares.Some? then [node.declares.value] else []
  }

  function Kinds(scopes: seq<Scope>): seq<Kind> {
    seq(|scopes|, i requires 0 <= i < |scopes| => scopes[i].kind)
  }

  function Uses(occurrences: seq<Occurrence>): seq<(string, nat)> {
    seq(|occurrences|, i requires 0 <= i < |occurrences| => (occurrences[i].name, occurrences[i].startByte))
  }

  function Opening(node: Syntax): seq<Kind> {
    if node.opens.Some? then [node.opens.value] else []
  }

  function Used(node: Syntax): seq<(string, nat)> {
    if node.occurs.Some? then [(node.occurs.value, node.startByte)] else []
  }

  /** The scopes a list of nodes opens, in document order. */
  ghost function Opened(nodes: seq<Syntax>): seq<Kind> {
    if nodes == [] then [] else Opening(nodes[0]) + Opened(nodes[0].children) + Opened(nodes[1..])
  }

  /** The occurrences in a list of nodes, in document order. */
  ghost function Occurring(nodes: seq<Syntax>): seq<(string, nat)> {
    if nodes == [] then [] else Used(nodes[0]) + Occurring(nodes[0].children) + Occurring(nodes[1..])
  }

  lemma Regrouped<T>(a: seq<T>, b: seq<T>, c: seq<T>)
    ensures a + (b + c) == (a + b) + c
  {
  }

  lemma FirstOfBoth(a: seq<Syntax>, b: seq<Syntax>)
    requires a != []
    ensures a + b != [] && (a + b)[0] == a[0] && (a + b)[1..] == a[1..] + b
  {
  }

  lemma {:induction false} OpenedSplits(a: seq<Syntax>, b: seq<Syntax>)
    ensures Opened(a + b) == Opened(a) + Opened(b)
  {
    if a == [] {
      assert a + b == b;
    } else {
      OpenedSplits(a[1..], b);
      FirstOfBoth(a, b);
      Regrouped(Opening(a[0]) + Opened(a[0].children), Opened(a[1..]), Opened(b));
    }
  }

  lemma {:induction false} OccurringSplits(a: seq<Syntax>, b: seq<Syntax>)
    ensures Occurring(a + b) == Occurring(a) + Occurring(b)
  {
    if a == [] {
      assert a + b == b;
    } else {
      OccurringSplits(a[1..], b);
      FirstOfBoth(a, b);
      Regrouped(Used(a[0]) + Occurring(a[0].children), Occurring(a[1..]), Occurring(b));
    }
  }

  lemma InDocumentOrder(nodes: seq<Syntax>, i: nat)
    requires i < |nodes|
    ensures Opened(nodes[..i + 1]) == Opened(nodes[..i]) + Opened([nodes[i]])
    ensures Occurring(nodes[..i + 1]) == Occurring(nodes[..i]) + Occurring([nodes[i]])
  {
    assert nodes[..i + 1] == nodes[..i] + [nodes[i]];
    OpenedSplits(nodes[..i], [nodes[i]]);
    OccurringSplits(nodes[..i], [nodes[i]]);
  }

  /** One node's scopes and occurrences: its own, then its children's. */
  lemma NodeThenChildren(node: Syntax)
    ensures Opened([node]) == Opening(node) + Opened(node.children)
    ensures Occurring([node]) == Used(node) + Occurring(node.children)
  {
    assert Opened([node]) == Opening(node) + Opened(node.children) + Opened([]);
    assert Occurring([node]) == Used(node) + Occurring(node.children) + Occurring([]);
  }

  lemma ExtendsFurther(a: seq<Scope>, b: seq<Scope>, c: seq<Scope>)
    requires Extends(a, b) && Extends(b, c)
    ensures Extends(a, c)
  {
    forall i | 0 <= i < |a|
      ensures c[i].parent == a[i].parent && c[i].kind == a[i].kind && a[i].bindings <= c[i].bindings
              && a[i].poison <= c[i].poison && a[i].imports <= c[i].imports
    {
      assert a[i].bindings <= b[i].bindings && b[i].bindings <= c[i].bindings;
    }
  }

  // ---- the walk as a list of visits ----

  /** One node of the walk, and the scope it is visited in. */
  datatype Visit = Visit(node: Syntax, cur: nat)

  /** The scope a node's children are visited in: the one it opens, or its own. */
  function ChildScope(node: Syntax, cur: nat, next: nat): nat {
    if node.opens.Some? then next else cur
  }

  /** A Rust `else` branch is visited outside the scope of its `if let`. */
  function Into(lang: Lang, node: Syntax, i: nat, cur: nat, child: nat): nat {
    if lang == Rust && node.alternative == Some(i) then cur else child
  }

  /**
   * These are the visits of a node and everything below it, in document order, when the arena has `next`
   * scopes to begin with: the node in `cur`, then its children in the scope it opens or in `cur`.
   */
  ghost predicate IsTour(lang: Lang, node: Syntax, cur: nat, next: nat, visits: seq<Visit>)
    decreases node, |node.children| + 1
  {
    && visits != [] && visits[0] == Visit(node, cur)
    && IsTourIn(lang, node, |node.children|, cur, ChildScope(node, cur, next), next + |Opening(node)|, visits[1..])
  }

  /** These are the visits of a node's first `k` children. */
  ghost predicate IsTourIn(lang: Lang, node: Syntax, k: nat, cur: nat, child: nat, next: nat, visits: seq<Visit>)
    requires k <= |node.children|
    decreases node, k
  {
    if k == 0 then visits == []
    else
      exists m :: 0 <= m <= |visits|
        && IsTourIn(lang, node, k - 1, cur, child, next, visits[..m])
        && IsTour(lang, node.children[k - 1], Into(lang, node, k - 1, cur, child),
                  next + |Opened(node.children[..k - 1])|, visits[m..])
  }

  /** The arena with a node's names added: hoisting ones in the hoist target, the others where the node is visited. */
  ghost function Named(lang: Lang, scopes: seq<Scope>, v: Visit): seq<Scope>
    requires Arena(scopes) && v.cur < |scopes|
  {
    var hoist, node := Hoist(scopes, v.cur), v.node;
    HoistIsScope(scopes, v.cur);
    Added(Added(Added(scopes, v.cur, [], node.poisons, node.imports),
                if lang == JsLike then hoist else v.cur, Declared(node), {}, {}),
          if node.localsHoist then hoist else v.cur, node.locals, {}, {})
  }

  /** A new scope's parent: the scope around it, for a Python function the nearest that is no class body. */
  ghost function ParentFor(lang: Lang, scopes: seq<Scope>, kind: Kind, cur: nat): nat
    requires Arena(scopes) && cur < |scopes|
  {
    if lang == Python && kind == Function then Nonclass(scopes, cur) else cur
  }

  /** The arena after one visit: the node's names in the scopes they belong to, then the scope it opens. */
  ghost function Entered(lang: Lang, scopes: seq<Scope>, v: Visit): seq<Scope>
    requires Arena(scopes) && v.cur < |scopes|
  {
    var node, named := v.node, Named(lang, scopes, v);
    if node.opens.None? then named
    else
      var parent := ParentFor(lang, scopes, node.opens.value, v.cur);
      named + [Scope(Some(parent), node.opens.value, node.inner, node.innerPoisons, {})]
  }

  /** The arena after a list of visits; a visit outside the arena would leave it alone. */
  ghost function Built(lang: Lang, scopes: seq<Scope>, visits: seq<Visit>): seq<Scope> {
    if visits == [] then scopes
    else
      var before := Built(lang, scopes, visits[..|visits| - 1]);
      var v := visits[|visits| - 1];
      if Arena(before) && v.cur < |before| then Entered(lang, before, v) else before
  }

  ghost function OccurrenceAt(v: Visit): seq<Occurrence> {
    if v.node.occurs.Some? then [Occurrence(v.node.occurs.value, v.cur, v.node.startByte)] else []
  }

  /** The occurrences of a list of visits, each in the scope of its visit. */
  ghost function OccurrencesAt(visits: seq<Visit>): seq<Occurrence> {
    if visits == [] then [] else OccurrencesAt(visits[..|visits| - 1]) + OccurrenceAt(visits[|visits| - 1])
  }

  lemma {:induction false} HoistIsScope(scopes: seq<Scope>, id: nat)
    requires Arena(scopes) && id < |scopes|
    ensures Hoist(scopes, id) <= id
  {
    if scopes[id].kind == Block && scopes[id].parent.Some? { HoistIsScope(scopes, scopes[id].parent.value); }
  }

  /** Names change nothing about where a scope's class bodies end. */
  lemma {:induction false} SameNonclass(was: seq<Scope>, now: seq<Scope>, id: nat)
    requires Arena(was) && Arena(now) && Extends(was, now) && id < |was|
    ensures Nonclass(now, id) == Nonclass(was, id) && Hoist(now, id) == Hoist(was, id)
    decreases id
  {
    if was[id].parent.Some? { SameNonclass(was, now, was[id].parent.value); }
  }

  lemma {:induction false} BuiltSplits(lang: Lang, scopes: seq<Scope>, a: seq<Visit>, b: seq<Visit>)
    ensures Built(lang, scopes, a + b) == Built(lang, Built(lang, scopes, a), b)
  {
    if b == [] {
      assert a + b == a;
    } else {
      var n := |b| - 1;
      assert (a + b)[..|a + b| - 1] == a + b[..n] && (a + b)[|a + b| - 1] == b[n];
      BuiltSplits(lang, scopes, a, b[..n]);
    }
  }

  lemma {:induction false} OccurrencesSplit(a: seq<Visit>, b: seq<Visit>)
    ensures OccurrencesAt(a + b) == OccurrencesAt(a) + OccurrencesAt(b)
  {
    if b == [] {
      assert a + b == a;
    } else {
      var n := |b| - 1;
      assert (a + b)[..|a + b| - 1] == a + b[..n] && (a + b)[|a + b| - 1] == b[n];
      OccurrencesSplit(a, b[..n]);
      Regrouped(OccurrencesAt(a), OccurrencesAt(b[..n]), OccurrenceAt(b[n]));
    }
  }

  lemma OneVisit(lang: Lang, scopes: seq<Scope>, v: Visit)
    requires Arena(scopes) && v.cur < |scopes|
    ensures Built(lang, scopes, [v]) == Entered(lang, scopes, v)
  {
    assert [v][..0] == [];
  }

  /** The arena grew by scopes of these kinds, and nothing in it moved. */
  ghost predicate Grew(lang: Lang, was: seq<Scope>, now: seq<Scope>, kinds: seq<Kind>) {
    ArenaFor(lang, now) && Extends(was, now) && Kinds(now) == Kinds(was) + kinds
  }

  lemma GrewFurther(lang: Lang, a: seq<Scope>, b: seq<Scope>, c: seq<Scope>, x: seq<Kind>, y: seq<Kind>)
    requires Grew(lang, a, b, x) && Grew(lang, b, c, y)
    ensures Grew(lang, a, c, x + y)
  {
    ExtendsFurther(a, b, c);
    Regrouped(Kinds(a), x, y);
  }

  lemma NodeGrew(lang: Lang, node: Syntax, a: seq<Scope>, b: seq<Scope>, c: seq<Scope>)
    requires Grew(lang, a, b, Opening(node)) && Grew(lang, b, c, Opened(node.children))
    ensures Grew(lang, a, c, Opened([node]))
  {
    GrewFurther(lang, a, b, c, Opening(node), Opened(node.children));
    NodeThenChildren(node);
  }

  lemma ChildGrew(lang: Lang, node: Syntax, i: nat, a: seq<Scope>, b: seq<Scope>, c: seq<Scope>)
    requires i < |node.children| && Grew(lang, a, b, Opened(node.children[..i]))
             && Grew(lang, b, c, Opened([node.children[i]]))
    ensures Grew(lang, a, c, Opened(node.children[..i + 1]))
  {
    GrewFurther(lang, a, b, c, Opened(node.children[..i]), Opened([node.children[i]]));
    InDocumentOrder(node.children, i);
  }

  lemma GrewBy(lang: Lang, was: seq<Scope>, now: seq<Scope>, kinds: seq<Kind>)
    requires Grew(lang, was, now, kinds)
    ensures |now| == |was| + |kinds|
  {
    assert |Kinds(now)| == |now| && |Kinds(was)| == |was|;
  }

  lemma TourOf(lang: Lang, node: Syntax, cur: nat, next: nat, more: seq<Visit>)
    requires IsTourIn(lang, node, |node.children|, cur, ChildScope(node, cur, next), next + |Opening(node)|, more)
    ensures IsTour(lang, node, cur, next, [Visit(node, cur)] + more)
  {
    assert ([Visit(node, cur)] + more)[1..] == more;
  }

  lemma TourNext(lang: Lang, node: Syntax, i: nat, cur: nat, child: nat, next: nat, visits: seq<Visit>,
                 more: seq<Visit>)
    requires i < |node.children| && IsTourIn(lang, node, i, cur, child, next, visits)
    requires IsTour(lang, node.children[i], Into(lang, node, i, cur, child), next + |Opened(node.children[..i])|, more)
    ensures IsTourIn(lang, node, i + 1, cur, child, next, visits + more)
  {
    var all, m := visits + more, |visits|;
    assert all[..m] == visits && all[m..] == more;
  }

  /** The occurrences of a node's visits are those of its subtree, in document order. */
  lemma {:induction false} TourInOrder(lang: Lang, node: Syntax, cur: nat, next: nat, visits: seq<Visit>)
    requires IsTour(lang, node, cur, next, visits)
    ensures Uses(OccurrencesAt(visits)) == Occurring([node])
    decreases node, |node.children| + 1
  {
    var more := visits[1..];
    TourInOrderIn(lang, node, |node.children|, cur, ChildScope(node, cur, next), next + |Opening(node)|, more);
    assert visits == [visits[0]] + more && node.children[..|node.children|] == node.children;
    OccurrencesSplit([visits[0]], more);
    OneOccurrence(visits[0]);
    UsesSplit(OccurrenceAt(visits[0]), OccurrencesAt(more));
    NodeThenChildren(node);
  }

  lemma {:induction false} TourInOrderIn(lang: Lang, node: Syntax, k: nat, cur: nat, child: nat, next: nat,
                                         visits: seq<Visit>)
    requires k <= |node.children| && IsTourIn(lang, node, k, cur, child, next, visits)
    ensures Uses(OccurrencesAt(visits)) == Occurring(node.children[..k])
    decreases node, k
  {
    if k > 0 {
      var i, into := k - 1, Into(lang, node, k - 1, cur, child);
      var now := next + |Opened(node.children[..i])|;
      var m :| 0 <= m <= |visits| && IsTourIn(lang, node, i, cur, child, next, visits[..m])
               && IsTour(lang, node.children[i], into, now, visits[m..]);
      TourInOrderIn(lang, node, i, cur, child, next, visits[..m]);
      TourInOrder(lang, node.children[i], into, now, visits[m..]);
      assert visits == visits[..m] + visits[m..];
      OneMoreChild(node.children, i, visits[..m], visits[m..]);
    }
  }

  lemma OneMoreChild(children: seq<Syntax>, i: nat, a: seq<Visit>, b: seq<Visit>)
    requires i < |children| && Uses(OccurrencesAt(a)) == Occurring(children[..i])
    requires Uses(OccurrencesAt(b)) == Occurring([children[i]])
    ensures Uses(OccurrencesAt(a + b)) == Occurring(children[..i + 1])
  {
    OccurrencesSplit(a, b);
    UsesSplit(OccurrencesAt(a), OccurrencesAt(b));
    InDocumentOrder(children, i);
  }

  /**
   * Each child is visited in the scope its parent opens, or in the parent's own if it opens none; an
   * `else` branch in Rust is visited in the parent's own as well, so that it does not see what the
   * parent's pattern binds.
   */
  lemma {:induction false} ChildIsVisited(lang: Lang, node: Syntax, cur: nat, next: nat, visits: seq<Visit>, i: nat)
    requires IsTour(lang, node, cur, next, visits) && i < |node.children|
    ensures var outside := node.opens.None? || (lang == Rust && node.alternative == Some(i));
            Visit(node.children[i], if outside then cur else next) in visits
  {
    var more := visits[1..];
    ChildIsVisitedIn(lang, node, |node.children|, cur, ChildScope(node, cur, next), next + |Opening(node)|, more, i);
    assert forall v :: v in more ==> v in visits;
  }

  lemma {:induction false} ChildIsVisitedIn(lang: Lang, node: Syntax, k: nat, cur: nat, child: nat, next: nat,
                                            visits: seq<Visit>, i: nat)
    requires i < k <= |node.children| && IsTourIn(lang, node, k, cur, child, next, visits)
    ensures Visit(node.children[i], Into(lang, node, i, cur, child)) in visits
    decreases k
  {
    var m :| 0 <= m <= |visits| && IsTourIn(lang, node, k - 1, cur, child, next, visits[..m])
             && IsTour(lang, node.children[k - 1], Into(lang, node, k - 1, cur, child),
                       next + |Opened(node.children[..k - 1])|, visits[m..]);
    if i < k - 1 {
      ChildIsVisitedIn(lang, node, k - 1, cur, child, next, visits[..m], i);
      assert forall v :: v in visits[..m] ==> v in visits;
    } else {
      assert visits[m] == visits[m..][0];
    }
  }

  /** The occurrence is the one the visited node is, in the scope of the visit. */
  ghost predicate IsOccurrenceOf(o: Occurrence, v: Visit) {
    v.node.occurs == Some(o.name) && o.scope == v.cur && o.startByte == v.node.startByte
  }

  /** The occurrences are those of the visits to nodes that are one, in order, each in the scope of its visit. */
  ghost predicate OccurrencesListed(visits: seq<Visit>, at: seq<nat>, found: seq<Occurrence>) {
    && Increasing(at) && |found| == |at|
    && (forall k :: 0 <= k < |at| ==> at[k] < |visits| && IsOccurrenceOf(found[k], visits[at[k]]))
    && (forall v: nat :: v < |visits| && visits[v].node.occurs.Some? ==> v in at)
  }

  lemma {:induction false} OccurrencesAreVisits(visits: seq<Visit>) returns (at: seq<nat>)
    ensures OccurrencesListed(visits, at, OccurrencesAt(visits))
  {
    if visits == [] {
      at := [];
    } else {
      var n := |visits| - 1;
      at := OccurrencesAreVisits(visits[..n]);
      OneMoreListed(visits, at, OccurrencesAt(visits[..n]));
      if visits[n].node.occurs.Some? { at := at + [n]; }
    }
  }

  lemma OneMoreListed(visits: seq<Visit>, at: seq<nat>, found: seq<Occurrence>)
    requires visits != [] && OccurrencesListed(visits[..|visits| - 1], at, found)
    ensures var last := visits[|visits| - 1];
            if last.node.occurs.Some? then OccurrencesListed(visits, at + [|visits| - 1], found + OccurrenceAt(last))
            else OccurrencesListed(visits, at, found + OccurrenceAt(last))
  {
    var n := |visits| - 1;
    forall k | 0 <= k < |at| ensures at[k] < n && IsOccurrenceOf(found[k], visits[at[k]]) {
      assert visits[..n][at[k]] == visits[at[k]];
    }
    forall v: nat | v < n && visits[v].node.occurs.Some? ensures v in at { assert visits[..n][v] == visits[v]; }
    assert found + [] == found;
  }

  // ---- every name lands ----

  /** Every visit is to a scope of the arena the visits before it built. */
  ghost predicate Sound(lang: Lang, scopes: seq<Scope>, visits: seq<Visit>) {
    visits == []
    || (var front, last := visits[..|visits| - 1], visits[|visits| - 1];
        var before := Built(lang, scopes, front);
        Sound(lang, scopes, front) && Arena(before) && last.cur < |before|)
  }

  lemma {:induction false} SoundSplits(lang: Lang, scopes: seq<Scope>, a: seq<Visit>, b: seq<Visit>)
    requires Sound(lang, scopes, a) && Sound(lang, Built(lang, scopes, a), b)
    ensures Sound(lang, scopes, a + b)
  {
    if b == [] {
      assert a + b == a;
    } else {
      var n := |b| - 1;
      assert (a + b)[..|a + b| - 1] == a + b[..n] && (a + b)[|a + b| - 1] == b[n];
      SoundSplits(lang, scopes, a, b[..n]);
      BuiltSplits(lang, scopes, a, b[..n]);
    }
  }

  lemma OneIsSound(lang: Lang, scopes: seq<Scope>, v: Visit)
    requires Arena(scopes) && v.cur < |scopes|
    ensures Sound(lang, scopes, [v])
  {
    assert [v][..0] == [];
  }

  /** The scope has these names, among others. */
  ghost predicate Has(s: Scope, bindings: seq<Binding>, poison: set<string>, imports: set<string>) {
    (forall b :: b in bindings ==> b in s.bindings) && poison <= s.poison && imports <= s.imports
  }

  /** The names a visit brings are in the scopes they belong to. */
  ghost predicate NamesLanded(lang: Lang, was: seq<Scope>, v: Visit, now: seq<Scope>)
    requires Arena(was) && v.cur < |was| <= |now|
  {
    var hoist := Hoist(was, v.cur);
    && hoist < |was|
    && Has(now[v.cur], [], v.node.poisons, v.node.imports)
    && Has(now[if lang == JsLike then hoist else v.cur], Declared(v.node), {}, {})
    && Has(now[if v.node.localsHoist then hoist else v.cur], v.node.locals, {}, {})
  }

  /**
   * The scope a visit opens is there with its own names, under the scope of the visit, or for a Python
   * function under the nearest that is no class body.
   */
  ghost predicate ScopeLanded(lang: Lang, was: seq<Scope>, v: Visit, now: seq<Scope>)
    requires Arena(was) && v.cur < |was| && v.node.opens.Some?
  {
    var id := |was|;
    && id < |now| && now[id].kind == v.node.opens.value && Has(now[id], v.node.inner, v.node.innerPoisons, {})
    && now[id].parent.Some?
    && if lang == Python && v.node.opens == Some(Function) then SkipsClasses(was, v.cur, now[id].parent.value)
       else now[id].parent == Some(v.cur)
  }

  lemma AddedExtends(scopes: seq<Scope>, id: nat, bindings: seq<Binding>, poison: set<string>, imports: set<string>)
    requires Arena(scopes) && id < |scopes|
    ensures var now := Added(scopes, id, bindings, poison, imports);
            && Arena(now) && Extends(scopes, now) && |now| == |scopes| && Has(now[id], bindings, poison, imports)
  {
  }

  lemma HasStill(was: seq<Scope>, now: seq<Scope>, id: nat, bindings: seq<Binding>, poison: set<string>,
                 imports: set<string>)
    requires Extends(was, now) && id < |was| && Has(was[id], bindings, poison, imports)
    ensures Has(now[id], bindings, poison, imports)
  {
  }

  lemma {:induction false} NonclassIsScope(scopes: seq<Scope>, id: nat)
    requires Arena(scopes) && id < |scopes|
    ensures Nonclass(scopes, id) <= id
  {
    if IsClass(scopes[id]) { NonclassIsScope(scopes, scopes[id].parent.value); }
  }

  lemma {:induction false} NonclassSkips(scopes: seq<Scope>, id: nat)
    requires Arena(scopes) && id < |scopes|
    ensures SkipsClasses(scopes, id, Nonclass(scopes, id))
  {
    var chain := Chain(scopes, id);
    NonclassIsScope(scopes, id);
    if IsClass(scopes[id]) {
      var up := scopes[id].parent.value;
      NonclassSkips(scopes, up);
      var above := Chain(scopes, up);
      var k: nat :| k < |above| && above[k] == Nonclass(scopes, up)
        && forall j :: 0 <= j < k ==> IsClass(scopes[above[j]]);
      assert chain[k + 1] == above[k];
      forall j | 0 <= j < k + 1 ensures IsClass(scopes[chain[j]]) {
        if j > 0 { assert chain[j] == above[j - 1]; }
      }
    } else {
      assert chain[0] == id;
    }
  }

  lemma NamedLands(lang: Lang, was: seq<Scope>, v: Visit)
    requires Arena(was) && v.cur < |was|
    ensures var now := Named(lang, was, v);
            Arena(now) && Extends(was, now) && |now| == |was| && NamesLanded(lang, was, v, now)
  {
    var hoist, node := Hoist(was, v.cur), v.node;
    HoistIsScope(was, v.cur);
    var declares, locals := if lang == JsLike then hoist else v.cur, if node.localsHoist then hoist else v.cur;
    AddedExtends(was, v.cur, [], node.poisons, node.imports);
    var one := Added(was, v.cur, [], node.poisons, node.imports);
    AddedExtends(one, declares, Declared(node), {}, {});
    var two := Added(one, declares, Declared(node), {}, {});
    AddedExtends(two, locals, node.locals, {}, {});
    var now := Added(two, locals, node.locals, {}, {});
    ExtendsFurther(was, one, two);
    ExtendsFurther(was, two, now);
    ExtendsFurther(one, two, now);
    HasStill(one, now, v.cur, [], node.poisons, node.imports);
    HasStill(two, now, declares, Declared(node), {}, {});
  }

  lemma OpenedLands(lang: Lang, was: seq<Scope>, v: Visit)
    requires Arena(was) && v.cur < |was| && v.node.opens.Some?
    ensures var named, now := Named(lang, was, v), Entered(lang, was, v);
            |named| == |was| && Arena(now) && Extends(named, now) && ScopeLanded(lang, was, v, now)
  {
    NamedLands(lang, was, v);
    NonclassIsScope(was, v.cur);
    NonclassSkips(was, v.cur);
  }

  lemma NamesStill(lang: Lang, was: seq<Scope>, v: Visit, now: seq<Scope>, later: seq<Scope>)
    requires Arena(was) && v.cur < |was| <= |now| && NamesLanded(lang, was, v, now) && Extends(now, later)
    ensures NamesLanded(lang, was, v, later)
  {
    var hoist := Hoist(was, v.cur);
    HasStill(now, later, v.cur, [], v.node.poisons, v.node.imports);
    HasStill(now, later, if lang == JsLike then hoist else v.cur, Declared(v.node), {}, {});
    HasStill(now, later, if v.node.localsHoist then hoist else v.cur, v.node.locals, {}, {});
  }

  lemma EnteredLands(lang: Lang, was: seq<Scope>, v: Visit)
    requires Arena(was) && v.cur < |was|
    ensures var now := Entered(lang, was, v);
            && Arena(now) && Extends(was, now) && NamesLanded(lang, was, v, now)
            && (v.node.opens.Some? ==> ScopeLanded(lang, was, v, now))
  {
    NamedLands(lang, was, v);
    if v.node.opens.Some? {
      OpenedLands(lang, was, v);
      ExtendsFurther(was, Named(lang, was, v), Entered(lang, was, v));
      NamesStill(lang, was, v, Named(lang, was, v), Entered(lang, was, v));
    }
  }

  lemma {:induction false} SoundBuilds(lang: Lang, scopes: seq<Scope>, visits: seq<Visit>, k: nat)
    requires Arena(scopes) && Sound(lang, scopes, visits) && k <= |visits|
    ensures Arena(Built(lang, scopes, visits[..k]))
            && Extends(Built(lang, scopes, visits[..k]), Built(lang, scopes, visits))
    ensures k < |visits| ==> visits[k].cur < |Built(lang, scopes, visits[..k])|
    decreases |visits|
  {
    if k == |visits| {
      assert visits[..k] == visits;
      if visits != [] {
        SoundBuilds(lang, scopes, visits[..|visits| - 1], |visits| - 1);
        assert visits[..|visits| - 1][..|visits| - 1] == visits[..|visits| - 1];
        EnteredLands(lang, Built(lang, scopes, visits[..|visits| - 1]), visits[|visits| - 1]);
      }
    } else {
      var front := visits[..|visits| - 1];
      SoundBuilds(lang, scopes, front, k);
      assert front[..k] == visits[..k];
      EnteredLands(lang, Built(lang, scopes, front), visits[|visits| - 1]);
      ExtendsFurther(Built(lang, scopes, visits[..k]), Built(lang, scopes, front), Built(lang, scopes, visits));
    }
  }

  /** Whatever the walk still adds, each visit's names and its scope end up where they belong. */
  lemma EveryNameLands(lang: Lang, scopes: seq<Scope>, visits: seq<Visit>, k: nat)
    requires Arena(scopes) && Sound(lang, scopes, visits) && k < |visits|
    ensures var was, now := Built(lang, scopes, visits[..k]), Built(lang, scopes, visits);
            && Arena(was) && visits[k].cur < |was| && Arena(now) && Extends(was, now)
            && NamesLanded(lang, was, visits[k], now)
            && (visits[k].node.opens.Some? ==> ScopeLanded(lang, was, visits[k], now))
  {
    var was, next, now := Built(lang, scopes, visits[..k]), Built(lang, scopes, visits[..k + 1]),
      Built(lang, scopes, visits);
    SoundBuilds(lang, scopes, visits, k);
    SoundBuilds(lang, scopes, visits, k + 1);
    SoundBuilds(lang, scopes, visits, |visits|);
    assert visits[..|visits|] == visits;
    assert visits[..k + 1][..k] == visits[..k];
    EnteredLands(lang, was, visits[k]);
    NamesStill(lang, was, visits[k], next, now);
    if visits[k].node.opens.Some? {
      HasStill(next, now, |was|, visits[k].node.inner, visits[k].node.innerPoisons, {});
    }
  }

  // ---- and no other name does ----

  /** The visit binds `b` in this scope: a declaration or a local of the node, or a name of the scope it opens. */
  ghost predicate Binds(lang: Lang, was: seq<Scope>, v: Visit, id: nat, b: Binding)
    requires Arena(was) && v.cur < |was|
  {
    || (v.node.declares == Some(b) && id == if lang == JsLike then Hoist(was, v.cur) else v.cur)
    || (b in v.node.locals && id == if v.node.localsHoist then Hoist(was, v.cur) else v.cur)
    || (v.node.opens.Some? && id == |was| && b in v.node.inner)
  }

  /** The visit poisons the name in this scope: where the node is, or the scope it opens. */
  ghost predicate Poisons(was: seq<Scope>, v: Visit, id: nat, name: string) {
    || (id == v.cur && name in v.node.poisons)
    || (v.node.opens.Some? && id == |was| && name in v.node.innerPoisons)
  }

  /** The scope holds only what it held before and what the visit brings it. */
  ghost predicate OnlyBrought(lang: Lang, was: seq<Scope>, v: Visit, now: seq<Scope>, id: nat)
    requires Arena(was) && v.cur < |was| && id < |now|
  {
    && (forall b :: b in now[id].bindings ==>
          (id < |was| && b in was[id].bindings) || Binds(lang, was, v, id, b))
    && (forall n :: n in now[id].poison ==> (id < |was| && n in was[id].poison) || Poisons(was, v, id, n))
    && (forall n :: n in now[id].imports ==>
          (id < |was| && n in was[id].imports) || (id == v.cur && n in v.node.imports))
  }

  lemma NamedBringsOnly(lang: Lang, was: seq<Scope>, v: Visit, id: nat)
    requires Arena(was) && v.cur < |was| && id < |was|
    ensures |Named(lang, was, v)| == |was| && OnlyBrought(lang, was, v, Named(lang, was, v), id)
  {
    HoistIsScope(was, v.cur);
  }

  lemma EnteredBringsOnly(lang: Lang, was: seq<Scope>, v: Visit, id: nat)
    requires Arena(was) && v.cur < |was| && id < |Entered(lang, was, v)|
    ensures OnlyBrought(lang, was, v, Entered(lang, was, v), id)
  {
    if id < |was| { NamedBringsOnly(lang, was, v, id); }
    HoistIsScope(was, v.cur);
  }

  /** Some visit of the walk binds `b` in this scope. */
  ghost predicate BoundBy(lang: Lang, scopes: seq<Scope>, visits: seq<Visit>, k: nat, id: nat, b: Binding) {
    && k < |visits|
    && var was := Built(lang, scopes, visits[..k]);
       Arena(was) && visits[k].cur < |was| && Binds(lang, was, visits[k], id, b)
  }

  ghost predicate PoisonedBy(lang: Lang, scopes: seq<Scope>, visits: seq<Visit>, k: nat, id: nat, name: string) {
    k < |visits| && Poisons(Built(lang, scopes, visits[..k]), visits[k], id, name)
  }

  ghost predicate ImportedBy(visits: seq<Visit>, k: nat, id: nat, name: string) {
    k < |visits| && visits[k].cur == id && name in visits[k].node.imports
  }

  /** Every name in a scope was there to begin with, or some visit of the walk brought it there. */
  lemma {:induction false} NamesComeFromVisits(lang: Lang, scopes: seq<Scope>, visits: seq<Visit>, id: nat, b: Binding,
                                               name: string)
    requires Arena(scopes) && Sound(lang, scopes, visits) && id < |Built(lang, scopes, visits)|
    ensures b in Built(lang, scopes, visits)[id].bindings ==>
              (id < |scopes| && b in scopes[id].bindings) || exists k: nat :: BoundBy(lang, scopes, visits, k, id, b)
    ensures name in Built(lang, scopes, visits)[id].poison ==>
              (id < |scopes| && name in scopes[id].poison)
              || exists k: nat :: PoisonedBy(lang, scopes, visits, k, id, name)
    ensures name in Built(lang, scopes, visits)[id].imports ==>
              (id < |scopes| && name in scopes[id].imports) || exists k: nat :: ImportedBy(visits, k, id, name)
  {
    if visits != [] {
      var n := |visits| - 1;
      var was := Built(lang, scopes, visits[..n]);
      EnteredBringsOnly(lang, was, visits[n], id);
      assert Binds(lang, was, visits[n], id, b) ==> BoundBy(lang, scopes, visits, n, id, b);
      assert Poisons(was, visits[n], id, name) ==> PoisonedBy(lang, scopes, visits, n, id, name);
      assert id == visits[n].cur && name in visits[n].node.imports ==> ImportedBy(visits, n, id, name);
      if id < |was| {
        NamesComeFromVisits(lang, scopes, visits[..n], id, b, name);
        forall k: nat | k < n
          ensures BoundBy(lang, scopes, visits[..n], k, id, b) ==> BoundBy(lang, scopes, visits, k, id, b)
          ensures PoisonedBy(lang, scopes, visits[..n], k, id, name) ==> PoisonedBy(lang, scopes, visits, k, id, name)
          ensures ImportedBy(visits[..n], k, id, name) ==> ImportedBy(visits, k, id, name)
        {
          assert visits[..n][..k] == visits[..k];
        }
      }
    }
  }

  /** A list of visits took the arena and the occurrences from one state to another. */
  ghost predicate Walked(lang: Lang, was: seq<Scope>, now: seq<Scope>, seen: seq<Occurrence>, found: seq<Occurrence>,
                         visits: seq<Visit>) {
    now == Built(lang, was, visits) && Sound(lang, was, visits) && found == seen + OccurrencesAt(visits)
  }

  lemma WalkedFurther(lang: Lang, a: seq<Scope>, b: seq<Scope>, c: seq<Scope>,
                      x: seq<Occurrence>, y: seq<Occurrence>, z: seq<Occurrence>, first: seq<Visit>, more: seq<Visit>)
    requires Walked(lang, a, b, x, y, first) && Walked(lang, b, c, y, z, more)
    ensures Walked(lang, a, c, x, z, first + more)
  {
    BuiltSplits(lang, a, first, more);
    SoundSplits(lang, a, first, more);
    OccurrencesSplit(first, more);
    Regrouped(x, OccurrencesAt(first), OccurrencesAt(more));
  }

  /** A walk has been through a node's first `i` children. */
  ghost predicate WalkedTo(lang: Lang, node: Syntax, i: nat, cur: nat, child: nat, was: seq<Scope>, now: seq<Scope>,
                           seen: seq<Occurrence>, found: seq<Occurrence>, visits: seq<Visit>)
    requires i <= |node.children|
  {
    && Grew(lang, was, now, Opened(node.children[..i]))
    && IsTourIn(lang, node, i, cur, child, |was|, visits)
    && Walked(lang, was, now, seen, found, visits)
  }

  lemma {:induction false} WalkedOneMore(lang: Lang, node: Syntax, i: nat, cur: nat, child: nat, a: seq<Scope>,
                                         b: seq<Scope>,
                                         c: seq<Scope>, x: seq<Occurrence>, y: seq<Occurrence>, z: seq<Occurrence>,
                                         visits: seq<Visit>, more: seq<Visit>)
    requires i < |node.children| && WalkedTo(lang, node, i, cur, child, a, b, x, y, visits)
    requires Grew(lang, b, c, Opened([node.children[i]]))
    requires IsTour(lang, node.children[i], Into(lang, node, i, cur, child), |b|, more)
    requires Walked(lang, b, c, y, z, more)
    ensures WalkedTo(lang, node, i + 1, cur, child, a, c, x, z, visits + more)
  {
    GrewBy(lang, a, b, Opened(node.children[..i]));
    ChildGrew(lang, node, i, a, b, c);
    TourNext(lang, node, i, cur, child, |a|, visits, more);
    WalkedFurther(lang, a, b, c, x, y, z, visits, more);
  }

  lemma {:induction false} WalkedNode(lang: Lang, node: Syntax, cur: nat, child: nat, a: seq<Scope>, b: seq<Scope>,
                                      c: seq<Scope>,
                                      x: seq<Occurrence>, y: seq<Occurrence>, z: seq<Occurrence>, more: seq<Visit>)
    requires Grew(lang, a, b, Opening(node)) && child == ChildScope(node, cur, |a|)
    requires Walked(lang, a, b, x, y, [Visit(node, cur)])
    requires WalkedTo(lang, node, |node.children|, cur, child, b, c, y, z, more)
    ensures Grew(lang, a, c, Opened([node]))
    ensures IsTour(lang, node, cur, |a|, [Visit(node, cur)] + more)
    ensures Walked(lang, a, c, x, z, [Visit(node, cur)] + more)
  {
    assert node.children[..|node.children|] == node.children;
    GrewBy(lang, a, b, Opening(node));
    NodeGrew(lang, node, a, b, c);
    TourOf(lang, node, cur, |a|, more);
    WalkedFurther(lang, a, b, c, x, y, z, [Visit(node, cur)], more);
  }

  lemma WalkedOne(lang: Lang, was: seq<Scope>, seen: seq<Occurrence>, v: Visit)
    requires Arena(was) && v.cur < |was|
    ensures Walked(lang, was, Entered(lang, was, v), seen, seen + OccurrenceAt(v), [v])
  {
    OneVisit(lang, was, v);
    OneIsSound(lang, was, v);
    OneOccurrence(v);
  }

  lemma UsesSplit(a: seq<Occurrence>, b: seq<Occurrence>)
    ensures Uses(a + b) == Uses(a) + Uses(b)
  {
  }

  lemma OneOccurrence(v: Visit)
    ensures OccurrencesAt([v]) == OccurrenceAt(v) && Uses(OccurrenceAt(v)) == Used(v.node)
  {
    assert [v][..0] == [];
  }

  // ---- the walk ----

  class Walker {
    var scopes: seq<Scope>
    var occurrences: seq<Occurrence>

    constructor ()
      ensures scopes == [Scope(None, Module, [], {}, {})] && occurrences == []
    {
      scopes := [Scope(None, Module, [], {}, {})];
      occurrences := [];
    }

    method Bind(lang: Lang, id: nat, bindings: seq<Binding>, poison: set<string>, imports: set<string>)
      requires ArenaFor(lang, scopes) && id < |scopes|
      modifies this`scopes
      ensures scopes == Added(old(scopes), id, bindings, poison, imports)
      ensures ArenaFor(lang, scopes) && Extends(old(scopes), scopes) && |scopes| == |old(scopes)|
    {
      var s := scopes[id];
      scopes := scopes[id := s.(bindings := s.bindings + bindings, poison := s.poison + poison,
                                imports := s.imports + imports)];
    }

    /** Adds a node's own names: a JavaScript declaration and a hoisting local go to the hoist target. */
    method BindNames(lang: Lang, node: Syntax, cur: nat)
      requires ArenaFor(lang, scopes) && cur < |scopes|
      modifies this`scopes
      ensures ArenaFor(lang, scopes) && Extends(old(scopes), scopes) && |scopes| == |old(scopes)|
      ensures HoistsTo(old(scopes), cur, Hoist(old(scopes), cur))
      ensures scopes == Named(lang, old(scopes), Visit(node, cur))
    {
      var h := HoistTarget(scopes, cur);
      Bind(lang, cur, [], node.poisons, node.imports);
      ghost var first := scopes;
      if node.declares.Some? {
        Bind(lang, if lang == JsLike then h else cur, [node.declares.value], {}, {});
      } else {
        AddingNothing(scopes, if lang == JsLike then h else cur);
      }
      ExtendsFurther(old(scopes), first, scopes);
      ghost var second := scopes;
      Bind(lang, if node.localsHoist then h else cur, node.locals, {}, {});
      ExtendsFurther(old(scopes), second, scopes);
    }

    /** Opens a scope; a Python function's parent skips the class bodies around it. */
    method Open(lang: Lang, kind: Kind, cur: nat, inner: seq<Binding>, innerPoisons: set<string>) returns (id: nat)
      requires ArenaFor(lang, scopes) && cur < |scopes| && (lang == Python ==> kind != Block)
      modifies this`scopes
      ensures ArenaFor(lang, scopes) && Extends(old(scopes), scopes) && id == |old(scopes)|
      ensures scopes == old(scopes)
                        + [Scope(Some(ParentFor(lang, old(scopes), kind, cur)), kind, inner, innerPoisons, {})]
      ensures lang == Python && kind == Function ==>
                SkipsClasses(old(scopes), cur, ParentFor(lang, old(scopes), kind, cur))
    {
      id := |scopes|;
      var parent := cur;
      if lang == Python && kind == Function {
        parent := NonclassAncestor(scopes, cur);
      }
      scopes := scopes + [Scope(Some(parent), kind, inner, innerPoisons, {})];
    }

    /** Binds a node's names, opens the scope it introduces, if any, and records its occurrence around it. */
    method Enter(lang: Lang, node: Syntax, cur: nat) returns (child: nat)
      requires ArenaFor(lang, scopes) && cur < |scopes| && (lang == Python ==> node.opens != Some(Block))
      modifies this
      ensures Grew(lang, old(scopes), scopes, Opening(node))
      ensures child == ChildScope(node, cur, |old(scopes)|) < |scopes|
      ensures scopes == Entered(lang, old(scopes), Visit(node, cur))
      ensures occurrences == old(occurrences) + OccurrenceAt(Visit(node, cur))
    {
      BindNames(lang, node, cur);
      ghost var named := scopes;
      SameNonclass(old(scopes), scopes, cur);
      child := cur;
      if node.opens.Some? {
        child := Open(lang, node.opens.value, cur, node.inner, node.innerPoisons);
      }
      ExtendsFurther(old(scopes), named, scopes);
      if node.occurs.Some? {
        occurrences := occurrences + [Occurrence(node.occurs.value, cur, node.startByte)];
      }
    }

    /**
     * Adds a node's names to the scopes they belong to, opens a scope where it introduces one, and
     * walks its children under that scope. The arena is the one the node's visits build, each in the
     * scope its place in the tree gives it, and each occurrence is in the scope of its visit. Scopes
     * come out in document order; parents always come first, and no class body ends up above a Python
     * function.
     */
    method WalkScopes(lang: Lang, node: Syntax, cur: nat) returns (ghost visits: seq<Visit>)
      requires ArenaFor(lang, scopes) && cur < |scopes| && Grammatical(lang, node)
      modifies this
      ensures Grew(lang, old(scopes), scopes, Opened([node]))
      ensures IsTour(lang, node, cur, |old(scopes)|, visits)
      ensures Walked(lang, old(scopes), scopes, old(occurrences), occurrences, visits)
      decreases node
    {
      WalkedOne(lang, scopes, occurrences, Visit(node, cur));
      var child := Enter(lang, node, cur);
      ghost var entered, seen := scopes, occurrences;
      ghost var more := WalkChildren(lang, node, cur, child);
      WalkedNode(lang, node, cur, child, old(scopes), entered, scopes, old(occurrences), seen, occurrences, more);
      visits := [Visit(node, cur)] + more;
    }

    /** Walks a node's children; a Rust `else` branch does not see the names its `if let` binds. */
    method WalkChildren(lang: Lang, node: Syntax, cur: nat, child: nat) returns (ghost visits: seq<Visit>)
      requires ArenaFor(lang, scopes) && cur < |scopes| && child < |scopes| && Grammatical(lang, node)
      modifies this
      ensures WalkedTo(lang, node, |node.children|, cur, child, old(scopes), scopes, old(occurrences), occurrences,
                       visits)
      decreases node, 0
    {
      visits := [];
      for i := 0 to |node.children|
        invariant WalkedTo(lang, node, i, cur, child, old(scopes), scopes, old(occurrences), occurrences, visits)
      {
        ghost var before, seen := scopes, occurrences;
        var into := if lang == Rust && node.alternative == Some(i) then cur else child;
        ghost var more := WalkScopes(lang, node.children[i], into);
        WalkedOneMore(lang, node, i, cur, child, old(scopes), before, scopes, old(occurrences), seen, occurrences,
                      visits, more);
        visits := visits + more;
      }
    }
  }

  // ---- resolving a name ----

  datatype Resolution = LocalBinding(scope: nat) | ImportedName | Undecidable

  /** The scope binds the name, from the start or at or before the use. */
  predicate BindsVisibly(s: Scope, name: string, useByte: nat) {
    exists i :: 0 <= i < |s.bindings| && s.bindings[i].name == name
      && (s.bindings[i].hoisted || s.bindings[i].startByte <= useByte)
  }

  /** A nested Rust `mod`: names imported outside it do not reach inside. */
  predicate CutsImports(lang: Lang, s: Scope) {
    lang == Rust && s.kind == Module && s.parent.Some?
  }

  /** The k-th scope of the chain has something to say of the name. */
  ghost predicate Speaks(lang: Lang, name: string, useByte: nat, scopes: seq<Scope>, chain: seq<nat>, k: nat)
    requires k < |chain| && forall i :: 0 <= i < |chain| ==> chain[i] < |scopes|
  {
    var s := scopes[chain[k]];
    || name in s.poison
    || BindsVisibly(s, name, useByte)
    || (name in s.imports && forall j :: 0 <= j < k ==> !CutsImports(lang, scopes[chain[j]]))
  }

  /** What the k-th scope says, when it is the first to speak. */
  ghost function Verdict(name: string, useByte: nat, scopes: seq<Scope>, chain: seq<nat>, k: nat): Resolution
    requires k < |chain| && forall i :: 0 <= i < |chain| ==> chain[i] < |scopes|
  {
    var s := scopes[chain[k]];
    if name in s.poison then Undecidable
    else if BindsVisibly(s, name, useByte) then LocalBinding(chain[k])
    else ImportedName
  }

  /** The name's resolution is the verdict of the nearest scope that speaks; undecidable if none does. */
  ghost predicate Resolves(lang: Lang, name: string, useByte: nat, scopes: seq<Scope>, chain: seq<nat>, r: Resolution)
    requires forall i :: 0 <= i < |chain| ==> chain[i] < |scopes|
  {
    || (r == Undecidable && forall k :: 0 <= k < |chain| ==> !Speaks(lang, name, useByte, scopes, chain, k))
    || (exists k :: 0 <= k < |chain| && Speaks(lang, name, useByte, scopes, chain, k)
          && r == Verdict(name, useByte, scopes, chain, k)
          && forall j :: 0 <= j < k ==> !Speaks(lang, name, useByte, scopes, chain, j))
  }

  method ResolveName(lang: Lang, name: string, scope: nat, useByte: nat, scopes: seq<Scope>) returns (r: Resolution)
    requires Arena(scopes) && scope < |scopes|
    ensures Resolves(lang, name, useByte, scopes, Chain(scopes, scope), r)
  {
    ghost var chain := Chain(scopes, scope);
    var cur := Some(scope);
    var importsVisible := true;
    ghost var k := 0;
    while cur.Some?
      invariant cur.Some? ==> AtPosition(scopes, scope, cur.value, k)
      invariant cur.None? ==> k == |chain|
      invariant k <= |chain| && forall j :: 0 <= j < k ==> !Speaks(lang, name, useByte, scopes, chain, j)
      invariant importsVisible <==> forall j :: 0 <= j < k ==> !CutsImports(lang, scopes[chain[j]])
      decreases cur.Some?, if cur.Some? then cur.value else 0
    {
      var id := cur.value;
      StepUp(scopes, scope, id, k);
      if name in scopes[id].poison {
        assert Speaks(lang, name, useByte, scopes, chain, k);
        return Undecidable;
      }
      if BindsVisibly(scopes[id], name, useByte) {
        assert Speaks(lang, name, useByte, scopes, chain, k);
        return LocalBinding(id);
      }
      if importsVisible && name in scopes[id].imports {
        assert Speaks(lang, name, useByte, scopes, chain, k);
        return ImportedName;
      }
      if CutsImports(lang, scopes[id]) {
        importsVisible := false;
      }
      cur := scopes[id].parent;
      k := k + 1;
    }
    return Undecidable;
  }

  /** A name the scope itself binds, from the start or at or before the use, is that binding, unless it is poisoned. */
  lemma NearestBindingWins(lang: Lang, name: string, useByte: nat, scopes: seq<Scope>, chain: seq<nat>, i: nat,
                           r: Resolution)
    requires chain != [] && forall k :: 0 <= k < |chain| ==> chain[k] < |scopes|
    requires Resolves(lang, name, useByte, scopes, chain, r)
    requires i < |scopes[chain[0]].bindings| && scopes[chain[0]].bindings[i].name == name
    requires scopes[chain[0]].bindings[i].hoisted || scopes[chain[0]].bindings[i].startByte <= useByte
    ensures r == if name in scopes[chain[0]].poison then Undecidable else LocalBinding(chain[0])
  {
    assert BindsVisibly(scopes[chain[0]], name, useByte);
    assert Speaks(lang, name, useByte, scopes, chain, 0);
  }

  /** The scope has a binding of the name, but none that the use can see. */
  ghost predicate OnlyLater(s: Scope, name: string, useByte: nat) {
    forall i :: 0 <= i < |s.bindings| && s.bindings[i].name == name ==>
      !s.bindings[i].hoisted && s.bindings[i].startByte > useByte
  }

  /** A name that is bound only later, and poisoned nowhere, is the import that reaches it, or undecidable. */
  lemma LaterBindingsUnseen(lang: Lang, name: string, useByte: nat, scopes: seq<Scope>, chain: seq<nat>, r: Resolution)
    requires forall k :: 0 <= k < |chain| ==> chain[k] < |scopes|
    requires Resolves(lang, name, useByte, scopes, chain, r)
    requires forall k :: 0 <= k < |chain| ==>
               name !in scopes[chain[k]].poison && OnlyLater(scopes[chain[k]], name, useByte)
    ensures r == ImportedName <==> exists k: nat :: ImportReaches(lang, name, scopes, chain, k)
    ensures r in {ImportedName, Undecidable}
  {
    forall k: nat | k < |chain|
      ensures Speaks(lang, name, useByte, scopes, chain, k) <==> ImportReaches(lang, name, scopes, chain, k)
    {
      assert OnlyLater(scopes[chain[k]], name, useByte);
    }
    if k: nat :| k < |chain| && ImportReaches(lang, name, scopes, chain, k) {
      assert Speaks(lang, name, useByte, scopes, chain, k);
    }
  }

  /** The scope imports the name, and no nested Rust `mod` lies between it and the use. */
  ghost predicate ImportReaches(lang: Lang, name: string, scopes: seq<Scope>, chain: seq<nat>, k: nat)
    requires forall i :: 0 <= i < |chain| ==> chain[i] < |scopes|
  {
    && k < |chain| && name in scopes[chain[k]].imports
    && (lang == Rust ==> forall j :: 0 <= j < k ==>
                           scopes[chain[j]].kind != Module || scopes[chain[j]].parent.None?)
  }

  /** The same arena with at least as much poison. */
  ghost predicate MorePoison(was: seq<Scope>, now: seq<Scope>) {
    && |was| == |now|
    && forall i :: 0 <= i < |was| ==> was[i].poison <= now[i].poison && now[i] == was[i].(poison := now[i].poison)
  }

  /** Poison only ever takes certainty away: it changes no verdict to anything but undecidable. */
  lemma PoisonOnlyUndecides(lang: Lang, name: string, useByte: nat, was: seq<Scope>, now: seq<Scope>, chain: seq<nat>,
                            r: Resolution, r': Resolution)
    requires MorePoison(was, now) && forall i :: 0 <= i < |chain| ==> chain[i] < |was|
    requires Resolves(lang, name, useByte, was, chain, r) && Resolves(lang, name, useByte, now, chain, r')
    ensures r' == r || r' == Undecidable
  {
    forall k | 0 <= k < |chain| && Speaks(lang, name, useByte, was, chain, k)
      ensures Speaks(lang, name, useByte, now, chain, k)
    {
    }
    if r' != Undecidable {
      var k :| 0 <= k < |chain| && Speaks(lang, name, useByte, now, chain, k)
        && r' == Verdict(name, useByte, now, chain, k)
               && forall j :: 0 <= j < k ==> !Speaks(lang, name, useByte, now, chain, j);
      assert Speaks(lang, name, useByte, was, chain, k);
      var m :| 0 <= m < |chain| && Speaks(lang, name, useByte, was, chain, m)
        && r == Verdict(name, useByte, was, chain, m)
               && forall j :: 0 <= j < m ==> !Speaks(lang, name, useByte, was, chain, j);
      assert m == k;
    }
  }
}
