/** The engine-independent syntax tree: copying it out of the engine, and the line tree of plain text. */
module Trees {
  import opened Prelude
  import opened LineTable

  /** What one node says about itself. */
  datatype Info = Info(kind: string, startByte: nat, endByte: nat, startPoint: Point, endPoint: Point,
                       named: bool, missing: bool)

  datatype Node = Node(info: Info, children: seq<Node>)

  // ---- the engine's tree and its cursor ----

  datatype Native = Native(info: Info, children: seq<Native>)

  /** The copy made by plain child-by-child recursion. */
  function Copy(n: Native): Node {
    Node(n.info, CopyAll(n.children))
  }

  function CopyAll(ns: seq<Native>): seq<Node> {
    if ns == [] then [] else CopyAll(ns[..|ns| - 1]) + [Copy(ns[|ns| - 1])]
  }

  /** The cursor stands on child `index` of `parent`. */
  datatype Frame = Frame(parent: Native, index: nat)

  /** A tree cursor: the node it is on, and the frames that lead there from the root. */
  datatype Cursor = Cursor(frames: seq<Frame>, node: Native)

  ghost predicate IsCursor(c: Cursor) {
    && (forall d :: 0 <= d < |c.frames| ==> c.frames[d].index < |c.frames[d].parent.children|)
    && (c.frames != [] ==> var f := c.frames[|c.frames| - 1]; c.node == f.parent.children[f.index])
    && (forall d :: 0 < d < |c.frames| ==>
          c.frames[d].parent == c.frames[d - 1].parent.children[c.frames[d - 1].index])
  }

  function FirstChild(c: Cursor): Option<Cursor> {
    if c.node.children == [] then None
    else Some(Cursor(c.frames + [Frame(c.node, 0)], c.node.children[0]))
  }

  function NextSibling(c: Cursor): Option<Cursor> {
    if c.frames == [] then None
    else
      var last := c.frames[|c.frames| - 1];
      if last.index + 1 >= |last.parent.children| then None
      else Some(Cursor(c.frames[..|c.frames| - 1] + [last.(index := last.index + 1)],
                       last.parent.children[last.index + 1]))
  }

  function Parent(c: Cursor): Cursor {
    if c.frames == [] then c
    else Cursor(c.frames[..|c.frames| - 1], c.frames[|c.frames| - 1].parent)
  }

  ghost function Size(n: Native): nat {
    1 + SizeAll(n.children)
  }

  ghost function SizeAll(ns: seq<Native>): nat {
    if ns == [] then 0 else Size(ns[0]) + SizeAll(ns[1..])
  }

  /** The nodes to the right of the cursor's way down. */
  ghost function Right(frames: seq<Frame>): nat
    requires forall d :: 0 <= d < |frames| ==> frames[d].index < |frames[d].parent.children|
  {
    if frames == [] then 0
    else
      var f := frames[|frames| - 1];
      Right(frames[..|frames| - 1]) + SizeAll(f.parent.children[f.index + 1..])
  }

  /** The node still being read at depth `d` holds copies of exactly the children left of the cursor. */
  ghost predicate HalfOpen(node: Node, f: Frame)
    requires f.index < |f.parent.children|
  {
    node == Node(f.parent.info, CopyAll(f.parent.children[..f.index]))
  }

  ghost predicate Reading(open: seq<Node>, c: Cursor, descend: bool) {
    && IsCursor(c) && |open| == |c.frames| + 1
    && (forall d :: 0 <= d < |c.frames| ==> HalfOpen(open[d], c.frames[d]))
    && open[|c.frames|] == if descend then Node(c.node.info, []) else Copy(c.node)
  }

  ghost function RootOf(c: Cursor): Native {
    if c.frames == [] then c.node else c.frames[0].parent
  }

  /** Attaching the finished child advances its parent past it. */
  lemma AttachChild(f: Frame)
    requires f.index < |f.parent.children|
    ensures CopyAll(f.parent.children[..f.index + 1])
         == CopyAll(f.parent.children[..f.index]) + [Copy(f.parent.children[f.index])]
  {
    assert f.parent.children[..f.index + 1][..f.index] == f.parent.children[..f.index];
  }

  /** The nodes not yet opened. */
  ghost function Unopened(c: Cursor, descend: bool): nat
    requires IsCursor(c)
  {
    Right(c.frames) + if descend then SizeAll(c.node.children) else 0
  }

  lemma StepDown(open: seq<Node>, c: Cursor)
    requires Reading(open, c, true) && c.node.children != []
    ensures var child := FirstChild(c).value;
            && Reading(open + [Node(child.node.info, [])], child, true) && RootOf(child) == RootOf(c)
            && Unopened(child, true) < Unopened(c, true)
  {
    var child := FirstChild(c).value;
    assert child.frames[..|c.frames|] == c.frames;
    var kids := c.node.children;
    assert kids[..0] == [];
    LessUnopened(c);
  }

  lemma LessUnopened(c: Cursor)
    requires IsCursor(c) && c.node.children != []
    ensures Unopened(FirstChild(c).value, true) < Unopened(c, true)
  {
    var child := FirstChild(c).value;
    var kids := c.node.children;
    assert child.frames[..|c.frames|] == c.frames;
    assert SizeAll(kids) == Size(child.node) + SizeAll(kids[0 + 1..]);
    assert Right(child.frames) == Right(c.frames) + SizeAll(kids[0 + 1..]);
  }

  /** The stack after the finished top has been attached to the node below it. */
  function Attach(open: seq<Node>): seq<Node>
    requires |open| >= 2
  {
    var n := |open| - 1;
    open[..n - 1] + [open[n - 1].(children := open[n - 1].children + [open[n]])]
  }

  lemma StepAcross(open: seq<Node>, c: Cursor)
    requires Reading(open, c, false) && NextSibling(c).Some?
    ensures var next := NextSibling(c).value;
            && Reading(Attach(open) + [Node(next.node.info, [])], next, true) && RootOf(next) == RootOf(c)
            && Unopened(next, true) < Unopened(c, false)
  {
    var next, n := NextSibling(c).value, |c.frames| - 1;
    var f := c.frames[n];
    AttachChild(f);
    assert next.frames[..n] == c.frames[..n];
    SiblingsLeft(c);
  }

  lemma SiblingsLeft(c: Cursor)
    requires IsCursor(c) && NextSibling(c).Some?
    ensures Unopened(NextSibling(c).value, true) < Unopened(c, false)
  {
    var next, n := NextSibling(c).value, |c.frames| - 1;
    var f := c.frames[n];
    assert next.frames[..n] == c.frames[..n];
    var rest := f.parent.children[f.index + 1..];
    assert rest[1..] == f.parent.children[f.index + 1 + 1..];
    assert SizeAll(rest) == Size(next.node) + SizeAll(rest[1..]);
  }

  lemma StepUp(open: seq<Node>, c: Cursor)
    requires Reading(open, c, false) && c.frames != [] && NextSibling(c).None?
    ensures Reading(Attach(open), Parent(c), false) && RootOf(Parent(c)) == RootOf(c)
    ensures Unopened(Parent(c), false) <= Unopened(c, false)
  {
    var f := c.frames[|c.frames| - 1];
    AttachChild(f);
    assert f.parent.children[..f.index + 1] == f.parent.children;
  }

  /** One pass with a cursor and an explicit stack builds the same tree as recursion. */
  method Convert(root: Native) returns (r: Node)
    ensures r == Copy(root)
  {
    var cursor := Cursor([], root);
    var open := [Node(root.info, [])];
    var descend := true;
    while true
      invariant Reading(open, cursor, descend) && RootOf(cursor) == root
      decreases Unopened(cursor, descend), |open|
    {
      if descend && FirstChild(cursor).Some? {
        StepDown(open, cursor);
        cursor := FirstChild(cursor).value;
        open := open + [Node(cursor.node.info, [])];
        continue;
      }
      assert descend ==> cursor.node.children == [];
      assert Reading(open, cursor, false);
      assert Unopened(cursor, false) == Unopened(cursor, descend);
      if |open| == 1 {
        break;
      }
      ghost var was, wasOn := open, cursor;
      var done := open[|open| - 1];
      open := open[..|open| - 1];
      var parent := open[|open| - 1];
      open := open[..|open| - 1] + [parent.(children := parent.children + [done])];
      assert open == Attach(was);
      var sibling := NextSibling(cursor);
      descend := sibling.Some?;
      if descend {
        StepAcross(was, cursor);
        cursor := sibling.value;
        open := open + [Node(cursor.node.info, [])];
      } else {
        StepUp(was, cursor);
        cursor := Parent(cursor);
      }
    }
    r := open[|open| - 1];
  }

  function NativeAt(n: Native, route: seq<nat>): Option<Native> {
    if route == [] then Some(n)
    else if route[0] < |n.children| then NativeAt(n.children[route[0]], route[1..])
    else None
  }

  lemma {:induction false} CopyAllAt(ns: seq<Native>, i: nat)
    requires i < |ns|
    ensures |CopyAll(ns)| == |ns| && CopyAll(ns)[i] == Copy(ns[i])
  {
    if i < |ns| - 1 { CopyAllAt(ns[..|ns| - 1], i); } else if i > 0 { CopyAllAt(ns[..|ns| - 1], i - 1); }
  }

  /** The copy has a node wherever the engine's tree has one, with as many children, that says the same of itself. */
  lemma {:induction false} CopyIsSame(n: Native, route: seq<nat>)
    ensures NodeAt(Copy(n), route).Some? <==> NativeAt(n, route).Some?
    ensures NativeAt(n, route).Some? ==>
              && NodeAt(Copy(n), route).value.info == NativeAt(n, route).value.info
              && |NodeAt(Copy(n), route).value.children| == |NativeAt(n, route).value.children|
    decreases |route|
  {
    if n.children != [] { CopyAllAt(n.children, 0); }
    if route != [] && route[0] < |n.children| {
      CopyAllAt(n.children, route[0]);
      CopyIsSame(n.children[route[0]], route[1..]);
    }
  }

  // ---- walking ----

  /** The node and every descendant, depth first in source order. */
  function Preorder(n: Node): seq<Node> {
    [n] + PreorderAll(n.children)
  }

  function PreorderAll(ns: seq<Node>): seq<Node> {
    if ns == [] then [] else Preorder(ns[0]) + PreorderAll(ns[1..])
  }

  /** The node that a list of child numbers leads to. */
  function NodeAt(n: Node, route: seq<nat>): Option<Node> {
    if route == [] then Some(n)
    else if route[0] < |n.children| then NodeAt(n.children[route[0]], route[1..])
    else None
  }

  ghost predicate Within(root: Node, n: Node) {
    exists route :: NodeAt(root, route) == Some(n)
  }

  /** The walk meets exactly the nodes that some route leads to. */
  lemma {:induction false} PreorderIsWithin(root: Node, n: Node)
    ensures n in Preorder(root) <==> Within(root, n)
    decreases root
  {
    PreorderAllIsWithin(root, |root.children|, n);
    assert root.children[0..] == root.children;
    if Within(root, n) {
      var route :| NodeAt(root, route) == Some(n);
      if route != [] { assert NodeAt(root.children[route[0]], route[1..]) == Some(n); }
    }
    if n == root { assert NodeAt(root, []) == Some(n); }
    if i :| 0 <= i < |root.children| && Within(root.children[i], n) {
      var route :| NodeAt(root.children[i], route) == Some(n);
      assert ([i] + route)[1..] == route;
      assert NodeAt(root, [i] + route) == Some(n);
    }
  }

  lemma {:induction false} PreorderAllIsWithin(root: Node, k: nat, n: Node)
    requires k <= |root.children|
    ensures n in PreorderAll(root.children[|root.children| - k..])
            <==> exists i :: |root.children| - k <= i < |root.children| && Within(root.children[i], n)
    decreases root, k
  {
    if k > 0 {
      var i := |root.children| - k;
      PreorderIsWithin(root.children[i], n);
      PreorderAllIsWithin(root, k - 1, n);
      assert root.children[i..][1..] == root.children[i + 1..];
    }
  }

  // ---- plain text ----

  /** The line that spans `[start, end)` on `row`; it ends the row exactly when it ends in a newline. */
  function LineNode(start: nat, end: nat, row: nat, newline: bool): Node
    requires start <= end
  {
    Node(Info("line", start, end, Point(row, 0), if newline then Point(row + 1, 0) else Point(row, end - start),
              true, false), [])
  }

  /** The finished lines of a prefix: those that end in a newline. */
  ghost predicate AreLines(src: Bytes, lines: seq<Node>, upTo: nat) {
    && upTo <= |src|
    && (forall k :: 0 <= k < |lines| ==> IsLine(src, lines[k], k))
    && (forall k :: 0 < k < |lines| ==> lines[k].info.startByte == lines[k - 1].info.endByte)
    && (lines != [] ==> lines[0].info.startByte == 0 && lines[|lines| - 1].info.endByte == upTo)
    && (lines == [] ==> upTo == 0)
  }

  /** A non-empty span whose only newline, if any, is its last byte; its points are the true ones. */
  ghost predicate IsLine(src: Bytes, n: Node, row: nat) {
    && n.children == [] && n.info.kind == "line" && n.info.named && !n.info.missing
    && n.info.startByte < n.info.endByte <= |src|
    && LF !in src[n.info.startByte..n.info.endByte - 1]
    && n.info.startPoint == TruePoint(src, n.info.startByte) == Point(row, 0)
    && n.info.endPoint == TruePoint(src, n.info.endByte)
  }

  lemma {:induction false} WalkWithinLine(from: Point, text: Bytes)
    requires LF !in text
    ensures Walk(from, text) == Point(from.row, from.col + |text|)
  {
    if text != [] { WalkWithinLine(from, text[..|text| - 1]); }
  }

  lemma LineEndsAt(src: Bytes, start: nat, end: nat, row: nat)
    requires start < end <= |src| && LF !in src[start..end - 1] && TruePoint(src, start) == Point(row, 0)
    ensures TruePoint(src, end) == if src[end - 1] == LF then Point(row + 1, 0) else Point(row, end - start)
  {
    var text := src[start..end - 1];
    WalkWithinLine(Point(row, 0), text);
    WalkConcat(Point(0, 0), src[..start], text);
    assert src[..start] + text == src[..end - 1];
    assert src[..end][..end - 1] == src[..end - 1];
  }

  lemma AddLine(src: Bytes, lines: seq<Node>, start: nat, end: nat)
    requires AreLines(src, lines, start) && start < end <= |src| && LF !in src[start..end - 1]
    requires TruePoint(src, start) == Point(|lines|, 0)
    ensures AreLines(src, lines + [LineNode(start, end, |lines|, src[end - 1] == LF)], end)
    ensures src[end - 1] == LF ==> TruePoint(src, end) == Point(|lines| + 1, 0)
  {
    LineEndsAt(src, start, end, |lines|);
    var line := LineNode(start, end, |lines|, src[end - 1] == LF);
    assert IsLine(src, line, |lines|);
    var more := lines + [line];
    assert forall k :: 0 <= k < |lines| ==> more[k] == lines[k];
  }

  /**
   * The text tree's lines partition the file: contiguous, non-empty, from 0 to the end, each one
   * line. No line follows a final newline.
   */
  method TextLines(src: Bytes) returns (lines: seq<Node>)
    ensures AreLines(src, lines, |src|) && EndInNewlines(src, lines, |lines| - 1)
  {
    lines := [];
    var lineStart := 0;
    var row := 0;
    for i := 0 to |src|
      invariant LinesSoFar(src, lines, lineStart, i) && row == |lines|
    {
      NoNewlineYet(src, lineStart, i);
      if src[i] == LF {
        LineDone(src, lines, lineStart, i);
        lines := lines + [LineNode(lineStart, i + 1, row, true)];
        lineStart := i + 1;
        row := row + 1;
      }
    }
    if lineStart < |src| {
      LastLineDone(src, lines, lineStart);
      lines := lines + [LineNode(lineStart, |src|, row, false)];
    }
  }

  /** The finished lines of the first `i` bytes, and the start of the one still open. */
  ghost predicate LinesSoFar(src: Bytes, lines: seq<Node>, lineStart: nat, i: nat) {
    && AreLines(src, lines, lineStart) && lineStart <= i <= |src|
    && LF !in src[lineStart..i]
    && TruePoint(src, lineStart) == Point(|lines|, 0)
    && EndInNewlines(src, lines, |lines|)
  }

  lemma LineDone(src: Bytes, lines: seq<Node>, lineStart: nat, i: nat)
    requires LinesSoFar(src, lines, lineStart, i) && i < |src| && src[i] == LF
    ensures LinesSoFar(src, lines + [LineNode(lineStart, i + 1, |lines|, true)], i + 1, i + 1)
  {
    AddLine(src, lines, lineStart, i + 1);
    EndsOneMore(src, lines, LineNode(lineStart, i + 1, |lines|, true));
  }

  lemma LastLineDone(src: Bytes, lines: seq<Node>, lineStart: nat)
    requires LinesSoFar(src, lines, lineStart, |src|) && lineStart < |src|
    ensures var all := lines + [LineNode(lineStart, |src|, |lines|, false)];
            AreLines(src, all, |src|) && EndInNewlines(src, all, |lines|)
  {
    NoNewlineYet(src, lineStart, |src| - 1);
    assert src[|src| - 1] in src[lineStart..|src|] && src[|src| - 1] != LF;
    AddLine(src, lines, lineStart, |src|);
    EndsSoFar(src, lines, LineNode(lineStart, |src|, |lines|, false));
  }

  lemma EndsSoFar(src: Bytes, lines: seq<Node>, line: Node)
    requires EndInNewlines(src, lines, |lines|)
    ensures EndInNewlines(src, lines + [line], |lines|)
  {
  }

  /** The first `n` lines end in a newline. */
  ghost predicate EndInNewlines(src: Bytes, lines: seq<Node>, n: int) {
    forall k :: 0 <= k < n && k < |lines| ==> 0 < lines[k].info.endByte <= |src| && src[lines[k].info.endByte - 1] == LF
  }

  lemma EndsOneMore(src: Bytes, lines: seq<Node>, line: Node)
    requires EndInNewlines(src, lines, |lines|) && 0 < line.info.endByte <= |src| && src[line.info.endByte - 1] == LF
    ensures EndInNewlines(src, lines + [line], |lines| + 1)
  {
  }

  lemma NoNewlineYet(src: Bytes, start: nat, i: nat)
    requires start <= i < |src|
    ensures LF in src[start..i + 1] <==> LF in src[start..i] || src[i] == LF
  {
    assert src[start..i + 1] == src[start..i] + [src[i]];
  }
}
