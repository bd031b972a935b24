/** The heap shape of an intrusive red-black tree (deps/include/tree.h).

    Nodes carry left, right and parent pointers and a colour.  A `Tree` value
    records which node sits where and with which colour; `Link` gives the
    field values that spell out exactly that value.  A `Path` is what remains
    of a tree around one position, so the loops of the tree operations, which
    walk up and down through the pointers, become walks along a `Path`. */
module RbShape {

  datatype Color = Black | Red

  class Node {
    const key: int
    var left: Node?
    var right: Node?
    var parent: Node?
    var color: Color

    constructor (key: int)
      ensures this.key == key
    {
      this.key := key;
      left, right, parent, color := null, null, null, Black;
    }
  }

  datatype Tree = Leaf | Fork(left: Tree, node: Node, color: Color, right: Tree)

  /** The surroundings of a position: the node above it, the side on which the
      position hangs, the sibling subtree, and the surroundings of that node. */
  datatype Path =
    | Top
    | InLeft(up: Path, node: Node, color: Color, right: Tree)
    | InRight(up: Path, left: Tree, node: Node, color: Color)

  ghost function Nodes(t: Tree): set<Node> {
    match t
    case Leaf => {}
    case Fork(l, n, _, r) => Nodes(l) + {n} + Nodes(r)
  }

  ghost function PathNodes(p: Path): set<Node> {
    match p
    case Top => {}
    case InLeft(up, n, _, r) => PathNodes(up) + {n} + Nodes(r)
    case InRight(up, l, n, _) => PathNodes(up) + {n} + Nodes(l)
  }

  ghost function Root(t: Tree): Node? {
    if t.Leaf? then null else t.node
  }

  ghost function ParentOf(p: Path): Node? {
    if p.Top? then null else p.node
  }

  ghost function Outermost(p: Path): Node
    requires !p.Top?
  {
    if p.up.Top? then p.node else Outermost(p.up)
  }

  ghost function Plug(p: Path, t: Tree): Tree {
    match p
    case Top => t
    case InLeft(up, n, c, r) => Plug(up, Fork(t, n, c, r))
    case InRight(up, l, n, c) => Plug(up, Fork(l, n, c, t))
  }

  /** `inner` continued by `outer`. */
  ghost function Joined(inner: Path, outer: Path): Path {
    match inner
    case Top => outer
    case InLeft(up, n, c, r) => InLeft(Joined(up, outer), n, c, r)
    case InRight(up, l, n, c) => InRight(Joined(up, outer), l, n, c)
  }

  ghost function Depth(p: Path): nat {
    if p.Top? then 0 else 1 + Depth(p.up)
  }

  ghost function Inorder(t: Tree): seq<Node> {
    match t
    case Leaf => []
    case Fork(l, n, _, r) => Inorder(l) + [n] + Inorder(r)
  }

  /** The nodes that come before (after) the position in the in-order sequence. */
  ghost function Before(p: Path): seq<Node> {
    match p
    case Top => []
    case InLeft(up, _, _, _) => Before(up)
    case InRight(up, l, n, _) => Before(up) + Inorder(l) + [n]
  }

  ghost function After(p: Path): seq<Node> {
    match p
    case Top => []
    case InLeft(up, n, _, r) => [n] + Inorder(r) + After(up)
    case InRight(up, _, _, _) => After(up)
  }

  // ------------------------------------------------------------ no sharing

  ghost predicate Distinct(t: Tree) {
    match t
    case Leaf => true
    case Fork(l, n, _, r) =>
      n !in Nodes(l) && n !in Nodes(r) && Nodes(l) !! Nodes(r) && Distinct(l) && Distinct(r)
  }

  ghost predicate PathDistinct(p: Path) {
    match p
    case Top => true
    case InLeft(up, n, _, r) =>
      n !in Nodes(r) && n !in PathNodes(up) && Nodes(r) !! PathNodes(up) && Distinct(r) && PathDistinct(up)
    case InRight(up, l, n, _) =>
      n !in Nodes(l) && n !in PathNodes(up) && Nodes(l) !! PathNodes(up) && Distinct(l) && PathDistinct(up)
  }

  // -------------------------------------------------- pointers spell the tree

  /** The field values of one node. */
  datatype Links = Links(left: Node?, right: Node?, parent: Node?, color: Color)

  ghost function Fields(n: Node): Links
    reads n
  {
    Links(n.left, n.right, n.parent, n.color)
  }

  /** The field values of `n` that spell its place in `t`, where `t` hangs below `parent`. */
  ghost function Link(t: Tree, parent: Node?, n: Node): Links
    requires n in Nodes(t)
  {
    if n == t.node then Links(Root(t.left), Root(t.right), parent, t.color)
    else if n in Nodes(t.left) then Link(t.left, t.node, n)
    else Link(t.right, t.node, n)
  }

  /** The same for the surroundings of a position where `at` sits. */
  ghost function PathLink(p: Path, at: Node?, n: Node): Links
    requires n in PathNodes(p)
  {
    match p
    case InLeft(up, m, c, r) =>
      if n == m then Links(at, Root(r), ParentOf(up), c)
      else if n in Nodes(r) then Link(r, m, n)
      else PathLink(up, m, n)
    case InRight(up, l, m, c) =>
      if n == m then Links(Root(l), at, ParentOf(up), c)
      else if n in Nodes(l) then Link(l, m, n)
      else PathLink(up, m, n)
  }

  /** The field values that spell a whole tree. */
  ghost function Spelling(t: Tree): map<Node, Links> {
    map n | n in Nodes(t) :: Link(t, null, n)
  }

  ghost predicate Spells(m: map<Node, Links>)
    reads m.Keys
  {
    forall n :: n in m ==> Fields(n) == m[n]
  }

  // ------------------------------------------------------------------ lemmas

  lemma {:induction false} PlugNodes(p: Path, t: Tree)
    ensures Nodes(Plug(p, t)) == PathNodes(p) + Nodes(t)
  {
    match p
    case Top =>
    case InLeft(up, n, c, r) => PlugNodes(up, Fork(t, n, c, r));
    case InRight(up, l, n, c) => PlugNodes(up, Fork(l, n, c, t));
  }

  lemma {:induction false} PlugInorder(p: Path, t: Tree)
    ensures Inorder(Plug(p, t)) == Before(p) + Inorder(t) + After(p)
  {
    match p
    case Top =>
    case InLeft(up, n, c, r) => PlugInorder(up, Fork(t, n, c, r));
    case InRight(up, l, n, c) => PlugInorder(up, Fork(l, n, c, t));
  }

  lemma {:induction false} PlugDistinct(p: Path, t: Tree)
    ensures Distinct(Plug(p, t)) <==> Distinct(t) && PathDistinct(p) && Nodes(t) !! PathNodes(p)
  {
    match p
    case Top =>
    case InLeft(up, n, c, r) => PlugDistinct(up, Fork(t, n, c, r));
    case InRight(up, l, n, c) => PlugDistinct(up, Fork(l, n, c, t));
  }

  /** The field values of a tree split at every position. */
  lemma {:induction false} PlugLink(p: Path, t: Tree, n: Node)
    requires Distinct(Plug(p, t)) && n in Nodes(Plug(p, t))
    ensures Nodes(Plug(p, t)) == Nodes(t) + PathNodes(p)
    ensures Link(Plug(p, t), null, n)
         == if n in Nodes(t) then Link(t, ParentOf(p), n) else PathLink(p, Root(t), n)
  {
    PlugNodes(p, t);
    match p
    case Top =>
    case InLeft(up, m, c, r) =>
      var f := Fork(t, m, c, r);
      PlugLink(up, f, n);
      PlugDistinct(up, f);
    case InRight(up, l, m, c) =>
      var f := Fork(l, m, c, t);
      PlugLink(up, f, n);
      PlugDistinct(up, f);
  }

  lemma {:induction false} PlugRoot(p: Path, t: Tree)
    ensures Root(Plug(p, t)) == if p.Top? then Root(t) else Outermost(p)
  {
    match p
    case Top =>
    case InLeft(up, n, c, r) => PlugRoot(up, Fork(t, n, c, r));
    case InRight(up, l, n, c) => PlugRoot(up, Fork(l, n, c, t));
  }

  lemma {:induction false} OutermostNode(p: Path)
    requires !p.Top?
    ensures Outermost(p) in PathNodes(p)
  {
    if !p.up.Top? { OutermostNode(p.up); }
  }

  lemma {:induction false} PlugJoined(inner: Path, outer: Path, t: Tree)
    ensures Plug(Joined(inner, outer), t) == Plug(outer, Plug(inner, t))
  {
    match inner
    case Top =>
    case InLeft(up, n, c, r) => PlugJoined(up, outer, Fork(t, n, c, r));
    case InRight(up, l, n, c) => PlugJoined(up, outer, Fork(l, n, c, t));
  }

  lemma {:induction false} InorderNodes(t: Tree)
    ensures forall n :: n in Inorder(t) <==> n in Nodes(t)
    ensures |Inorder(t)| == 0 <==> t.Leaf?
  {
    match t
    case Leaf =>
    case Fork(l, _, _, r) => InorderNodes(l); InorderNodes(r);
  }

  /** Every node of a tree has a position. */
  lemma {:induction false} Locate(t: Tree, n: Node) returns (p: Path, s: Tree)
    requires n in Nodes(t)
    ensures s.Fork? && s.node == n && Plug(p, s) == t
  {
    if n == t.node {
      p, s := Top, t;
    } else if n in Nodes(t.left) {
      var q;
      q, s := Locate(t.left, n);
      p := Joined(q, InLeft(Top, t.node, t.color, t.right));
      PlugJoined(q, InLeft(Top, t.node, t.color, t.right), s);
    } else {
      var q;
      q, s := Locate(t.right, n);
      p := Joined(q, InRight(Top, t.left, t.node, t.color));
      PlugJoined(q, InRight(Top, t.left, t.node, t.color), s);
    }
  }

  // ---------------------------------------------- how edits change the fields

  ghost function RotatedLeft(s: Tree): Tree
    requires s.Fork? && s.right.Fork?
  {
    Fork(Fork(s.left, s.node, s.color, s.right.left), s.right.node, s.right.color, s.right.right)
  }

  ghost function RotatedRight(s: Tree): Tree
    requires s.Fork? && s.left.Fork?
  {
    Fork(s.left.left, s.left.node, s.left.color, Fork(s.left.right, s.node, s.color, s.right))
  }

  /** Which side of its parent a position is on can be read off the parent's fields. */
  lemma SideOf(p: Path, at: Node)
    requires !p.Top? && at !in PathNodes(p)
    ensures PathLink(p, at, p.node).left == at <==> p.InLeft?
    ensures PathLink(p, at, p.node).right == at <==> p.InRight?
  {
    var t := if p.InLeft? then p.right else p.left;
    assert t.Fork? ==> t.node in Nodes(t);
  }

  lemma RecolorLink(p: Path, s: Tree, c: Color, n: Node)
    requires s.Fork? && Distinct(Plug(p, s)) && n in Nodes(Plug(p, s))
    ensures Nodes(Plug(p, s.(color := c))) == Nodes(Plug(p, s)) && Distinct(Plug(p, s.(color := c)))
    ensures
      var was := Link(Plug(p, s), null, n);
      Link(Plug(p, s.(color := c)), null, n) == if n == s.node then was.(color := c) else was
  {
    var t := s.(color := c);
    PlugDistinct(p, s);
    PlugDistinct(p, t);
    PlugNodes(p, s);
    PlugNodes(p, t);
    PlugLink(p, s, n);
    PlugLink(p, t, n);
  }

  /** A rotation at a position changes a few fields of at most four nodes. */
  lemma RotateLeftLink(p: Path, s: Tree, n: Node)
    requires s.Fork? && s.right.Fork? && Distinct(Plug(p, s)) && n in Nodes(Plug(p, s))
    ensures Nodes(Plug(p, RotatedLeft(s))) == Nodes(Plug(p, s)) && Distinct(Plug(p, RotatedLeft(s)))
    ensures
      var x, y, b := s.node, s.right.node, s.right.left;
      var was := Link(Plug(p, s), null, n);
      Link(Plug(p, RotatedLeft(s)), null, n)
      == if n == x then was.(right := Root(b), parent := y)
         else if n == y then was.(left := x, parent := ParentOf(p))
         else if n == Root(b) then was.(parent := x)
         else if n == ParentOf(p) then (if p.InLeft? then was.(left := y) else was.(right := y))
         else was
  {
    var t := RotatedLeft(s);
    PlugDistinct(p, s);
    assert Nodes(t) == Nodes(s);
    assert Distinct(t);
    PlugDistinct(p, t);
    PlugNodes(p, s);
    PlugNodes(p, t);
    PlugLink(p, s, n);
    PlugLink(p, t, n);
    if n in Nodes(s) {
      RotateLeftInside(s, ParentOf(p), n);
    }
  }

  lemma RotateLeftInside(s: Tree, parent: Node?, n: Node)
    requires s.Fork? && s.right.Fork? && Distinct(s) && n in Nodes(s)
    ensures
      var x, y, b := s.node, s.right.node, s.right.left;
      var was := Link(s, parent, n);
      n in Nodes(RotatedLeft(s)) &&
      Link(RotatedLeft(s), parent, n)
      == if n == x then was.(right := Root(b), parent := y)
         else if n == y then was.(left := x, parent := parent)
         else if n == Root(b) then was.(parent := x)
         else was
  {
    var x, y := s.node, s.right.node;
    var a, b, c := s.left, s.right.left, s.right.right;
    var t := RotatedLeft(s);
    assert Distinct(s.right) && Distinct(b);
    assert y in Nodes(s.right);
    assert b.Fork? ==> b.node in Nodes(b);
    if n in Nodes(a) {
      assert Link(t.left, y, n) == Link(a, x, n);
    } else if n in Nodes(b) {
      assert Link(s.right, x, n) == Link(b, y, n);
      assert Link(t.left, y, n) == Link(b, x, n);
    } else if n in Nodes(c) {
      assert Link(s.right, x, n) == Link(c, y, n);
    } else if n == y {
      assert Link(s, parent, n) == Link(s.right, x, n);
    }
  }

  /** A rotation at a position changes a few fields of at most four nodes. */
  lemma RotateRightLink(p: Path, s: Tree, n: Node)
    requires s.Fork? && s.left.Fork? && Distinct(Plug(p, s)) && n in Nodes(Plug(p, s))
    ensures Nodes(Plug(p, RotatedRight(s))) == Nodes(Plug(p, s)) && Distinct(Plug(p, RotatedRight(s)))
    ensures
      var x, y, b := s.node, s.left.node, s.left.right;
      var was := Link(Plug(p, s), null, n);
      Link(Plug(p, RotatedRight(s)), null, n)
      == if n == x then was.(left := Root(b), parent := y)
         else if n == y then was.(right := x, parent := ParentOf(p))
         else if n == Root(b) then was.(parent := x)
         else if n == ParentOf(p) then (if p.InLeft? then was.(left := y) else was.(right := y))
         else was
  {
    var t := RotatedRight(s);
    PlugDistinct(p, s);
    assert Nodes(t) == Nodes(s);
    assert Distinct(t);
    PlugDistinct(p, t);
    PlugNodes(p, s);
    PlugNodes(p, t);
    PlugLink(p, s, n);
    PlugLink(p, t, n);
    if n in Nodes(s) {
      RotateRightInside(s, ParentOf(p), n);
    }
  }

  lemma RotateRightInside(s: Tree, parent: Node?, n: Node)
    requires s.Fork? && s.left.Fork? && Distinct(s) && n in Nodes(s)
    ensures
      var x, y, b := s.node, s.left.node, s.left.right;
      var was := Link(s, parent, n);
      n in Nodes(RotatedRight(s)) &&
      Link(RotatedRight(s), parent, n)
      == if n == x then was.(left := Root(b), parent := y)
         else if n == y then was.(right := x, parent := parent)
         else if n == Root(b) then was.(parent := x)
         else was
  {
    var x, y := s.node, s.left.node;
    var a, b, c := s.right, s.left.right, s.left.left;
    var t := RotatedRight(s);
    assert Distinct(s.left) && Distinct(b);
    assert y in Nodes(s.left);
    assert b.Fork? ==> b.node in Nodes(b);
    if n in Nodes(a) {
      assert Link(t.right, y, n) == Link(a, x, n);
    } else if n in Nodes(b) {
      assert Link(s.left, x, n) == Link(b, y, n);
      assert Link(t.right, y, n) == Link(b, x, n);
    } else if n in Nodes(c) {
      assert Link(s.left, x, n) == Link(c, y, n);
    } else if n == y {
      assert Link(s, parent, n) == Link(s.left, x, n);
    }
  }

  lemma RotatedLeftInorder(s: Tree)
    requires s.Fork? && s.right.Fork?
    ensures Inorder(RotatedLeft(s)) == Inorder(s)
  {
  }

  /** The nodes a rotation touches are four different ones, and it keeps the order. */
  lemma RotateLeftFacts(p: Path, s: Tree)
    requires s.Fork? && s.right.Fork? && Distinct(Plug(p, s))
    ensures
      var x, y, b := s.node, s.right.node, s.right.left;
      && {x, y} <= Nodes(Plug(p, s)) && x != y
      && (b.Fork? ==> b.node in Nodes(Plug(p, s)) && b.node !in {x, y})
      && (!p.Top? ==> p.node in Nodes(Plug(p, s)) && p.node !in {x, y} && p.node != Root(b))
      && Link(Plug(p, s), null, x).right == y && Link(Plug(p, s), null, x).parent == ParentOf(p)
      && Link(Plug(p, s), null, y).left == Root(b)
      && (!p.Top? ==> var up := Link(Plug(p, s), null, p.node);
          (up.left == x <==> p.InLeft?) && (up.right == x <==> p.InRight?))
    ensures Inorder(Plug(p, RotatedLeft(s))) == Inorder(Plug(p, s))
    ensures Root(Plug(p, RotatedLeft(s))) == if p.Top? then s.right.node else Root(Plug(p, s))
  {
    var y, b := s.right.node, s.right.left;
    RotatedLeftInorder(s);
    PlugDistinct(p, s);
    PlugNodes(p, s);
    assert y in Nodes(s.right);
    PlugLink(p, s, y);
    PlugLink(p, s, s.node);
    if !p.Top? { PlugLink(p, s, p.node); SideOf(p, s.node); }
    assert Link(s, ParentOf(p), y) == Link(s.right, s.node, y);
    assert Distinct(s.right) && (b.Fork? ==> b.node in Nodes(b));
    PlugRoot(p, s);
    PlugRoot(p, RotatedLeft(s));
    PlugInorder(p, s);
    PlugInorder(p, RotatedLeft(s));
  }

  lemma RotatedRightInorder(s: Tree)
    requires s.Fork? && s.left.Fork?
    ensures Inorder(RotatedRight(s)) == Inorder(s)
  {
  }

  /** The nodes a rotation touches are four different ones, and it keeps the order. */
  lemma RotateRightFacts(p: Path, s: Tree)
    requires s.Fork? && s.left.Fork? && Distinct(Plug(p, s))
    ensures
      var x, y, b := s.node, s.left.node, s.left.right;
      && {x, y} <= Nodes(Plug(p, s)) && x != y
      && (b.Fork? ==> b.node in Nodes(Plug(p, s)) && b.node !in {x, y})
      && (!p.Top? ==> p.node in Nodes(Plug(p, s)) && p.node !in {x, y} && p.node != Root(b))
      && Link(Plug(p, s), null, x).left == y && Link(Plug(p, s), null, x).parent == ParentOf(p)
      && Link(Plug(p, s), null, y).right == Root(b)
      && (!p.Top? ==> var up := Link(Plug(p, s), null, p.node);
          (up.left == x <==> p.InLeft?) && (up.right == x <==> p.InRight?))
    ensures Inorder(Plug(p, RotatedRight(s))) == Inorder(Plug(p, s))
    ensures Root(Plug(p, RotatedRight(s))) == if p.Top? then s.left.node else Root(Plug(p, s))
  {
    var y, b := s.left.node, s.left.right;
    RotatedRightInorder(s);
    PlugDistinct(p, s);
    PlugNodes(p, s);
    assert y in Nodes(s.left);
    PlugLink(p, s, y);
    PlugLink(p, s, s.node);
    if !p.Top? { PlugLink(p, s, p.node); SideOf(p, s.node); }
    assert Link(s, ParentOf(p), y) == Link(s.left, s.node, y);
    assert Distinct(s.left) && (b.Fork? ==> b.node in Nodes(b));
    PlugRoot(p, s);
    PlugRoot(p, RotatedRight(s));
    PlugInorder(p, s);
    PlugInorder(p, RotatedRight(s));
  }

  /** Field values in which a rotation at `x` is possible: the four nodes are different. */
  ghost predicate CanTurnLeft(m: map<Node, Links>, x: Node) {
    && x in m && m[x].right != null && m[x].right in m.Keys - {x}
    && var y, up := m[x].right, m[x].parent;
    && (m[y].left != null ==> m[y].left in m.Keys - {x, y})
    && (up != null ==> up in m.Keys - {x, y} && up != m[y].left && (m[up].left == x <==> m[up].right != x))
  }

  ghost function TurnedLeft(m: map<Node, Links>, x: Node): map<Node, Links>
    requires CanTurnLeft(m, x)
  {
    var y, up := m[x].right, m[x].parent;
    var b := m[y].left;
    map n | n in m ::
      if n == x then m[n].(right := b, parent := y)
      else if n == y then m[n].(left := x, parent := up)
      else if n == b then m[n].(parent := x)
      else if n == up then (if m[up].left == x then m[n].(left := y) else m[n].(right := y))
      else m[n]
  }

  /** A rotation at a position changes a few fields of at most four nodes. */
  lemma RotateLeftSpelling(p: Path, s: Tree)
    requires s.Fork? && s.right.Fork? && Distinct(Plug(p, s))
    ensures Nodes(Plug(p, RotatedLeft(s))) == Nodes(Plug(p, s)) && Distinct(Plug(p, RotatedLeft(s)))
    ensures Inorder(Plug(p, RotatedLeft(s))) == Inorder(Plug(p, s))
    ensures Root(Plug(p, RotatedLeft(s))) == if p.Top? then s.right.node else Root(Plug(p, s))
    ensures
      var m := Spelling(Plug(p, s));
      && CanTurnLeft(m, s.node) && m[s.node].right == s.right.node && m[s.node].parent == ParentOf(p)
      && Spelling(Plug(p, RotatedLeft(s))) == TurnedLeft(m, s.node)
  {
    hide Link, Plug, Nodes, Distinct, Inorder;
    RotateLeftFacts(p, s);
    var x := s.node;
    RotateLeftLink(p, s, x);
    var m, now := Spelling(Plug(p, s)), Spelling(Plug(p, RotatedLeft(s)));
    assert CanTurnLeft(m, x);
    var turned := TurnedLeft(m, x);
    forall n | n in m ensures now[n] == turned[n] { RotateLeftLink(p, s, n); }
  }

  /** Field values in which a rotation at `x` is possible: the four nodes are different. */
  ghost predicate CanTurnRight(m: map<Node, Links>, x: Node) {
    && x in m && m[x].left != null && m[x].left in m.Keys - {x}
    && var y, up := m[x].left, m[x].parent;
    && (m[y].right != null ==> m[y].right in m.Keys - {x, y})
    && (up != null ==> up in m.Keys - {x, y} && up != m[y].right && (m[up].left == x <==> m[up].right != x))
  }

  ghost function TurnedRight(m: map<Node, Links>, x: Node): map<Node, Links>
    requires CanTurnRight(m, x)
  {
    var y, up := m[x].left, m[x].parent;
    var b := m[y].right;
    map n | n in m ::
      if n == x then m[n].(left := b, parent := y)
      else if n == y then m[n].(right := x, parent := up)
      else if n == b then m[n].(parent := x)
      else if n == up then (if m[up].left == x then m[n].(left := y) else m[n].(right := y))
      else m[n]
  }

  /** A rotation at a position changes a few fields of at most four nodes. */
  lemma RotateRightSpelling(p: Path, s: Tree)
    requires s.Fork? && s.left.Fork? && Distinct(Plug(p, s))
    ensures Nodes(Plug(p, RotatedRight(s))) == Nodes(Plug(p, s)) && Distinct(Plug(p, RotatedRight(s)))
    ensures Inorder(Plug(p, RotatedRight(s))) == Inorder(Plug(p, s))
    ensures Root(Plug(p, RotatedRight(s))) == if p.Top? then s.left.node else Root(Plug(p, s))
    ensures
      var m := Spelling(Plug(p, s));
      && CanTurnRight(m, s.node) && m[s.node].left == s.left.node && m[s.node].parent == ParentOf(p)
      && Spelling(Plug(p, RotatedRight(s))) == TurnedRight(m, s.node)
  {
    hide Link, Plug, Nodes, Distinct, Inorder;
    RotateRightFacts(p, s);
    var x := s.node;
    RotateRightLink(p, s, x);
    var m, now := Spelling(Plug(p, s)), Spelling(Plug(p, RotatedRight(s)));
    assert CanTurnRight(m, x);
    var turned := TurnedRight(m, x);
    forall n | n in m ensures now[n] == turned[n] { RotateRightLink(p, s, n); }
  }

  // --------------------------------------------------- replacing a subtree

  /** Filling a position differently changes, outside it, one child link of the node above. */
  lemma ReplaceLink(p: Path, s: Tree, t: Tree, n: Node)
    requires Distinct(Plug(p, s)) && Distinct(t) && Nodes(t) !! PathNodes(p)
    requires n in Nodes(t) + PathNodes(p)
    ensures Distinct(Plug(p, t)) && Nodes(Plug(p, t)) == Nodes(t) + PathNodes(p)
    ensures n in Nodes(t) ==> Link(Plug(p, t), null, n) == Link(t, ParentOf(p), n)
    ensures PathNodes(p) <= Nodes(Plug(p, s))
    ensures n in PathNodes(p) ==>
      var was := Link(Plug(p, s), null, n);
      Link(Plug(p, t), null, n)
      == if n != ParentOf(p) then was else if p.InLeft? then was.(left := Root(t)) else was.(right := Root(t))
  {
    PlugDistinct(p, s);
    PlugDistinct(p, t);
    PlugNodes(p, s);
    PlugNodes(p, t);
    PlugLink(p, t, n);
    if n in PathNodes(p) {
      PlugLink(p, s, n);
      if n != p.node && n !in Nodes(if p.InLeft? then p.right else p.left) {
        assert PathLink(p, Root(s), n) == PathLink(p.up, p.node, n);
      }
    }
  }

  lemma ReparentLink(t: Tree, was: Node?, parent: Node?, n: Node)
    requires n in Nodes(t)
    ensures Link(t, parent, n) == if n == t.node then Link(t, was, n).(parent := parent) else Link(t, was, n)
  {
  }

  /** A node with at most one child gives its place to that child. */
  lemma SpliceLink(p: Path, s: Tree, t: Tree, n: Node)
    requires Distinct(Plug(p, s)) && s.Fork?
    requires (s.left.Leaf? && t == s.right) || (s.right.Leaf? && t == s.left)
    requires n in Nodes(Plug(p, s)) && n != s.node
    ensures Distinct(Plug(p, t)) && Nodes(Plug(p, t)) == Nodes(Plug(p, s)) - {s.node}
    ensures t.Fork? ==> t.node in Nodes(t) && t.node != ParentOf(p)
    ensures
      var was := Link(Plug(p, s), null, n);
      Link(Plug(p, t), null, n)
      == if n == Root(t) then was.(parent := ParentOf(p))
         else if n != ParentOf(p) then was
         else if p.InLeft? then was.(left := Root(t)) else was.(right := Root(t))
  {
    PlugDistinct(p, s);
    PlugNodes(p, s);
    assert Nodes(s) == Nodes(t) + {s.node};
    assert t.Fork? ==> t.node in Nodes(t);
    ReplaceLink(p, s, t, n);
    if n in Nodes(t) {
      PlugLink(p, s, n);
      ReparentLink(t, s.node, ParentOf(p), n);
    }
  }

  /** Another node takes over the place, links and colour of `s.node`. */
  lemma SubstituteLink(p: Path, s: Tree, m: Node, n: Node)
    requires Distinct(Plug(p, s)) && s.Fork? && m !in Nodes(Plug(p, s))
    requires n in Nodes(Plug(p, s)) - {s.node} + {m}
    ensures Distinct(Plug(p, s.(node := m)))
    ensures Nodes(Plug(p, s.(node := m))) == Nodes(Plug(p, s)) - {s.node} + {m}
    ensures s.node in Nodes(Plug(p, s))
    ensures Link(Plug(p, s), null, s.node) == Links(Root(s.left), Root(s.right), ParentOf(p), s.color)
    ensures n == m ==>
      Link(Plug(p, s.(node := m)), null, n) == Links(Root(s.left), Root(s.right), ParentOf(p), s.color)
    ensures n != m ==>
      var was := Link(Plug(p, s), null, n);
      Link(Plug(p, s.(node := m)), null, n)
      == if n == Root(s.left) || n == Root(s.right) then was.(parent := m)
         else if n != ParentOf(p) then was
         else if p.InLeft? then was.(left := m) else was.(right := m)
  {
    var t := s.(node := m);
    PlugDistinct(p, s);
    PlugNodes(p, s);
    assert Nodes(s) == Nodes(s.left) + Nodes(s.right) + {s.node};
    assert Nodes(t) == Nodes(s.left) + Nodes(s.right) + {m};
    ReplaceLink(p, s, t, n);
    PlugLink(p, s, s.node);
    assert s.left.Fork? ==> s.left.node in Nodes(s.left);
    assert s.right.Fork? ==> s.right.node in Nodes(s.right);
    if n in Nodes(s.left) {
      PlugLink(p, s, n);
      ReparentLink(s.left, s.node, m, n);
    } else if n in Nodes(s.right) {
      PlugLink(p, s, n);
      ReparentLink(s.right, s.node, m, n);
    }
  }

  /** The children and the parent of a position are different nodes. */
  lemma Neighbours(p: Path, s: Tree)
    requires Distinct(Plug(p, s)) && s.Fork?
    ensures s.left.Fork? ==> s.left.node in Nodes(Plug(p, s)) && s.left.node != s.node && s.left.node != ParentOf(p)
    ensures s.right.Fork? ==> s.right.node in Nodes(Plug(p, s)) && s.right.node != s.node && s.right.node != ParentOf(p)
    ensures s.left.Fork? && s.right.Fork? ==> s.left.node != s.right.node
    ensures !p.Top? ==> p.node in Nodes(Plug(p, s)) && p.node != s.node
  {
    PlugDistinct(p, s);
    PlugNodes(p, s);
    assert s.left.Fork? ==> s.left.node in Nodes(s.left);
    assert s.right.Fork? ==> s.right.node in Nodes(s.right);
  }
}
