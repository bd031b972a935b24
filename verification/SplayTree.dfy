/** The top-down splay tree of deps/include/tree.h.

    While a splay is under way the elements are in three pieces: the tree still
    hanging from the head, a left tree of smaller elements whose right spine is
    open at its end, and a right tree of larger ones open at the end of its left
    spine.  The open trees are `Spine` values; the local dummy node of the
    algorithm holds their roots. */
module SplayTree {

  class Node {
    const key: int
    var left: Node?
    var right: Node?

    constructor (key: int)
      ensures this.key == key
    {
      this.key := key;
      left, right := null, null;
    }
  }

  datatype Tree = Leaf | Fork(left: Tree, node: Node, right: Tree)

  /** A tree open at the end of one spine: each node keeps its outer subtree. */
  datatype Spine = End | Link(up: Spine, node: Node, outer: Tree)

  /** Which spine is open: the right one of the left tree, or the left one of the right tree. */
  datatype Side = Smaller | Larger

  datatype Links = Links(left: Node?, right: Node?)

  // ------------------------------------------------------------- the values

  ghost function Root(t: Tree): Node? {
    if t.Leaf? then null else t.node
  }

  ghost function Nodes(t: Tree): set<Node> {
    if t.Leaf? then {} else Nodes(t.left) + {t.node} + Nodes(t.right)
  }

  ghost function SpineNodes(s: Spine): set<Node> {
    if s.End? then {} else SpineNodes(s.up) + {s.node} + Nodes(s.outer)
  }

  ghost function Inorder(t: Tree): seq<Node> {
    if t.Leaf? then [] else Inorder(t.left) + [t.node] + Inorder(t.right)
  }

  ghost function SpineOrder(d: Side, s: Spine): seq<Node> {
    if s.End? then []
    else if d.Smaller? then SpineOrder(d, s.up) + Inorder(s.outer) + [s.node]
    else [s.node] + Inorder(s.outer) + SpineOrder(d, s.up)
  }

  ghost function Size(t: Tree): nat {
    if t.Leaf? then 0 else Size(t.left) + 1 + Size(t.right)
  }

  /** The open tree closed with `t`. */
  ghost function Close(d: Side, s: Spine, t: Tree): Tree {
    if s.End? then t
    else if d.Smaller? then Close(d, s.up, Fork(s.outer, s.node, t))
    else Close(d, s.up, Fork(t, s.node, s.outer))
  }

  ghost function Outermost(s: Spine): Node
    requires s.Link?
  {
    if s.up.End? then s.node else Outermost(s.up)
  }

  ghost predicate Distinct(t: Tree) {
    t.Leaf? ||
    (t.node !in Nodes(t.left) && t.node !in Nodes(t.right) && Nodes(t.left) !! Nodes(t.right)
     && Distinct(t.left) && Distinct(t.right))
  }

  ghost predicate SpineDistinct(s: Spine) {
    s.End? ||
    (s.node !in Nodes(s.outer) && s.node !in SpineNodes(s.up) && Nodes(s.outer) !! SpineNodes(s.up)
     && Distinct(s.outer) && SpineDistinct(s.up))
  }

  // --------------------------------------------------- fields that spell them

  ghost function Fields(n: Node): Links
    reads n
  {
    Links(n.left, n.right)
  }

  ghost function Spelt(t: Tree, n: Node): Links
    requires n in Nodes(t)
  {
    if n == t.node then Links(Root(t.left), Root(t.right))
    else if n in Nodes(t.left) then Spelt(t.left, n) else Spelt(t.right, n)
  }

  /** `at` is what the open end points to. */
  ghost function SpineSpelt(d: Side, s: Spine, at: Node?, n: Node): Links
    requires n in SpineNodes(s)
  {
    if n == s.node then (if d.Smaller? then Links(Root(s.outer), at) else Links(at, Root(s.outer)))
    else if n in Nodes(s.outer) then Spelt(s.outer, n)
    else SpineSpelt(d, s.up, s.node, n)
  }

  // ------------------------------------------------------------------ lemmas

  lemma {:induction false} CloseNodes(d: Side, s: Spine, t: Tree)
    ensures Nodes(Close(d, s, t)) == SpineNodes(s) + Nodes(t)
    ensures Root(Close(d, s, t)) == if s.End? then Root(t) else Outermost(s)
  {
    if s.Link? { CloseNodes(d, s.up, if d.Smaller? then Fork(s.outer, s.node, t) else Fork(t, s.node, s.outer)); }
  }

  lemma {:induction false} CloseDistinct(d: Side, s: Spine, t: Tree)
    requires Distinct(t) && SpineDistinct(s) && Nodes(t) !! SpineNodes(s)
    ensures Distinct(Close(d, s, t))
  {
    if s.Link? { CloseDistinct(d, s.up, if d.Smaller? then Fork(s.outer, s.node, t) else Fork(t, s.node, s.outer)); }
  }

  lemma {:induction false} CloseOrder(d: Side, s: Spine, t: Tree)
    ensures Inorder(Close(d, s, t))
         == if d.Smaller? then SpineOrder(d, s) + Inorder(t) else Inorder(t) + SpineOrder(d, s)
  {
    if s.Link? { CloseOrder(d, s.up, if d.Smaller? then Fork(s.outer, s.node, t) else Fork(t, s.node, s.outer)); }
  }

  lemma {:induction false} CloseSpelt(d: Side, s: Spine, t: Tree, n: Node)
    requires Distinct(t) && SpineDistinct(s) && Nodes(t) !! SpineNodes(s) && n in SpineNodes(s) + Nodes(t)
    ensures n in Nodes(Close(d, s, t))
    ensures Spelt(Close(d, s, t), n) == if n in Nodes(t) then Spelt(t, n) else SpineSpelt(d, s, Root(t), n)
  {
    CloseNodes(d, s, t);
    if s.Link? {
      var f := if d.Smaller? then Fork(s.outer, s.node, t) else Fork(t, s.node, s.outer);
      CloseSpelt(d, s.up, f, n);
    }
  }

  lemma {:induction false} OutermostNode(s: Spine)
    requires s.Link?
    ensures Outermost(s) in SpineNodes(s)
  {
    if s.up.Link? { OutermostNode(s.up); }
  }

  lemma {:induction false} InorderNodes(t: Tree)
    ensures forall n :: n in Inorder(t) <==> n in Nodes(t)
  {
    if t.Fork? { InorderNodes(t.left); InorderNodes(t.right); }
  }

  // ------------------------------------------------------ the three pieces

  datatype Pieces = Pieces(small: Spine, mid: Tree, large: Spine)

  ghost function AllNodes(w: Pieces): set<Node> {
    SpineNodes(w.small) + Nodes(w.mid) + SpineNodes(w.large)
  }

  ghost function Order(w: Pieces): seq<Node> {
    SpineOrder(Smaller, w.small) + Inorder(w.mid) + SpineOrder(Larger, w.large)
  }

  ghost predicate Apart(w: Pieces, dummy: Node) {
    && SpineDistinct(w.small) && Distinct(w.mid) && SpineDistinct(w.large)
    && SpineNodes(w.small) !! Nodes(w.mid) && SpineNodes(w.small) !! SpineNodes(w.large)
    && Nodes(w.mid) !! SpineNodes(w.large) && dummy !in AllNodes(w)
  }

  /** What the macros do to the pieces. */
  ghost function TurnedRight(w: Pieces): Pieces
    requires w.mid.Fork? && w.mid.left.Fork?
  {
    var m := w.mid;
    w.(mid := Fork(m.left.left, m.left.node, Fork(m.left.right, m.node, m.right)))
  }

  ghost function TurnedLeft(w: Pieces): Pieces
    requires w.mid.Fork? && w.mid.right.Fork?
  {
    var m := w.mid;
    w.(mid := Fork(Fork(m.left, m.node, m.right.left), m.right.node, m.right.right))
  }

  /** The root and its right subtree go to the larger elements. */
  ghost function LinkedLeft(w: Pieces): Pieces
    requires w.mid.Fork?
  {
    Pieces(w.small, w.mid.left, Link(w.large, w.mid.node, w.mid.right))
  }

  ghost function LinkedRight(w: Pieces): Pieces
    requires w.mid.Fork?
  {
    Pieces(Link(w.small, w.mid.node, w.mid.left), w.mid.right, w.large)
  }

  ghost function Assembled(w: Pieces): Tree
    requires w.mid.Fork?
  {
    Fork(Close(Smaller, w.small, w.mid.left), w.mid.node, Close(Larger, w.large, w.mid.right))
  }

  lemma RightTurn(t: Tree)
    requires t.Fork? && t.left.Fork?
    ensures Inorder(Fork(t.left.left, t.left.node, Fork(t.left.right, t.node, t.right))) == Inorder(t)
  {
    var a, b, c := Inorder(t.left.left), Inorder(t.left.right), Inorder(t.right);
    assert Inorder(t) == (a + [t.left.node] + b) + [t.node] + c;
    assert Inorder(Fork(t.left.right, t.node, t.right)) == b + [t.node] + c;
    assert (a + [t.left.node] + b) + [t.node] + c == a + [t.left.node] + (b + [t.node] + c);
  }

  lemma LeftTurn(t: Tree)
    requires t.Fork? && t.right.Fork?
    ensures Inorder(Fork(Fork(t.left, t.node, t.right.left), t.right.node, t.right.right)) == Inorder(t)
  {
    var a, b, c := Inorder(t.left), Inorder(t.right.left), Inorder(t.right.right);
    assert Inorder(t) == a + [t.node] + (b + [t.right.node] + c);
    assert Inorder(Fork(t.left, t.node, t.right.left)) == a + [t.node] + b;
    assert (a + [t.node] + b) + [t.right.node] + c == a + [t.node] + (b + [t.right.node] + c);
  }

  lemma TurnedOrder(w: Pieces)
    requires w.mid.Fork?
    ensures w.mid.left.Fork? ==> Order(TurnedRight(w)) == Order(w) && AllNodes(TurnedRight(w)) == AllNodes(w)
    ensures w.mid.right.Fork? ==> Order(TurnedLeft(w)) == Order(w) && AllNodes(TurnedLeft(w)) == AllNodes(w)
    ensures w.mid.left.Fork? ==> Size(TurnedRight(w).mid) == Size(w.mid)
    ensures w.mid.right.Fork? ==> Size(TurnedLeft(w).mid) == Size(w.mid)
  {
    if w.mid.left.Fork? {
      RightTurn(w.mid);
      assert Nodes(TurnedRight(w).mid) == Nodes(w.mid) && Size(TurnedRight(w).mid) == Size(w.mid);
    }
    if w.mid.right.Fork? {
      LeftTurn(w.mid);
      assert Nodes(TurnedLeft(w).mid) == Nodes(w.mid) && Size(TurnedLeft(w).mid) == Size(w.mid);
    }
  }

  lemma MidOrder(t: Tree)
    requires t.Fork?
    ensures Inorder(t) == Inorder(t.left) + [t.node] + Inorder(t.right)
  {
  }

  lemma LinkedOrder(w: Pieces)
    requires w.mid.Fork?
    ensures Order(LinkedLeft(w)) == Order(w) && AllNodes(LinkedLeft(w)) == AllNodes(w)
    ensures Order(LinkedRight(w)) == Order(w) && AllNodes(LinkedRight(w)) == AllNodes(w)
  {
    hide Inorder;
    MidOrder(w.mid);
    var a, l, m, r, b := SpineOrder(Smaller, w.small), Inorder(w.mid.left), [w.mid.node], Inorder(w.mid.right), SpineOrder(Larger, w.large);
    assert a + l + (m + r + b) == a + (l + m + r) + b;
    assert (a + l + m) + r + b == a + (l + m + r) + b;
  }

  lemma AssembledOrder(w: Pieces)
    requires w.mid.Fork?
    ensures Inorder(Assembled(w)) == Order(w)
    ensures Inorder(Assembled(w).left) == SpineOrder(Smaller, w.small) + Inorder(w.mid.left)
    ensures Inorder(Assembled(w).right) == Inorder(w.mid.right) + SpineOrder(Larger, w.large)
  {
    hide SpineOrder, Close, Inorder;
    CloseOrder(Smaller, w.small, w.mid.left);
    CloseOrder(Larger, w.large, w.mid.right);
    MidOrder(w.mid);
    MidOrder(Assembled(w));
    var a, l, m, r, b := SpineOrder(Smaller, w.small), Inorder(w.mid.left), [w.mid.node], Inorder(w.mid.right), SpineOrder(Larger, w.large);
    assert (a + l) + m + (r + b) == a + (l + m + r) + b;
  }

  lemma TurnedRightSpelt(w: Pieces, dummy: Node, n: Node)
    requires Apart(w, dummy) && w.mid.Fork? && w.mid.left.Fork?
    ensures Apart(TurnedRight(w), dummy) && w.mid.node != w.mid.left.node && w.mid.left.node in Nodes(w.mid)
    ensures Spelt(w.mid, w.mid.left.node).right == Root(w.mid.left.right)
    ensures Nodes(TurnedRight(w).mid) == Nodes(w.mid)
    ensures n in Nodes(w.mid) ==>
      var was := Spelt(w.mid, n);
      Spelt(TurnedRight(w).mid, n)
      == if n == w.mid.node then was.(left := Root(w.mid.left.right))
         else if n == w.mid.left.node then was.(right := w.mid.node) else was
  {
    var m, t := w.mid, TurnedRight(w).mid;
    assert Distinct(m.left) && m.left.node in Nodes(m.left);
    assert Nodes(t) == Nodes(m);
    if n in Nodes(m.left.right) {
      assert Spelt(m, n) == Spelt(m.left, n) == Spelt(m.left.right, n);
      assert Spelt(t, n) == Spelt(t.right, n);
    } else if n in Nodes(m.right) {
      assert Spelt(t, n) == Spelt(t.right, n);
    } else if n in Nodes(m.left) {
      assert Spelt(m, n) == Spelt(m.left, n);
    }
  }

  lemma TurnedLeftSpelt(w: Pieces, dummy: Node, n: Node)
    requires Apart(w, dummy) && w.mid.Fork? && w.mid.right.Fork?
    ensures Apart(TurnedLeft(w), dummy) && w.mid.node != w.mid.right.node && w.mid.right.node in Nodes(w.mid)
    ensures Spelt(w.mid, w.mid.right.node).left == Root(w.mid.right.left)
    ensures Nodes(TurnedLeft(w).mid) == Nodes(w.mid)
    ensures n in Nodes(w.mid) ==>
      var was := Spelt(w.mid, n);
      Spelt(TurnedLeft(w).mid, n)
      == if n == w.mid.node then was.(right := Root(w.mid.right.left))
         else if n == w.mid.right.node then was.(left := w.mid.node) else was
  {
    var m, t := w.mid, TurnedLeft(w).mid;
    assert Distinct(m.right) && m.right.node in Nodes(m.right);
    assert Nodes(t) == Nodes(m);
    if n in Nodes(m.right.left) {
      assert Spelt(m, n) == Spelt(m.right, n) == Spelt(m.right.left, n);
      assert Spelt(t, n) == Spelt(t.left, n);
    } else if n in Nodes(m.left) {
      assert Spelt(t, n) == Spelt(t.left, n);
    } else if n in Nodes(m.right) {
      assert Spelt(m, n) == Spelt(m.right, n);
    }
  }

  lemma LinkedApart(w: Pieces, dummy: Node)
    requires Apart(w, dummy) && w.mid.Fork?
    ensures Apart(LinkedLeft(w), dummy) && Apart(LinkedRight(w), dummy)
    ensures w.mid.node in Nodes(w.mid)
    ensures w.mid.node !in SpineNodes(w.small) + SpineNodes(w.large) + Nodes(w.mid.left) + Nodes(w.mid.right)
  {
  }

  lemma AssembledSpelt(w: Pieces, dummy: Node, n: Node)
    requires Apart(w, dummy) && w.mid.Fork? && n in AllNodes(w)
    ensures Distinct(Assembled(w)) && Nodes(Assembled(w)) == AllNodes(w)
    ensures Spelt(Assembled(w), n)
         == var m := w.mid;
            if n == m.node then
              Links(if w.small.End? then Root(m.left) else Outermost(w.small),
                    if w.large.End? then Root(m.right) else Outermost(w.large))
            else if n in Nodes(m) then Spelt(m, n)
            else if n in SpineNodes(w.small) then SpineSpelt(Smaller, w.small, Root(m.left), n)
            else SpineSpelt(Larger, w.large, Root(m.right), n)
  {
    var m := w.mid;
    LinkedApart(w, dummy);
    CloseNodes(Smaller, w.small, m.left);
    CloseNodes(Larger, w.large, m.right);
    CloseDistinct(Smaller, w.small, m.left);
    CloseDistinct(Larger, w.large, m.right);
    if n in Nodes(m.left) + SpineNodes(w.small) {
      CloseSpelt(Smaller, w.small, m.left, n);
    } else if n != m.node {
      CloseSpelt(Larger, w.large, m.right, n);
    }
  }

  /** Where the open end points to shows in the fields of the node there, and nowhere else. */
  lemma SpineTip(d: Side, s: Spine, at: Node?, other: Node?, n: Node)
    requires n in SpineNodes(s)
    ensures SpineSpelt(d, s, other, n)
         == var was := SpineSpelt(d, s, at, n);
            if n != s.node then was else if d.Smaller? then was.(right := other) else was.(left := other)
  {
  }

  lemma AssembleFacts(w: Pieces, dummy: Node)
    requires Apart(w, dummy) && w.mid.Fork?
    ensures w.mid.node in AllNodes(w) && w.mid.node in Nodes(w.mid) && dummy !in AllNodes(w)
    ensures Spelt(w.mid, w.mid.node) == Links(Root(w.mid.left), Root(w.mid.right))
    ensures AllNodes(w) == SpineNodes(w.small) + Nodes(w.mid) + SpineNodes(w.large)
    ensures SpineNodes(w.small) !! Nodes(w.mid) && SpineNodes(w.small) !! SpineNodes(w.large)
    ensures Nodes(w.mid) !! SpineNodes(w.large)
    ensures w.small.Link? ==> w.small.node in SpineNodes(w.small)
    ensures w.large.Link? ==> w.large.node in SpineNodes(w.large)
    ensures w.small.End? ==> SpineNodes(w.small) == {}
    ensures w.large.End? ==> SpineNodes(w.large) == {}
    ensures Root(Assembled(w)) == w.mid.node
  {
  }

  // --------------------------------------------------------------- the head

  ghost predicate Sorted(s: seq<Node>) {
    forall i, j :: 0 <= i < j < |s| ==> s[i].key < s[j].key
  }

  /** The element comparison handed to the tree macros. */
  function Compare(a: Node, b: Node): int {
    a.key - b.key
  }

  lemma SortedAround(a: seq<Node>, n: Node, b: seq<Node>)
    requires Sorted(a + [n] + b)
    ensures forall m :: m in a ==> m.key < n.key
    ensures forall m :: m in b ==> n.key < m.key
  {
    var s := a + [n] + b;
    assert s[|a|] == n;
    forall m | m in a ensures m.key < n.key {
      var i :| 0 <= i < |a| && a[i] == m;
      assert s[i] == m;
    }
    forall m | m in b ensures n.key < m.key {
      var i :| 0 <= i < |b| && b[i] == m;
      assert s[|a| + 1 + i] == m;
    }
  }

  /** The elements set aside are on their sides of the key. */
  ghost predicate Aside(w: Pieces, k: int) {
    && (forall n :: n in SpineOrder(Smaller, w.small) ==> n.key < k)
    && (forall n :: n in SpineOrder(Larger, w.large) ==> k < n.key)
  }

  /** The root holds the key, or is its neighbour: everything to its left is below
      the key, everything to its right above. */
  ghost predicate Splayed(t: Tree, k: int) {
    && t.Fork?
    && (forall n :: n in Inorder(t.left) ==> n.key < k)
    && (forall n :: n in Inorder(t.right) ==> k < n.key)
  }

  /** A loop that stops here has found the key or has no way to go. */
  ghost predicate Settled(t: Tree, k: int) {
    t.Fork? && (k < t.node.key ==> t.left.Leaf?) && (k > t.node.key ==> t.right.Leaf?)
  }

  lemma AroundMid(w: Pieces)
    requires w.mid.Fork? && Sorted(Order(w))
    ensures forall n :: n in Inorder(w.mid.left) ==> n.key < w.mid.node.key
    ensures forall n :: n in Inorder(w.mid.right) ==> w.mid.node.key < n.key
  {
    hide SpineOrder, Sorted;
    var a, l, m, r, b := SpineOrder(Smaller, w.small), Inorder(w.mid.left), w.mid.node, Inorder(w.mid.right), SpineOrder(Larger, w.large);
    assert a + (l + [m] + r) + b == (a + l) + [m] + (r + b);
    SortedAround(a + l, m, r + b);
    assert forall n :: n in l ==> n in a + l;
    assert forall n :: n in r ==> n in r + b;
  }

  lemma AsideLinked(w: Pieces, k: int)
    requires w.mid.Fork? && Sorted(Order(w)) && Aside(w, k)
    ensures k < w.mid.node.key ==> Aside(LinkedLeft(w), k)
    ensures w.mid.node.key < k ==> Aside(LinkedRight(w), k)
  {
    hide Sorted, Order;
    AroundMid(w);
  }

  lemma AssembledSplayed(w: Pieces, k: int)
    requires w.mid.Fork? && Sorted(Order(w)) && Aside(w, k) && Settled(w.mid, k)
    ensures Splayed(Assembled(w), k) && Sorted(Inorder(Assembled(w)))
  {
    hide SpineOrder, Order, Sorted, Assembled;
    AroundMid(w);
    AssembledOrder(w);
    assert Assembled(w).Fork? by { AssembledFork(w); }
    assert w.mid.left.Leaf? ==> Inorder(w.mid.left) == [];
    assert w.mid.right.Leaf? ==> Inorder(w.mid.right) == [];
  }

  lemma AssembledFork(w: Pieces)
    requires w.mid.Fork?
    ensures Assembled(w).Fork? && Assembled(w).node == w.mid.node
  {
  }

  lemma Start(t: Tree, dummy: Node, k: int)
    requires Distinct(t) && dummy !in Nodes(t)
    ensures var w := Pieces(End, t, End);
      Apart(w, dummy) && Aside(w, k) && Order(w) == Inorder(t) && AllNodes(w) == Nodes(t)
      && SpineNodes(End) == {}
  {
  }

  lemma MidFacts(w: Pieces)
    requires w.mid.Fork?
    ensures w.mid.node in Nodes(w.mid) && Spelt(w.mid, w.mid.node) == Links(Root(w.mid.left), Root(w.mid.right))
    ensures w.mid.left.Fork? ==> var v := TurnedRight(w);
      v.mid.Fork? && v.mid.node == w.mid.left.node && Order(v) == Order(w) && AllNodes(v) == AllNodes(w)
      && v.small == w.small && v.large == w.large && Size(v.mid) == Size(w.mid)
    ensures w.mid.right.Fork? ==> var v := TurnedLeft(w);
      v.mid.Fork? && v.mid.node == w.mid.right.node && Order(v) == Order(w) && AllNodes(v) == AllNodes(w)
      && v.small == w.small && v.large == w.large && Size(v.mid) == Size(w.mid)
    ensures Order(LinkedLeft(w)) == Order(w) && AllNodes(LinkedLeft(w)) == AllNodes(w)
    ensures Order(LinkedRight(w)) == Order(w) && AllNodes(LinkedRight(w)) == AllNodes(w)
    ensures Size(w.mid.left) < Size(w.mid) && Size(w.mid.right) < Size(w.mid)
    ensures Nodes(w.mid) <= AllNodes(w)
    ensures (w.small.Link? ==> w.small.node in AllNodes(w)) && (w.large.Link? ==> w.large.node in AllNodes(w))
  {
    hide Order, Inorder, SpineOrder;
    TurnedOrder(w);
    LinkedOrder(w);
  }

  /** The sorted place of `x`. */
  ghost function InsertSorted(s: seq<Node>, x: Node): seq<Node> {
    if s == [] || x.key < s[0].key then [x] + s else [s[0]] + InsertSorted(s[1..], x)
  }

  lemma {:induction false} InsertSortedAt(a: seq<Node>, x: Node, b: seq<Node>)
    requires forall n :: n in a ==> n.key < x.key
    requires forall n :: n in b ==> x.key < n.key
    ensures InsertSorted(a + b, x) == a + [x] + b
  {
    if a == [] {
      assert a + b == b;
    } else {
      var t := a[1..];
      assert a == [a[0]] + t;
      assert a[0] in a && forall n :: n in t ==> n in a;
      InsertSortedAt(t, x, b);
      assert a + b == [a[0]] + (t + b);
      assert a + [x] + b == [a[0]] + (t + [x] + b);
    }
  }

  lemma SortedInsert(a: seq<Node>, x: Node, b: seq<Node>)
    requires Sorted(a + b)
    requires forall n :: n in a ==> n.key < x.key
    requires forall n :: n in b ==> x.key < n.key
    ensures Sorted(a + [x] + b)
  {
    var s, t := a + b, a + [x] + b;
    forall i, j | 0 <= i < j < |t| ensures t[i].key < t[j].key {
      assert i < |a| ==> t[i] == s[i] && t[i] in a;
      assert i > |a| ==> t[i] == s[i - 1] && t[i] in b;
      assert j < |a| ==> t[j] == s[j] && t[j] in a;
      assert j > |a| ==> t[j] == s[j - 1] && t[j] in b;
    }
  }

  /** The sequence with the elements of key `k` taken out. */
  ghost function WithoutKey(s: seq<Node>, k: int): seq<Node> {
    if s == [] then [] else (if s[0].key == k then [] else [s[0]]) + WithoutKey(s[1..], k)
  }

  lemma {:induction false} WithoutOther(s: seq<Node>, k: int)
    requires forall n :: n in s ==> n.key != k
    ensures WithoutKey(s, k) == s
  {
    if s != [] {
      assert s[0] in s && forall n :: n in s[1..] ==> n in s;
      WithoutOther(s[1..], k);
    }
  }

  lemma {:induction false} WithoutKeyAt(a: seq<Node>, x: Node, b: seq<Node>, k: int)
    requires x.key == k && (forall n :: n in a ==> n.key != k) && (forall n :: n in b ==> n.key != k)
    ensures WithoutKey(a + [x] + b, k) == a + b
  {
    if a == [] {
      WithoutOther(b, k);
      assert a + [x] + b == [x] + b && ([x] + b)[1..] == b && a + b == b;
    } else {
      var t := a[1..];
      assert a == [a[0]] + t && a[0] in a && forall n :: n in t ==> n in a;
      WithoutKeyAt(t, x, b, k);
      assert a + [x] + b == [a[0]] + (t + [x] + b);
      assert (a + [x] + b)[1..] == t + [x] + b;
      assert a + b == [a[0]] + (t + b);
    }
  }

  lemma SortedWithout(a: seq<Node>, x: Node, b: seq<Node>)
    requires Sorted(a + [x] + b)
    ensures Sorted(a + b)
  {
    var s, t := a + [x] + b, a + b;
    forall i, j | 0 <= i < j < |t| ensures t[i].key < t[j].key {
      assert t[i] == s[if i < |a| then i else i + 1];
      assert t[j] == s[if j < |a| then j else j + 1];
    }
  }

  lemma SortedParts(a: seq<Node>, b: seq<Node>)
    requires Sorted(a + b)
    ensures Sorted(a) && Sorted(b)
  {
    forall i, j | 0 <= i < j < |a| ensures a[i].key < a[j].key {
      assert (a + b)[i] == a[i] && (a + b)[j] == a[j];
    }
    forall i, j | 0 <= i < j < |b| ensures b[i].key < b[j].key {
      assert (a + b)[|a| + i] == b[i] && (a + b)[|a| + j] == b[j];
    }
  }

  /** With the key at the root or beside it, an insertion splits the tree there. */
  lemma InsertAtRoot(t: Tree, x: Node)
    requires Splayed(t, x.key) && Sorted(Inorder(t)) && t.node.key != x.key
    ensures var u := if x.key < t.node.key then Fork(t.left, x, t.(left := Leaf)) else Fork(t.(right := Leaf), x, t.right);
      Inorder(u) == InsertSorted(Inorder(t), x) && Sorted(Inorder(u))
    ensures forall n :: n in Inorder(t) ==> n.key != x.key
  {
    hide Sorted, InsertSorted;
    var l, m, r := Inorder(t.left), t.node, Inorder(t.right);
    SortedAround(l, m, r);
    if x.key < m.key {
      InsertSortedAt(l, x, [m] + r);
      assert l + ([m] + r) == Inorder(t);
      SortedInsert(l, x, [m] + r);
      assert Inorder(t.(left := Leaf)) == [m] + r;
    } else {
      InsertSortedAt(l + [m], x, r);
      SortedInsert(l + [m], x, r);
      assert Inorder(t.(right := Leaf)) == l + [m];
    }
  }

  /** A tree splayed at its own root element, without it. */
  lemma RemoveAtRoot(t: Tree, k: int)
    requires Splayed(t, k) && Sorted(Inorder(t)) && t.node.key == k
    ensures WithoutKey(Inorder(t), k) == Inorder(t.left) + Inorder(t.right)
    ensures t.left.Leaf? ==> WithoutKey(Inorder(t), k) == Inorder(t.right)
    ensures t.node in Inorder(t) && forall n :: n in Inorder(t.left) ==> n.key < k
    ensures Sorted(Inorder(t.left) + Inorder(t.right)) && Sorted(Inorder(t.left)) && Sorted(Inorder(t.right))
  {
    hide Sorted, WithoutKey;
    var l, m, r := Inorder(t.left), t.node, Inorder(t.right);
    WithoutKeyAt(l, m, r, k);
    assert [] + r == r;
    SortedWithout(l, m, r);
    SortedParts(l, r);
  }

  lemma MissingKey(t: Tree, k: int)
    requires Splayed(t, k) && t.node.key != k
    ensures forall n :: n in Inorder(t) ==> n.key != k
    ensures WithoutKey(Inorder(t), k) == Inorder(t)
  {
    WithoutOther(Inorder(t), k);
  }

  /** All keys being smaller, a splayed tree has nothing on the right. */
  lemma MaximumAtRoot(t: Tree, k: int)
    requires Splayed(t, k) && forall n :: n in Inorder(t) ==> n.key < k
    ensures t.right.Leaf?
  {
    assert forall n :: n in Inorder(t.right) ==> n in Inorder(t);
    assert t.right.Fork? ==> t.right.node in Inorder(t.right);
  }

  lemma RootIs(t: Tree, x: Node)
    requires Splayed(t, x.key) && x in Inorder(t)
    ensures t.node == x
  {
    assert forall n :: n in Inorder(t) <==> n in Inorder(t.left) + [t.node] + Inorder(t.right);
  }

  ghost function NextAt(w: seq<Node>, i: nat): Node?
    requires i < |w|
  {
    if i + 1 < |w| then w[i + 1] else null
  }

  ghost function First(t: Tree): Node? {
    if Inorder(t) == [] then null else Inorder(t)[0]
  }

  lemma AfterRoot(t: Tree)
    requires t.Fork? && Sorted(Inorder(t))
    ensures forall i :: 0 <= i < |Inorder(t)| && Inorder(t)[i] == t.node ==> NextAt(Inorder(t), i) == First(t.right)
  {
    var w, j := Inorder(t), |Inorder(t.left)|;
    assert w[j] == t.node && w[j + 1..] == Inorder(t.right);
    forall i | 0 <= i < |w| && w[i] == t.node ensures i == j {
      assert !(i < j) && !(j < i);
    }
  }

  lemma FirstStep(t: Tree)
    requires t.Fork?
    ensures t.left.Fork? ==> First(t.left) == First(t)
    ensures t.left.Leaf? ==> First(t) == t.node
    ensures t.left.Fork? ==> forall n :: n in Nodes(t.left) ==> n in Nodes(t)
  {
    if t.left.Fork? {
      assert Inorder(t.left) != [];
    } else {
      assert Inorder(t) == [t.node] + Inorder(t.right);
    }
  }

  lemma AssembledEnds(w: Pieces)
    requires w.mid.Fork?
    ensures Assembled(w).Fork?
    ensures w.small.End? && w.mid.left.Leaf? ==> Assembled(w).left.Leaf?
    ensures w.large.End? && w.mid.right.Leaf? ==> Assembled(w).right.Leaf?
  {
  }

  lemma Single(n: Node)
    ensures var t := Fork(Leaf, n, Leaf);
      Distinct(t) && Nodes(t) == {n} && Inorder(t) == [n] == InsertSorted([], n) && Spelt(t, n) == Links(null, null)
      && Sorted(Inorder(t)) && Inorder(Leaf) == []
  {
  }

  lemma RootFacts(t: Tree)
    ensures t.Fork? ==> t.node in Nodes(t) && t.node in Inorder(t) && Spelt(t, t.node) == Links(Root(t.left), Root(t.right))
    ensures forall n :: n in Inorder(t) <==> n in Nodes(t)
    ensures t.Fork? && Distinct(t) ==> t.node !in Nodes(t.left) && t.node !in Nodes(t.right)
  {
    InorderNodes(t);
  }

  lemma SubtreeSpelt(t: Tree, n: Node)
    requires Distinct(t) && t.Fork?
    ensures Distinct(t.left) && Distinct(t.right) && Nodes(t.left) !! Nodes(t.right)
    ensures Nodes(t) == Nodes(t.left) + {t.node} + Nodes(t.right)
    ensures n in Nodes(t.left) ==> Spelt(t.left, n) == Spelt(t, n)
    ensures n in Nodes(t.right) ==> Spelt(t.right, n) == Spelt(t, n)
  {
  }

  lemma SplitLeft(t: Tree, x: Node, n: Node)
    requires Distinct(t) && t.Fork? && x !in Nodes(t)
    ensures var u := Fork(t.left, x, t.(left := Leaf));
      Distinct(u) && Nodes(u) == Nodes(t) + {x}
    ensures n in Nodes(Fork(t.left, x, t.(left := Leaf))) ==>
      Spelt(Fork(t.left, x, t.(left := Leaf)), n)
      == if n == x then Links(Root(t.left), t.node) else if n == t.node then Links(null, Root(t.right)) else Spelt(t, n)
  {
    var v := t.(left := Leaf);
    assert Nodes(v) == {t.node} + Nodes(t.right);
    if n in Nodes(v) { assert n != t.node ==> Spelt(v, n) == Spelt(t.right, n); }
  }

  lemma SplitRight(t: Tree, x: Node, n: Node)
    requires Distinct(t) && t.Fork? && x !in Nodes(t)
    ensures var u := Fork(t.(right := Leaf), x, t.right);
      Distinct(u) && Nodes(u) == Nodes(t) + {x}
    ensures n in Nodes(Fork(t.(right := Leaf), x, t.right)) ==>
      Spelt(Fork(t.(right := Leaf), x, t.right), n)
      == if n == x then Links(t.node, Root(t.right)) else if n == t.node then Links(Root(t.left), null) else Spelt(t, n)
  {
    var v := t.(right := Leaf);
    assert Nodes(v) == {t.node} + Nodes(t.left);
    if n in Nodes(v) { assert n != t.node ==> Spelt(v, n) == Spelt(t.left, n); }
  }

  lemma HangRight(u: Tree, r: Tree, n: Node)
    requires u.Fork? && u.right.Leaf? && Distinct(u) && Distinct(r) && Nodes(u) !! Nodes(r)
    ensures var v := u.(right := r);
      Distinct(v) && Nodes(v) == Nodes(u) + Nodes(r) && Inorder(v) == Inorder(u) + Inorder(r)
    ensures n in Nodes(u.(right := r)) ==>
      Spelt(u.(right := r), n)
      == if n == u.node then Links(Root(u.left), Root(r)) else if n in Nodes(u) then Spelt(u, n) else Spelt(r, n)
  {
  }

  lemma LeafFirst()
    ensures First(Leaf) == null
  {
  }

  class Head {
    var root: Node?
    ghost var tree: Tree

    ghost predicate Shape()
      reads this, Nodes(tree)
    {
      Distinct(tree) && root == Root(tree) && forall n :: n in Nodes(tree) ==> Fields(n) == Spelt(tree, n)
    }

    ghost predicate Valid()
      reads this, Nodes(tree)
    {
      Shape() && Sorted(Inorder(tree))
    }

    constructor ()
      ensures Valid() && Inorder(tree) == []
    {
      root, tree := null, Leaf;
    }

    /** The state in the midst of a splay: `l` and `r` are the nodes at the open ends. */
    ghost predicate Working(w: Pieces, dummy: Node, l: Node, r: Node)
      reads this, {dummy} + AllNodes(w), l, r
    {
      && Apart(w, dummy) && root == Root(w.mid)
      && l == (if w.small.End? then dummy else w.small.node)
      && r == (if w.large.End? then dummy else w.large.node)
      && (w.small.Link? ==> dummy.right == Outermost(w.small))
      && (w.large.Link? ==> dummy.left == Outermost(w.large))
      && (forall n :: n in Nodes(w.mid) ==> Fields(n) == Spelt(w.mid, n))
      && (forall n :: n in SpineNodes(w.small) ==> Fields(n) == SpineSpelt(Smaller, w.small, l.right, n))
      && (forall n :: n in SpineNodes(w.large) ==> Fields(n) == SpineSpelt(Larger, w.large, r.left, n))
    }

    method RotateRight(tmp: Node, ghost w: Pieces, ghost dummy: Node, ghost l: Node, ghost r: Node)
      requires Working(w, dummy, l, r) && w.mid.Fork? && w.mid.left.Fork? && tmp == w.mid.left.node
      modifies `root, Nodes(w.mid)
      ensures Working(TurnedRight(w), dummy, l, r)
    {
      forall n: Node { TurnedRightSpelt(w, dummy, n); }
      root.left := tmp.right;
      tmp.right := root;
      root := tmp;
    }

    method RotateLeft(tmp: Node, ghost w: Pieces, ghost dummy: Node, ghost l: Node, ghost r: Node)
      requires Working(w, dummy, l, r) && w.mid.Fork? && w.mid.right.Fork? && tmp == w.mid.right.node
      modifies `root, Nodes(w.mid)
      ensures Working(TurnedLeft(w), dummy, l, r)
    {
      forall n: Node { TurnedLeftSpelt(w, dummy, n); }
      root.right := tmp.left;
      tmp.left := root;
      root := tmp;
    }

    method LinkLeft(tmp: Node, ghost w: Pieces, ghost dummy: Node, ghost l: Node) returns (r: Node)
      requires Working(w, dummy, l, tmp) && w.mid.Fork?
      modifies `root, tmp
      ensures Working(LinkedLeft(w), dummy, l, r)
    {
      LinkedApart(w, dummy);
      tmp.left := root;
      r := root;
      root := root.left;
    }

    method LinkRight(tmp: Node, ghost w: Pieces, ghost dummy: Node, ghost r: Node) returns (l: Node)
      requires Working(w, dummy, tmp, r) && w.mid.Fork?
      modifies `root, tmp
      ensures Working(LinkedRight(w), dummy, l, r)
    {
      LinkedApart(w, dummy);
      tmp.right := root;
      l := root;
      root := root.right;
    }

    method Assemble(node: Node, left: Node, right: Node, ghost w: Pieces)
      requires Working(w, node, left, right) && w.mid.Fork?
      modifies this, {node} + AllNodes(w)
      ensures Shape() && tree == Assembled(w) && Nodes(tree) == AllNodes(w)
    {
      hide Spelt, SpineSpelt, Nodes, SpineNodes, AllNodes, Close, Distinct, SpineDistinct, Assembled, Apart;
      AssembleFacts(w, node);
      forall n | n in AllNodes(w) { AssembledSpelt(w, node, n); }
      forall n | n in SpineNodes(w.small) { SpineTip(Smaller, w.small, left.right, Root(w.mid.left), n); }
      forall n | n in SpineNodes(w.large) { SpineTip(Larger, w.large, right.left, Root(w.mid.right), n); }
      left.right := root.left;
      right.left := root.right;
      root.left := node.right;
      root.right := node.left;
      tree := Assembled(w);
    }

    /** Brings the element with the key of `elm`, or a neighbour of that key, to the root. */
    method Splay(elm: Node)
      requires Valid() && tree.Fork?
      modifies this, Nodes(tree)
      ensures Valid() && Inorder(tree) == old(Inorder(tree)) && Nodes(tree) == old(Nodes(tree))
      ensures Splayed(tree, elm.key) && tree.Fork? && root == tree.node
    {
      hide Spelt, SpineSpelt, Nodes, SpineNodes, AllNodes, Distinct, SpineDistinct, Apart, Assembled,
        TurnedLeft, TurnedRight, Inorder, SpineOrder, Order, Sorted, Size, Splayed;
      ghost var before := Nodes(tree);
      assert allocated(before);
      var node := new Node(0);
      assert node !in before;
      node.left, node.right := null, null;
      var left, right := node, node;
      ghost var k, w := elm.key, Pieces(End, tree, End);
      Start(tree, node, k);
      var comp := Compare(elm, root);
      while comp != 0
        invariant fresh(node) && Working(w, node, left, right) && w.mid.Fork? && comp == Compare(elm, root)
        invariant Order(w) == old(Inorder(tree)) && AllNodes(w) == old(Nodes(tree)) && Aside(w, k)
        decreases Size(w.mid)
      {
        MidFacts(w);
        if comp < 0 {
          var tmp := root.left;
          if tmp == null {
            break;
          }
          if Compare(elm, tmp) < 0 {
            RotateRight(tmp, w, node, left, right);
            w := TurnedRight(w);
            MidFacts(w);
            if root.left == null {
              break;
            }
          }
          AsideLinked(w, k);
          right := LinkLeft(right, w, node, left);
          w := LinkedLeft(w);
        } else if comp > 0 {
          var tmp := root.right;
          if tmp == null {
            break;
          }
          if Compare(elm, tmp) > 0 {
            RotateLeft(tmp, w, node, left, right);
            w := TurnedLeft(w);
            MidFacts(w);
            if root.right == null {
              break;
            }
          }
          AsideLinked(w, k);
          left := LinkRight(left, w, node, right);
          w := LinkedRight(w);
        }
        comp := Compare(elm, root);
      }
      AssembledSplayed(w, k);
      AssembledOrder(w);
      AssembledEnds(w);
      Assemble(node, left, right, w);
    }

    /** Brings the first element (`comp < 0`) or the last to the root. */
    method SplayMinMax(comp: int)
      requires Valid() && tree.Fork? && comp != 0
      modifies this, Nodes(tree)
      ensures Valid() && Inorder(tree) == old(Inorder(tree)) && Nodes(tree) == old(Nodes(tree)) && tree.Fork?
      ensures if comp < 0 then tree.left.Leaf? else tree.right.Leaf?
    {
      hide Spelt, SpineSpelt, Nodes, SpineNodes, AllNodes, Distinct, SpineDistinct, Apart, Assembled,
        TurnedLeft, TurnedRight, Inorder, SpineOrder, Order, Sorted, Size;
      ghost var before := Nodes(tree);
      assert allocated(before);
      var node := new Node(0);
      assert node !in before;
      node.left, node.right := null, null;
      var left, right := node, node;
      ghost var w := Pieces(End, tree, End);
      Start(tree, node, 0);
      while true
        invariant fresh(node) && Working(w, node, left, right) && w.mid.Fork?
        invariant Order(w) == old(Inorder(tree)) && AllNodes(w) == old(Nodes(tree))
        invariant if comp < 0 then w.small.End? else w.large.End?
        decreases Size(w.mid)
      {
        MidFacts(w);
        if comp < 0 {
          var tmp := root.left;
          if tmp == null {
            break;
          }
          if comp < 0 {
            RotateRight(tmp, w, node, left, right);
            w := TurnedRight(w);
            MidFacts(w);
            if root.left == null {
              break;
            }
          }
          right := LinkLeft(right, w, node, left);
          w := LinkedLeft(w);
        } else if comp > 0 {
          var tmp := root.right;
          if tmp == null {
            break;
          }
          if comp > 0 {
            RotateLeft(tmp, w, node, left, right);
            w := TurnedLeft(w);
            MidFacts(w);
            if root.right == null {
              break;
            }
          }
          left := LinkRight(left, w, node, right);
          w := LinkedRight(w);
        }
      }
      AssembledOrder(w);
      AssembledEnds(w);
      Assemble(node, left, right, w);
    }

    method Insert(elm: Node) returns (res: Node?)
      requires Valid()
      modifies this, Nodes(tree), elm
      ensures Valid()
      ensures res != null ==> res == root && res in Inorder(tree) && res.key == elm.key && Inorder(tree) == old(Inorder(tree))
      ensures res == null ==> forall n :: n in old(Inorder(tree)) ==> n.key != elm.key
      ensures res == null ==> Inorder(tree) == InsertSorted(old(Inorder(tree)), elm) && root == elm
    {
      hide Spelt, Nodes, Inorder, Sorted, InsertSorted, Splayed, Distinct;
      if root == null {
        elm.left, elm.right := null, null;
        tree := Fork(Leaf, elm, Leaf);
        Single(elm);
      } else {
        Splay(elm);
        ghost var t := tree;
        RootFacts(t);
        var comp := Compare(elm, root);
        if comp < 0 {
          InsertAtRoot(t, elm);
          assert elm !in Nodes(t);
          forall n: Node { SplitLeft(t, elm, n); }
          elm.left := root.left;
          elm.right := root;
          root.left := null;
          tree := Fork(t.left, elm, t.(left := Leaf));
        } else if comp > 0 {
          InsertAtRoot(t, elm);
          assert elm !in Nodes(t);
          forall n: Node { SplitRight(t, elm, n); }
          elm.right := root.right;
          elm.left := root;
          root.right := null;
          tree := Fork(t.(right := Leaf), elm, t.right);
        } else {
          return root;
        }
      }
      root := elm;
      return null;
    }

    method Remove(elm: Node) returns (res: Node?)
      requires Valid()
      modifies this, Nodes(tree)
      ensures Valid() && Inorder(tree) == WithoutKey(old(Inorder(tree)), elm.key)
      ensures res == elm || res == null
      ensures res == elm <==> exists n :: n in old(Inorder(tree)) && n.key == elm.key
    {
      hide Spelt, Nodes, Inorder, Sorted, WithoutKey, Splayed, Distinct;
      EmptyFacts(elm.key);
      if root == null {
        return null;
      }
      Splay(elm);
      ghost var t, k := tree, elm.key;
      RootFacts(t);
      if Compare(elm, root) == 0 {
        RemoveAtRoot(t, k);
        forall n: Node { SubtreeSpelt(t, n); }
        if root.left == null {
          root := root.right;
          tree := t.right;
        } else {
          assert allocated(Nodes(t.right)) && allocated(Nodes(t.left));
          var tmp := root.right;
          root := root.left;
          tree := t.left;
          Splay(elm);
          RootFacts(tree);
          MaximumAtRoot(tree, k);
          ghost var u := tree;
          HangRight(u, t.right, root);
          forall n: Node { HangRight(u, t.right, n); }
          root.right := tmp;
          tree := u.(right := t.right);
        }
        return elm;
      }
      MissingKey(t, k);
      return null;
    }

    /** The element with an equal key. */
    method Find(elm: Node) returns (res: Node?)
      requires Valid()
      modifies this, Nodes(tree)
      ensures Valid() && Inorder(tree) == old(Inorder(tree)) && Nodes(tree) == old(Nodes(tree))
      ensures res != null ==> res == root && res in Inorder(tree) && res.key == elm.key
      ensures res == null ==> forall n :: n in Inorder(tree) ==> n.key != elm.key
    {
      hide Spelt, Nodes, Inorder, Sorted, Splayed, Distinct;
      EmptyFacts(elm.key);
      if root == null {
        return null;
      }
      Splay(elm);
      RootFacts(tree);
      if Compare(elm, root) == 0 {
        return root;
      }
      MissingKey(tree, elm.key);
      return null;
    }

    /** The element after `element` in the order. */
    method Next(element: Node) returns (elm: Node?)
      requires Valid() && element in Inorder(tree)
      modifies this, Nodes(tree)
      ensures Valid() && Inorder(tree) == old(Inorder(tree)) && Nodes(tree) == old(Nodes(tree))
      ensures forall i :: 0 <= i < |Inorder(tree)| && Inorder(tree)[i] == element ==> elm == NextAt(Inorder(tree), i)
    {
      hide Spelt, Nodes, Inorder, Sorted, Splayed, Distinct, First, NextAt;
      ghost var w := Inorder(tree);
      assert |w| > 0;
      EmptyFacts(element.key);
      Splay(element);
      RootIs(tree, element);
      RootFacts(tree);
      AfterRoot(tree);
      forall n: Node { SubtreeSpelt(tree, n); }
      if root.right != null {
        elm := element.right;
        ghost var t := tree.right;
        RootFacts(t);
        while elm.left != null
          invariant Valid() && tree.Fork? && t.Fork? && elm == t.node && First(t) == First(tree.right)
          invariant Inorder(tree) == w && Nodes(tree) == old(Nodes(tree))
          invariant forall n :: n in Nodes(t) ==> Fields(n) == Spelt(t, n)
          invariant Distinct(t) && Fields(elm) == Links(Root(t.left), Root(t.right))
          modifies {}
          decreases t
        {
          elm := elm.left;
          FirstStep(t);
          forall n: Node { SubtreeSpelt(t, n); }
          t := t.left;
          RootFacts(t);
        }
        FirstStep(t);
      } else {
        elm := null;
        assert First(tree.right) == null by { LeafFirst(); }
      }
    }

    /** The first element (`val < 0`) or the last, brought to the root. */
    method MinMax(val: int) returns (res: Node?)
      requires Valid() && val != 0
      modifies this, Nodes(tree)
      ensures Valid() && Inorder(tree) == old(Inorder(tree)) && Nodes(tree) == old(Nodes(tree))
      ensures var w := Inorder(tree);
        res == if w == [] then null else if val < 0 then w[0] else w[|w| - 1]
    {
      hide Spelt, Nodes, Sorted, Distinct;
      if root == null {
        return null;
      }
      SplayMinMax(val);
      return root;
    }

    /** Starting at the minimum and following `Next` visits every element once, in order,
        although every step rearranges the tree. */
    method ForEach() returns (visited: seq<Node>)
      requires Valid()
      modifies this, Nodes(tree)
      ensures Valid() && visited == Inorder(tree) == old(Inorder(tree))
    {
      hide Spelt, Nodes, Inorder, Sorted, Distinct;
      visited := [];
      ghost var w := Inorder(tree);
      var x := MinMax(-1);
      while x != null
        invariant Valid() && Inorder(tree) == w && Nodes(tree) == old(Nodes(tree))
        invariant |visited| <= |w| && visited == w[..|visited|]
        invariant x == if |visited| < |w| then w[|visited|] else null
        decreases |w| - |visited|
      {
        ghost var i := |visited|;
        assert x in w;
        visited := visited + [x];
        x := Next(x);
        assert Inorder(tree)[i] == visited[i] && |visited| == i + 1;
      }
    }

    lemma EmptyFacts(k: int)
      requires Valid()
      ensures (root == null <==> tree.Leaf?) && (root == null <==> Inorder(tree) == [])
      ensures root == null ==> WithoutKey(Inorder(tree), k) == Inorder(tree)
    {
    }
  }
}
