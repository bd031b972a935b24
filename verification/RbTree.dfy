/** The red-black tree operations of deps/include/tree.h as methods that overwrite
    the pointer and colour fields of the nodes.

    `Head.tree` is the ghost value the pointers spell; `Shape` ties the two.  The
    rebalancing loops touch the heap only through `Recolor` and the two rotations,
    whose contracts say how they change the ghost value at one position. */
module RbTree {
  import opened RbShape
  import opened RbBalance

  ghost predicate Sorted(s: seq<Node>) {
    forall i, j :: 0 <= i < j < |s| ==> s[i].key < s[j].key
  }

  /** The element comparison handed to the tree macros. */
  function Compare(a: Node, b: Node): int {
    a.key - b.key
  }

  /** The sorted place of `x`. */
  ghost function InsertSorted(s: seq<Node>, x: Node): seq<Node> {
    if s == [] || x.key < s[0].key then [x] + s else [s[0]] + InsertSorted(s[1..], x)
  }

  /** A key searched for can only be at this position or below. */
  ghost predicate Between(p: Path, k: int) {
    && (forall n :: n in Before(p) ==> n.key < k)
    && (forall n :: n in After(p) ==> k < n.key)
  }

  lemma SortedAround(a: seq<Node>, n: Node, b: seq<Node>)
    requires Sorted(a + [n] + b)
    ensures forall m :: m in a ==> m.key < n.key
    ensures forall m :: m in b ==> n.key < m.key
  {
    var s := a + [n] + b;
    assert s[|a|] == n;
    forall m | m in a ensures m.key < n.key {
      var i :| 0 <= i < |a| && a[i] == m;
      assert s[i] == m;
    }
    forall m | m in b ensures n.key < m.key {
      var i :| 0 <= i < |b| && b[i] == m;
      assert s[|a| + 1 + i] == m;
    }
  }

  lemma AtNode(p: Path, t: Tree)
    requires t.Fork?
    ensures Inorder(Plug(p, t)) == (Before(p) + Inorder(t.left)) + [t.node] + (Inorder(t.right) + After(p))
    ensures Before(GoRight(p, t)) == (Before(p) + Inorder(t.left)) + [t.node] && After(GoRight(p, t)) == After(p)
    ensures After(GoLeft(p, t)) == [t.node] + (Inorder(t.right) + After(p)) && Before(GoLeft(p, t)) == Before(p)
    ensures Plug(GoLeft(p, t), t.left) == Plug(p, t) == Plug(GoRight(p, t), t.right)
  {
    hide Plug, Inorder, Before, After;
    PlugInorder(p, t);
    NodeOrder(t);
    Regroup(Before(p), Inorder(t.left), [t.node], Inorder(t.right), After(p));
    SideOrder(p, t);
    PlugStep(p, t);
  }

  lemma NodeOrder(t: Tree)
    requires t.Fork?
    ensures Inorder(t) == Inorder(t.left) + [t.node] + Inorder(t.right)
  {
  }

  lemma Regroup(b: seq<Node>, l: seq<Node>, n: seq<Node>, r: seq<Node>, a: seq<Node>)
    ensures b + (l + n + r) + a == (b + l) + n + (r + a)
  {
  }

  lemma SideOrder(p: Path, t: Tree)
    requires t.Fork?
    ensures Before(GoRight(p, t)) == (Before(p) + Inorder(t.left)) + [t.node] && After(GoRight(p, t)) == After(p)
    ensures After(GoLeft(p, t)) == [t.node] + (Inorder(t.right) + After(p)) && Before(GoLeft(p, t)) == Before(p)
  {
    hide Inorder;
  }

  lemma PlugStep(p: Path, t: Tree)
    requires t.Fork?
    ensures Plug(GoLeft(p, t), t.left) == Plug(p, t) == Plug(GoRight(p, t), t.right)
  {
  }

  ghost function GoLeft(p: Path, t: Tree): Path
    requires t.Fork?
  {
    InLeft(p, t.node, t.color, t.right)
  }

  ghost function GoRight(p: Path, t: Tree): Path
    requires t.Fork?
  {
    InRight(p, t.left, t.node, t.color)
  }

  lemma SearchStart(t: Tree, k: int)
    ensures Plug(Top, t) == t && Between(Top, k)
  {
  }

  /** One step of a search from a node towards the key. */
  lemma SearchStep(p: Path, t: Tree, k: int)
    requires t.Fork? && Sorted(Inorder(Plug(p, t))) && Between(p, k)
    ensures k < t.node.key ==> Between(GoLeft(p, t), k)
    ensures k > t.node.key ==> Between(GoRight(p, t), k)
    ensures t.node in Inorder(Plug(p, t))
    ensures Plug(GoLeft(p, t), t.left) == Plug(p, t) == Plug(GoRight(p, t), t.right)
  {
    hide Plug, Inorder, Before, After, Sorted;
    AtNode(p, t);
    var a, b := Before(p) + Inorder(t.left), Inorder(t.right) + After(p);
    SortedAround(a, t.node, b);
    assert (a + [t.node] + b)[|a|] == t.node;
  }

  lemma {:induction false} InsertSortedAt(a: seq<Node>, x: Node, b: seq<Node>)
    requires forall n :: n in a ==> n.key < x.key
    requires forall n :: n in b ==> x.key < n.key
    ensures InsertSorted(a + b, x) == a + [x] + b
  {
    if a == [] {
      assert a + b == b;
    } else {
      var t := a[1..];
      assert a == [a[0]] + t;
      assert a[0] in a && forall n :: n in t ==> n in a;
      InsertSortedAt(t, x, b);
      assert a + b == [a[0]] + (t + b);
      assert a + [x] + b == [a[0]] + (t + [x] + b);
    }
  }

  lemma SortedInsert(a: seq<Node>, x: Node, b: seq<Node>)
    requires Sorted(a + b)
    requires forall n :: n in a ==> n.key < x.key
    requires forall n :: n in b ==> x.key < n.key
    ensures Sorted(a + [x] + b)
  {
    var s, t := a + b, a + [x] + b;
    forall i, j | 0 <= i < j < |t| ensures t[i].key < t[j].key {
      assert i < |a| ==> t[i] == s[i] && t[i] in a;
      assert i > |a| ==> t[i] == s[i - 1] && t[i] in b;
      assert j < |a| ==> t[j] == s[j] && t[j] in a;
      assert j > |a| ==> t[j] == s[j - 1] && t[j] in b;
    }
  }

  lemma FreshLeaf(n: Node, parent: Node?)
    ensures
      var t := Fork(Leaf, n, Red, Leaf);
      Distinct(t) && Nodes(t) == {n} && Inorder(t) == [n] && Link(t, parent, n) == Links(null, null, parent, Red)
  {
  }

  /** A new red leaf at the position its key belongs to. */
  lemma NewLeaf(p: Path, x: Node)
    requires RedBlack(Plug(p, Leaf)) && Sorted(Inorder(Plug(p, Leaf))) && Between(p, x.key)
    ensures
      var s := Fork(Leaf, x, Red, Leaf);
      && InsertInvariant(p, s)
      && Inorder(Plug(p, s)) == InsertSorted(Inorder(Plug(p, Leaf)), x) && Sorted(Inorder(Plug(p, s)))
    ensures forall n :: n in Inorder(Plug(p, Leaf)) ==> n.key != x.key
  {
    hide Sorted, Before, After, Plug;
    var s := Fork(Leaf, x, Red, Leaf);
    PlugInorder(p, Leaf);
    PlugInorder(p, s);
    PlugBalanced(p, Leaf);
    PlugIsRed(p, Leaf);
    assert Inorder(Plug(p, Leaf)) == Before(p) + After(p);
    InsertSortedAt(Before(p), x, After(p));
    SortedInsert(Before(p), x, After(p));
  }

  /** A null pointer or a black node. */
  predicate IsBlack(n: Node?)
    reads n
  {
    n == null || n.color == Black
  }

  /** What bounds the removal loop. */
  ghost function Remaining(p: Path, t: Tree): nat {
    if IsRed(t) || p.Top? then 0 else 1 + Depth(p)
  }

  lemma SpliceFacts(p: Path, s: Tree, t: Tree)
    requires Distinct(Plug(p, s)) && s.Fork?
    requires (s.left.Leaf? && t == s.right) || (s.right.Leaf? && t == s.left)
    ensures Distinct(Plug(p, t)) && Nodes(Plug(p, t)) == Nodes(Plug(p, s)) - {s.node}
    ensures Root(Plug(p, t)) == if p.Top? then Root(t) else Root(Plug(p, s))
  {
    PlugDistinct(p, s);
    PlugDistinct(p, t);
    PlugNodes(p, s);
    PlugNodes(p, t);
    PlugRoot(p, s);
    PlugRoot(p, t);
    assert Nodes(s) == Nodes(t) + {s.node};
  }

  /** The sequence with the first occurrence of `x` taken out. */
  ghost function Without(s: seq<Node>, x: Node): seq<Node> {
    if s == [] then [] else if s[0] == x then s[1..] else [s[0]] + Without(s[1..], x)
  }

  lemma {:induction false} WithoutAt(a: seq<Node>, x: Node, b: seq<Node>)
    requires x !in a
    ensures Without(a + [x] + b, x) == a + b
  {
    if a == [] {
      assert a + [x] + b == [x] + b && a + b == b;
    } else {
      var t := a[1..];
      assert a == [a[0]] + t && a[0] in a && x !in t;
      WithoutAt(t, x, b);
      assert a + [x] + b == [a[0]] + (t + [x] + b);
      assert a + b == [a[0]] + (t + b);
    }
  }

  lemma SortedWithout(a: seq<Node>, x: Node, b: seq<Node>)
    requires Sorted(a + [x] + b)
    ensures Sorted(a + b)
  {
    var s, t := a + [x] + b, a + b;
    forall i, j | 0 <= i < j < |t| ensures t[i].key < t[j].key {
      assert t[i] == s[if i < |a| then i else i + 1];
      assert t[j] == s[if j < |a| then j else j + 1];
    }
  }

  /** Taking one node out of the order. */
  lemma RemoveOrder(p: Path, s: Tree)
    requires s.Fork? && Sorted(Inorder(Plug(p, s)))
    ensures
      var rest := (Before(p) + Inorder(s.left)) + (Inorder(s.right) + After(p));
      Without(Inorder(Plug(p, s)), s.node) == rest && Sorted(rest)
  {
    hide Plug, Inorder, Before, After, Sorted;
    AtNode(p, s);
    var a, b := Before(p) + Inorder(s.left), Inorder(s.right) + After(p);
    SortedAround(a, s.node, b);
    WithoutAt(a, s.node, b);
    SortedWithout(a, s.node, b);
  }

  lemma LeafOrder()
    ensures Inorder(Leaf) == []
  {
  }

  lemma ForkOrder(e: Tree)
    requires e.Fork? && e.left.Leaf?
    ensures Inorder(e) == [e.node] + Inorder(e.right)
  {
  }

  lemma OneChildOrder(p: Path, s: Tree, t: Tree)
    requires s.Fork? && Sorted(Inorder(Plug(p, s)))
    requires (s.left.Leaf? && t == s.right) || (s.right.Leaf? && t == s.left)
    ensures Inorder(Plug(p, t)) == Without(Inorder(Plug(p, s)), s.node)
    ensures Sorted(Inorder(Plug(p, t)))
  {
    hide Plug, Sorted, Before, After, Inorder, Without;
    RemoveOrder(p, s);
    PlugInorder(p, t);
    LeafOrder();
    var a, b, c := Before(p), Inorder(t), After(p);
    assert a + b + c == (a + []) + (b + c);
    assert a + b + c == (a + b) + ([] + c);
  }

  /** The first node `e.node` of the right subtree takes the place of the removed one. */
  lemma SuccessorOrder(p: Path, s: Tree, inner: Path, e: Tree)
    requires s.Fork? && e.Fork? && e.left.Leaf? && s.right == Plug(inner, e) && Before(inner) == []
    requires Sorted(Inorder(Plug(p, s)))
    ensures
      var t := s.(node := e.node, right := Plug(inner, e.right));
      Inorder(Plug(p, t)) == Without(Inorder(Plug(p, s)), s.node) && Sorted(Inorder(Plug(p, t)))
  {
    hide Plug, Sorted, Before, After, Inorder, Without;
    var t := s.(node := e.node, right := Plug(inner, e.right));
    RemoveOrder(p, s);
    PlugInorder(inner, e);
    PlugInorder(inner, e.right);
    LeafOrder();
    AtNode(p, t);
    var x, y := Inorder(e.right), After(inner);
    assert Inorder(s.right) == [e.node] + Inorder(t.right) by {
      assert Inorder(e) == [e.node] + x by { ForkOrder(e); }
      assert [] + ([e.node] + x) + y == [e.node] + (x + y);
      assert [] + x + y == x + y;
    }
    var a, b, c := Before(p) + Inorder(s.left), Inorder(t.right), After(p);
    assert a + [e.node] + (b + c) == a + (([e.node] + b) + c);
  }

  lemma EnterRight(p: Path, s: Tree)
    requires s.Fork?
    ensures Plug(Joined(Top, GoRight(p, s)), s.right) == Plug(p, s)
    ensures Plug(Top, s.right) == s.right && Before(Top) == []
  {
  }

  lemma StepInner(inner: Path, outer: Path, e: Tree)
    requires e.Fork?
    ensures Plug(GoLeft(inner, e), e.left) == Plug(inner, e)
    ensures Plug(Joined(GoLeft(inner, e), outer), e.left) == Plug(Joined(inner, outer), e)
    ensures Before(GoLeft(inner, e)) == Before(inner)
  {
  }

  /** The successor, and the node above it, are not the node to be removed. */
  lemma SuccessorApart(p: Path, s: Tree, inner: Path, e: Tree)
    requires Distinct(Plug(p, s)) && s.Fork? && e.Fork? && s.right == Plug(inner, e)
    ensures e.node != s.node
    ensures ParentOf(Joined(inner, GoRight(p, s))) == if inner.Top? then s.node else inner.node
    ensures !inner.Top? ==> inner.node != s.node
  {
    PlugDistinct(p, s);
    PlugNodes(inner, e);
    assert s.node !in Nodes(s.right);
  }

  lemma Rejoin(p: Path, s: Tree, inner: Path, e: Tree, m: Node)
    requires s.Fork? && e.Fork? && s.right == Plug(inner, e)
    ensures
      var q, t := Joined(inner, GoRight(p, s)), e.right;
      var q1 := Joined(inner, InRight(p, s.left, m, s.color));
      var s1 := s.(right := Plug(inner, t));
      && Plug(q, t) == Plug(p, s1) && Plug(q1, t) == Plug(p, s1.(node := m))
      && ParentOf(q1) == (if inner.Top? then m else inner.node)
      && (TopBlack(q1) <==> TopBlack(q)) && (PathRed(q1) <==> PathRed(q))
      && (forall h: nat :: PathBalanced(q1, h) <==> PathBalanced(q, h)) && !q1.Top?
  {
    var t := e.right;
    PlugJoined(inner, GoRight(p, s), t);
    PlugJoined(inner, InRight(p, s.left, m, s.color), t);
    forall h: nat ensures PathBalanced(Joined(inner, InRight(p, s.left, m, s.color)), h)
                     <==> PathBalanced(Joined(inner, GoRight(p, s)), h) {
      RenameBalance(inner, p, s.left, s.node, m, s.color, h);
    }
    RenameBalance(inner, p, s.left, s.node, m, s.color, 0);
  }

  lemma SearchEnd(p: Path, k: int)
    requires Between(p, k) && Sorted(Inorder(Plug(p, Leaf)))
    ensures forall n :: n in Inorder(Plug(p, Leaf)) ==> n.key != k
    ensures var res, w := EndNext(p), Inorder(Plug(p, Leaf));
      if res == null then forall n :: n in w ==> n.key < k
      else res in w && k <= res.key && forall n :: n in w && k <= n.key ==> res.key <= n.key
  {
    hide Plug, Before, After;
    PlugInorder(p, Leaf);
    var w := Inorder(Plug(p, Leaf));
    assert w == Before(p) + After(p);
    if After(p) != [] {
      var j := |Before(p)|;
      assert w[j] == After(p)[0];
      forall n | n in w && k <= n.key ensures After(p)[0].key <= n.key {
        var i :| 0 <= i < |w| && w[i] == n;
        assert i >= j;
      }
    }
  }

  lemma LeafHere(p: Path)
    ensures Inorder(Plug(p, Leaf)) == Before(p) + After(p)
  {
    PlugInorder(p, Leaf);
  }

  /** The element right after the position, and right after the subtree's near end. */
  ghost function EndNext(p: Path): Node? {
    if After(p) == [] then null else After(p)[0]
  }

  ghost function OuterNext(p: Path, t: Tree): Node? {
    var w := Inorder(t) + After(p);
    if w == [] then null else w[0]
  }

  lemma OuterNextStep(p: Path, t: Tree)
    requires t.Fork?
    ensures OuterNext(GoLeft(p, t), t.left) == OuterNext(p, t)
  {
  }

  lemma OuterNextEnd(p: Path, t: Tree)
    requires t.Fork? && t.left.Leaf?
    ensures OuterNext(p, t) == t.node
  {
    assert (Inorder(t) + After(p))[0] == t.node;
  }

  lemma OuterNextClimb(p: Path, s: Tree)
    requires s.Fork? && s.right.Leaf?
    ensures OuterNext(GoRight(p, s), s.right) == EndNext(p)
    ensures p.InLeft? ==> EndNext(p) == p.node
  {
  }

  lemma EndNextStep(p: Path, s: Tree)
    ensures p.Top? ==> EndNext(p) == null
    ensures p.InLeft? ==> EndNext(p) == p.node
    ensures p.InRight? ==> EndNext(p.up) == EndNext(p)
  {
  }

  ghost function NextAt(w: seq<Node>, i: nat): Node?
    requires i < |w|
  {
    if i + 1 < |w| then w[i + 1] else null
  }

  /** `res` is what comes right after `x` in `w`, or null. */
  ghost predicate IsNext(w: seq<Node>, x: Node, res: Node?) {
    forall i :: 0 <= i < |w| && w[i] == x ==> res == NextAt(w, i)
  }

  lemma NextByPosition(p: Path, s: Tree)
    requires s.Fork? && Sorted(Inorder(Plug(p, s)))
    ensures IsNext(Inorder(Plug(p, s)), s.node, OuterNext(GoRight(p, s), s.right))
  {
    hide Plug, Inorder, Before, After;
    AtNode(p, s);
    var w, j := Inorder(Plug(p, s)), |Before(p) + Inorder(s.left)|;
    assert w[j] == s.node;
    assert Inorder(s.right) + After(GoRight(p, s)) == w[j + 1..];
    forall i | 0 <= i < |w| && w[i] == s.node ensures i == j {
      assert !(i < j) && !(j < i);
    }
  }

  /** The element right before the position, and right before the subtree's near end. */
  ghost function EndPrev(p: Path): Node? {
    if Before(p) == [] then null else Before(p)[|Before(p)| - 1]
  }

  ghost function OuterPrev(p: Path, t: Tree): Node? {
    var w := Before(p) + Inorder(t);
    if w == [] then null else w[|w| - 1]
  }

  lemma OuterPrevStep(p: Path, t: Tree)
    requires t.Fork?
    ensures OuterPrev(GoRight(p, t), t.right) == OuterPrev(p, t)
  {
  }

  lemma OuterPrevEnd(p: Path, t: Tree)
    requires t.Fork? && t.right.Leaf?
    ensures OuterPrev(p, t) == t.node
  {
    var w := Before(p) + Inorder(t);
    assert Inorder(t) == Inorder(t.left) + [t.node];
    assert w[|w| - 1] == t.node;
  }

  lemma OuterPrevClimb(p: Path, s: Tree)
    requires s.Fork? && s.left.Leaf?
    ensures OuterPrev(GoLeft(p, s), s.left) == EndPrev(p)
    ensures p.InRight? ==> EndPrev(p) == p.node
  {
  }

  lemma EndPrevStep(p: Path, s: Tree)
    ensures p.Top? ==> EndPrev(p) == null
    ensures p.InRight? ==> EndPrev(p) == p.node
    ensures p.InLeft? ==> EndPrev(p.up) == EndPrev(p)
  {
  }

  ghost function PrevAt(w: seq<Node>, i: nat): Node?
    requires i < |w|
  {
    if i > 0 then w[i - 1] else null
  }

  /** `res` is what comes right before `x` in `w`, or null. */
  ghost predicate IsPrev(w: seq<Node>, x: Node, res: Node?) {
    forall i :: 0 <= i < |w| && w[i] == x ==> res == PrevAt(w, i)
  }

  lemma PrevByPosition(p: Path, s: Tree)
    requires s.Fork? && Sorted(Inorder(Plug(p, s)))
    ensures IsPrev(Inorder(Plug(p, s)), s.node, OuterPrev(GoLeft(p, s), s.left))
  {
    hide Plug, Inorder, Before, After;
    AtNode(p, s);
    var w, j := Inorder(Plug(p, s)), |Before(p) + Inorder(s.left)|;
    assert w[j] == s.node;
    assert Before(GoLeft(p, s)) + Inorder(s.left) == w[..j];
    forall i | 0 <= i < |w| && w[i] == s.node ensures i == j {
      assert !(i < j) && !(j < i);
    }
  }

  class Head {
    var root: Node?
    ghost var tree: Tree

    /** The pointers of the nodes spell `tree`, and no node is shared. */
    ghost predicate Shape()
      reads this, Nodes(tree)
    {
      Distinct(tree) && root == Root(tree) && Spells(Spelling(tree))
    }

    ghost predicate Valid()
      reads this, Nodes(tree)
    {
      Shape() && RedBlack(tree) && Sorted(Inorder(tree))
    }

    constructor ()
      ensures Valid() && Inorder(tree) == []
    {
      root, tree := null, Leaf;
    }

    // ------------------------------------------------- focusing on a position

    /** What the pointers say about one position of the tree. */
    lemma Focus(p: Path, s: Tree)
      requires Shape() && tree == Plug(p, s)
      ensures Distinct(tree) && Distinct(s) && PathDistinct(p) && Nodes(s) !! PathNodes(p)
      ensures Nodes(tree) == Nodes(s) + PathNodes(p)
      ensures (s.Fork? ==> s.node in Nodes(tree)) && (!p.Top? ==> p.node in Nodes(tree))
      ensures root == Root(tree) == if p.Top? then Root(s) else Outermost(p)
      ensures root == Root(s) <==> p.Top?
      ensures s.Fork? ==> Fields(s.node) == Links(Root(s.left), Root(s.right), ParentOf(p), s.color)
      ensures p.InLeft? ==> Fields(p.node) == Links(Root(s), Root(p.right), ParentOf(p.up), p.color)
      ensures p.InRight? ==> Fields(p.node) == Links(Root(p.left), Root(s), ParentOf(p.up), p.color)
      ensures s.Fork? && !p.Top? ==> (p.node.left == s.node <==> p.InLeft?) && (p.node.right == s.node <==> p.InRight?)
      ensures Inorder(tree) == Before(p) + Inorder(s) + After(p)
    {
      PlugDistinct(p, s);
      PlugNodes(p, s);
      PlugRoot(p, s);
      PlugInorder(p, s);
      if s.Fork? { PlugLink(p, s, s.node); }
      if !p.Top? { OutermostNode(p); }
      if !p.Top? { PlugLink(p, s, p.node); }
      if s.Fork? && !p.Top? { SideOf(p, s.node); }
    }

    // -------------------------------------------------------- primitive edits

    method Recolor(n: Node, c: Color, ghost p: Path, ghost s: Tree)
      requires Shape() && s.Fork? && s.node == n && tree == Plug(p, s)
      modifies `tree, n`color
      ensures Shape() && tree == Plug(p, s.(color := c))
      ensures Inorder(tree) == old(Inorder(tree)) && Nodes(tree) == old(Nodes(tree))
    {
      Focus(p, s);
      forall m | m in Nodes(tree) { RecolorLink(p, s, c, m); }
      PlugRoot(p, s.(color := c));
      PlugInorder(p, s.(color := c));
      n.color := c;
      tree := Plug(p, s.(color := c));
    }

    /** The pointer surgery of a rotation: five fields of four nodes, or the root pointer. */
    method TurnLeft(x: Node, ghost nodes: set<Node>)
      requires x in nodes && x.right != null && x.right in nodes - {x}
      requires x.right.left != null ==> x.right.left in nodes - {x, x.right}
      requires x.parent != null ==> x.parent in nodes - {x, x.right} && x.parent != x.right.left
      requires x.parent != null ==> (x.parent.left == x <==> x.parent.right != x)
      modifies `root, nodes
      ensures
        var y, b, up := old(x.right), old(x.right.left), old(x.parent);
        && root == (if up == null then y else old(root))
        && forall n :: n in nodes ==>
          Fields(n) == if n == x then old(Fields(n)).(right := b, parent := y)
            else if n == y then old(Fields(n)).(left := x, parent := up)
            else if n == b then old(Fields(n)).(parent := x)
            else if n == up then (if old(up.left) == x then old(Fields(n)).(left := y) else old(Fields(n)).(right := y))
            else old(Fields(n))
    {
      var tmp := x.right;
      x.right := tmp.left;
      if x.right != null {
        tmp.left.parent := x;
      }
      tmp.parent := x.parent;
      if tmp.parent != null {
        if x == x.parent.left {
          x.parent.left := tmp;
        } else {
          x.parent.right := tmp;
        }
      } else {
        root := tmp;
      }
      tmp.left := x;
      x.parent := tmp;
    }

    method RotateLeft(x: Node, ghost p: Path, ghost s: Tree)
      requires Shape() && s.Fork? && s.right.Fork? && s.node == x && tree == Plug(p, s)
      modifies this, Nodes(tree)
      ensures Shape() && tree == Plug(p, RotatedLeft(s))
      ensures Inorder(tree) == old(Inorder(tree)) && Nodes(tree) == old(Nodes(tree))
    {
      hide Link, Plug, Distinct, Inorder, Nodes, Root, PathNodes;
      RotateLeftSpelling(p, s);
      PlugRoot(p, s);
      ghost var m := Spelling(tree);
      assert Fields(x) == m[x] && Fields(x.right) == m[x.right];
      assert x.parent != null ==> Fields(x.parent) == m[x.parent];
      TurnLeft(x, m.Keys);
      assert Spells(TurnedLeft(m, x));
      tree := Plug(p, RotatedLeft(s));
    }

    /** The pointer surgery of a rotation: five fields of four nodes, or the root pointer. */
    method TurnRight(x: Node, ghost nodes: set<Node>)
      requires x in nodes && x.left != null && x.left in nodes - {x}
      requires x.left.right != null ==> x.left.right in nodes - {x, x.left}
      requires x.parent != null ==> x.parent in nodes - {x, x.left} && x.parent != x.left.right
      requires x.parent != null ==> (x.parent.left == x <==> x.parent.right != x)
      modifies `root, nodes
      ensures
        var y, b, up := old(x.left), old(x.left.right), old(x.parent);
        && root == (if up == null then y else old(root))
        && forall n :: n in nodes ==>
          Fields(n) == if n == x then old(Fields(n)).(left := b, parent := y)
            else if n == y then old(Fields(n)).(right := x, parent := up)
            else if n == b then old(Fields(n)).(parent := x)
            else if n == up then (if old(up.left) == x then old(Fields(n)).(left := y) else old(Fields(n)).(right := y))
            else old(Fields(n))
    {
      var tmp := x.left;
      x.left := tmp.right;
      if x.left != null {
        tmp.right.parent := x;
      }
      tmp.parent := x.parent;
      if tmp.parent != null {
        if x == x.parent.left {
          x.parent.left := tmp;
        } else {
          x.parent.right := tmp;
        }
      } else {
        root := tmp;
      }
      tmp.right := x;
      x.parent := tmp;
    }

    method RotateRight(x: Node, ghost p: Path, ghost s: Tree)
      requires Shape() && s.Fork? && s.left.Fork? && s.node == x && tree == Plug(p, s)
      modifies this, Nodes(tree)
      ensures Shape() && tree == Plug(p, RotatedRight(s))
      ensures Inorder(tree) == old(Inorder(tree)) && Nodes(tree) == old(Nodes(tree))
    {
      hide Link, Plug, Distinct, Inorder, Nodes, Root, PathNodes;
      RotateRightSpelling(p, s);
      PlugRoot(p, s);
      ghost var m := Spelling(tree);
      assert Fields(x) == m[x] && Fields(x.left) == m[x.left];
      assert x.parent != null ==> Fields(x.parent) == m[x.parent];
      TurnRight(x, m.Keys);
      assert Spells(TurnedRight(m, x));
      tree := Plug(p, RotatedRight(s));
    }

    // ------------------------------------------------------------- insertion

    /** One pass of the insertion loop with the parent on the left of the grandparent. */
    method RepairLeft(elm: Node, parent: Node, gparent: Node, ghost p: Path, ghost s: Tree)
      returns (e: Node, ghost q: Path, ghost t: Tree)
      requires Shape() && tree == Plug(p, s)
      requires InsertInvariant(p, s) && s.node == elm
      requires PathRed(p) && p.node == parent && p.up.InLeft? && p.up.node == gparent
      modifies this, Nodes(tree)
      ensures Shape() && tree == Plug(q, t)
      ensures InsertInvariant(q, t) && t.node == e && Depth(q) < Depth(p)
      ensures Inorder(tree) == old(Inorder(tree)) && Nodes(tree) == old(Nodes(tree))
    {
      hide Shape, Link, Distinct, Inorder, Nodes, Balanced, BlackHeight, PathBalanced, TopBlack, InsertInvariant;
      ghost var u, uncle := p.up.up, p.up.right;
      ghost var below := Below(p, s);
      RedBelowRed(p, s);
      Focus(u, Fork(below, gparent, Black, uncle));
      Focus(p, s);
      assert parent.right == elm <==> p.InRight?;
      Focus(InRight(u, below, gparent, Black), uncle);
      ghost var h := BlackHeight(s);
      var tmp := gparent.right;
      if tmp != null && tmp.color == Red {
        RedUncle(u, below, gparent, uncle, h);
        Recolor(tmp, Black, InRight(u, below, gparent, Black), uncle);
        uncle := uncle.(color := Black);
        Recolor(parent, Black, InLeft(u, gparent, Black, uncle), below);
        below := below.(color := Black);
        t := Fork(below, gparent, Black, uncle);
        Recolor(gparent, Red, u, t);
        e, q, t := gparent, u, t.(color := Red);
      } else {
        BlackUncleLeft(p, s, gparent, uncle);
        var par := parent;
        e := elm;
        if parent.right == elm {
          RotateLeft(parent, InLeft(u, gparent, Black, uncle), below);
          below := RotatedLeft(below);
          par, e := elm, parent;
        }
        Recolor(par, Black, InLeft(u, gparent, Black, uncle), below);
        below := below.(color := Black);
        Recolor(gparent, Red, u, Fork(below, gparent, Black, uncle));
        RotateRight(gparent, u, Fork(below, gparent, Red, uncle));
        q, t := InLeft(u, par, Black, Fork(below.right, gparent, Red, uncle)), below.left;
      }
    }

    /** One pass of the insertion loop with the parent on the right of the grandparent. */
    method RepairRight(elm: Node, parent: Node, gparent: Node, ghost p: Path, ghost s: Tree)
      returns (e: Node, ghost q: Path, ghost t: Tree)
      requires Shape() && tree == Plug(p, s)
      requires InsertInvariant(p, s) && s.node == elm
      requires PathRed(p) && p.node == parent && p.up.InRight? && p.up.node == gparent
      modifies this, Nodes(tree)
      ensures Shape() && tree == Plug(q, t)
      ensures InsertInvariant(q, t) && t.node == e && Depth(q) < Depth(p)
      ensures Inorder(tree) == old(Inorder(tree)) && Nodes(tree) == old(Nodes(tree))
    {
      hide Shape, Link, Distinct, Inorder, Nodes, Balanced, BlackHeight, PathBalanced, TopBlack, InsertInvariant;
      ghost var u, uncle := p.up.up, p.up.left;
      ghost var below := Below(p, s);
      RedBelowRed(p, s);
      Focus(u, Fork(uncle, gparent, Black, below));
      Focus(p, s);
      assert parent.left == elm <==> p.InLeft?;
      Focus(InLeft(u, gparent, Black, below), uncle);
      ghost var h := BlackHeight(s);
      var tmp := gparent.left;
      if tmp != null && tmp.color == Red {
        RedUncle(u, uncle, gparent, below, h);
        Recolor(tmp, Black, InLeft(u, gparent, Black, below), uncle);
        uncle := uncle.(color := Black);
        Recolor(parent, Black, InRight(u, uncle, gparent, Black), below);
        below := below.(color := Black);
        t := Fork(uncle, gparent, Black, below);
        Recolor(gparent, Red, u, t);
        e, q, t := gparent, u, t.(color := Red);
      } else {
        BlackUncleRight(p, s, gparent, uncle);
        var par := parent;
        e := elm;
        if parent.left == elm {
          RotateRight(parent, InRight(u, uncle, gparent, Black), below);
          below := RotatedRight(below);
          par, e := elm, parent;
        }
        Recolor(par, Black, InRight(u, uncle, gparent, Black), below);
        below := below.(color := Black);
        Recolor(gparent, Red, u, Fork(uncle, gparent, Black, below));
        RotateLeft(gparent, u, Fork(uncle, gparent, Red, below));
        q, t := InRight(u, Fork(uncle, gparent, Red, below.left), par, Black), below.right;
      }
    }

    /** Restores the colouring after a red node was attached below a possibly red one. */
    method InsertColor(n: Node, ghost p0: Path, ghost s0: Tree)
      requires Shape() && tree == Plug(p0, s0)
      requires InsertInvariant(p0, s0) && s0.node == n
      modifies this, Nodes(tree)
      ensures Shape() && RedBlack(tree)
      ensures Inorder(tree) == old(Inorder(tree)) && Nodes(tree) == old(Nodes(tree))
    {
      hide Shape, Link, Distinct, Inorder, Nodes;
      var elm := n;
      ghost var p, s := p0, s0;
      Focus(p, s);
      var parent := elm.parent;
      while parent != null && parent.color == Red
        invariant Shape() && tree == Plug(p, s)
        invariant InsertInvariant(p, s) && s.node == elm
        invariant parent == ParentOf(p) && (parent != null ==> parent.color == p.color)
        invariant Inorder(tree) == old(Inorder(tree)) && Nodes(tree) == old(Nodes(tree))
        decreases Depth(p)
      {
        RedBelowRed(p, s);
        Focus(p.up, Below(p, s));
        var gparent := parent.parent;
        if parent == gparent.left {
          elm, p, s := RepairLeft(elm, parent, gparent, p, s);
        } else {
          elm, p, s := RepairRight(elm, parent, gparent, p, s);
        }
        Focus(p, s);
        parent := elm.parent;
      }
      PlugBalanced(p, s);
      PlugIsRed(p, s);
      Focus(p, s);
      Focus(Top, tree);
      Recolor(root, Black, Top, tree);
    }

    /** Hangs the new red leaf `elm` at the empty position `p`. */
    method Attach(elm: Node, parent: Node?, comp: int, ghost p: Path)
      requires Shape() && tree == Plug(p, Leaf) && parent == ParentOf(p) && elm !in Nodes(tree)
      requires parent != null ==> (comp < 0 <==> p.InLeft?)
      modifies this, Nodes(tree), elm
      ensures Shape() && tree == Plug(p, Fork(Leaf, elm, Red, Leaf))
      ensures Nodes(tree) == old(Nodes(tree)) + {elm}
    {
      hide Link, Plug, Distinct, Inorder, Nodes, PathNodes;
      ghost var m, t := Spelling(tree), Fork(Leaf, elm, Red, Leaf);
      FreshLeaf(elm, ParentOf(p));
      PlugRoot(p, t);
      Focus(p, Leaf);
      forall n | n in Nodes(t) + PathNodes(p) { ReplaceLink(p, Leaf, t, n); }
      assert parent != null ==> parent in m && Fields(parent) == m[parent];
      elm.parent := parent;
      elm.left, elm.right := null, null;
      elm.color := Red;
      if parent != null {
        if comp < 0 {
          parent.left := elm;
        } else {
          parent.right := elm;
        }
      } else {
        root := elm;
      }
      tree := Plug(p, t);
    }

    method Insert(elm: Node) returns (res: Node?)
      requires Valid()
      modifies this, Nodes(tree), elm
      ensures Valid()
      ensures res != null ==> res in old(Inorder(tree)) && res.key == elm.key
      ensures res != null ==> unchanged(this) && forall n: Node :: old(allocated(n)) ==> Fields(n) == old(Fields(n))
      ensures res == null ==> forall n :: n in old(Inorder(tree)) ==> n.key != elm.key
      ensures res == null ==> Inorder(tree) == InsertSorted(old(Inorder(tree)), elm)
    {
      hide Link, Distinct, Spells, Spelling, Plug, Inorder, Before, After, Balanced, PathBalanced, TopBlack, InsertSorted, Sorted;
      var tmp, parent, comp := root, null, 0;
      ghost var p, t := Top, tree;
      SearchStart(tree, elm.key);
      while tmp != null
        invariant Shape() && tree == old(tree) == Plug(p, t) && Between(p, elm.key)
        invariant tmp == Root(t) && parent == ParentOf(p)
        invariant parent != null ==> (comp < 0 <==> p.InLeft?)
        modifies {}
        decreases t
      {
        Focus(p, t);
        SearchStep(p, t, elm.key);
        parent := tmp;
        comp := Compare(elm, parent);
        if comp < 0 {
          p, t := GoLeft(p, t), t.left;
          tmp := tmp.left;
        } else if comp > 0 {
          p, t := GoRight(p, t), t.right;
          tmp := tmp.right;
        } else {
          return tmp;
        }
      }
      ghost var s := Fork(Leaf, elm, Red, Leaf);
      NewLeaf(p, elm);
      InorderNodes(tree);
      assert elm !in Nodes(tree);
      Attach(elm, parent, comp, p);
      InsertColor(elm, p, s);
      return null;
    }

    // --------------------------------------------------------------- removal

    /** The rest of a pass of the removal loop, once the sibling is black. */
    method SettleLeft(parent: Node, sibling: Node, ghost q: Path, ghost t: Tree)
      returns (e: Node?, up: Node?, ghost q1: Path, ghost u: Tree)
      requires Shape() && tree == Plug(q, t)
      requires RemoveInvariant(q, t) && !IsRed(t) && q.InLeft? && q.node == parent
      requires q.right.Fork? && !IsRed(q.right) && q.right.node == sibling
      modifies this, Nodes(tree)
      ensures Shape() && tree == Plug(q1, u) && RemoveInvariant(q1, u) && e == Root(u)
      ensures q1.Top? || (q1 == q.up && u.Fork? && u.color == q.color)
      ensures e != root ==> up == ParentOf(q1)
      ensures Inorder(tree) == old(Inorder(tree)) && Nodes(tree) == old(Nodes(tree))
    {
      hide Shape, Link, Distinct, Inorder, Nodes, Balanced, BlackHeight, PathBalanced, TopBlack, RemoveInvariant;
      var tmp := sibling;
      ghost var s, at := q.right, InRight(q.up, t, parent, q.color);
      Focus(q, t);
      Focus(at, s);
      Focus(InLeft(at, s.node, s.color, s.right), s.left);
      Focus(InRight(at, s.left, s.node, s.color), s.right);
      if IsBlack(tmp.left) && IsBlack(tmp.right) {
        BlackNephewsLeft(q, t);
        Recolor(tmp, Red, at, s);
        q1, u := q.up, Fork(t, parent, q.color, s.(color := Red));
        Focus(q1, u);
        e, up := parent, parent.parent;
      } else {
        if IsBlack(tmp.right) {
          NearNephewLeft(q, t);
          tmp, s := TurnNearLeft(parent, tmp, q, t);
        }
        FarNephewLeft(InLeft(q.up, parent, q.color, s), t);
        FinishLeft(parent, tmp, q, t, s);
        WholeTree(tree);
        Focus(Top, tree);
        e, up, q1, u := root, null, Top, tree;
      }
    }

    /** Turns a red child on the near side of the sibling to its far side. */
    method TurnNearLeft(parent: Node, sibling: Node, ghost q: Path, ghost t: Tree)
      returns (tmp: Node, ghost s: Tree)
      requires Shape() && tree == Plug(q, t) && q.InLeft? && q.node == parent
      requires q.right.Fork? && q.right.node == sibling && IsRed(q.right.left)
      modifies this, Nodes(tree)
      ensures s == RotatedRight(q.right.(color := Red, left := q.right.left.(color := Black)))
      ensures Shape() && tree == Plug(InLeft(q.up, parent, q.color, s), t) && tmp == s.node
      ensures Inorder(tree) == old(Inorder(tree)) && Nodes(tree) == old(Nodes(tree))
    {
      hide Shape, Link, Distinct, Inorder, Nodes;
      ghost var at := InRight(q.up, t, parent, q.color);
      s := q.right;
      Focus(at, s);
      Focus(InLeft(at, s.node, s.color, s.right), s.left);
      var oleft := sibling.left;
      if oleft != null {
        Recolor(oleft, Black, InLeft(at, s.node, s.color, s.right), s.left);
      }
      s := s.(left := s.left.(color := Black));
      Recolor(sibling, Red, at, s);
      s := s.(color := Red);
      RotateRight(sibling, at, s);
      s := RotatedRight(s);
      Focus(InLeft(q.up, parent, q.color, s), t);
      tmp := parent.right;
    }

    /** Ends the repair: the sibling, with a red child on its far side, takes the parent's place and colour. */
    method FinishLeft(parent: Node, tmp: Node, ghost q: Path, ghost t: Tree, ghost s0: Tree)
      requires q.InLeft? && q.node == parent && s0.Fork? && s0.node == tmp && IsRed(s0.right)
      requires Shape() && tree == Plug(InLeft(q.up, parent, q.color, s0), t)
      modifies this, Nodes(tree)
      ensures var s := s0.(color := q.color, right := s0.right.(color := Black));
        Shape() && tree == Plug(q.up, RotatedLeft(Fork(t, parent, Black, s)))
      ensures Inorder(tree) == old(Inorder(tree)) && Nodes(tree) == old(Nodes(tree))
    {
      hide Shape, Link, Distinct, Inorder, Nodes;
      ghost var s := s0;
      Focus(InLeft(q.up, parent, q.color, s), t);
      Focus(InRight(q.up, t, parent, q.color), s);
      Recolor(tmp, parent.color, InRight(q.up, t, parent, q.color), s);
      s := s.(color := q.color);
      Recolor(parent, Black, q.up, Fork(t, parent, q.color, s));
      Focus(InRight(InRight(q.up, t, parent, Black), s.left, s.node, s.color), s.right);
      if tmp.right != null {
        Recolor(tmp.right, Black, InRight(InRight(q.up, t, parent, Black), s.left, s.node, s.color), s.right);
      }
      s := s.(right := s.right.(color := Black));
      RotateLeft(parent, q.up, Fork(t, parent, Black, s));
    }

    /** One pass of the removal loop with the short subtree on the left of its parent. */
    method RefillLeft(parent: Node, ghost p: Path, ghost t: Tree)
      returns (e: Node?, up: Node?, ghost q1: Path, ghost u: Tree)
      requires Shape() && tree == Plug(p, t)
      requires RemoveInvariant(p, t) && !IsRed(t) && p.InLeft? && p.node == parent
      modifies this, Nodes(tree)
      ensures Shape() && tree == Plug(q1, u) && RemoveInvariant(q1, u) && e == Root(u)
      ensures (e != root ==> up == ParentOf(q1)) && Remaining(q1, u) < Remaining(p, t)
      ensures Inorder(tree) == old(Inorder(tree)) && Nodes(tree) == old(Nodes(tree))
    {
      hide Shape, Link, Distinct, Inorder, Nodes, Balanced, BlackHeight, PathBalanced, TopBlack, RemoveInvariant;
      ghost var q, s := p, p.right;
      SiblingExists(p, t);
      Focus(p, t);
      Focus(InRight(p.up, t, parent, p.color), s);
      var tmp := parent.right;
      if tmp.color == Red {
        RedSiblingLeft(p, t);
        Recolor(tmp, Black, InRight(p.up, t, parent, p.color), s);
        s := s.(color := Black);
        Recolor(parent, Red, p.up, Fork(t, parent, p.color, s));
        RotateLeft(parent, p.up, Fork(t, parent, Red, s));
        q := InLeft(InLeft(p.up, s.node, Black, s.right), parent, Red, s.left);
        Focus(q, t);
        tmp := parent.right;
      }
      e, up, q1, u := SettleLeft(parent, tmp, q, t);
    }

    /** The rest of a pass of the removal loop, once the sibling is black. */
    method SettleRight(parent: Node, sibling: Node, ghost q: Path, ghost t: Tree)
      returns (e: Node?, up: Node?, ghost q1: Path, ghost u: Tree)
      requires Shape() && tree == Plug(q, t)
      requires RemoveInvariant(q, t) && !IsRed(t) && q.InRight? && q.node == parent
      requires q.left.Fork? && !IsRed(q.left) && q.left.node == sibling
      modifies this, Nodes(tree)
      ensures Shape() && tree == Plug(q1, u) && RemoveInvariant(q1, u) && e == Root(u)
      ensures q1.Top? || (q1 == q.up && u.Fork? && u.color == q.color)
      ensures e != root ==> up == ParentOf(q1)
      ensures Inorder(tree) == old(Inorder(tree)) && Nodes(tree) == old(Nodes(tree))
    {
      hide Shape, Link, Distinct, Inorder, Nodes, Balanced, BlackHeight, PathBalanced, TopBlack, RemoveInvariant;
      var tmp := sibling;
      ghost var s, at := q.left, InLeft(q.up, parent, q.color, t);
      Focus(q, t);
      Focus(at, s);
      Focus(InRight(at, s.left, s.node, s.color), s.right);
      Focus(InLeft(at, s.node, s.color, s.right), s.left);
      if IsBlack(tmp.left) && IsBlack(tmp.right) {
        BlackNephewsRight(q, t);
        Recolor(tmp, Red, at, s);
        q1, u := q.up, Fork(s.(color := Red), parent, q.color, t);
        Focus(q1, u);
        e, up := parent, parent.parent;
      } else {
        if IsBlack(tmp.left) {
          NearNephewRight(q, t);
          tmp, s := TurnNearRight(parent, tmp, q, t);
        }
        FarNephewRight(InRight(q.up, s, parent, q.color), t);
        FinishRight(parent, tmp, q, t, s);
        WholeTree(tree);
        Focus(Top, tree);
        e, up, q1, u := root, null, Top, tree;
      }
    }

    /** Turns a red child on the near side of the sibling to its far side. */
    method TurnNearRight(parent: Node, sibling: Node, ghost q: Path, ghost t: Tree)
      returns (tmp: Node, ghost s: Tree)
      requires Shape() && tree == Plug(q, t) && q.InRight? && q.node == parent
      requires q.left.Fork? && q.left.node == sibling && IsRed(q.left.right)
      modifies this, Nodes(tree)
      ensures s == RotatedLeft(q.left.(color := Red, right := q.left.right.(color := Black)))
      ensures Shape() && tree == Plug(InRight(q.up, s, parent, q.color), t) && tmp == s.node
      ensures Inorder(tree) == old(Inorder(tree)) && Nodes(tree) == old(Nodes(tree))
    {
      hide Shape, Link, Distinct, Inorder, Nodes;
      ghost var at := InLeft(q.up, parent, q.color, t);
      s := q.left;
      Focus(at, s);
      Focus(InRight(at, s.left, s.node, s.color), s.right);
      var oright := sibling.right;
      if oright != null {
        Recolor(oright, Black, InRight(at, s.left, s.node, s.color), s.right);
      }
      s := s.(right := s.right.(color := Black));
      Recolor(sibling, Red, at, s);
      s := s.(color := Red);
      RotateLeft(sibling, at, s);
      s := RotatedLeft(s);
      Focus(InRight(q.up, s, parent, q.color), t);
      tmp := parent.left;
    }

    /** Ends the repair: the sibling, with a red child on its far side, takes the parent's place and colour. */
    method FinishRight(parent: Node, tmp: Node, ghost q: Path, ghost t: Tree, ghost s0: Tree)
      requires q.InRight? && q.node == parent && s0.Fork? && s0.node == tmp && IsRed(s0.left)
      requires Shape() && tree == Plug(InRight(q.up, s0, parent, q.color), t)
      modifies this, Nodes(tree)
      ensures var s := s0.(color := q.color, left := s0.left.(color := Black));
        Shape() && tree == Plug(q.up, RotatedRight(Fork(s, parent, Black, t)))
      ensures Inorder(tree) == old(Inorder(tree)) && Nodes(tree) == old(Nodes(tree))
    {
      hide Shape, Link, Distinct, Inorder, Nodes;
      ghost var s := s0;
      Focus(InRight(q.up, s, parent, q.color), t);
      Focus(InLeft(q.up, parent, q.color, t), s);
      Recolor(tmp, parent.color, InLeft(q.up, parent, q.color, t), s);
      s := s.(color := q.color);
      Recolor(parent, Black, q.up, Fork(s, parent, q.color, t));
      Focus(InLeft(InLeft(q.up, parent, Black, t), s.node, s.color, s.right), s.left);
      if tmp.left != null {
        Recolor(tmp.left, Black, InLeft(InLeft(q.up, parent, Black, t), s.node, s.color, s.right), s.left);
      }
      s := s.(left := s.left.(color := Black));
      RotateRight(parent, q.up, Fork(s, parent, Black, t));
    }

    /** One pass of the removal loop with the short subtree on the right of its parent. */
    method RefillRight(parent: Node, ghost p: Path, ghost t: Tree)
      returns (e: Node?, up: Node?, ghost q1: Path, ghost u: Tree)
      requires Shape() && tree == Plug(p, t)
      requires RemoveInvariant(p, t) && !IsRed(t) && p.InRight? && p.node == parent
      modifies this, Nodes(tree)
      ensures Shape() && tree == Plug(q1, u) && RemoveInvariant(q1, u) && e == Root(u)
      ensures (e != root ==> up == ParentOf(q1)) && Remaining(q1, u) < Remaining(p, t)
      ensures Inorder(tree) == old(Inorder(tree)) && Nodes(tree) == old(Nodes(tree))
    {
      hide Shape, Link, Distinct, Inorder, Nodes, Balanced, BlackHeight, PathBalanced, TopBlack, RemoveInvariant;
      ghost var q, s := p, p.left;
      SiblingExists(p, t);
      Focus(p, t);
      Focus(InLeft(p.up, parent, p.color, t), s);
      var tmp := parent.left;
      if tmp.color == Red {
        RedSiblingRight(p, t);
        Recolor(tmp, Black, InLeft(p.up, parent, p.color, t), s);
        s := s.(color := Black);
        Recolor(parent, Red, p.up, Fork(s, parent, p.color, t));
        RotateRight(parent, p.up, Fork(s, parent, Red, t));
        q := InRight(InRight(p.up, s.left, s.node, Black), s.right, parent, Red);
        Focus(q, t);
        tmp := parent.left;
      }
      e, up, q1, u := SettleRight(parent, tmp, q, t);
    }

    /** Restores the colouring after a black node was taken out above `child`. */
    method RemoveColor(above: Node?, child: Node?, ghost p0: Path, ghost t0: Tree)
      requires Shape() && tree == Plug(p0, t0) && RemoveInvariant(p0, t0)
      requires above == ParentOf(p0) && child == Root(t0)
      modifies this, Nodes(tree)
      ensures Shape() && RedBlack(tree)
      ensures Inorder(tree) == old(Inorder(tree)) && Nodes(tree) == old(Nodes(tree))
    {
      hide Shape, Link, Distinct, Inorder, Nodes, Balanced, BlackHeight, PathBalanced, TopBlack, RemoveInvariant, RedBlack;
      var parent, elm := above, child;
      ghost var p, t := p0, t0;
      Focus(p, t);
      while IsBlack(elm) && elm != root
        invariant Shape() && tree == Plug(p, t) && RemoveInvariant(p, t)
        invariant elm == Root(t) && (elm != root ==> parent == ParentOf(p))
        invariant Inorder(tree) == old(Inorder(tree)) && Nodes(tree) == old(Nodes(tree))
        decreases Remaining(p, t)
      {
        Focus(p, t);
        SiblingExists(p, t);
        if parent.left == elm {
          elm, parent, p, t := RefillLeft(parent, p, t);
        } else {
          elm, parent, p, t := RefillRight(parent, p, t);
        }
      }
      Focus(p, t);
      RemoveDone(p, t);
      if elm != null {
        Recolor(elm, Black, p, t);
      }
    }

    /** `child` takes the place of `elm`, its parent; the fields of `elm` stay as they are. */
    method SpliceOut(elm: Node, child: Node?, parent: Node?, ghost p: Path, ghost s: Tree, ghost t: Tree)
      requires Shape() && tree == Plug(p, s) && s.Fork? && s.node == elm
      requires (s.left.Leaf? && t == s.right) || (s.right.Leaf? && t == s.left)
      requires child == Root(t) && parent == ParentOf(p)
      modifies this, Nodes(tree) - {elm}
      ensures Shape() && tree == Plug(p, t) && Nodes(tree) == old(Nodes(tree)) - {elm}
    {
      hide Link, Plug, Distinct, Inorder, Nodes, PathNodes;
      Focus(p, s);
      Neighbours(p, s);
      ghost var m := Spelling(tree);
      forall n | n in Nodes(tree) - {elm} { SpliceLink(p, s, t, n); }
      SpliceFacts(p, s, t);
      if child != null {
        child.parent := parent;
      }
      if parent != null {
        if parent.left == elm {
          parent.left := child;
        } else {
          parent.right := child;
        }
      } else {
        root := child;
      }
      tree := Plug(p, t);
      forall n | n in Nodes(tree) ensures Fields(n) == Spelling(tree)[n] {
        assert n in m;
      }
    }

    /** The field writes of a substitution. */
    method TakeOver(was: Node, elm: Node, ghost nodes: set<Node>)
      requires was in nodes && elm !in nodes && was.left != null && was.left in nodes - {was}
      requires was.right != null ==> was.right in nodes - {was, was.left}
      requires was.parent != null ==> was.parent in nodes - {was} && was.parent != was.left && was.parent != was.right
      requires was.parent != null ==> (was.parent.left == was <==> was.parent.right != was)
      modifies `root, nodes, elm
      ensures root == (if old(was.parent) == null then elm else old(root)) && Fields(elm) == old(Fields(was))
      ensures
        var l, r, up := old(was.left), old(was.right), old(was.parent);
        forall n :: n in nodes - {was} ==>
          Fields(n) == if n == l || n == r then old(Fields(n)).(parent := elm)
            else if n == up then (if old(up.left) == was then old(Fields(n)).(left := elm) else old(Fields(n)).(right := elm))
            else old(Fields(n))
    {
      elm.left, elm.right, elm.parent, elm.color := was.left, was.right, was.parent, was.color;
      if was.parent != null {
        if was.parent.left == was {
          was.parent.left := elm;
        } else {
          was.parent.right := elm;
        }
      } else {
        root := elm;
      }
      was.left.parent := elm;
      if was.right != null {
        was.right.parent := elm;
      }
    }

    /** `elm` takes over the place, links and colour of `was`. */
    method Substitute(was: Node, elm: Node, ghost p: Path, ghost s: Tree)
      requires Shape() && tree == Plug(p, s) && s.Fork? && s.node == was
      requires elm !in Nodes(tree) && s.left.Fork?
      modifies this, Nodes(tree), elm
      ensures Shape() && tree == Plug(p, s.(node := elm))
      ensures Nodes(tree) == old(Nodes(tree)) - {was} + {elm}
    {
      hide Link, Plug, Distinct, Inorder, Nodes, PathNodes;
      Focus(p, s);
      Neighbours(p, s);
      ghost var m := Spelling(tree);
      forall n | n in Nodes(tree) - {was} + {elm} { SubstituteLink(p, s, elm, n); }
      PlugRoot(p, s.(node := elm));
      TakeOver(was, elm, m.Keys);
      tree := Plug(p, s.(node := elm));
      forall n | n in Nodes(tree) ensures Fields(n) == Spelling(tree)[n] {
        assert n != elm ==> n in m;
      }
    }

    /** Removal of a node with two children: its successor, with no left child,
        is taken out in its stead and then takes over its place. */
    method RemoveInner(was: Node, ghost p: Path, ghost s: Tree)
      returns (elm: Node, parent: Node, child: Node?, color: Color, ghost q: Path, ghost t: Tree)
      requires Valid() && tree == Plug(p, s) && s.Fork? && s.node == was && s.left.Fork? && s.right.Fork?
      modifies this, Nodes(tree)
      ensures Shape() && tree == Plug(q, t) && child == Root(t) && parent == ParentOf(q) && elm != was
      ensures Balanced(t) && TopBlack(q) && PathBalanced(q, BlackHeight(t) + Weight(color))
      ensures color.Red? ==> !PathRed(q) && !q.Top? && !IsRed(t)
      ensures Inorder(tree) == Without(old(Inorder(tree)), was) && Sorted(Inorder(tree))
      ensures Nodes(tree) == old(Nodes(tree)) - {was}
    {
      hide Shape, Link, Distinct, Inorder, Nodes, Balanced, BlackHeight, PathBalanced, TopBlack, Plug, Joined, Sorted, Before, After,
        Without, PathNodes, RedBlack, PathRed, Weight;
      Focus(p, s);
      elm := was.right;
      ghost var outer, inner, e := GoRight(p, s), Top, s.right;
      EnterRight(p, s);
      Focus(Joined(inner, outer), e);
      var left := elm.left;
      while left != null
        invariant Shape() && tree == Plug(Joined(inner, outer), e) && e.Fork? && elm == e.node
        invariant s.right == Plug(inner, e) && Before(inner) == []
        invariant left == Root(e.left)
        modifies {}
        decreases e
      {
        elm := left;
        StepInner(inner, outer, e);
        inner, e := GoLeft(inner, e), e.left;
        Focus(Joined(inner, outer), e);
        left := elm.left;
      }
      q, t := Joined(inner, outer), e.right;
      Focus(q, e);
      SuccessorApart(p, s, inner, e);
      child, parent, color := elm.right, elm.parent, elm.color;
      SpliceBalance(q, e, t);
      SuccessorOrder(p, s, inner, e);
      SpliceOut(elm, child, parent, q, e, t);
      if elm.parent == was {
        parent := elm;
      }
      ghost var s1 := s.(right := Plug(inner, t));
      Rejoin(p, s, inner, e, elm);
      Substitute(was, elm, p, s1);
      q := Joined(inner, InRight(p, s.left, elm, s.color));
    }

    method Remove(element: Node) returns (removed: Node)
      requires Valid() && element in Nodes(tree)
      modifies this, Nodes(tree)
      ensures Valid() && removed == element
      ensures Inorder(tree) == Without(old(Inorder(tree)), element)
      ensures Nodes(tree) == old(Nodes(tree)) - {element}
    {
      hide Shape, Link, Distinct, Inorder, Nodes, Balanced, BlackHeight, PathBalanced, TopBlack, Plug, Sorted;
      var was, elm := element, element;
      var child, parent, color;
      ghost var p, s := Locate(tree, element);
      ghost var q, t;
      Focus(p, s);
      if elm.left != null && elm.right != null {
        elm, parent, child, color, q, t := RemoveInner(was, p, s);
      } else {
        if elm.left == null {
          child, t := elm.right, s.right;
        } else {
          child, t := elm.left, s.left;
        }
        parent, color, q := elm.parent, elm.color, p;
        SpliceBalance(p, s, t);
        OneChildOrder(p, s, t);
        SpliceOut(elm, child, parent, p, s, t);
      }
      if color == Black {
        ShortSubtree(q, t);
        RemoveColor(parent, child, q, t);
      } else {
        StillBalanced(q, t);
      }
      return was;
    }

    // ------------------------------------------------------ search and traversal

    /** The element with an equal key. */
    method Find(elm: Node) returns (res: Node?)
      requires Valid()
      ensures Valid()
      ensures res != null ==> res in Inorder(tree) && res.key == elm.key
      ensures res == null ==> forall n :: n in Inorder(tree) ==> n.key != elm.key
    {
      hide Shape, Link, Distinct, Inorder, Nodes, Plug, Sorted, Before, After, RedBlack;
      var tmp := root;
      ghost var p, t := Top, tree;
      SearchStart(tree, elm.key);
      Focus(p, t);
      while tmp != null
        invariant Shape() && tree == Plug(p, t) && Between(p, elm.key) && tmp == Root(t)
        decreases t
      {
        Focus(p, t);
        SearchStep(p, t, elm.key);
        var comp := Compare(elm, tmp);
        if comp < 0 {
          p, t := GoLeft(p, t), t.left;
          tmp := tmp.left;
        } else if comp > 0 {
          p, t := GoRight(p, t), t.right;
          tmp := tmp.right;
        } else {
          return tmp;
        }
      }
      SearchEnd(p, elm.key);
      return null;
    }

    /** The least element whose key is not below the one asked for. */
    method NFind(elm: Node) returns (res: Node?)
      requires Valid()
      ensures Valid()
      ensures res != null ==> res in Inorder(tree) && elm.key <= res.key
      ensures res != null ==> forall n :: n in Inorder(tree) && elm.key <= n.key ==> res.key <= n.key
      ensures res == null ==> forall n :: n in Inorder(tree) ==> n.key < elm.key
    {
      hide Shape, Link, Distinct, Inorder, Nodes, Plug, Before, After, RedBlack, Sorted;
      var tmp := root;
      res := null;
      ghost var p, t := Top, tree;
      SearchStart(tree, elm.key);
      Focus(p, t);
      while tmp != null
        invariant Shape() && tree == Plug(p, t) && Between(p, elm.key) && tmp == Root(t) && res == EndNext(p)
        decreases t
      {
        Focus(p, t);
        SearchStep(p, t, elm.key);
        AtNode(p, t);
        var comp := Compare(elm, tmp);
        if comp < 0 {
          res := tmp;
          p, t := GoLeft(p, t), t.left;
          tmp := tmp.left;
        } else if comp > 0 {
          p, t := GoRight(p, t), t.right;
          tmp := tmp.right;
        } else {
          return tmp;
        }
      }
      SearchEnd(p, elm.key);
    }

    /** The first element (`val < 0`) or the last. */
    method MinMax(val: int) returns (parent: Node?)
      requires Valid()
      ensures Valid()
      ensures Inorder(tree) == [] ==> parent == null
      ensures Inorder(tree) != [] ==>
        parent == if val < 0 then Inorder(tree)[0] else Inorder(tree)[|Inorder(tree)| - 1]
    {
      hide Shape, Link, Distinct, Inorder, Nodes, Plug, Before, After, RedBlack, Sorted;
      var tmp := root;
      parent := null;
      ghost var p, t := Top, tree;
      SearchStart(tree, 0);
      Focus(p, t);
      while tmp != null
        invariant Shape() && tree == Plug(p, t) && tmp == Root(t)
        invariant if val < 0 then Before(p) == [] && parent == EndNext(p) else After(p) == [] && parent == EndPrev(p)
        decreases t
      {
        Focus(p, t);
        AtNode(p, t);
        parent := tmp;
        if val < 0 {
          p, t := GoLeft(p, t), t.left;
          tmp := tmp.left;
        } else {
          p, t := GoRight(p, t), t.right;
          tmp := tmp.right;
        }
      }
      LeafHere(p);
    }

    /** The next element of the order, or null after the last. */
    method Next(element: Node) returns (res: Node?)
      requires Valid() && element in Nodes(tree)
      ensures Valid() && IsNext(Inorder(tree), element, res)
    {
      hide Shape, Link, Distinct, Inorder, Nodes, Plug, Sorted, Before, After, RedBlack;
      var elm := element;
      ghost var p, s := Locate(tree, elm);
      Focus(p, s);
      NextByPosition(p, s);
      if elm.right != null {
        elm := elm.right;
        ghost var q, t := GoRight(p, s), s.right;
        AtNode(p, s);
        Focus(q, t);
        while elm.left != null
          invariant Shape() && tree == Plug(q, t) && t.Fork? && t.node == elm
          invariant OuterNext(q, t) == OuterNext(GoRight(p, s), s.right)
          invariant Fields(elm) == Links(Root(t.left), Root(t.right), ParentOf(q), t.color)
          decreases t
        {
          elm := elm.left;
          AtNode(q, t);
          OuterNextStep(q, t);
          q, t := GoLeft(q, t), t.left;
          Focus(q, t);
        }
        OuterNextEnd(q, t);
      } else {
        OuterNextClimb(p, s);
        if elm.parent != null && elm == elm.parent.left {
          elm := elm.parent;
        } else {
          ghost var q, t := p, s;
          while elm.parent != null && elm == elm.parent.right
            invariant Shape() && tree == Plug(q, t) && t.Fork? && t.node == elm && EndNext(q) == EndNext(p)
            invariant Fields(elm) == Links(Root(t.left), Root(t.right), ParentOf(q), t.color)
            invariant !q.Top? ==> (q.node.left == elm <==> q.InLeft?) && (q.node.right == elm <==> q.InRight?)
            decreases q
          {
            elm := elm.parent;
            EndNextStep(q, t);
            q, t := q.up, Below(q, t);
            Focus(q, t);
          }
          EndNextStep(q, t);
          res := elm.parent;
          return;
        }
      }
      res := elm;
    }

    /** The previous element of the order, or null before the first. */
    method Prev(element: Node) returns (res: Node?)
      requires Valid() && element in Nodes(tree)
      ensures Valid() && IsPrev(Inorder(tree), element, res)
    {
      hide Shape, Link, Distinct, Inorder, Nodes, Plug, Sorted, Before, After, RedBlack;
      var elm := element;
      ghost var p, s := Locate(tree, elm);
      Focus(p, s);
      PrevByPosition(p, s);
      if elm.left != null {
        elm := elm.left;
        ghost var q, t := GoLeft(p, s), s.left;
        AtNode(p, s);
        Focus(q, t);
        while elm.right != null
          invariant Shape() && tree == Plug(q, t) && t.Fork? && t.node == elm
          invariant OuterPrev(q, t) == OuterPrev(GoLeft(p, s), s.left)
          invariant Fields(elm) == Links(Root(t.left), Root(t.right), ParentOf(q), t.color)
          decreases t
        {
          elm := elm.right;
          AtNode(q, t);
          OuterPrevStep(q, t);
          q, t := GoRight(q, t), t.right;
          Focus(q, t);
        }
        OuterPrevEnd(q, t);
      } else {
        OuterPrevClimb(p, s);
        if elm.parent != null && elm == elm.parent.right {
          elm := elm.parent;
        } else {
          ghost var q, t := p, s;
          while elm.parent != null && elm == elm.parent.left
            invariant Shape() && tree == Plug(q, t) && t.Fork? && t.node == elm && EndPrev(q) == EndPrev(p)
            invariant Fields(elm) == Links(Root(t.left), Root(t.right), ParentOf(q), t.color)
            invariant !q.Top? ==> (q.node.left == elm <==> q.InLeft?) && (q.node.right == elm <==> q.InRight?)
            decreases q
          {
            elm := elm.parent;
            EndPrevStep(q, t);
            q, t := q.up, Below(q, t);
            Focus(q, t);
          }
          EndPrevStep(q, t);
          res := elm.parent;
          return;
        }
      }
      res := elm;
    }

    /** Starting at the minimum and following `Next` visits every element once, in order. */
    method ForEach() returns (visited: seq<Node>)
      requires Valid()
      ensures visited == Inorder(tree)
    {
      hide Shape, Link, Distinct, Inorder, Nodes, RedBlack, Sorted;
      visited := [];
      ghost var t, w := tree, Inorder(tree);
      var x := MinMax(-1);
      while x != null
        invariant Valid() && tree == t && |visited| <= |w| && visited == w[..|visited|]
        invariant x == if |visited| < |w| then w[|visited|] else null
        decreases |w| - |visited|
      {
        ghost var i := |visited|;
        InorderNodes(t);
        visited := visited + [x];
        x := Next(x);
        assert IsNext(w, w[i], x) && w[i] == visited[i] && |visited| == i + 1;
      }
    }

    /** The depth of the pointer structure of n elements is at most 2 lg (n+1). */
    lemma HeightAtMost()
      requires Valid()
      ensures Pow2(Height(tree)) <= (|Inorder(tree)| + 1) * (|Inorder(tree)| + 1)
    {
      HeightBound(tree);
      SizeIsLength(tree);
    }
  }
}
