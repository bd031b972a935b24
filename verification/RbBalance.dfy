/** The colouring rules of a red-black tree (deps/include/tree.h:53-62), stated on
    `Tree` values and on the surroundings of a position, and the height bound
    that follows from them. */
module RbBalance {
  import opened RbShape

  ghost predicate IsRed(t: Tree) {
    t.Fork? && t.color.Red?
  }

  ghost function Weight(c: Color): nat {
    if c.Black? then 1 else 0
  }

  /** The number of black nodes on the leftmost path; on a balanced tree, on every path. */
  ghost function BlackHeight(t: Tree): nat {
    if t.Leaf? then 0 else BlackHeight(t.left) + Weight(t.color)
  }

  /** Equal numbers of black nodes on all paths, and no red child of a red node. */
  ghost predicate Balanced(t: Tree) {
    match t
    case Leaf => true
    case Fork(l, _, c, r) =>
      && Balanced(l) && Balanced(r) && BlackHeight(l) == BlackHeight(r)
      && (c.Red? ==> !IsRed(l) && !IsRed(r))
  }

  ghost predicate RedBlack(t: Tree) {
    Balanced(t) && !IsRed(t)
  }

  ghost predicate PathRed(p: Path) {
    !p.Top? && p.color.Red?
  }

  /** The surroundings are balanced provided a subtree of black height `h` fills the position. */
  ghost predicate PathBalanced(p: Path, h: nat) {
    match p
    case Top => true
    case InLeft(up, _, c, s) => SideBalanced(up, c, s, h) && PathBalanced(up, h + Weight(c))
    case InRight(up, s, _, c) => SideBalanced(up, c, s, h) && PathBalanced(up, h + Weight(c))
  }

  ghost predicate SideBalanced(up: Path, c: Color, s: Tree, h: nat) {
    Balanced(s) && BlackHeight(s) == h && (c.Red? ==> !IsRed(s) && !PathRed(up))
  }

  /** The topmost node of the surroundings, if there is one, is black. */
  ghost predicate TopBlack(p: Path) {
    p.Top? || (if p.up.Top? then p.color.Black? else TopBlack(p.up))
  }

  lemma {:induction false} PlugBalanced(p: Path, t: Tree)
    ensures Balanced(Plug(p, t))
        <==> Balanced(t) && PathBalanced(p, BlackHeight(t)) && !(PathRed(p) && IsRed(t))
  {
    match p
    case Top =>
    case InLeft(up, n, c, r) =>
      var f := Fork(t, n, c, r);
      PlugBalanced(up, f);
      assert BlackHeight(f) == BlackHeight(t) + Weight(c);
      assert Balanced(f) && !(PathRed(up) && IsRed(f))
         <==> Balanced(t) && SideBalanced(up, c, r, BlackHeight(t)) && !(c.Red? && IsRed(t));
    case InRight(up, l, n, c) =>
      var f := Fork(l, n, c, t);
      PlugBalanced(up, f);
      assert Balanced(f) && !(PathRed(up) && IsRed(f))
         <==> Balanced(t) && SideBalanced(up, c, l, BlackHeight(t)) && !(c.Red? && IsRed(t));
  }

  lemma {:induction false} PlugIsRed(p: Path, t: Tree)
    ensures IsRed(Plug(p, t)) <==> if p.Top? then IsRed(t) else !TopBlack(p)
  {
    match p
    case Top =>
    case InLeft(up, n, c, r) => PlugIsRed(up, Fork(t, n, c, r));
    case InRight(up, l, n, c) => PlugIsRed(up, Fork(l, n, c, t));
  }

  /** A red subtree `s` that may hang below a red node; all else is in order. */
  ghost predicate InsertInvariant(p: Path, s: Tree) {
    IsRed(s) && Balanced(s) && PathBalanced(p, BlackHeight(s)) && TopBlack(p)
  }

  /** The subtree one step up. */
  ghost function Below(p: Path, s: Tree): (t: Tree)
    requires !p.Top?
    ensures t.Fork? && t.node == p.node && t.color == p.color
    ensures Plug(p.up, t) == Plug(p, s)
  {
    if p.InLeft? then Fork(s, p.node, p.color, p.right) else Fork(p.left, p.node, p.color, s)
  }

  /** When the node above is red as well, the grandparent is black and in balance. */
  lemma RedBelowRed(p: Path, s: Tree)
    requires InsertInvariant(p, s) && PathRed(p)
    ensures s.Fork? && !p.up.Top? && p.up.color.Black?
    ensures TopBlack(p.up.up) && PathBalanced(p.up.up, BlackHeight(s) + 1)
    ensures var t := Below(p, s);
      IsRed(t) && Balanced(t.(color := Black)) && BlackHeight(t) == BlackHeight(s)
    ensures !IsRed(if p.InLeft? then p.right else p.left)
    ensures var uncle := if p.up.InLeft? then p.up.right else p.up.left;
      Balanced(uncle) && BlackHeight(uncle) == BlackHeight(s)
  {
    var h := BlackHeight(s);
    assert PathBalanced(p.up, h + Weight(p.color));
    assert TopBlack(p.up);
    assert PathBalanced(p.up.up, h + Weight(p.up.color));
  }

  /** Below a black grandparent with a red uncle, swapping colours moves the red node up. */
  lemma RedUncle(u: Path, a: Tree, g: Node, b: Tree, h: nat)
    requires TopBlack(u) && PathBalanced(u, h + 1)
    requires a.Fork? && Balanced(a.(color := Black)) && BlackHeight(a) == h && IsRed(a)
    requires b.Fork? && Balanced(b.(color := Black)) && BlackHeight(b) == h && IsRed(b)
    ensures InsertInvariant(u, Fork(a.(color := Black), g, Red, b.(color := Black)))
  {
  }


  /** With a black uncle, one rotation to the outer side and one at the grandparent restore the colouring. */
  lemma BlackUncleLeft(p: Path, s: Tree, g: Node, uncle: Tree)
    requires InsertInvariant(p, s) && PathRed(p) && !p.up.Top?
    requires Balanced(uncle) && BlackHeight(uncle) == BlackHeight(s) && !IsRed(uncle)
    ensures
      var u, t := p.up.up, if p.InLeft? then Below(p, s) else RotatedLeft(Below(p, s));
      t.Fork? && InsertInvariant(InLeft(u, t.node, Black, Fork(t.right, g, Red, uncle)), t.left)
  {
    RedBelowRed(p, s);
    var h := BlackHeight(s);
    var u, t := p.up.up, if p.InLeft? then Below(p, s) else RotatedLeft(Below(p, s));
    assert IsRed(t.left) && Balanced(t.left) && BlackHeight(t.left) == h;
    assert Balanced(t.right) && BlackHeight(t.right) == h && !IsRed(t.right);
  }

  /** With a black uncle, one rotation to the outer side and one at the grandparent restore the colouring. */
  lemma BlackUncleRight(p: Path, s: Tree, g: Node, uncle: Tree)
    requires InsertInvariant(p, s) && PathRed(p) && !p.up.Top?
    requires Balanced(uncle) && BlackHeight(uncle) == BlackHeight(s) && !IsRed(uncle)
    ensures
      var u, t := p.up.up, if p.InRight? then Below(p, s) else RotatedRight(Below(p, s));
      t.Fork? && InsertInvariant(InRight(u, Fork(uncle, g, Red, t.left), t.node, Black), t.right)
  {
    RedBelowRed(p, s);
    var h := BlackHeight(s);
    var u, t := p.up.up, if p.InRight? then Below(p, s) else RotatedRight(Below(p, s));
    assert IsRed(t.right) && Balanced(t.right) && BlackHeight(t.right) == h;
    assert Balanced(t.left) && BlackHeight(t.left) == h && !IsRed(t.left);
  }

  // ------------------------------------------------------- removal, step by step

  ghost function Blackened(t: Tree): Tree {
    if t.Leaf? then t else t.(color := Black)
  }

  /** The subtree `t` is one black node short; all else is in order, except that
      a red root of `t` may have red children. */
  ghost predicate RemoveInvariant(p: Path, t: Tree) {
    Balanced(Blackened(t)) && PathBalanced(p, BlackHeight(t) + 1) && TopBlack(p)
  }

  lemma WholeTree(t: Tree)
    requires RedBlack(t)
    ensures RemoveInvariant(Top, t) && Plug(Top, t) == t
  {
  }

  lemma SiblingExists(p: Path, t: Tree)
    requires !p.Top? && RemoveInvariant(p, t)
    ensures (if p.InLeft? then p.right else p.left).Fork?
  {
  }

  /** A red sibling is turned up; the position then has a black sibling and a red parent. */
  lemma RedSiblingLeft(p: Path, t: Tree)
    requires p.InLeft? && RemoveInvariant(p, t) && !IsRed(t) && IsRed(p.right)
    ensures p.color.Black? && p.right.left.Fork?
    ensures var s := p.right;
      RemoveInvariant(InLeft(InLeft(p.up, s.node, Black, s.right), p.node, Red, s.left), t) && !IsRed(s.left)
  {
    assert PathBalanced(p.up, BlackHeight(t) + 1 + Weight(p.color));
  }

  /** A black sibling without red children is made red, and the deficit moves up. */
  lemma BlackNephewsLeft(p: Path, t: Tree)
    requires p.InLeft? && RemoveInvariant(p, t) && !IsRed(t)
    requires p.right.Fork? && !IsRed(p.right) && !IsRed(p.right.left) && !IsRed(p.right.right)
    ensures var s := p.right;
      RemoveInvariant(p.up, Fork(t, p.node, p.color, s.(color := Red)))
  {
    var s, h := p.right, BlackHeight(t);
    assert SideBalanced(p.up, p.color, s, h + 1) && PathBalanced(p.up, h + 1 + Weight(p.color));
    assert Balanced(s.(color := Red)) && BlackHeight(s.(color := Red)) == h;
  }

  /** A red child on the near side of the sibling is turned to the far side. */
  lemma NearNephewLeft(p: Path, t: Tree)
    requires p.InLeft? && RemoveInvariant(p, t) && !IsRed(t)
    requires p.right.Fork? && !IsRed(p.right) && IsRed(p.right.left) && !IsRed(p.right.right)
    ensures var s := p.right;
      var s1 := RotatedRight(s.(color := Red, left := s.left.(color := Black)));
      !IsRed(s1) && IsRed(s1.right)
      && RemoveInvariant(InLeft(p.up, p.node, p.color, RotatedRight(s.(color := Red, left := s.left.(color := Black)))), t)
  {
    var s, h := p.right, BlackHeight(t);
    assert SideBalanced(p.up, p.color, s, h + 1) && PathBalanced(p.up, h + 1 + Weight(p.color));
    var a, b, c := s.left.left, s.left.right, s.right;
    assert Balanced(s.left) && BlackHeight(s.left) == h;
    assert Balanced(a) && Balanced(b) && Balanced(c) && BlackHeight(a) == BlackHeight(b) == BlackHeight(c) == h;
    assert !IsRed(a) && !IsRed(b) && !IsRed(c);
    var s1 := RotatedRight(s.(color := Red, left := s.left.(color := Black)));
    assert Balanced(s1.right) && BlackHeight(s1.right) == h;
    assert Balanced(s1) && BlackHeight(s1) == h + 1;
  }

  /** With a red child on the far side, one rotation ends the repair. */
  lemma FarNephewLeft(p: Path, t: Tree)
    requires p.InLeft? && RemoveInvariant(p, t) && !IsRed(t)
    requires p.right.Fork? && !IsRed(p.right) && IsRed(p.right.right)
    ensures var s := p.right;
      RedBlack(Plug(p.up, RotatedLeft(Fork(t, p.node, Black, s.(color := p.color, right := s.right.(color := Black))))))
  {
    var s, h := p.right, BlackHeight(t);
    assert SideBalanced(p.up, p.color, s, h + 1) && PathBalanced(p.up, h + 1 + Weight(p.color));
    assert Balanced(s.right) && BlackHeight(s.right) == h && Balanced(s.right.(color := Black));
    assert Balanced(s.left) && BlackHeight(s.left) == h;
    var now := RotatedLeft(Fork(t, p.node, Black, s.(color := p.color, right := s.right.(color := Black))));
    assert Balanced(now.left) && BlackHeight(now.left) == h + 1;
    assert Balanced(now.right) && BlackHeight(now.right) == h + 1;
    assert TopBlack(p.up) && (now.color.Red? ==> !PathRed(p.up));
    PlugBalanced(p.up, now);
    PlugIsRed(p.up, now);
  }

  /** A red sibling is turned up; the position then has a black sibling and a red parent. */
  lemma RedSiblingRight(p: Path, t: Tree)
    requires p.InRight? && RemoveInvariant(p, t) && !IsRed(t) && IsRed(p.left)
    ensures p.color.Black? && p.left.right.Fork?
    ensures var s := p.left;
      RemoveInvariant(InRight(InRight(p.up, s.left, s.node, Black), s.right, p.node, Red), t) && !IsRed(s.right)
  {
    assert PathBalanced(p.up, BlackHeight(t) + 1 + Weight(p.color));
  }

  /** A black sibling without red children is made red, and the deficit moves up. */
  lemma BlackNephewsRight(p: Path, t: Tree)
    requires p.InRight? && RemoveInvariant(p, t) && !IsRed(t)
    requires p.left.Fork? && !IsRed(p.left) && !IsRed(p.left.left) && !IsRed(p.left.right)
    ensures var s := p.left;
      RemoveInvariant(p.up, Fork(s.(color := Red), p.node, p.color, t))
  {
    var s, h := p.left, BlackHeight(t);
    assert SideBalanced(p.up, p.color, s, h + 1) && PathBalanced(p.up, h + 1 + Weight(p.color));
    assert Balanced(s.(color := Red)) && BlackHeight(s.(color := Red)) == h;
  }

  /** A red child on the near side of the sibling is turned to the far side. */
  lemma NearNephewRight(p: Path, t: Tree)
    requires p.InRight? && RemoveInvariant(p, t) && !IsRed(t)
    requires p.left.Fork? && !IsRed(p.left) && IsRed(p.left.right) && !IsRed(p.left.left)
    ensures var s := p.left;
      var s1 := RotatedLeft(s.(color := Red, right := s.right.(color := Black)));
      !IsRed(s1) && IsRed(s1.left)
      && RemoveInvariant(InRight(p.up, RotatedLeft(s.(color := Red, right := s.right.(color := Black))), p.node, p.color), t)
  {
    var s, h := p.left, BlackHeight(t);
    assert SideBalanced(p.up, p.color, s, h + 1) && PathBalanced(p.up, h + 1 + Weight(p.color));
    var a, b, c := s.right.right, s.right.left, s.left;
    assert Balanced(s.right) && BlackHeight(s.right) == h;
    assert Balanced(a) && Balanced(b) && Balanced(c) && BlackHeight(a) == BlackHeight(b) == BlackHeight(c) == h;
    assert !IsRed(a) && !IsRed(b) && !IsRed(c);
    var s1 := RotatedLeft(s.(color := Red, right := s.right.(color := Black)));
    assert Balanced(s1.left) && BlackHeight(s1.left) == h;
    assert Balanced(s1) && BlackHeight(s1) == h + 1;
  }

  /** With a red child on the far side, one rotation ends the repair. */
  lemma FarNephewRight(p: Path, t: Tree)
    requires p.InRight? && RemoveInvariant(p, t) && !IsRed(t)
    requires p.left.Fork? && !IsRed(p.left) && IsRed(p.left.left)
    ensures var s := p.left;
      RedBlack(Plug(p.up, RotatedRight(Fork(s.(color := p.color, left := s.left.(color := Black)), p.node, Black, t))))
  {
    var s, h := p.left, BlackHeight(t);
    assert SideBalanced(p.up, p.color, s, h + 1) && PathBalanced(p.up, h + 1 + Weight(p.color));
    assert Balanced(s.left) && BlackHeight(s.left) == h && Balanced(s.left.(color := Black));
    assert Balanced(s.right) && BlackHeight(s.right) == h;
    var now := RotatedRight(Fork(s.(color := p.color, left := s.left.(color := Black)), p.node, Black, t));
    assert Balanced(now.right) && BlackHeight(now.right) == h + 1;
    assert Balanced(now.left) && BlackHeight(now.left) == h + 1;
    assert TopBlack(p.up) && (now.color.Red? ==> !PathRed(p.up));
    PlugBalanced(p.up, now);
    PlugIsRed(p.up, now);
  }

  /** Once the short subtree is red, or is the whole tree, painting its root black ends the repair. */
  lemma RemoveDone(p: Path, t: Tree)
    requires RemoveInvariant(p, t) && (IsRed(t) || p.Top?)
    ensures RedBlack(Plug(p, Blackened(t)))
  {
    var s := Blackened(t);
    PlugBalanced(p, s);
    PlugIsRed(p, s);
  }

  /** Taking out a node with at most one child. */
  lemma SpliceBalance(p: Path, s: Tree, t: Tree)
    requires RedBlack(Plug(p, s)) && s.Fork?
    requires (s.left.Leaf? && t == s.right) || (s.right.Leaf? && t == s.left)
    ensures Balanced(t) && PathBalanced(p, BlackHeight(t) + Weight(s.color)) && TopBlack(p)
    ensures s.color.Red? ==> !PathRed(p) && !p.Top? && !IsRed(t)
  {
    hide Plug;
    PlugBalanced(p, s);
    PlugIsRed(p, s);
  }

  lemma ShortSubtree(p: Path, t: Tree)
    requires Balanced(t) && TopBlack(p) && PathBalanced(p, BlackHeight(t) + Weight(Black))
    ensures RemoveInvariant(p, t)
  {
  }

  lemma StillBalanced(p: Path, t: Tree)
    requires Balanced(t) && TopBlack(p) && PathBalanced(p, BlackHeight(t) + Weight(Red))
    requires !PathRed(p) && !p.Top? && !IsRed(t)
    ensures RedBlack(Plug(p, t))
  {
    PlugBalanced(p, t);
    PlugIsRed(p, t);
  }

  /** The colouring of the surroundings does not depend on which nodes carry the colours. */
  lemma {:induction false} RenameBalance(q: Path, p: Path, l: Tree, n: Node, m: Node, c: Color, h: nat)
    ensures PathBalanced(Joined(q, InRight(p, l, n, c)), h) <==> PathBalanced(Joined(q, InRight(p, l, m, c)), h)
    ensures TopBlack(Joined(q, InRight(p, l, n, c))) <==> TopBlack(Joined(q, InRight(p, l, m, c)))
    ensures PathRed(Joined(q, InRight(p, l, n, c))) <==> PathRed(Joined(q, InRight(p, l, m, c)))
  {
    if !q.Top? {
      RenameBalance(q.up, p, l, n, m, c, h + Weight(q.color));
    }
  }

  // ------------------------------------------------------------ height bound

  ghost function Size(t: Tree): nat {
    if t.Leaf? then 0 else Size(t.left) + 1 + Size(t.right)
  }

  ghost function Height(t: Tree): nat {
    if t.Leaf? then 0
    else 1 + if Height(t.left) < Height(t.right) then Height(t.right) else Height(t.left)
  }

  ghost function Pow2(n: nat): nat {
    if n == 0 then 1 else 2 * Pow2(n - 1)
  }

  lemma Doubled(x: nat, y: nat)
    ensures (2 * x) * y == 2 * (x * y)
  {
  }

  lemma {:induction false} Pow2Sum(a: nat, b: nat)
    ensures Pow2(a + b) == Pow2(a) * Pow2(b)
  {
    if a > 0 {
      Pow2Sum(a - 1, b);
      Doubled(Pow2(a - 1), Pow2(b));
      assert Pow2(a + b) == 2 * Pow2(a - 1 + b);
    }
  }

  lemma {:induction false} Pow2Monotone(a: nat, b: nat)
    requires a <= b
    ensures Pow2(a) <= Pow2(b)
  {
    if a < b { Pow2Monotone(a, b - 1); }
  }

  lemma {:induction false} HeightByBlackHeight(t: Tree)
    requires Balanced(t)
    ensures Height(t) <= 2 * BlackHeight(t) + if IsRed(t) then 1 else 0
  {
    if t.Fork? { HeightByBlackHeight(t.left); HeightByBlackHeight(t.right); }
  }

  lemma {:induction false} SizeByBlackHeight(t: Tree)
    requires Balanced(t)
    ensures Pow2(BlackHeight(t)) <= Size(t) + 1
  {
    if t.Fork? { SizeByBlackHeight(t.left); SizeByBlackHeight(t.right); }
  }

  /** The height of a red-black tree of n nodes is at most 2 lg (n+1),
      with both sides raised as powers of two. */
  lemma HeightBound(t: Tree)
    requires RedBlack(t)
    ensures Pow2(Height(t)) <= (Size(t) + 1) * (Size(t) + 1)
  {
    hide Pow2, Height, Size, BlackHeight, Balanced;
    var h, k, n := BlackHeight(t), Pow2(BlackHeight(t)), Size(t) + 1;
    HeightByBlackHeight(t);
    SizeByBlackHeight(t);
    Pow2Monotone(Height(t), h + h);
    Pow2Sum(h, h);
    Times(k, k, n);
    Times(n, k, n);
    assert k * n == n * k;
  }

  lemma {:induction false} Times(k: nat, a: nat, b: nat)
    requires a <= b
    ensures k * a <= k * b
  {
    if k > 0 {
      Times(k - 1, a, b);
      assert k * a == (k - 1) * a + a && k * b == (k - 1) * b + b;
    }
  }

  lemma {:induction false} SizeIsLength(t: Tree)
    ensures Size(t) == |Inorder(t)|
  {
    if t.Fork? { SizeIsLength(t.left); SizeIsLength(t.right); }
  }
}
