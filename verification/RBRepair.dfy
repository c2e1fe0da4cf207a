/** Why each repair step of insertion and deletion re-establishes the red/black
    rules: statements about shapes only, each covering both mirrored branches.
  */
module RBRepair {
  import opened RBShape

  lemma SameOrder(ctx: Context, t: Tree, t': Tree)
    requires Inorder(t) == Inorder(t')
    ensures Inorder(Plug(ctx, t)) == Inorder(Plug(ctx, t'))
  {
    PlugInorder(ctx, t);
    PlugInorder(ctx, t');
  }

  ghost function BlackHeight(t: Tree): (h: nat)
    requires RedBlack(t)
    ensures RB(Root, t, h)
  {
    var h: nat :| RB(Root, t, h); h
  }

  lemma RBMove(s: Side, c: Color, t: Tree, x: Node, sib: Tree, up: Context, h: nat)
    requires RB(up, Join(s, c, t, x, sib), h)
    ensures c != Unassigned && (c == Black ==> h > 0)
    ensures RB(Frame(s, c, x, sib, up), t, if c == Black then h - 1 else h)
  {
  }

  lemma BlackenRoot(t: Tree)
    requires BalancedBelow(t) && t.Branch?
    ensures RedBlack(t.(color := Black))
    ensures Inorder(t.(color := Black)) == Inorder(t) && Nodes(t.(color := Black)) == Nodes(t)
  {
    var h: nat :| Bal(t, h);
    assert RB(Root, t.(color := Black), if t.color == Black then h else h + 1);
  }

  // ---------------------------------------------------------------- insertion

  // A red tree hangs in the hole; the only rule that may be broken is "no red below red" at the hole.
  predicate RedHole(ctx: Context, v: Tree, h: nat) {
    && IsRed(v) && NoRedRed(v) && Bal(v, h)
    && CtxNoRedRed(ctx) && CtxBal(ctx, h)
  }

  lemma FreshLeaf(ctx: Context, h: nat, x: Node)
    requires RB(ctx, Leaf, h)
    ensures RedHole(ctx, Branch(Red, Leaf, x, Leaf), h)
  {
  }

  // The rules, except that the root may be red.
  ghost predicate BalancedBelow(t: Tree) {
    NoRedRed(t) && exists h: nat :: Bal(t, h)
  }

  lemma InsertDone(ctx: Context, v: Tree, h: nat)
    requires RedHole(ctx, v, h) && !(ctx.Frame? && ctx.color == Red)
    ensures BalancedBelow(Plug(ctx, v))
  {
    if ctx.Frame? {
      RBPlug(ctx, v, h);
      var k: nat :| RB(Root, Plug(ctx, v), k);
    }
  }

  // Below a red node there is always a black one above it.
  lemma RedHoleAbove(ctx: Context, v: Tree, h: nat)
    requires RedHole(ctx, v, h) && ctx.Frame? && ctx.color != Black
    ensures ctx.color == Red && ctx.up.Frame? && ctx.up.color == Black
  {
    assert CtxNoRedRed(ctx.up);
  }

  // Both the parent and its sibling are red: pull the black down from the grandparent.
  lemma InsertPull(s: Side, cur: Node, sib: Tree, s2: Side, par: Node, unc: Tree, up: Context, v: Tree, h: nat)
    requires RedHole(Frame(s, Red, cur, sib, Frame(s2, Black, par, unc, up)), v, h) && IsRed(unc)
    ensures RedHole(up, Join(s2, Red, Join(s, Black, v, cur, sib), par, unc.(color := Black)), h + 1)
    ensures Inorder(Join(s2, Red, Join(s, Black, v, cur, sib), par, unc.(color := Black)))
         == Inorder(Join(s2, Black, Join(s, Red, v, cur, sib), par, unc))
  {
    var ctx2 := Frame(s2, Black, par, unc, up);
    assert CtxNoRedRed(ctx2) && CtxBal(ctx2, h);
    var below, unc' := Join(s, Black, v, cur, sib), unc.(color := Black);
    assert NoRedRed(below) && Bal(below, h + 1) && NoRedRed(unc') && Bal(unc', h + 1);
  }

  // The bent case is first straightened by a rotation at the parent.
  lemma InsertSlide(s2: Side, cur: Node, sib: Tree, v: Tree, h: nat)
    requires NoRedRed(v) && IsRed(v) && Bal(v, h)
    requires NoRedRed(sib) && !IsRed(sib) && Bal(sib, h)
    ensures var v' := Join(s2, Red, sib, cur, Child(v, s2)); var sib' := Child(v, Other(s2));
      && Rotatable(s2, Join(Other(s2), Red, v, cur, sib))
      && Rotate(s2, Join(Other(s2), Red, v, cur, sib)) == Join(s2, Red, v', v.node, sib')
      && NoRedRed(v') && Bal(v', h) && NoRedRed(sib') && !IsRed(sib') && Bal(sib', h)
  {
    assert NoRedRed(Child(v, s2)) && Bal(Child(v, s2), h);
  }

  lemma InsertTurn(s2: Side, cur: Node, v: Tree, sib: Tree, par: Node, unc: Tree, up: Context, h: nat)
    requires NoRedRed(v) && Bal(v, h)
    requires NoRedRed(sib) && !IsRed(sib) && Bal(sib, h)
    requires NoRedRed(unc) && !IsRed(unc) && Bal(unc, h)
    requires CtxNoRedRed(up) && CtxBal(up, h + 1)
    ensures var o := Other(s2);
      && Rotatable(o, Join(s2, Black, Join(s2, Red, v, cur, sib), par, unc))
      && Rotate(o, Join(s2, Black, Join(s2, Red, v, cur, sib), par, unc)) ==
        Join(o, Red, Join(o, Black, unc, par, sib), cur, v)
      && RB(up, Join(o, Black, Join(o, Red, unc, par, sib), cur, v), h + 1)
  {
    var below := Join(Other(s2), Red, unc, par, sib);
    assert NoRedRed(below) && Bal(below, h);
  }

  // ---------------------------------------------------------------- deletion

  function Blackened(t: Tree): Tree { if t.Branch? then t.(color := Black) else t }

  // The subtree in the hole is one black node short.  It may be red on top of a
  // red child; painting it black then repairs both.
  predicate Short(ctx: Context, t: Tree, h: nat) {
    && NoRedRed(Blackened(t)) && (t.Branch? ==> t.color != Unassigned) && Bal(t, h)
    && CtxNoRedRed(ctx) && CtxBal(ctx, h + 1)
    && (NeedsBlack(ctx) ==> !IsRed(t))
  }

  // How much repair work can still follow: a red parent ends it within one step.
  function Work(ctx: Context, t: Tree): nat {
    if IsRed(t) then 0 else if ctx.Frame? && ctx.color == Red then 1 else 2 + Depth(ctx)
  }

  // Cutting out a node with at most one child leaves at most a red leaf.
  lemma AtMostOneChild(ctx: Context, t: Tree, h: nat)
    requires RB(ctx, t, h) && t.Branch? && (t.left == Leaf || t.right == Leaf)
    ensures t.color != Unassigned
    ensures t.color == Red ==> t.left == t.right == Leaf && RB(ctx, Leaf, h)
    ensures t.color == Black && t.left == t.right == Leaf ==> Short(ctx, Leaf, 0)
    ensures t.color == Black && t.left != Leaf ==> OnlyRedChild(ctx, t.left, h)
    ensures t.color == Black && t.right != Leaf ==> OnlyRedChild(ctx, t.right, h)
  {
    var k := if t.color == Black then h - 1 else h;
    assert Bal(t.left, k) && Bal(t.right, k) && NoRedRed(t.left) && NoRedRed(t.right);
    assert k == 0;
    if t.left.Branch? { BareRed(t.left); }
    if t.right.Branch? { BareRed(t.right); }
  }

  predicate OnlyRedChild(ctx: Context, t: Tree, h: nat) {
    && t.Branch? && t.left == t.right == Leaf && RB(ctx, t.(color := Black), h)
  }

  lemma BareRed(t: Tree)
    requires t.Branch? && NoRedRed(t) && Bal(t, 0)
    ensures t.color == Red && t.left == t.right == Leaf
  {
    assert Bal(t.left, 0) && Bal(t.right, 0) && NoRedRed(t.left) && NoRedRed(t.right);
  }

  // The sibling has a black height of at least one, so it is a node.
  lemma SiblingIsNode(ctx: Context, t: Tree, h: nat)
    requires Short(ctx, t, h) && ctx.Frame?
    ensures ctx.sibling.Branch? && ctx.sibling.color != Unassigned && ctx.color != Unassigned
    ensures IsRed(ctx.sibling) ==> ctx.color == Black && Child(ctx.sibling, ctx.side).Branch?
    ensures NoRedRed(ctx.sibling.left) && NoRedRed(ctx.sibling.right)
  {
    if IsRed(ctx.sibling) { assert Bal(Child(ctx.sibling, ctx.side), h + 1); }
  }

  // Red sibling: rotate it over the parent, which becomes red.
  lemma ShortRedSibling(s: Side, par: Node, sib: Tree, up: Context, t: Tree, h: nat)
    requires Short(Frame(s, Black, par, sib, up), t, h) && IsRed(sib) && !IsRed(t)
    ensures Short(Frame(s, Red, par, Child(sib, s), Frame(s, Black, sib.node, Child(sib, Other(s)), up)), t, h)
    ensures Work(Frame(s, Red, par, Child(sib, s), Frame(s, Black, sib.node, Child(sib, Other(s)), up)), t)
          < Work(Frame(s, Black, par, sib, up), t)
    ensures Rotatable(s, Join(s, Red, t, par, sib.(color := Black)))
    ensures Rotate(s, Join(s, Red, t, par, sib.(color := Black)))
         == Join(s, Black, Join(s, Red, t, par, Child(sib, s)), sib.node, Child(sib, Other(s)))
  {
    var up' := Frame(s, Black, sib.node, Child(sib, Other(s)), up);
    assert CtxNoRedRed(up') && CtxBal(up', h + 1);
  }

  // Black sibling with black children: take one black from the sibling and climb.
  lemma ShortBlackNephews(s: Side, c: Color, par: Node, sib: Tree, up: Context, t: Tree, h: nat)
    requires Short(Frame(s, c, par, sib, up), t, h) && !IsRed(t)
    requires sib.Branch? && sib.color == Black && !IsRed(sib.left) && !IsRed(sib.right)
    ensures Short(up, Join(s, c, t, par, sib.(color := Red)), if c == Black then h + 1 else h)
    ensures Work(up, Join(s, c, t, par, sib.(color := Red))) < Work(Frame(s, c, par, sib, up), t)
  {
    var sib' := sib.(color := Red);
    assert NoRedRed(sib') && Bal(sib', h) && NoRedRed(t);
  }

  // Near nephew red, far nephew black: slide the near one up first.
  lemma ShortSlide(s: Side, sib: Tree, h: nat)
    requires sib.Branch? && sib.color == Black && NoRedRed(sib) && Bal(sib, h + 1)
    requires IsRed(Child(sib, s)) && !IsRed(Child(sib, Other(s)))
    ensures var near := Child(sib, s); var o := Other(s);
      && Rotatable(o, sib)
      && Rotate(o, sib) ==
        Join(s, Red, Child(near, s), near.node, Join(s, Black, Child(near, o), sib.node, Child(sib, o)))
      && FarNephew(Child(near, s), Join(s, Black, Child(near, o), sib.node, Child(sib, o)), h)
  {
    var near, o := Child(sib, s), Other(s);
    assert NoRedRed(near) && Bal(near, h);
    assert NoRedRed(Child(near, s)) && Bal(Child(near, s), h);
  }

  // What the final rotation needs of the two nephews.
  predicate FarNephew(near: Tree, far: Tree, h: nat) {
    && NoRedRed(near) && Bal(near, h)
    && far.Branch? && NoRedRed(far.(color := Black)) && Bal(far.(color := Black), h + 1)
  }

  lemma ShortDirect(s: Side, sib: Tree, h: nat)
    requires sib.Branch? && sib.color == Black && NoRedRed(sib) && Bal(sib, h + 1)
    requires IsRed(Child(sib, Other(s)))
    ensures FarNephew(Child(sib, s), Child(sib, Other(s)), h)
  {
    assert NoRedRed(Child(sib, Other(s))) && Bal(Child(sib, Other(s)), h);
  }

  lemma ShortTurn(s: Side, c: Color, par: Node, near: Tree, sib: Node, far: Tree, up: Context, t: Tree, h: nat)
    requires NoRedRed(t) && Bal(t, h) && FarNephew(near, far, h)
    requires c != Unassigned && CtxNoRedRed(up) && CtxBal(up, if c == Black then h + 2 else h + 1)
    requires c == Red ==> !NeedsBlack(up)
    ensures var far' := far.(color := Black);
      && Rotatable(s, Join(s, Black, t, par, Join(s, c, near, sib, far')))
      && Rotate(s, Join(s, Black, t, par, Join(s, c, near, sib, far'))) ==
        Join(s, c, Join(s, Black, t, par, near), sib, far')
      && RB(up, Join(s, c, Join(s, Black, t, par, near), sib, far'), if c == Black then h + 2 else h + 1)
  {
    var below := Join(s, Black, t, par, near);
    assert NoRedRed(below) && Bal(below, h + 1);
  }

  lemma ShortDone(ctx: Context, t: Tree, h: nat)
    requires Short(ctx, t, h) && (IsRed(t) || ctx.Root?)
    ensures RedBlack(Plug(ctx, Blackened(t)))
    ensures Inorder(Blackened(t)) == Inorder(t)
  {
    RBPlug(ctx, Blackened(t), if IsRed(t) then h + 1 else h);
  }
}
