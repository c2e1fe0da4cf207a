/** The abstract side of the intrusive red/black tree: shapes, zippers and the way
    a shape is laid out in memory as linked nodes.

    A position in a tree is a pair (context, subtree).  The loops of the original
    walk up and down parent and child links; here each such walk is a move of
    that pair, and the two mirrored halves of the original are one statement
    over a `Side`.
  */
module RBShape {
  import opened Common

  datatype Color = Unassigned | Black | Red

  class Node {
    var left: Node
    var right: Node
    var parent: Node?
    var color: Color

    // RBTreeNode_Init: only the color is meaningful until the node is added.
    constructor ()
      ensures color == Unassigned
      ensures left == this && right == this
    {
      left, right, parent, color := this, this, null, Unassigned;
    }
  }

  datatype Side = L | R

  datatype Tree = Leaf | Branch(color: Color, left: Tree, node: Node, right: Tree)

  // A tree with one subtree missing; the missing one hangs on `side` of `node`.
  datatype Context = Root | Frame(side: Side, color: Color, node: Node, sibling: Tree, up: Context)

  // What one node holds in memory.
  datatype Cell = Cell(left: Node, right: Node, parent: Node?, color: Color)

  type Mem = map<Node, Cell>

  // The two sentinels: the shared leaf sentinel and the tree's own root sentinel.
  datatype Ends = Ends(leaf: Node, top: Node)

  function Join(s: Side, c: Color, t: Tree, x: Node, sibling: Tree): Tree {
    if s == L then Branch(c, t, x, sibling) else Branch(c, sibling, x, t)
  }

  function Plug(ctx: Context, t: Tree): Tree
    decreases ctx
  {
    match ctx
    case Root => t
    case Frame(s, c, x, sib, up) => Plug(up, Join(s, c, t, x, sib))
  }

  lemma PlugFrame(s: Side, c: Color, t: Tree, x: Node, sib: Tree, up: Context)
    ensures Plug(Frame(s, c, x, sib, up), t) == Plug(up, Join(s, c, t, x, sib))
  {
  }

  function Depth(ctx: Context): nat {
    match ctx case Root => 0 case Frame(_, _, _, _, up) => 1 + Depth(up)
  }

  // ---------------------------------------------------------------- order

  function Inorder(t: Tree): seq<Node> {
    match t case Leaf => [] case Branch(_, l, x, r) => Inorder(l) + [x] + Inorder(r)
  }

  // The nodes that come before, and after, the hole.
  function Before(ctx: Context): seq<Node> {
    match ctx
    case Root => []
    case Frame(s, _, x, sib, up) => if s == L then Before(up) else Before(up) + Inorder(sib) + [x]
  }

  function After(ctx: Context): seq<Node> {
    match ctx
    case Root => []
    case Frame(s, _, x, sib, up) => if s == R then After(up) else [x] + Inorder(sib) + After(up)
  }

  lemma Regroup(a: seq<Node>, b: seq<Node>, c: seq<Node>, d: seq<Node>, e: seq<Node>)
    ensures a + (b + c + d) + e == a + b + (c + d + e)
    ensures a + (b + c + d) + e == (a + b + c) + d + e
  {
  }

  lemma {:induction false} PlugInorder(ctx: Context, t: Tree)
    ensures Inorder(Plug(ctx, t)) == Before(ctx) + Inorder(t) + After(ctx)
    decreases ctx
  {
    match ctx
    case Root =>
    case Frame(s, c, x, sib, up) =>
      PlugInorder(up, Join(s, c, t, x, sib));
      if s == L {
        Regroup(Before(up), Inorder(t), [x], Inorder(sib), After(up));
      } else {
        Regroup(Before(up), Inorder(sib), [x], Inorder(t), After(up));
      }
  }

  // ---------------------------------------------------------------- balance

  predicate IsRed(t: Tree) { t.Branch? && t.color == Red }

  // Every path down `t` meets exactly `h` black nodes.
  predicate Bal(t: Tree, h: nat) {
    match t
    case Leaf => h == 0
    case Branch(c, l, _, r) =>
      if c == Black then h > 0 && Bal(l, h - 1) && Bal(r, h - 1) else Bal(l, h) && Bal(r, h)
  }

  predicate NoRedRed(t: Tree) {
    t.Branch? ==>
      && t.color != Unassigned
      && (t.color == Red ==> !IsRed(t.left) && !IsRed(t.right))
      && NoRedRed(t.left) && NoRedRed(t.right)
  }

  // A red subtree may not be put into the hole: it would sit below a red node, or be a red root.
  predicate NeedsBlack(ctx: Context) { ctx.Frame? ==> ctx.color == Red }

  // The context is correct around a hole of black height `h`.
  predicate CtxBal(ctx: Context, h: nat) {
    ctx.Frame? ==> Bal(ctx.sibling, h) && CtxBal(ctx.up, if ctx.color == Black then h + 1 else h)
  }

  predicate CtxNoRedRed(ctx: Context) {
    ctx.Frame? ==>
      && ctx.color != Unassigned
      && NoRedRed(ctx.sibling)
      && (ctx.color == Red ==> !IsRed(ctx.sibling) && !NeedsBlack(ctx.up))
      && CtxNoRedRed(ctx.up)
  }

  // The red/black rules, seen from the position (ctx, t).
  predicate RB(ctx: Context, t: Tree, h: nat) {
    && NoRedRed(t) && CtxNoRedRed(ctx)
    && Bal(t, h) && CtxBal(ctx, h)
    && (NeedsBlack(ctx) ==> !IsRed(t))
  }

  // Black root, no red node below a red one, equal black heights.
  ghost predicate RedBlack(t: Tree) {
    exists h: nat :: RB(Root, t, h)
  }

  lemma {:induction false} RBPlug(ctx: Context, t: Tree, h: nat)
    requires RB(ctx, t, h)
    ensures RedBlack(Plug(ctx, t))
    decreases ctx
  {
    match ctx
    case Root => assert RB(Root, t, h);
    case Frame(s, c, x, sib, up) => RBPlug(up, Join(s, c, t, x, sib), if c == Black then h + 1 else h);
  }

  // ---------------------------------------------------------------- size and height

  function Height(t: Tree): nat {
    match t
    case Leaf => 0
    case Branch(_, l, _, r) => 1 + if Height(l) > Height(r) then Height(l) else Height(r)
  }

  lemma {:induction false} BalancedSize(t: Tree, h: nat)
    requires NoRedRed(t) && Bal(t, h)
    ensures Height(t) <= 2 * h + (if IsRed(t) then 1 else 0)
    ensures |Inorder(t)| + 1 >= Pow2(h)
    decreases t
  {
    match t
    case Leaf =>
    case Branch(c, l, x, r) =>
      var k := if c == Black then h - 1 else h;
      BalancedSize(l, k);
      BalancedSize(r, k);
  }

  lemma {:induction false} Pow2Sum(a: nat, b: nat)
    ensures Pow2(a + b) == Pow2(a) * Pow2(b)
  {
    if a > 0 { Pow2Sum(a - 1, b); }
  }

  lemma {:induction false} Pow2Mono(a: nat, b: nat)
    requires a <= b
    ensures Pow2(a) <= Pow2(b)
  {
    if a < b { Pow2Mono(a, b - 1); }
  }

  lemma SquareMono(a: nat, b: nat)
    requires a <= b
    ensures a * a <= b * b
  {
  }

  // Height is at most 2 * log2(n + 1), stated without logarithms.
  lemma HeightBound(t: Tree)
    requires RedBlack(t)
    ensures Pow2(Height(t)) <= (|Inorder(t)| + 1) * (|Inorder(t)| + 1)
  {
    var h: nat :| RB(Root, t, h);
    BalancedSize(t, h);
    Pow2Mono(Height(t), h + h);
    Pow2Sum(h, h);
    SquareMono(Pow2(h), |Inorder(t)| + 1);
  }

  // ---------------------------------------------------------------- node sets

  function Nodes(t: Tree): set<Node> {
    match t case Leaf => {} case Branch(_, l, x, r) => Nodes(l) + {x} + Nodes(r)
  }

  function CtxNodes(ctx: Context): set<Node> {
    match ctx case Root => {} case Frame(_, _, x, sib, up) => Nodes(sib) + {x} + CtxNodes(up)
  }

  lemma {:induction false} PlugNodes(ctx: Context, t: Tree)
    ensures Nodes(Plug(ctx, t)) == Nodes(t) + CtxNodes(ctx)
    decreases ctx
  {
    match ctx
    case Root =>
    case Frame(s, c, x, sib, up) => PlugNodes(up, Join(s, c, t, x, sib));
  }

  ghost predicate Distinct(t: Tree) {
    t.Branch? ==>
      && t.node !in Nodes(t.left) && t.node !in Nodes(t.right) && Nodes(t.left) !! Nodes(t.right)
      && Distinct(t.left) && Distinct(t.right)
  }

  ghost predicate CtxDistinct(ctx: Context) {
    ctx.Frame? ==>
      && ctx.node !in Nodes(ctx.sibling) && Distinct(ctx.sibling)
      && ctx.node !in CtxNodes(ctx.up) && Nodes(ctx.sibling) !! CtxNodes(ctx.up)
      && CtxDistinct(ctx.up)
  }

  ghost predicate Lists(s: seq<Node>, nodes: set<Node>) {
    && (forall x :: x in s ==> x in nodes)
    && (forall x :: x in nodes ==> x in s)
  }

  lemma {:induction false} InorderNodes(t: Tree)
    ensures Lists(Inorder(t), Nodes(t))
  {
    match t
    case Leaf =>
    case Branch(_, l, x, r) =>
      InorderNodes(l);
      InorderNodes(r);
  }

  ghost predicate NoDuplicates(s: seq<Node>) {
    forall i, j :: 0 <= i < j < |s| ==> s[i] != s[j]
  }

  lemma {:induction false} DistinctInorder(t: Tree)
    requires Distinct(t)
    ensures NoDuplicates(Inorder(t))
  {
    match t
    case Leaf =>
    case Branch(_, l, x, r) =>
      DistinctInorder(l);
      DistinctInorder(r);
      InorderNodes(l);
      InorderNodes(r);
      NoDuplicatesAround(Inorder(l), Nodes(l), x, Inorder(r), Nodes(r));
  }

  lemma NoDuplicatesAround(a: seq<Node>, la: set<Node>, x: Node, b: seq<Node>, lb: set<Node>)
    requires NoDuplicates(a) && NoDuplicates(b) && Lists(a, la) && Lists(b, lb)
    requires la !! lb && x !in la && x !in lb
    ensures NoDuplicates(a + [x] + b)
  {
    var s := a + [x] + b;
    forall i, j | 0 <= i < j < |s| ensures s[i] != s[j] {
      assert i < |a| ==> s[i] in a && s[i] in la;
      assert j > |a| ==> s[j] in b && s[j] in lb;
    }
  }

  // ---------------------------------------------------------------- layout in memory

  function Ptr(e: Ends, t: Tree): Node { if t.Leaf? then e.leaf else t.node }

  function UpPtr(e: Ends, ctx: Context): Node { if ctx.Root? then e.top else ctx.node }

  function SideCell(s: Side, child: Node, other: Node, parent: Node?, c: Color): Cell {
    if s == L then Cell(child, other, parent, c) else Cell(other, child, parent, c)
  }

  ghost predicate RepTree(m: Mem, e: Ends, t: Tree, parent: Node) {
    t.Branch? ==>
      && t.node in m
      && m[t.node] == Cell(Ptr(e, t.left), Ptr(e, t.right), parent, t.color)
      && RepTree(m, e, t.left, t.node) && RepTree(m, e, t.right, t.node)
  }

  ghost predicate RepCtx(m: Mem, e: Ends, ctx: Context, hole: Node) {
    match ctx
    case Root => e.top in m && m[e.top] == Cell(hole, e.leaf, null, Black)
    case Frame(s, c, x, sib, up) =>
      && x in m
      && m[x] == SideCell(s, hole, Ptr(e, sib), UpPtr(e, up), c)
      && RepTree(m, e, sib, x) && RepCtx(m, e, up, x)
  }

  // The leaf sentinel: its Parent field is scribbled on by rotations and says nothing.
  ghost predicate RepLeaf(m: Mem, e: Ends) {
    && e.leaf != e.top && e.leaf in m
    && m[e.leaf].left == e.leaf && m[e.leaf].right == e.leaf && m[e.leaf].color == Black
  }

  ghost predicate Separate(e: Ends, ctx: Context, t: Tree) {
    && Distinct(t) && CtxDistinct(ctx) && Nodes(t) !! CtxNodes(ctx)
    && {e.leaf, e.top} !! Nodes(t) && {e.leaf, e.top} !! CtxNodes(ctx)
  }

  // Memory `m` holds the tree Plug(ctx, t).
  ghost predicate Zip(m: Mem, e: Ends, ctx: Context, t: Tree) {
    && RepLeaf(m, e) && Separate(e, ctx, t)
    && RepCtx(m, e, ctx, Ptr(e, t)) && RepTree(m, e, t, UpPtr(e, ctx))
  }

  // Moving the position does not change the tree.
  lemma ZipMove(m: Mem, e: Ends, s: Side, c: Color, t: Tree, x: Node, sib: Tree, up: Context)
    ensures Zip(m, e, Frame(s, c, x, sib, up), t) <==> Zip(m, e, up, Join(s, c, t, x, sib))
  {
  }

  lemma {:induction false} ZipPlug(m: Mem, e: Ends, ctx: Context, t: Tree)
    ensures Zip(m, e, ctx, t) <==> Zip(m, e, Root, Plug(ctx, t))
    decreases ctx
  {
    match ctx
    case Root =>
    case Frame(s, c, x, sib, up) =>
      ZipMove(m, e, s, c, t, x, sib, up);
      ZipPlug(m, e, up, Join(s, c, t, x, sib));
  }

  ghost predicate Same(m: Mem, m': Mem, s: set<Node>) {
    forall x :: x in s && x in m ==> x in m' && m'[x] == m[x]
  }

  lemma {:induction false} TreeFrame(m: Mem, m': Mem, e: Ends, t: Tree, parent: Node)
    requires RepTree(m, e, t, parent) && Same(m, m', Nodes(t))
    ensures RepTree(m', e, t, parent)
  {
    if t.Branch? {
      TreeFrame(m, m', e, t.left, t.node);
      TreeFrame(m, m', e, t.right, t.node);
    }
  }

  lemma {:induction false} CtxFrame(m: Mem, m': Mem, e: Ends, ctx: Context, hole: Node)
    requires RepCtx(m, e, ctx, hole) && Same(m, m', CtxNodes(ctx) + {e.top})
    ensures RepCtx(m', e, ctx, hole)
    decreases ctx
  {
    if ctx.Frame? {
      TreeFrame(m, m', e, ctx.sibling, ctx.node);
      CtxFrame(m, m', e, ctx.up, ctx.node);
    }
  }

  // Nothing but the nodes in `w` was written.
  ghost predicate Writes(m: Mem, m': Mem, w: set<Node>) {
    && m'.Keys == m.Keys
    && forall x :: x in m && x !in w ==> m'[x] == m[x]
  }

  function WithChild(c: Cell, s: Side, child: Node): Cell {
    if s == L then c.(left := child) else c.(right := child)
  }

  // The side of its parent a hole hangs on; the root hangs on the left of the root sentinel.
  function HoleSide(ctx: Context): Side { if ctx.Root? then L else ctx.side }

  // Hanging something else into the hole changes one pointer of one node.
  lemma {:induction false} CtxRefill(m: Mem, m': Mem, e: Ends, ctx: Context, hole: Node, hole': Node)
    requires RepCtx(m, e, ctx, hole) && CtxDistinct(ctx) && e.top !in CtxNodes(ctx)
    requires Same(m, m', CtxNodes(ctx) + {e.top} - {UpPtr(e, ctx)})
    requires UpPtr(e, ctx) in m' && m'[UpPtr(e, ctx)] == WithChild(m[UpPtr(e, ctx)], HoleSide(ctx), hole')
    ensures RepCtx(m', e, ctx, hole')
  {
    if ctx.Frame? {
      TreeFrame(m, m', e, ctx.sibling, ctx.node);
      CtxFrame(m, m', e, ctx.up, ctx.node);
    }
  }

  // Hanging a subtree below another node changes one pointer of its root.
  lemma {:induction false} TreeReparent(m: Mem, m': Mem, e: Ends, t: Tree, p: Node, p': Node)
    requires RepTree(m, e, t, p) && Distinct(t)
    requires t.Branch? ==> Same(m, m', Nodes(t) - {t.node})
    requires t.Branch? ==> t.node in m' && m'[t.node] == m[t.node].(parent := p')
    ensures RepTree(m', e, t, p')
  {
    if t.Branch? {
      TreeFrame(m, m', e, t.left, t.node);
      TreeFrame(m, m', e, t.right, t.node);
    }
  }

  lemma ZipRecolor(m: Mem, m': Mem, e: Ends, ctx: Context, t: Tree, c: Color)
    requires Zip(m, e, ctx, t) && t.Branch?
    requires Writes(m, m', {t.node}) && m'[t.node] == m[t.node].(color := c)
    ensures Zip(m', e, ctx, t.(color := c))
  {
    TreeFrame(m, m', e, t.left, t.node);
    TreeFrame(m, m', e, t.right, t.node);
    CtxFrame(m, m', e, ctx, t.node);
  }

  // ---------------------------------------------------------------- rotation

  // A rotation towards side `s` at x: its child y on the other side comes up.
  function Unrotated(s: Side, c: Color, a: Tree, x: Node, d: Color, b: Tree, y: Node, z: Tree): Tree {
    if s == L then Branch(c, a, x, Branch(d, b, y, z)) else Branch(c, Branch(d, z, y, b), x, a)
  }

  function Rotated(s: Side, c: Color, a: Tree, x: Node, d: Color, b: Tree, y: Node, z: Tree): Tree {
    if s == L then Branch(d, Branch(c, a, x, b), y, z) else Branch(d, z, y, Branch(c, b, x, a))
  }

  function Other(s: Side): Side { if s == L then R else L }

  // What the six writes of a rotation leave behind: y takes x's place below `up`
  // (on its side `at`), x goes below y, and y's inner child b goes below x.
  ghost predicate RotateWrites(m: Mem, m': Mem, s: Side, at: Side, up: Node, x: Node, y: Node, b: Node) {
    && {up, x, y, b} <= m.Keys
    && Writes(m, m', {up, x, y, b})
    && m'[up] == WithChild(m[up], at, y)
    && m'[b] == m[b].(parent := x)
    && m'[x] == WithChild(m[x], Other(s), b).(parent := y)
    && m'[y] == WithChild(m[y], s, x).(parent := up)
  }

  lemma RotateInorder(s: Side, c: Color, a: Tree, x: Node, d: Color, b: Tree, y: Node, z: Tree)
    ensures Inorder(Rotated(s, c, a, x, d, b, y, z)) == Inorder(Unrotated(s, c, a, x, d, b, y, z))
  {
    if s == L {
      assert (Inorder(a) + [x] + Inorder(b)) + [y] + Inorder(z) == Inorder(a) + [x] + (Inorder(b) + [y] + Inorder(z));
    } else {
      assert Inorder(z) + [y] + (Inorder(b) + [x] + Inorder(a)) == (Inorder(z) + [y] + Inorder(b)) + [x] + Inorder(a);
    }
  }

  lemma ZipRotate(m: Mem, m': Mem, e: Ends, ctx: Context, s: Side,
                  c: Color, a: Tree, x: Node, d: Color, b: Tree, y: Node, z: Tree)
    requires Zip(m, e, ctx, Unrotated(s, c, a, x, d, b, y, z))
    requires RotateWrites(m, m', s, HoleSide(ctx), UpPtr(e, ctx), x, y, Ptr(e, b))
    ensures Zip(m', e, ctx, Rotated(s, c, a, x, d, b, y, z))
  {
    RotateSeparate(e, ctx, s, c, a, x, d, b, y, z);
    RotateCtx(m, m', e, ctx, s, c, a, x, d, b, y, z);
    RotateTree(m, m', e, ctx, s, c, a, x, d, b, y, z);
  }

  lemma RotateSeparate(e: Ends, ctx: Context, s: Side, c: Color, a: Tree, x: Node, d: Color, b: Tree, y: Node, z: Tree)
    requires Separate(e, ctx, Unrotated(s, c, a, x, d, b, y, z))
    ensures Separate(e, ctx, Rotated(s, c, a, x, d, b, y, z))
    ensures x !in {e.leaf, e.top} && y !in {e.leaf, e.top}
  {
    UnrotatedSets(s, c, a, x, d, b, y, z);
    RotatedSets(s, c, a, x, d, b, y, z);
  }

  lemma RotateCtx(m: Mem, m': Mem, e: Ends, ctx: Context, s: Side,
                  c: Color, a: Tree, x: Node, d: Color, b: Tree, y: Node, z: Tree)
    requires Zip(m, e, ctx, Unrotated(s, c, a, x, d, b, y, z))
    requires RotateWrites(m, m', s, HoleSide(ctx), UpPtr(e, ctx), x, y, Ptr(e, b))
    ensures RepCtx(m', e, ctx, y)
  {
    UnrotatedSets(s, c, a, x, d, b, y, z);
    var up := UpPtr(e, ctx);
    WritesSame(m, m', {up, x, y, Ptr(e, b)}, CtxNodes(ctx) + {e.top} - {up});
    CtxRefill(m, m', e, ctx, x, y);
  }

  lemma RotateTree(m: Mem, m': Mem, e: Ends, ctx: Context, s: Side,
                   c: Color, a: Tree, x: Node, d: Color, b: Tree, y: Node, z: Tree)
    requires Zip(m, e, ctx, Unrotated(s, c, a, x, d, b, y, z))
    requires RotateWrites(m, m', s, HoleSide(ctx), UpPtr(e, ctx), x, y, Ptr(e, b))
    ensures RepTree(m', e, Rotated(s, c, a, x, d, b, y, z), UpPtr(e, ctx))
  {
    hide Distinct, CtxDistinct, CtxNodes, RepCtx;
    UnrotatedCells(m, e, UpPtr(e, ctx), s, c, a, x, d, b, y, z);
    UnrotatedSets(s, c, a, x, d, b, y, z);
    UpOutside(e, ctx, Unrotated(s, c, a, x, d, b, y, z));
    RotateKids(m, m', e, {UpPtr(e, ctx), x, y, Ptr(e, b)}, a, x, b, y, z);
    RotatedCells(m', e, UpPtr(e, ctx), s, c, a, x, d, b, y, z);
  }

  lemma UpOutside(e: Ends, ctx: Context, t: Tree)
    requires Separate(e, ctx, t)
    ensures UpPtr(e, ctx) !in Nodes(t) && (e.leaf != e.top ==> UpPtr(e, ctx) != e.leaf)
  {
  }

  lemma RotateKids(m: Mem, m': Mem, e: Ends, w: set<Node>, a: Tree, x: Node, b: Tree, y: Node, z: Tree)
    requires RepTree(m, e, a, x) && RepTree(m, e, b, y) && RepTree(m, e, z, y) && Distinct(b)
    requires Writes(m, m', w) && w !! Nodes(a) && w !! Nodes(z) && w !! Nodes(b) - {Ptr(e, b)}
    requires b.Branch? ==> b.node in m' && m'[b.node] == m[b.node].(parent := x)
    ensures RepTree(m', e, a, x) && RepTree(m', e, b, x) && RepTree(m', e, z, y)
  {
    assert RepTree(m', e, a, x) by { WritesSame(m, m', w, Nodes(a)); TreeFrame(m, m', e, a, x); }
    assert RepTree(m', e, z, y) by { WritesSame(m, m', w, Nodes(z)); TreeFrame(m, m', e, z, y); }
    WritesSame(m, m', w, Nodes(b) - {Ptr(e, b)});
    TreeReparent(m, m', e, b, y, x);
  }

  lemma WritesSame(m: Mem, m': Mem, w: set<Node>, s: set<Node>)
    requires Writes(m, m', w) && w !! s
    ensures Same(m, m', s)
  {
  }

  lemma RotatedCells(m: Mem, e: Ends, up: Node, s: Side,
                     c: Color, a: Tree, x: Node, d: Color, b: Tree, y: Node, z: Tree)
    requires RepTree(m, e, a, x) && RepTree(m, e, b, x) && RepTree(m, e, z, y)
    requires x in m && m[x] == SideCell(s, Ptr(e, a), Ptr(e, b), y, c)
    requires y in m && m[y] == SideCell(s, x, Ptr(e, z), up, d)
    ensures RepTree(m, e, Rotated(s, c, a, x, d, b, y, z), up)
  {
    assert RepTree(m, e, Join(s, c, a, x, b), y);
  }

  // The two levels a rotation looks at, unfolded.
  lemma UnrotatedCells(m: Mem, e: Ends, up: Node, s: Side,
                       c: Color, a: Tree, x: Node, d: Color, b: Tree, y: Node, z: Tree)
    requires RepTree(m, e, Unrotated(s, c, a, x, d, b, y, z), up)
    ensures x in m && m[x] == SideCell(s, Ptr(e, a), y, up, c) && RepTree(m, e, a, x)
    ensures y in m && m[y] == SideCell(s, Ptr(e, b), Ptr(e, z), x, d) && RepTree(m, e, b, y) && RepTree(m, e, z, y)
    ensures b.Branch? ==> b.node in m
  {
    assert RepTree(m, e, Join(s, d, b, y, z), x);
  }

  lemma UnrotatedSets(s: Side, c: Color, a: Tree, x: Node, d: Color, b: Tree, y: Node, z: Tree)
    requires Distinct(Unrotated(s, c, a, x, d, b, y, z))
    ensures Nodes(Unrotated(s, c, a, x, d, b, y, z)) == Nodes(a) + {x} + Nodes(b) + {y} + Nodes(z)
    ensures x != y && {x, y} !! Nodes(a) && {x, y} !! Nodes(b) && {x, y} !! Nodes(z)
    ensures Nodes(a) !! Nodes(b) && Nodes(a) !! Nodes(z) && Nodes(b) !! Nodes(z)
    ensures Distinct(a) && Distinct(b) && Distinct(z)
  {
    var child := Join(s, d, b, y, z);
    assert Distinct(child);
    assert Nodes(child) == Nodes(b) + {y} + Nodes(z);
  }

  lemma RotatedSets(s: Side, c: Color, a: Tree, x: Node, d: Color, b: Tree, y: Node, z: Tree)
    requires Distinct(Unrotated(s, c, a, x, d, b, y, z))
    ensures Distinct(Rotated(s, c, a, x, d, b, y, z))
    ensures Nodes(Rotated(s, c, a, x, d, b, y, z)) == Nodes(Unrotated(s, c, a, x, d, b, y, z))
  {
    UnrotatedSets(s, c, a, x, d, b, y, z);
    var child := Join(s, c, a, x, b);
    assert Nodes(child) == Nodes(a) + {x} + Nodes(b);
    assert Distinct(child);
    JoinSets(s, d, child, y, z);
  }

  lemma JoinSets(s: Side, c: Color, a: Tree, x: Node, b: Tree)
    requires Distinct(a) && Distinct(b) && x !in Nodes(a) && x !in Nodes(b) && Nodes(a) !! Nodes(b)
    ensures Distinct(Join(s, c, a, x, b)) && Nodes(Join(s, c, a, x, b)) == Nodes(a) + {x} + Nodes(b)
  {
  }

  // ---------------------------------------------------------------- the same, by position

  function Child(t: Tree, s: Side): Tree
    requires t.Branch?
  {
    if s == L then t.left else t.right
  }

  predicate Rotatable(s: Side, t: Tree) { t.Branch? && Child(t, Other(s)).Branch? }

  function Rotate(s: Side, t: Tree): Tree
    requires Rotatable(s, t)
  {
    var u := Child(t, Other(s));
    Join(s, u.color, Join(s, t.color, Child(t, s), t.node, Child(u, s)), u.node, Child(u, Other(s)))
  }

  // The nodes a rotation of `t` in `ctx` links anew, as found in memory.
  lemma RotateReads(m: Mem, e: Ends, ctx: Context, s: Side, t: Tree)
    requires Zip(m, e, ctx, t) && Rotatable(s, t)
    ensures var u := Child(t, Other(s)); var b := Ptr(e, Child(u, s)); var up := UpPtr(e, ctx);
      && {up, t.node, u.node, b} <= m.Keys
      && m[t.node] == SideCell(s, Ptr(e, Child(t, s)), u.node, up, t.color)
      && m[u.node] == SideCell(s, b, Ptr(e, Child(u, Other(s))), t.node, u.color)
      && up != t.node && up != u.node && t.node != u.node && b != up && b != t.node && b != u.node
      && (m[up].left == t.node <==> HoleSide(ctx) == L)
  {
    var u := Child(t, Other(s));
    UnrotatedCells(m, e, UpPtr(e, ctx), s, t.color, Child(t, s), t.node, u.color, Child(u, s), u.node,
                   Child(u, Other(s)));
    UnrotatedSets(s, t.color, Child(t, s), t.node, u.color, Child(u, s), u.node, Child(u, Other(s)));
  }

  lemma RotatePosition(m: Mem, m': Mem, e: Ends, ctx: Context, s: Side, t: Tree)
    requires Zip(m, e, ctx, t) && Rotatable(s, t)
    requires var u := Child(t, Other(s));
      RotateWrites(m, m', s, HoleSide(ctx), UpPtr(e, ctx), t.node, u.node, Ptr(e, Child(u, s)))
    ensures Zip(m', e, ctx, Rotate(s, t))
    ensures Inorder(Rotate(s, t)) == Inorder(t)
  {
    var u := Child(t, Other(s));
    ZipRotate(m, m', e, ctx, s, t.color, Child(t, s), t.node, u.color, Child(u, s), u.node, Child(u, Other(s)));
    RotateInorder(s, t.color, Child(t, s), t.node, u.color, Child(u, s), u.node, Child(u, Other(s)));
  }

  // ---------------------------------------------------------------- filling the hole anew

  lemma ZipFrame(m: Mem, m': Mem, e: Ends, ctx: Context, t: Tree)
    requires Zip(m, e, ctx, t)
    requires Same(m, m', Nodes(t) + CtxNodes(ctx) + {e.leaf, e.top})
    ensures Zip(m', e, ctx, t)
  {
    TreeFrame(m, m', e, t, UpPtr(e, ctx));
    CtxFrame(m, m', e, ctx, Ptr(e, t));
  }

  // Another tree may scribble on the Parent field of the shared leaf sentinel.
  lemma SharedLeaf(m: Mem, m': Mem, e: Ends, ctx: Context, t: Tree)
    requires Zip(m, e, ctx, t)
    requires Same(m, m', Nodes(t) + CtxNodes(ctx) + {e.top}) && RepLeaf(m', e)
    ensures Zip(m', e, ctx, t)
  {
    TreeFrame(m, m', e, t, UpPtr(e, ctx));
    CtxFrame(m, m', e, ctx, Ptr(e, t));
  }

  // The hole gets other contents, already laid out in m'.
  lemma ZipFill(m: Mem, m': Mem, e: Ends, ctx: Context, t: Tree, t': Tree)
    requires Zip(m, e, ctx, t)
    requires Same(m, m', CtxNodes(ctx) + {e.top} - {UpPtr(e, ctx)}) && RepLeaf(m', e)
    requires UpPtr(e, ctx) in m' && m'[UpPtr(e, ctx)] == WithChild(m[UpPtr(e, ctx)], HoleSide(ctx), Ptr(e, t'))
    requires Separate(e, ctx, t') && RepTree(m', e, t', UpPtr(e, ctx))
    ensures Zip(m', e, ctx, t')
  {
    CtxRefill(m, m', e, ctx, Ptr(e, t), Ptr(e, t'));
  }

  lemma {:induction false} MemberColor(m: Mem, e: Ends, t: Tree, parent: Node, x: Node)
    requires RepTree(m, e, t, parent) && NoRedRed(t) && x in Nodes(t)
    ensures x in m && m[x].color != Unassigned
  {
    if x in Nodes(t.left) {
      MemberColor(m, e, t.left, t.node, x);
    } else if x in Nodes(t.right) {
      MemberColor(m, e, t.right, t.node, x);
    }
  }

  // ---------------------------------------------------------------- positions by index

  // How many nodes precede the root of `t`.
  function Index(ctx: Context, t: Tree): nat
    requires t.Branch?
  {
    |Before(ctx)| + |Inorder(t.left)|
  }

  lemma {:induction false} IndexOf(ctx: Context, t: Tree)
    requires t.Branch?
    ensures var order := Inorder(Plug(ctx, t)); var k := Index(ctx, t);
      && k < |order| && order[k] == t.node
      && order[..k] == Before(ctx) + Inorder(t.left)
      && order[k + 1..] == Inorder(t.right) + After(ctx)
  {
    PlugInorder(ctx, t);
    SplitOrder(Before(ctx), Inorder(t.left), t.node, Inorder(t.right), After(ctx));
  }

  lemma SplitOrder(a: seq<Node>, l: seq<Node>, x: Node, r: seq<Node>, b: seq<Node>)
    ensures var s := a + (l + [x] + r) + b; var k := |a| + |l|;
      k < |s| && s[k] == x && s[..k] == a + l && s[k + 1..] == r + b
  {
  }

  // Every index of the order is some position of the tree.
  lemma {:induction false} PositionAt(ctx: Context, t: Tree, h: nat, k: nat) returns (c: Context, sub: Tree, g: nat)
    requires RB(ctx, t, h)
    requires |Before(ctx)| <= k < |Before(ctx)| + |Inorder(t)|
    ensures Plug(c, sub) == Plug(ctx, t) && sub.Branch? && Index(c, sub) == k && RB(c, sub, g)
    decreases t
  {
    var i := Index(ctx, t);
    var h' := if t.color == Black then h - 1 else h;
    if k < i {
      c, sub, g := PositionAt(Frame(L, t.color, t.node, t.right, ctx), t.left, h', k);
    } else if k > i {
      c, sub, g := PositionAt(Frame(R, t.color, t.node, t.left, ctx), t.right, h', k);
    } else {
      c, sub, g := ctx, t, h;
    }
  }

  lemma {:induction false} NodesInMem(m: Mem, e: Ends, t: Tree, parent: Node)
    requires RepTree(m, e, t, parent)
    ensures Nodes(t) <= m.Keys
  {
    if t.Branch? {
      NodesInMem(m, e, t.left, t.node);
      NodesInMem(m, e, t.right, t.node);
    }
  }

  lemma {:induction false} CtxNodesInMem(m: Mem, e: Ends, ctx: Context, hole: Node)
    requires RepCtx(m, e, ctx, hole)
    ensures CtxNodes(ctx) + {e.top} <= m.Keys
    decreases ctx
  {
    if ctx.Frame? {
      NodesInMem(m, e, ctx.sibling, ctx.node);
      CtxNodesInMem(m, e, ctx.up, ctx.node);
    }
  }

  lemma RecolorInorder(t: Tree, c: Color)
    requires t.Branch?
    ensures Inorder(t.(color := c)) == Inorder(t)
  {
  }

  // A node from outside takes the place of the root of `t`.
  lemma ZipExchange(m: Mem, m': Mem, e: Ends, ctx: Context, t: Tree, x: Node)
    requires Zip(m, e, ctx, t) && t.Branch? && x !in m
    requires var w := {UpPtr(e, ctx), Ptr(e, t.left), Ptr(e, t.right), x, t.node};
      && m'.Keys == m.Keys - {t.node} + {x}
      && (forall o :: o in m && o !in w ==> m'[o] == m[o])
    requires m'[x] == m[t.node]
    requires UpPtr(e, ctx) in m' && m'[UpPtr(e, ctx)] == WithChild(m[UpPtr(e, ctx)], HoleSide(ctx), x)
    requires t.left.Branch? ==> t.left.node in m && t.left.node in m' && m'[t.left.node] == m[t.left.node].(parent := x)
    requires t.right.Branch? ==>
      t.right.node in m && t.right.node in m' && m'[t.right.node] == m[t.right.node].(parent := x)
    requires RepLeaf(m', e)
    ensures Zip(m', e, ctx, t.(node := x))
  {
    NodesInMem(m, e, t, UpPtr(e, ctx));
    CtxNodesInMem(m, e, ctx, t.node);
    TreeReparent(m, m', e, t.left, t.node, x);
    TreeReparent(m, m', e, t.right, t.node, x);
    ZipFill(m, m', e, ctx, t, t.(node := x));
  }

  // The nodes around the root of `t`, as found in memory.
  lemma RootReads(m: Mem, e: Ends, ctx: Context, t: Tree)
    requires Zip(m, e, ctx, t) && t.Branch?
    ensures var l := Ptr(e, t.left); var r := Ptr(e, t.right); var up := UpPtr(e, ctx);
      && {t.node, l, r, up, e.leaf, e.top} <= m.Keys
      && m[t.node] == Cell(l, r, up, t.color)
      && t.node !in {l, r, up, e.leaf, e.top} && up !in {l, r, e.leaf}
      && (l == r ==> l == e.leaf) && (t.left.Branch? ==> l != e.leaf) && (t.right.Branch? ==> r != e.leaf)
      && l != e.top && r != e.top
    ensures RepLeaf(m, e)
    ensures m[UpPtr(e, ctx)].left == t.node <==> HoleSide(ctx) == L
    ensures CtxNodes(ctx) <= m.Keys && t.node !in CtxNodes(ctx) && e.leaf !in CtxNodes(ctx)
  {
    CtxNodesInMem(m, e, ctx, t.node);
    assert RepTree(m, e, t.left, t.node) && RepTree(m, e, t.right, t.node);
  }

  lemma LinkReads(m: Mem, e: Ends, ctx: Context, t: Tree)
    requires Zip(m, e, ctx, t) && t.Branch?
    ensures Separate(e, ctx, Leaf)
    ensures t.left.Branch? ==> t.left.node in m && t.left.node !in CtxNodes(ctx)
    ensures t.right.Branch? ==> t.right.node in m && t.right.node !in CtxNodes(ctx)
    ensures t.left.Branch? && t.left.left == t.left.right == Leaf ==>
      && m[t.left.node] == Cell(e.leaf, e.leaf, t.node, t.left.color)
      && Separate(e, ctx, Branch(Black, Leaf, t.left.node, Leaf))
    ensures t.right.Branch? && t.right.left == t.right.right == Leaf ==>
      && m[t.right.node] == Cell(e.leaf, e.leaf, t.node, t.right.color)
      && Separate(e, ctx, Branch(Black, Leaf, t.right.node, Leaf))
  {
    assert RepTree(m, e, t.left, t.node) && RepTree(m, e, t.right, t.node);
    assert t.left.Branch? ==> t.left.node in Nodes(t);
    assert t.right.Branch? ==> t.right.node in Nodes(t);
  }

  // The only child of a node takes its place, in black.
  lemma CutCells(m: Mem, m': Mem, e: Ends, ctx: Context, t: Tree, child: Node)
    requires Zip(m, e, ctx, t) && t.Branch? && child in m && child != t.node
    requires var kid := if t.left == Leaf then t.right else t.left;
      kid.Branch? && kid.node == child && kid.left == kid.right == Leaf
    requires UpPtr(e, ctx) in m
    requires m' == m[child := m[child].(parent := UpPtr(e, ctx), color := Black)]
      [UpPtr(e, ctx) := WithChild(m[UpPtr(e, ctx)], HoleSide(ctx), child)] - {t.node}
    ensures Zip(m', e, ctx, Branch(Black, Leaf, child, Leaf))
  {
    RootReads(m, e, ctx, t);
    LinkReads(m, e, ctx, t);
    hide Zip, Nodes, CtxNodes, Separate;
    ZipFill(m, m', e, ctx, t, Branch(Black, Leaf, child, Leaf));
  }
}
