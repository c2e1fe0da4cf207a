/** The intrusive red/black tree of src/Contained_RBTree.c on heap nodes.

    `leaf` is the black sentinel shared by all trees, `top` is the tree's own
    root sentinel whose left child is the root.  Every routine carries the
    position it works at as ghost arguments.
  */
module ContainedRBTree {
  import opened Common
  import opened RBShape
  import opened RBRepair
  import opened RBOrder

  class RBTree {
    const leaf: Node
    const top: Node
    ghost var shape: Tree
    ghost var dom: set<Node>  // the nodes the operations may touch

    ghost function Ends(): Ends { RBShape.Ends(leaf, top) }

    ghost function Memory(): (m: Mem)
      reads this`dom, dom
      ensures m.Keys == dom
    {
      map n | n in dom :: Cell(n.left, n.right, n.parent, n.color)
    }

    // The nodes hold Plug(ctx, t).
    ghost predicate At(ctx: Context, t: Tree)
      reads this`dom, dom
    {
      Zip(Memory(), Ends(), ctx, t)
    }

    ghost predicate Valid()
      reads this, dom
    {
      && At(Root, shape) && RedBlack(shape)
      && dom == Nodes(shape) + {leaf, top}
    }

    // RBTree_Init
    constructor (sentinel: Node)
      requires sentinel.left == sentinel && sentinel.right == sentinel && sentinel.color == Black
      ensures Valid() && shape == Leaf && leaf == sentinel && fresh(top)
    {
      var root := new Node();
      root.color, root.left, root.right, root.parent := Black, sentinel, sentinel, null;
      leaf, top := sentinel, root;
      shape, dom := Leaf, {sentinel, root};
      new;
      assert RB(Root, Leaf, 0);
    }

    lemma Move(s: Side, c: Color, t: Tree, x: Node, sib: Tree, up: Context)
      ensures At(Frame(s, c, x, sib, up), t) <==> At(up, Join(s, c, t, x, sib))
    {
      ZipMove(Memory(), Ends(), s, c, t, x, sib, up);
    }

    method RightSide_RightRotate(node: Node, ghost ctx: Context, ghost t: Tree)
      requires At(ctx, t) && Rotatable(R, t) && t.node == node && HoleSide(ctx) == R
      modifies dom
      ensures At(ctx, Rotate(R, t)) && Inorder(Rotate(R, t)) == Inorder(t)
    {
      hide Zip;
      ghost var m := Memory();
      RotateReads(m, Ends(), ctx, R, t);
      var temp := node.parent;
      var child := node.left;
      temp.right := child;
      child.parent := temp;
      temp := child.right;
      node.left := temp;
      temp.parent := node;
      child.right := node;
      node.parent := child;
      RotatePosition(m, Memory(), Ends(), ctx, R, t);
    }

    lemma Whole(ctx: Context, t: Tree)
      ensures At(ctx, t) <==> At(Root, Plug(ctx, t))
    {
      ZipPlug(Memory(), Ends(), ctx, t);
    }

    method LeftSide_LeftRotate(node: Node, ghost ctx: Context, ghost t: Tree)
      requires At(ctx, t) && Rotatable(L, t) && t.node == node && HoleSide(ctx) == L
      modifies dom
      ensures At(ctx, Rotate(L, t)) && Inorder(Rotate(L, t)) == Inorder(t)
    {
      hide Zip;
      ghost var m := Memory();
      RotateReads(m, Ends(), ctx, L, t);
      var temp := node.parent;
      var child := node.right;
      temp.left := child;
      child.parent := temp;
      temp := child.left;
      node.right := temp;
      temp.parent := node;
      child.left := node;
      node.parent := child;
      RotatePosition(m, Memory(), Ends(), ctx, L, t);
    }

    method LeftSide_RightRotate(node: Node, ghost ctx: Context, ghost t: Tree)
      requires At(ctx, t) && Rotatable(R, t) && t.node == node && HoleSide(ctx) == L
      modifies dom
      ensures At(ctx, Rotate(R, t)) && Inorder(Rotate(R, t)) == Inorder(t)
    {
      hide Zip;
      ghost var m := Memory();
      RotateReads(m, Ends(), ctx, R, t);
      var temp := node.parent;
      var child := node.left;
      temp.left := child;
      child.parent := temp;
      temp := child.right;
      node.left := temp;
      temp.parent := node;
      child.right := node;
      node.parent := child;
      RotatePosition(m, Memory(), Ends(), ctx, R, t);
    }

    method RightSide_LeftRotate(node: Node, ghost ctx: Context, ghost t: Tree)
      requires At(ctx, t) && Rotatable(L, t) && t.node == node && HoleSide(ctx) == R
      modifies dom
      ensures At(ctx, Rotate(L, t)) && Inorder(Rotate(L, t)) == Inorder(t)
    {
      hide Zip;
      ghost var m := Memory();
      RotateReads(m, Ends(), ctx, L, t);
      var temp := node.parent;
      var child := node.right;
      temp.right := child;
      child.parent := temp;
      temp := child.left;
      node.right := temp;
      temp.parent := node;
      child.left := node;
      node.parent := child;
      RotatePosition(m, Memory(), Ends(), ctx, L, t);
    }

    method RightRotate(node: Node, ghost ctx: Context, ghost t: Tree)
      requires At(ctx, t) && Rotatable(R, t) && t.node == node
      modifies dom
      ensures At(ctx, Rotate(R, t)) && Inorder(Rotate(R, t)) == Inorder(t)
    {
      RotateReads(Memory(), Ends(), ctx, R, t);
      if node.parent.left == node {
        LeftSide_RightRotate(node, ctx, t);
      } else {
        RightSide_RightRotate(node, ctx, t);
      }
    }

    method LeftRotate(node: Node, ghost ctx: Context, ghost t: Tree)
      requires At(ctx, t) && Rotatable(L, t) && t.node == node
      modifies dom
      ensures At(ctx, Rotate(L, t)) && Inorder(Rotate(L, t)) == Inorder(t)
    {
      RotateReads(Memory(), Ends(), ctx, L, t);
      if node.parent.left == node {
        LeftSide_LeftRotate(node, ctx, t);
      } else {
        RightSide_LeftRotate(node, ctx, t);
      }
    }

    // node->Color= color, for a node of the tree
    method Paint(node: Node, color: Color, ghost ctx: Context, ghost t: Tree)
      requires At(ctx, t) && t.Branch? && t.node == node
      modifies dom
      ensures At(ctx, t.(color := color))
    {
      ghost var m := Memory();
      node.color := color;
      ZipRecolor(m, Memory(), Ends(), ctx, t, color);
    }

    // What a routine sees in the node the position hangs on, and in its two children.
    lemma Look(s: Side, c: Color, x: Node, sib: Tree, up: Context, t: Tree)
      requires At(Frame(s, c, x, sib, up), t)
      ensures {x, UpPtr(Ends(), up), Ptr(Ends(), t), Ptr(Ends(), sib)} <= dom
      ensures x.color == c && x.parent == UpPtr(Ends(), up)
      ensures x.left == Ptr(Ends(), if s == L then t else sib) && x.right == Ptr(Ends(), if s == L then sib else t)
      ensures Ptr(Ends(), t).color == (if t == Leaf then Black else t.color)
      ensures Ptr(Ends(), sib).color == (if sib == Leaf then Black else sib.color)
      ensures t.Branch? ==> t.node != Ptr(Ends(), sib)
      ensures UpPtr(Ends(), up).color == (if up.Root? then Black else up.color)
      ensures UpPtr(Ends(), up).parent == null <==> up.Root?
      ensures UpPtr(Ends(), up).left == x <==> HoleSide(up) == L
    {
      var m := Memory();
      assert m[x] == SideCell(s, Ptr(Ends(), t), Ptr(Ends(), sib), UpPtr(Ends(), up), c);
      assert RepTree(m, Ends(), sib, x) && RepTree(m, Ends(), t, x) && RepCtx(m, Ends(), up, x);
      assert Ptr(Ends(), t) in m && Ptr(Ends(), sib) in m && UpPtr(Ends(), up) in m && leaf in m;
    }

    // What a routine sees in the root of the subtree at the position, and above it.
    lemma Land(ctx: Context, t: Tree)
      requires At(ctx, t)
      ensures UpPtr(Ends(), ctx) in dom
      ensures UpPtr(Ends(), ctx).color == (if ctx.Root? then Black else ctx.color)
      ensures UpPtr(Ends(), ctx).parent == null <==> ctx.Root?
      ensures t.Branch? ==>
        && t.node in dom && t.node.color == t.color && t.node.parent == UpPtr(Ends(), ctx)
        && t.node.left == Ptr(Ends(), t.left) && t.node.right == Ptr(Ends(), t.right)
        && (t.node.left == leaf <==> t.left == Leaf) && (t.node.right == leaf <==> t.right == Leaf)
      ensures Ptr(Ends(), t) in dom && Ptr(Ends(), t).color == (if t == Leaf then Black else t.color)
      ensures ctx.Root? ==> top.left == Ptr(Ends(), t) && (top.left == leaf <==> t == Leaf)
    {
      var m := Memory();
      assert t.Branch? ==> m[t.node] == Cell(Ptr(Ends(), t.left), Ptr(Ends(), t.right), UpPtr(Ends(), ctx), t.color);
      assert UpPtr(Ends(), ctx) in m && leaf in m;
    }

    // Which side of its parent a node hangs on, and what hangs on the other.
    lemma Around(ctx: Context, t: Tree)
      requires At(ctx, t)
      ensures UpPtr(Ends(), ctx) in dom
      ensures t.Branch? ==> (UpPtr(Ends(), ctx).left == t.node <==> HoleSide(ctx) == L)
      ensures ctx.Frame? ==> Ptr(Ends(), ctx.sibling) == if ctx.side == L then ctx.node.right else ctx.node.left
    {
      if ctx.Frame? {
        Look(ctx.side, ctx.color, ctx.node, ctx.sibling, ctx.up, t);
      } else {
        Land(ctx, t);
      }
    }

    // The sibling and its two children.
    lemma Nephews(ctx: Context, t: Tree)
      requires At(ctx, t) && ctx.Frame? && ctx.sibling.Branch?
      ensures var sib := ctx.sibling;
        && sib.node in dom && sib.node.left in dom && sib.node.right in dom
        && sib.node.color == sib.color
        && sib.node.left.color == (if sib.left == Leaf then Black else sib.left.color)
        && sib.node.right.color == (if sib.right == Leaf then Black else sib.right.color)
    {
      hide At;
      var sib, up := ctx.sibling, ctx.up;
      Move(ctx.side, ctx.color, t, ctx.node, sib, up);
      Move(Other(ctx.side), ctx.color, sib, ctx.node, t, up);
      Move(L, sib.color, sib.left, sib.node, sib.right, Frame(Other(ctx.side), ctx.color, ctx.node, t, up));
      Look(L, sib.color, sib.node, sib.right, Frame(Other(ctx.side), ctx.color, ctx.node, t, up), sib.left);
    }

    // ------------------------------------------------------------ insertion

    // Parent and uncle are red: both become black, the grandparent red.
    method PullBlack(current: Node, parent: Node, uncle: Node, ghost s: Side, ghost sib: Tree,
                     ghost s2: Side, ghost unc: Tree, ghost up: Context, ghost v: Tree, ghost h: nat)
      requires At(Frame(s, Red, current, sib, Frame(s2, Black, parent, unc, up)), v)
      requires RedHole(Frame(s, Red, current, sib, Frame(s2, Black, parent, unc, up)), v, h)
      requires IsRed(unc) && unc.node == uncle
      modifies dom
      ensures At(up, Join(s2, Red, Join(s, Black, v, current, sib), parent, unc.(color := Black)))
    {
      ghost var below := Join(s, Red, v, current, sib);
      Move(s, Red, v, current, sib, Frame(s2, Black, parent, unc, up));
      Move(s2, Black, below, parent, unc, up);
      Move(Other(s2), Black, unc, parent, below, up);
      Paint(uncle, Black, Frame(Other(s2), Black, parent, below, up), unc);
      ghost var unc' := unc.(color := Black);
      Move(Other(s2), Black, unc', parent, below, up);
      Move(s2, Black, below, parent, unc', up);
      Paint(current, Black, Frame(s2, Black, parent, unc', up), below);
      Move(s2, Black, below.(color := Black), parent, unc', up);
      Paint(parent, Red, up, Join(s2, Black, below.(color := Black), parent, unc'));
    }

    // The uncle is black and `current` hangs on the right of `parent`: one or two rotations finish the job.
    method TurnFromRight(current: Node, parent: Node, ghost s: Side, ghost sib: Tree, ghost unc: Tree,
                         ghost up: Context, ghost v: Tree, ghost h: nat) returns (ghost t: Tree)
      requires At(Frame(s, Red, current, sib, Frame(R, Black, parent, unc, up)), v)
      requires RedHole(Frame(s, Red, current, sib, Frame(R, Black, parent, unc, up)), v, h) && !IsRed(unc)
      modifies dom
      ensures At(up, t) && RB(up, t, h + 1)
      ensures Inorder(t) == Inorder(Join(R, Black, Join(s, Red, v, current, sib), parent, unc))
    {
      hide At;
      ghost var cur, v', sib' := current, v, sib;
      assert CtxNoRedRed(Frame(R, Black, parent, unc, up)) && CtxBal(Frame(R, Black, parent, unc, up), h);
      Look(s, Red, current, sib, Frame(R, Black, parent, unc, up), v);
      Move(s, Red, v, current, sib, Frame(R, Black, parent, unc, up));
      ghost var below := Join(s, Red, v, current, sib);
      if current.left.color == Red {
        InsertSlide(R, current, sib, v, h);
        RightSide_RightRotate(current, Frame(R, Black, parent, unc, up), below);
        cur, v', sib' := v.node, Join(R, Red, sib, current, Child(v, R)), Child(v, L);
      }
      Move(R, Black, Join(R, Red, v', cur, sib'), parent, unc, up);
      InsertTurn(R, cur, v', sib', parent, unc, up, h);
      LeftRotate(parent, up, Join(R, Black, Join(R, Red, v', cur, sib'), parent, unc));
      Move(L, Red, Join(L, Black, unc, parent, sib'), cur, v', up);
      Paint(parent, Red, Frame(L, Red, cur, v', up), Join(L, Black, unc, parent, sib'));
      Land(Frame(L, Red, cur, v', up), Join(L, Red, unc, parent, sib'));
      Move(L, Red, Join(L, Red, unc, parent, sib'), cur, v', up);
      t := Join(L, Red, Join(L, Red, unc, parent, sib'), cur, v');
      Paint(parent.parent, Black, up, t);
      t := t.(color := Black);
    }

    // The uncle is black and `current` hangs on the left of `parent`: one or two rotations finish the job.
    method TurnFromLeft(current: Node, parent: Node, ghost s: Side, ghost sib: Tree, ghost unc: Tree,
                         ghost up: Context, ghost v: Tree, ghost h: nat) returns (ghost t: Tree)
      requires At(Frame(s, Red, current, sib, Frame(L, Black, parent, unc, up)), v)
      requires RedHole(Frame(s, Red, current, sib, Frame(L, Black, parent, unc, up)), v, h) && !IsRed(unc)
      modifies dom
      ensures At(up, t) && RB(up, t, h + 1)
      ensures Inorder(t) == Inorder(Join(L, Black, Join(s, Red, v, current, sib), parent, unc))
    {
      hide At;
      ghost var cur, v', sib' := current, v, sib;
      assert CtxNoRedRed(Frame(L, Black, parent, unc, up)) && CtxBal(Frame(L, Black, parent, unc, up), h);
      Look(s, Red, current, sib, Frame(L, Black, parent, unc, up), v);
      Move(s, Red, v, current, sib, Frame(L, Black, parent, unc, up));
      ghost var below := Join(s, Red, v, current, sib);
      if current.right.color == Red {
        InsertSlide(L, current, sib, v, h);
        LeftSide_LeftRotate(current, Frame(L, Black, parent, unc, up), below);
        cur, v', sib' := v.node, Join(L, Red, sib, current, Child(v, L)), Child(v, R);
      }
      Move(L, Black, Join(L, Red, v', cur, sib'), parent, unc, up);
      InsertTurn(L, cur, v', sib', parent, unc, up, h);
      RightRotate(parent, up, Join(L, Black, Join(L, Red, v', cur, sib'), parent, unc));
      Move(R, Red, Join(R, Black, unc, parent, sib'), cur, v', up);
      Paint(parent, Red, Frame(R, Red, cur, v', up), Join(R, Black, unc, parent, sib'));
      Land(Frame(R, Red, cur, v', up), Join(R, Red, unc, parent, sib'));
      Move(R, Red, Join(R, Red, unc, parent, sib'), cur, v', up);
      t := Join(R, Red, Join(R, Red, unc, parent, sib'), cur, v');
      Paint(parent.parent, Black, up, t);
      t := t.(color := Black);
    }

    // `start` is the parent of the node just hung into the hole of ctx0.
    method Balance(start: Node, ghost ctx0: Context, ghost v0: Tree, ghost h0: nat) returns (ghost t: Tree)
      requires At(ctx0, v0) && RedHole(ctx0, v0, h0) && start == UpPtr(Ends(), ctx0)
      modifies dom
      ensures At(Root, t) && BalancedBelow(t) && Inorder(t) == Inorder(Plug(ctx0, v0))
    {
      hide At, RB, Inorder, BalancedBelow, RedHole;
      var current := start;
      ghost var ctx, v, h := ctx0, v0, h0;
      Land(ctx, v);
      while current.color != Black
        invariant At(ctx, v) && RedHole(ctx, v, h) && current == UpPtr(Ends(), ctx) && current in dom
        invariant current.color == if ctx.Root? then Black else ctx.color
        invariant Inorder(Plug(ctx, v)) == Inorder(Plug(ctx0, v0))
        decreases ctx
      {
        var parent := current.parent;
        RedHoleAbove(ctx, v, h);
        ghost var s, sib, s2, unc, up := ctx.side, ctx.sibling, ctx.up.side, ctx.up.sibling, ctx.up.up;
        Look(s, Red, current, sib, ctx.up, v);
        Move(s, Red, v, current, sib, ctx.up);
        Look(s2, Black, parent, unc, up, Join(s, Red, v, current, sib));
        if parent.right == current {
          if parent.left.color == Red {
            PullBlack(current, parent, parent.left, s, sib, s2, unc, up, v, h);
            Land(up, Join(s2, Red, Join(s, Black, v, ctx.node, sib), parent, unc.(color := Black)));
            current := parent.parent;
          } else {
            t := TurnFromRight(current, parent, s, sib, unc, up, v, h);
            Close(up, t, h + 1, Join(s2, Black, Join(s, Red, v, current, sib), parent, unc));
            t := Plug(up, t);
            return;
          }
        } else {
          if parent.right.color == Red {
            PullBlack(current, parent, parent.right, s, sib, s2, unc, up, v, h);
            Land(up, Join(s2, Red, Join(s, Black, v, ctx.node, sib), parent, unc.(color := Black)));
            current := parent.parent;
          } else {
            t := TurnFromLeft(current, parent, s, sib, unc, up, v, h);
            Close(up, t, h + 1, Join(s2, Black, Join(s, Red, v, current, sib), parent, unc));
            t := Plug(up, t);
            return;
          }
        }
        ghost var v' := Join(s2, Red, Join(s, Black, v, ctx.node, sib), parent, unc.(color := Black));
        InsertPull(s, ctx.node, sib, s2, parent, unc, up, v, h);
        SameOrder(up, Join(s2, Black, Join(s, Red, v, ctx.node, sib), parent, unc), v');
        ctx, v, h := up, v', h + 1;
        Land(ctx, v);
      }
      InsertDone(ctx, v, h);
      Whole(ctx, v);
      t := Plug(ctx, v);
    }

    // A repaired subtree in its context is a repaired tree.
    lemma Close(up: Context, t: Tree, h: nat, was: Tree)
      requires At(up, t) && RB(up, t, h) && Inorder(t) == Inorder(was)
      ensures At(Root, Plug(up, t)) && RedBlack(Plug(up, t)) && BalancedBelow(Plug(up, t))
      ensures Inorder(Plug(up, t)) == Inorder(Plug(up, was))
    {
      SameOrder(up, t, was);
      RBPlug(up, t, h);
      var k: nat :| RB(Root, Plug(up, t), k);
      Whole(up, t);
    }

    // A node that is in no tree is not one of ours.
    lemma UnassignedIsForeign(node: Node)
      requires Valid() && node.color == Unassigned
      ensures node !in dom
    {
      if node in Nodes(shape) { MemberColor(Memory(), Ends(), shape, top, node); }
    }

    // The descent of RBTree_Add, down to the node that has room on the wanted side.
    method Descend(compare: Node -> int) returns (current: Node, side: Side, ghost ctx: Context, ghost h: nat)
      requires At(Root, shape) && RedBlack(shape) && shape.Branch? && Searchable(Inorder(shape), compare)
      ensures At(ctx, Leaf) && RB(ctx, Leaf, h) && Plug(ctx, Leaf) == shape
      ensures current == UpPtr(Ends(), ctx) && side == HoleSide(ctx)
      ensures Between(compare, Before(ctx), After(ctx))
    {
      hide At;
      Land(Root, shape);
      current := top.left;
      ghost var sub := shape;
      ctx, h := Root, BlackHeight(shape);
      while true
        invariant At(ctx, sub) && RB(ctx, sub, h) && sub.Branch? && sub.node == current && Plug(ctx, sub) == shape
        invariant Between(compare, Before(ctx), After(ctx))
        decreases sub
      {
        Land(ctx, sub);
        PlugInorder(ctx, sub);
        SearchStep(compare, Before(ctx), Inorder(sub.left), current, Inorder(sub.right), After(ctx));
        var c := compare(current);
        if c < 0 {
          Move(L, sub.color, sub.left, current, sub.right, ctx);
          RBMove(L, sub.color, sub.left, current, sub.right, ctx, h);
          ctx, h := Frame(L, sub.color, current, sub.right, ctx), if sub.color == Black then h - 1 else h;
          if current.left == leaf {
            side := L;
            return;
          }
          current, sub := current.left, sub.left;
        } else {
          Move(R, sub.color, sub.right, current, sub.left, ctx);
          RBMove(R, sub.color, sub.right, current, sub.left, ctx, h);
          ctx, h := Frame(R, sub.color, current, sub.left, ctx), if sub.color == Black then h - 1 else h;
          if current.right == leaf {
            side := R;
            return;
          }
          current, sub := current.right, sub.right;
        }
      }
    }

    // Link the red leaf `node` into the empty hole below `current`.
    method Hang(current: Node, node: Node, side: Side, ghost ctx: Context)
      requires At(ctx, Leaf) && current == UpPtr(Ends(), ctx) && side == HoleSide(ctx)
      requires node in dom && node !in CtxNodes(ctx) + {leaf, top}
      requires node.color == Red && node.left == leaf && node.right == leaf
      modifies dom
      ensures At(ctx, Branch(Red, Leaf, node, Leaf))
    {
      ghost var m := Memory();
      Land(ctx, Leaf);
      if side == L {
        current.left := node;
      } else {
        current.right := node;
      }
      node.parent := current;
      ZipFill(m, Memory(), Ends(), ctx, Leaf, Branch(Red, Leaf, node, Leaf));
    }

    // The node joins our memory as a red leaf that is not linked yet.
    method Adopt(node: Node)
      requires At(Root, shape) && node !in dom && leaf in dom && top in dom && Nodes(shape) <= dom
      modifies this`dom, node
      ensures At(Root, shape) && dom == old(dom) + {node}
      ensures node.color == Red && node.left == leaf && node.right == leaf
    {
      ghost var m := Memory();
      node.color := Red;
      node.left := leaf;
      node.right := leaf;
      dom := dom + {node};
      ZipFrame(m, Memory(), Ends(), Root, shape);
    }

    lemma Placed(compare: Node -> int, ctx: Context, node: Node, t: Tree)
      requires Plug(ctx, Leaf) == shape && Between(compare, Before(ctx), After(ctx))
      requires Inorder(t) == Inorder(Plug(ctx, Branch(Red, Leaf, node, Leaf)))
      ensures InsertedAt(Inorder(shape), Inorder(t), node, |Before(ctx)|, compare)
      ensures Nodes(t) == Nodes(shape) + {node} && t.Branch?
    {
      PlugInorder(ctx, Leaf);
      PlugInorder(ctx, Branch(Red, Leaf, node, Leaf));
      var b, a := Before(ctx), After(ctx);
      assert b + [] + a == b + a && (b + a)[..|b|] == b && (b + a)[|b|..] == a;
      InsertedNodes(shape, t, node, b, a);
    }

    lemma PlacedFirst(compare: Node -> int, node: Node)
      requires shape == Leaf
      ensures var t := Branch(Red, Leaf, node, Leaf);
        && InsertedAt(Inorder(shape), Inorder(t), node, 0, compare)
        && Nodes(t) == Nodes(shape) + {node} && BalancedBelow(t)
    {
      Placed(compare, Root, node, Branch(Red, Leaf, node, Leaf));
      assert Bal(Branch(Red, Leaf, node, Leaf), 0);
    }

    // RBTree_Add below the root: down, in, and up again.
    method Insert(node: Node, compare: Node -> int) returns (ghost t: Tree, ghost k: int)
      requires At(Root, shape) && RedBlack(shape) && shape.Branch? && Searchable(Inorder(shape), compare)
      requires node in dom && node !in Nodes(shape) + {leaf, top}
      requires node.color == Red && node.left == leaf && node.right == leaf
      modifies dom
      ensures At(Root, t) && BalancedBelow(t) && t.Branch? && Nodes(t) == Nodes(shape) + {node}
      ensures InsertedAt(Inorder(shape), Inorder(t), node, k, compare)
    {
      hide At, RedBlack, RB, Inorder, Before, After, RedHole, BalancedBelow, InsertedAt;
      var current, side;
      ghost var ctx, h;
      current, side, ctx, h := Descend(compare);
      PlugNodes(ctx, Leaf);
      Hang(current, node, side, ctx);
      FreshLeaf(ctx, h, node);
      t := Balance(current, ctx, Branch(Red, Leaf, node, Leaf), h);
      Placed(compare, ctx, node, t);
      k := |Before(ctx)|;
    }

    // The last line of RBTree_Add: the root is black.
    method Blacken(ghost t: Tree)
      requires At(Root, t) && BalancedBelow(t) && t.Branch?
      modifies this`shape, dom
      ensures At(Root, shape) && RedBlack(shape) && Inorder(shape) == Inorder(t) && Nodes(shape) == Nodes(t)
    {
      hide At, RedBlack, Inorder, Nodes, BalancedBelow;
      Land(Root, t);
      Paint(top.left, Black, Root, t);
      BlackenRoot(t);
      shape := t.(color := Black);
    }

    /** RBTree_Add.  `compare(n)` is the sign of comparing the new key with the key of n. */
    method Add(node: Node, compare: Node -> int) returns (added: bool)
      requires Valid() && Searchable(Inorder(shape), compare)
      modifies this, dom, node
      ensures Valid() && added == (old(node.color) == Unassigned)
      ensures !added ==> shape == old(shape) && dom == old(dom) && Memory() == old(Memory())
      ensures added ==>
        dom == old(dom) + {node} && exists k :: InsertedAt(old(Inorder(shape)), Inorder(shape), node, k, compare)
    {
      hide At, RedBlack, Inorder, BalancedBelow, InsertedAt;
      if node.color != Unassigned {
        return false;
      }
      UnassignedIsForeign(node);
      Adopt(node);
      ghost var t, k := Branch(Red, Leaf, node, Leaf), 0;
      Land(Root, shape);
      if top.left == leaf {
        Hang(top, node, L, Root);
        PlacedFirst(compare, node);
      } else {
        t, k := Insert(node, compare);
      }
      Blacken(t);
      assert InsertedAt(old(Inorder(shape)), Inorder(shape), node, k, compare);
      return true;
    }

    // ------------------------------------------------------------ deletion

    // Red sibling: it becomes black and is rotated over the parent, which becomes red.
    method RaiseSibling(parent: Node, sibling: Node, leftSide: bool, ghost sib: Tree, ghost up: Context,
                        ghost t: Tree, ghost h: nat)
      returns (sibling': Node)
      requires var ctx := Frame(if leftSide then L else R, Black, parent, sib, up); At(ctx, t) && Short(ctx, t, h)
      requires IsRed(sib) && sib.node == sibling && !IsRed(t)
      modifies dom
      ensures var s := if leftSide then L else R;
        && At(Frame(s, Red, parent, Child(sib, s), Frame(s, Black, sibling, Child(sib, Other(s)), up)), t)
        && sibling' == Ptr(Ends(), Child(sib, s)) && parent in dom && parent.parent != null
        && Inorder(Plug(Frame(s, Red, parent, Child(sib, s), Frame(s, Black, sibling, Child(sib, Other(s)), up)), t))
           == Inorder(Plug(Frame(s, Black, parent, sib, up), t))
    {
      hide At;
      ghost var s := if leftSide then L else R;
      Move(s, Black, t, parent, sib, up);
      Paint(parent, Red, up, Join(s, Black, t, parent, sib));
      Move(Other(s), Red, sib, parent, t, up);
      Paint(sibling, Black, Frame(Other(s), Red, parent, t, up), sib);
      ghost var sib' := sib.(color := Black);
      Move(Other(s), Red, sib', parent, t, up);
      ShortRedSibling(s, parent, sib, up, t, h);
      if leftSide {
        LeftRotate(parent, up, Join(s, Red, t, parent, sib'));
      } else {
        RightRotate(parent, up, Join(s, Red, t, parent, sib'));
      }
      Move(s, Black, Join(s, Red, t, parent, Child(sib, s)), sibling, Child(sib, Other(s)), up);
      ghost var up' := Frame(s, Black, sibling, Child(sib, Other(s)), up);
      Move(s, Red, t, parent, Child(sib, s), up');
      Land(up', Join(s, Red, t, parent, Child(sib, s)));
      SameOrder(up, Join(s, Black, Join(s, Red, t, parent, Child(sib, s)), sibling, Child(sib, Other(s))),
                Join(s, Black, t, parent, sib));
      PlugFrame(s, Red, t, parent, Child(sib, s), up');
      sibling' := if leftSide then parent.right else parent.left;
    }

    // The hole is on the left and a nephew is red: the sibling comes up and the shortage is over.
    method TurnLeftSide(parent: Node, sibling: Node, ghost c: Color, ghost sib: Tree, ghost up: Context,
                        ghost t: Tree, ghost h: nat)
      returns (ghost r: Tree)
      requires At(Frame(L, c, parent, sib, up), t) && Short(Frame(L, c, parent, sib, up), t, h) && !IsRed(t)
      requires sib.Branch? && sib.color == Black && sib.node == sibling && (IsRed(sib.left) || IsRed(sib.right))
      modifies dom
      ensures At(up, r) && RB(up, r, if c == Black then h + 2 else h + 1)
      ensures Inorder(r) == Inorder(Join(L, c, t, parent, sib))
    {
      hide At;
      Look(L, c, parent, sib, up, t);
      Move(L, c, t, parent, sib, up);
      Move(R, c, sib, parent, t, up);
      ghost var ctx2 := Frame(R, c, parent, t, up);
      Land(ctx2, sib);
      Move(R, Black, Child(sib, R), sibling, Child(sib, L), ctx2);
      Land(Frame(R, Black, sibling, Child(sib, L), ctx2), Child(sib, R));
      var sibling := sibling;
      assert NoRedRed(sib) && NoRedRed(Child(sib, R));
      ghost var near, far, k := Child(sib, L), Child(sib, R), Black;
      if sibling.right.color == Black {
        ShortSlide(L, sib, h);
        RightSide_RightRotate(sibling, ctx2, sib);
        ghost var n := Child(sib, L);
        near, far, k := Child(n, L), Join(L, Black, Child(n, R), sibling, Child(sib, R)), Red;
        Move(R, c, Join(L, k, near, n.node, far), parent, t, up);
        Look(R, c, parent, t, up, Join(L, k, near, n.node, far));
        sibling := parent.right;
        Land(ctx2, Join(L, k, near, sibling, far));
      } else {
        ShortDirect(L, sib, h);
      }
      Move(R, k, far, sibling, near, ctx2);
      Paint(sibling.right, Black, Frame(R, k, sibling, near, ctx2), far);
      Move(R, k, far.(color := Black), sibling, near, ctx2);
      ghost var s2 := Join(L, k, near, sibling, far.(color := Black));
      RecolorInorder(far, Black);
      RecolorInorder(s2, c);
      assert Inorder(s2) == Inorder(sib);
      Move(R, c, s2, parent, t, up);
      Land(up, Join(L, c, t, parent, s2));
      Paint(sibling, parent.color, ctx2, s2);
      Move(R, c, s2.(color := c), parent, t, up);
      Paint(parent, Black, up, Join(L, c, t, parent, s2.(color := c)));
      ShortTurn(L, c, parent, near, sibling, far, up, t, h);
      LeftRotate(parent, up, Join(L, Black, t, parent, s2.(color := c)));
      r := Join(L, c, Join(L, Black, t, parent, near), sibling, far.(color := Black));
    }

    // The hole is on the right and a nephew is red: the sibling comes up and the shortage is over.
    method TurnRightSide(parent: Node, sibling: Node, ghost c: Color, ghost sib: Tree, ghost up: Context,
                         ghost t: Tree, ghost h: nat)
      returns (ghost r: Tree)
      requires At(Frame(R, c, parent, sib, up), t) && Short(Frame(R, c, parent, sib, up), t, h) && !IsRed(t)
      requires sib.Branch? && sib.color == Black && sib.node == sibling && (IsRed(sib.left) || IsRed(sib.right))
      modifies dom
      ensures At(up, r) && RB(up, r, if c == Black then h + 2 else h + 1)
      ensures Inorder(r) == Inorder(Join(R, c, t, parent, sib))
    {
      hide At;
      Look(R, c, parent, sib, up, t);
      Move(R, c, t, parent, sib, up);
      Move(L, c, sib, parent, t, up);
      ghost var ctx2 := Frame(L, c, parent, t, up);
      Land(ctx2, sib);
      Move(L, Black, Child(sib, L), sibling, Child(sib, R), ctx2);
      Land(Frame(L, Black, sibling, Child(sib, R), ctx2), Child(sib, L));
      var sibling := sibling;
      assert NoRedRed(sib) && NoRedRed(Child(sib, L));
      ghost var near, far, k := Child(sib, R), Child(sib, L), Black;
      if sibling.left.color == Black {
        ShortSlide(R, sib, h);
        LeftSide_LeftRotate(sibling, ctx2, sib);
        ghost var n := Child(sib, R);
        near, far, k := Child(n, R), Join(R, Black, Child(n, L), sibling, Child(sib, L)), Red;
        Move(L, c, Join(R, k, near, n.node, far), parent, t, up);
        Look(L, c, parent, t, up, Join(R, k, near, n.node, far));
        sibling := parent.left;
        Land(ctx2, Join(R, k, near, sibling, far));
      } else {
        ShortDirect(R, sib, h);
      }
      Move(L, k, far, sibling, near, ctx2);
      Paint(sibling.left, Black, Frame(L, k, sibling, near, ctx2), far);
      Move(L, k, far.(color := Black), sibling, near, ctx2);
      ghost var s2 := Join(R, k, near, sibling, far.(color := Black));
      RecolorInorder(far, Black);
      RecolorInorder(s2, c);
      assert Inorder(s2) == Inorder(sib);
      Move(L, c, s2, parent, t, up);
      Land(up, Join(R, c, t, parent, s2));
      Paint(sibling, parent.color, ctx2, s2);
      Move(L, c, s2.(color := c), parent, t, up);
      Paint(parent, Black, up, Join(R, c, t, parent, s2.(color := c)));
      ShortTurn(R, c, parent, near, sibling, far, up, t, h);
      RightRotate(parent, up, Join(R, Black, t, parent, s2.(color := c)));
      r := Join(R, c, Join(R, Black, t, parent, near), sibling, far.(color := Black));
    }

    // Black sibling with black children: it becomes red, and the parent's subtree is the short one now.
    method DropSibling(current: Node, sibling: Node, ghost ctx: Context, ghost t: Tree, ghost h: nat)
      returns (parent: Node, leftSide: bool, sibling': Node)
      requires At(ctx, t) && Short(ctx, t, h) && !IsRed(t) && ctx.Frame? && current == ctx.node
      requires ctx.sibling.Branch? && ctx.sibling.color == Black && ctx.sibling.node == sibling
      requires !IsRed(ctx.sibling.left) && !IsRed(ctx.sibling.right)
      modifies dom
      ensures At(ctx.up, Join(ctx.side, ctx.color, t, ctx.node, ctx.sibling.(color := Red)))
      ensures Inorder(Plug(ctx.up, Join(ctx.side, ctx.color, t, ctx.node, ctx.sibling.(color := Red)))) ==
        Inorder(Plug(ctx, t))
      ensures current in dom && current.color == ctx.color
      ensures parent == UpPtr(Ends(), ctx.up) && parent in dom && (parent.parent == null <==> ctx.up.Root?)
      ensures leftSide == (HoleSide(ctx.up) == L) && (ctx.up.Frame? ==> sibling' == Ptr(Ends(), ctx.up.sibling))
    {
      hide At;
      ghost var s, c, x, sib, up := ctx.side, ctx.color, ctx.node, ctx.sibling, ctx.up;
      Move(s, c, t, x, sib, up);
      Move(Other(s), c, sib, x, t, up);
      Paint(sibling, Red, Frame(Other(s), c, x, t, up), sib);
      Move(Other(s), c, sib.(color := Red), x, t, up);
      ghost var t' := Join(s, c, t, x, sib.(color := Red));
      SameOrder(up, Join(s, c, t, x, sib), t');
      Land(up, t');
      Around(up, t');
      parent := current.parent;
      leftSide := parent.left == current;
      sibling' := if leftSide then parent.right else parent.left;
    }

    // The last statement of RBTreeNode_PruneLeaf; `current` may still be the node that was cut out.
    method PaintBlack(current: Node, node: Node, ghost ctx: Context, ghost t: Tree)
      requires At(ctx, t) && node !in dom && current == if t == Leaf then node else t.node
      modifies dom, node
      ensures At(ctx, Blackened(t))
    {
      ghost var m := Memory();
      current.color := Black;
      if t == Leaf {
        assert Memory() == m;
      } else {
        ZipRecolor(m, Memory(), Ends(), ctx, t, Black);
      }
    }

    // The loop of RBTreeNode_PruneLeaf.  `node`, black, has just been cut out of the hole of ctx0.
    method Repair(node: Node, parent0: Node, leftSide0: bool, ghost ctx0: Context) returns (ghost r: Tree)
      requires At(ctx0, Leaf) && Short(ctx0, Leaf, 0) && node !in dom && node.color == Black
      requires parent0 == UpPtr(Ends(), ctx0) && leftSide0 == (HoleSide(ctx0) == L)
      modifies dom, node
      ensures At(Root, r) && RedBlack(r) && Inorder(r) == Inorder(Plug(ctx0, Leaf))
    {
      hide At, Short, RB, RedBlack, Inorder, Plug, Work;
      ghost var ctx, t: Tree, h := ctx0, Leaf, 0;
      Land(ctx, t);
      Around(ctx, t);
      var parent, leftSide := parent0, leftSide0;
      var sibling := if leftSide then parent.right else parent.left;
      var current := node;
      while current.color == Black && parent.parent != null
        invariant At(ctx, t) && Short(ctx, t, h) && (t.Branch? ==> t.color != Unassigned)
        invariant Inorder(Plug(ctx, t)) == Inorder(Plug(ctx0, Leaf))
        invariant parent == UpPtr(Ends(), ctx) && parent in dom && (parent.parent == null <==> ctx.Root?)
        invariant leftSide == (HoleSide(ctx) == L) && (ctx.Frame? ==> sibling == Ptr(Ends(), ctx.sibling))
        invariant current == (if t == Leaf then node else t.node) && node.color == Black
        invariant current.color == if t == Leaf then Black else t.color
        decreases Work(ctx, t)
      {
        SiblingIsNode(ctx, t, h);
        Nephews(ctx, t);
        ghost var s, c, sib, up := ctx.side, ctx.color, ctx.sibling, ctx.up;
        PlugFrame(s, c, t, ctx.node, sib, up);
        if sibling.color == Red {
          ShortRedSibling(s, parent, sib, up, t, h);
          sibling := RaiseSibling(parent, sibling, leftSide, sib, up, t, h);
          ctx := Frame(s, Red, parent, Child(sib, s), Frame(s, Black, sib.node, Child(sib, Other(s)), up));
          Land(ctx, t);
        } else if sibling.right.color == Black && sibling.left.color == Black {
          ShortBlackNephews(s, c, parent, sib, up, t, h);
          current := parent;
          parent, leftSide, sibling := DropSibling(current, sibling, ctx, t, h);
          ctx, t, h := up, Join(s, c, t, current, sib.(color := Red)), if c == Black then h + 1 else h;
        } else if leftSide {
          r := TurnLeftSide(parent, sibling, c, sib, up, t, h);
          Close(up, r, if c == Black then h + 2 else h + 1, Join(s, c, t, parent, sib));
          r := Plug(up, r);
          return;
        } else {
          r := TurnRightSide(parent, sibling, c, sib, up, t, h);
          Close(up, r, if c == Black then h + 2 else h + 1, Join(s, c, t, parent, sib));
          r := Plug(up, r);
          return;
        }
      }
      PaintBlack(current, node, ctx, t);
      ShortDone(ctx, t, h);
      SameOrder(ctx, t, Blackened(t));
      r := Plug(ctx, Blackened(t));
      Whole(ctx, Blackened(t));
    }

    // Cut a childless node out of the tree.
    method CutLeaf(node: Node, parent: Node, leftSide: bool, ghost ctx: Context, ghost t: Tree)
      requires At(ctx, t) && t.Branch? && t.node == node && t.left == t.right == Leaf
      requires parent == UpPtr(Ends(), ctx) && leftSide == (HoleSide(ctx) == L)
      modifies this`dom, dom
      ensures At(ctx, Leaf) && dom == old(dom) - {node} && node.color == old(node.color)
    {
      hide Zip, Nodes, CtxNodes, Separate, RepTree;
      ghost var m := Memory();
      RootReads(m, Ends(), ctx, t);
      LinkReads(m, Ends(), ctx, t);
      if leftSide {
        parent.left := leaf;
      } else {
        parent.right := leaf;
      }
      dom := dom - {node};
      ZipFill(m, Memory(), Ends(), ctx, t, Leaf);
    }

    // Put the only child of a node in its place, painted black.
    method CutLink(node: Node, child: Node, parent: Node, leftSide: bool, ghost ctx: Context, ghost t: Tree)
      requires At(ctx, t) && t.Branch? && t.node == node && parent == UpPtr(Ends(), ctx)
      requires leftSide == (HoleSide(ctx) == L)
      requires var kid := if t.left == Leaf then t.right else t.left;
        kid.Branch? && kid.node == child && kid.left == kid.right == Leaf
      modifies this`dom, dom
      ensures At(ctx, Branch(Black, Leaf, child, Leaf)) && dom == old(dom) - {node}
    {
      hide Zip, Nodes, CtxNodes, Separate;
      ghost var m := Memory();
      RootReads(m, Ends(), ctx, t);
      LinkReads(m, Ends(), ctx, t);
      hide Same, RepTree, RepLeaf;
      Relink(child, parent, leftSide);
      dom := dom - {node};
      CutCells(m, Memory(), Ends(), ctx, t, child);
    }

    // The writes of CutLink.
    method Relink(child: Node, parent: Node, leftSide: bool)
      requires child in dom && parent in dom && child != parent
      modifies child, parent
      ensures Memory() == old(Memory())
        [child := old(Memory())[child].(parent := parent, color := Black)]
        [parent := WithChild(old(Memory())[parent], if leftSide then L else R, child)]
    {
      child.color := Black;
      child.parent := parent;
      if leftSide {
        parent.left := child;
      } else {
        parent.right := child;
      }
    }

    // RBTreeNode_PruneLeaf: cut out a node with at most one child.
    method PruneLeaf(node: Node, ghost ctx: Context, ghost t: Tree, ghost h: nat) returns (ghost r: Tree)
      requires At(ctx, t) && RB(ctx, t, h) && t.Branch? && t.node == node && (t.left == Leaf || t.right == Leaf)
      modifies this`dom, dom
      ensures At(Root, r) && RedBlack(r) && dom == old(dom) - {node}
      ensures Inorder(r) == Before(ctx) + Inorder(t.left) + Inorder(t.right) + After(ctx)
    {
      hide At, RedBlack, RB;
      Land(ctx, t);
      Around(ctx, t);
      AtMostOneChild(ctx, t, h);
      var parent := node.parent;
      var leftSide := parent.left == node;
      if node.color == Red {
        CutLeaf(node, parent, leftSide, ctx, t);
        Close(ctx, Leaf, h, Leaf);
        r := Plug(ctx, Leaf);
        PlugInorder(ctx, Leaf);
      } else if node.left != leaf {
        CutLink(node, node.left, parent, leftSide, ctx, t);
        r := Branch(Black, Leaf, t.left.node, Leaf);
        Close(ctx, r, h, r);
        PlugInorder(ctx, r);
        r := Plug(ctx, r);
      } else if node.right != leaf {
        CutLink(node, node.right, parent, leftSide, ctx, t);
        r := Branch(Black, Leaf, t.right.node, Leaf);
        Close(ctx, r, h, r);
        PlugInorder(ctx, r);
        r := Plug(ctx, r);
      } else {
        CutLeaf(node, parent, leftSide, ctx, t);
        r := Repair(node, parent, leftSide, ctx);
        PlugInorder(ctx, Leaf);
      }
    }

    // ------------------------------------------------------------ walking

    // RBTreeNode_GetNext at the position (ctx, t).
    method NextFrom(start: Node, ghost ctx: Context, ghost t: Tree) returns (next: Node?)
      requires At(ctx, t) && t.Branch? && t.node == start
      ensures var order := Inorder(Plug(ctx, t)); var k := Index(ctx, t) + 1;
        next == (if k < |order| then order[k] else null)
      ensures t.right.Branch? ==> next != null && next.left == leaf
    {
      hide At;
      IndexOf(ctx, t);
      Land(ctx, t);
      var node := start;
      ghost var c, sub;
      if node.right != leaf {
        var current := node.right;
        c, sub := Frame(R, t.color, node, t.left, ctx), t.right;
        Move(R, t.color, t.right, node, t.left, ctx);
        Land(c, sub);
        while current.left != leaf
          invariant At(c, sub) && sub.Branch? && sub.node == current && (current.left == leaf <==> sub.left == Leaf)
          invariant current.left == Ptr(Ends(), sub.left)
          invariant |Before(c)| == Index(ctx, t) + 1 && Plug(c, sub) == Plug(ctx, t)
          decreases sub
        {
          Move(L, sub.color, sub.left, sub.node, sub.right, c);
          c, sub := Frame(L, sub.color, sub.node, sub.right, c), sub.left;
          current := current.left;
          Land(c, sub);
        }
        IndexOf(c, sub);
        return current;
      } else {
        var parent := node.parent;
        c, sub := ctx, t;
        Land(c, sub);
        Beside(c, sub);
        while parent.right == node
          invariant At(c, sub) && sub.Branch? && sub.node == node && parent == UpPtr(Ends(), c)
          invariant After(c) == After(ctx) && Plug(c, sub) == Plug(ctx, t)
          invariant parent in dom && (parent.right == node <==> c.Frame? && c.side == R)
          invariant (parent.parent == null <==> c.Root?)
          decreases c
        {
          Move(c.side, c.color, sub, c.node, c.sibling, c.up);
          node := parent;
          c, sub := c.up, Join(c.side, c.color, sub, c.node, c.sibling);
          Land(c, sub);
          Beside(c, sub);
          parent := node.parent;
        }
        if parent.parent == null {
          return null;
        }
        return parent;
      }
    }

    lemma Beside(ctx: Context, t: Tree)
      requires At(ctx, t) && t.Branch?
      ensures UpPtr(Ends(), ctx) in dom
      ensures UpPtr(Ends(), ctx).right == t.node <==> ctx.Frame? && ctx.side == R
      ensures UpPtr(Ends(), ctx).left == t.node <==> HoleSide(ctx) == L
    {
      if ctx.Frame? {
        Look(ctx.side, ctx.color, ctx.node, ctx.sibling, ctx.up, t);
      }
    }

    // RBTreeNode_GetPrev at the position (ctx, t).
    method PrevFrom(start: Node, ghost ctx: Context, ghost t: Tree) returns (prev: Node?)
      requires At(ctx, t) && t.Branch? && t.node == start
      ensures var order := Inorder(Plug(ctx, t)); var k := Index(ctx, t);
        prev == (if 0 < k <= |order| then order[k - 1] else null)
      ensures t.left.Branch? ==> prev != null && prev.right == leaf
    {
      hide At;
      IndexOf(ctx, t);
      Land(ctx, t);
      var node := start;
      ghost var c, sub;
      if node.left != leaf {
        var current := node.left;
        c, sub := Frame(L, t.color, node, t.right, ctx), t.left;
        Move(L, t.color, t.left, node, t.right, ctx);
        Land(c, sub);
        while current.right != leaf
          invariant At(c, sub) && sub.Branch? && sub.node == current && (current.right == leaf <==> sub.right == Leaf)
          invariant current.right == Ptr(Ends(), sub.right)
          invariant |Before(c)| + |Inorder(sub)| == Index(ctx, t) && Plug(c, sub) == Plug(ctx, t)
          decreases sub
        {
          Move(R, sub.color, sub.right, sub.node, sub.left, c);
          c, sub := Frame(R, sub.color, sub.node, sub.left, c), sub.right;
          current := current.right;
          Land(c, sub);
        }
        IndexOf(c, sub);
        return current;
      } else {
        var parent := node.parent;
        c, sub := ctx, t;
        Beside(c, sub);
        while parent.left == node
          invariant At(c, sub) && sub.Branch? && sub.node == node && parent == UpPtr(Ends(), c)
          invariant Before(c) == Before(ctx) && Plug(c, sub) == Plug(ctx, t)
          invariant parent in dom && (parent.left == node <==> HoleSide(c) == L) && (parent.parent == null <==> c.Root?)
          decreases c
        {
          Land(c, sub);
          node := parent;
          var above := parent.parent;
          if above == null {
            return null;
          }
          Move(c.side, c.color, sub, c.node, c.sibling, c.up);
          c, sub := c.up, Join(c.side, c.color, sub, c.node, c.sibling);
          Land(c, sub);
          Beside(c, sub);
          parent := above;
        }
        return parent;
      }
    }

    // The last part of RBTreeNode_Prune: `successor` takes the place of `node`.
    static method TakeChildren(node: Node, successor: Node)
      requires node != successor && node !in {node.left, node.right} && successor !in {node.left, node.right}
      modifies successor`left, successor`right, node.left`parent, node.right`parent
      ensures successor.left == node.left && successor.right == node.right
      ensures node.left.parent == successor && node.right.parent == successor
    {
      var temp := node.right;
      successor.right := temp;
      temp.parent := successor;
      temp := node.left;
      successor.left := temp;
      temp.parent := successor;
    }

    method Exchange(node: Node, successor: Node, ghost ctx: Context, ghost t: Tree)
      requires At(ctx, t) && t.Branch? && t.node == node && successor !in dom
      modifies this`dom, dom, successor
      ensures At(ctx, t.(node := successor)) && dom == old(dom) - {node} + {successor}
      ensures successor.color == t.color
    {
      hide Zip, Nodes, CtxNodes, Separate, RepTree;
      ghost var m := Memory();
      RootReads(m, Ends(), ctx, t);
      TakeChildren(node, successor);
      var parent := node.parent;
      successor.parent := parent;
      if parent.left == node {
        parent.left := successor;
      } else {
        parent.right := successor;
      }
      successor.color := node.color;
      dom := dom - {node} + {successor};
      ZipExchange(m, Memory(), Ends(), ctx, t, successor);
    }

    // The position of the node at index k.
    lemma Seek(whole: Tree, k: nat) returns (ctx: Context, t: Tree, h: nat)
      requires At(Root, whole) && RedBlack(whole) && k < |Inorder(whole)|
      ensures At(ctx, t) && Plug(ctx, t) == whole && t.Branch? && RB(ctx, t, h)
      ensures Index(ctx, t) == k && t.node == Inorder(whole)[k]
    {
      hide At, RB;
      ctx, t, h := PositionAt(Root, whole, BlackHeight(whole), k);
      IndexOf(ctx, t);
      Whole(ctx, t);
    }

    // A node with two children: a neighbour is cut out instead and then put in its place.
    method PruneInner(node: Node, ghost k: nat, ghost ctx: Context, ghost t: Tree) returns (ghost r: Tree)
      requires At(ctx, t) && t.Branch? && t.node == node && t.left.Branch? && t.right.Branch?
      requires shape == Plug(ctx, t) && RedBlack(shape) && Index(ctx, t) == k
      modifies this`dom, dom
      ensures At(Root, r) && RedBlack(r) && dom == old(dom) - {node} && k < |Inorder(shape)|
      ensures Inorder(r) == Without(Inorder(shape), k)
    {
      hide At, RedBlack, RB, Inorder, Plug, Index, Before, After, Nodes;
      ghost var order := Inorder(shape);
      InnerNeighbours(ctx, t);
      Whole(ctx, t);
      var successor := NextFrom(node, ctx, t);
      ghost var j := k + 1;
      if successor.color == Black && successor.left == leaf && successor.right == leaf {
        successor := PrevFrom(node, ctx, t);
        j := k - 1;
      }
      ghost var ctx2, t2, h2 := Seek(shape, j);
      Land(ctx2, t2);
      r := PruneLeaf(successor, ctx2, t2, h2);
      WithoutAt(ctx2, t2);
      NeighbourTakesPlace(order, k, j);
      ghost var ctx3, t3, h3 := Seek(r, if j == k + 1 then k else k - 1);
      Land(ctx3, t3);
      Exchange(node, successor, ctx3, t3);
      Renamed(ctx3, t3, successor, h3);
      r := Plug(ctx3, t3.(node := successor));
      Whole(ctx3, t3.(node := successor));
    }

    lemma InnerNeighbours(ctx: Context, t: Tree)
      requires t.Branch? && t.left.Branch? && t.right.Branch?
      ensures 0 < Index(ctx, t) && Index(ctx, t) + 1 < |Inorder(Plug(ctx, t))|
      ensures Inorder(Plug(ctx, t))[Index(ctx, t)] == t.node
    {
      IndexOf(ctx, t);
    }

    /** RBTreeNode_Prune, for the node at index k of the order. */
    method Prune(node: Node, ghost k: nat) returns (pruned: bool)
      requires Valid()
      requires node.color != Unassigned ==> k < |Inorder(shape)| && Inorder(shape)[k] == node
      modifies this, dom, node
      ensures Valid() && pruned == (old(node.color) != Unassigned) && node.color == Unassigned
      ensures !pruned ==> shape == old(shape) && dom == old(dom) && Memory() == old(Memory())
      ensures pruned ==> dom == old(dom) - {node} && Inorder(shape) == Without(old(Inorder(shape)), k)
    {
      hide At, RedBlack, RB, Inorder, Plug, Index, Before, After, Nodes;
      if node.color == Unassigned {
        return false;
      }
      ghost var ctx, t, h := Seek(shape, k);
      Land(ctx, t);
      AllDistinct();
      ghost var r;
      if node.left == leaf || node.right == leaf {
        r := PruneLeaf(node, ctx, t, h);
        WithoutAt(ctx, t);
      } else {
        r := PruneInner(node, k, ctx, t);
      }
      WithoutNodes(shape, r, k);
      shape := r;
      node.color := Unassigned;
      return true;
    }

    lemma AllDistinct()
      requires At(Root, shape)
      ensures Distinct(shape) && leaf !in Nodes(shape) && top !in Nodes(shape)
    {
    }

    /** RBTree_Find.  Also counts the nodes it compares with. */
    method Find(compare: Node -> int) returns (nearest: Node?, relation: int, ghost k: int, ghost visits: nat)
      requires Valid() && Searchable(Inorder(shape), compare)
      ensures shape == Leaf ==> nearest == null && relation == -1
      ensures shape.Branch? ==>
        nearest != null && relation == compare(nearest) && Nearest(Inorder(shape), compare, k, nearest)
      ensures Pow2(visits) <= (|Inorder(shape)| + 1) * (|Inorder(shape)| + 1)
    {
      hide At, RedBlack;
      Land(Root, shape);
      HeightBound(shape);
      if top.left == leaf {
        return null, -1, 0, 0;
      }
      var current := top.left;
      ghost var ctx, sub := Root, shape;
      visits := 0;
      while true
        invariant At(ctx, sub) && sub.Branch? && sub.node == current && Plug(ctx, sub) == shape
        invariant Apart(compare, Before(ctx), After(ctx)) && visits + Height(sub) <= Height(shape)
        decreases sub
      {
        Land(ctx, sub);
        PlugInorder(ctx, sub);
        FindStep(compare, Before(ctx), Inorder(sub.left), current, Inorder(sub.right), After(ctx));
        var i := compare(current);
        visits := visits + 1;
        Pow2Mono(visits, Height(shape));
        if i < 0 {
          if current.left == leaf {
            NearestAt(compare, ctx, sub);
            return current, i, Index(ctx, sub), visits;
          }
          Move(L, sub.color, sub.left, current, sub.right, ctx);
          ctx, sub := Frame(L, sub.color, current, sub.right, ctx), sub.left;
          current := current.left;
        } else if i > 0 {
          if current.right == leaf {
            NearestAt(compare, ctx, sub);
            return current, i, Index(ctx, sub), visits;
          }
          Move(R, sub.color, sub.right, current, sub.left, ctx);
          ctx, sub := Frame(R, sub.color, current, sub.left, ctx), sub.right;
          current := current.right;
        } else {
          NearestAt(compare, ctx, sub);
          return current, 0, Index(ctx, sub), visits;
        }
      }
    }

    // RBTreeNode_GetNext
    method GetNext(node: Node, ghost k: nat) returns (next: Node?)
      requires Valid() && k < |Inorder(shape)| && Inorder(shape)[k] == node
      ensures next == if k + 1 < |Inorder(shape)| then Inorder(shape)[k + 1] else null
    {
      hide At, RB, RedBlack, Inorder, Plug, Index;
      ghost var ctx, t, h := Seek(shape, k);
      next := NextFrom(node, ctx, t);
    }

    // RBTreeNode_GetPrev
    method GetPrev(node: Node, ghost k: nat) returns (prev: Node?)
      requires Valid() && k < |Inorder(shape)| && Inorder(shape)[k] == node
      ensures prev == if k > 0 then Inorder(shape)[k - 1] else null
    {
      hide At, RB, RedBlack, Inorder, Plug, Index;
      ghost var ctx, t, h := Seek(shape, k);
      prev := PrevFrom(node, ctx, t);
    }

    // RBTree_GetFirst
    method GetFirst() returns (first: Node?)
      requires Valid()
      ensures first == if |Inorder(shape)| > 0 then Inorder(shape)[0] else null
    {
      hide At, RedBlack;
      Land(Root, shape);
      if top.left == leaf {
        return null;
      }
      var node := top.left;
      ghost var ctx, sub := Root, shape;
      Land(ctx, sub);
      while node.left != leaf
        invariant At(ctx, sub) && sub.Branch? && sub.node == node && Plug(ctx, sub) == shape && Before(ctx) == []
        invariant node.left == Ptr(Ends(), sub.left) && (node.left == leaf <==> sub.left == Leaf)
        decreases sub
      {
        Move(L, sub.color, sub.left, node, sub.right, ctx);
        ctx, sub := Frame(L, sub.color, node, sub.right, ctx), sub.left;
        node := node.left;
        Land(ctx, sub);
      }
      IndexOf(ctx, sub);
      return node;
    }

    // The walk of the name indexes: from the first node by GetNext until NULL.
    method Enumerate() returns (all: seq<Node>)
      requires Valid()
      ensures all == Inorder(shape)
    {
      hide At, RedBlack, Inorder;
      all := [];
      var node := GetFirst();
      while node != null
        invariant |all| <= |Inorder(shape)| && all == Inorder(shape)[..|all|]
        invariant node == if |all| < |Inorder(shape)| then Inorder(shape)[|all|] else null
        decreases |Inorder(shape)| - |all|
      {
        var next := GetNext(node, |all|);
        all := all + [node];
        node := next;
      }
    }

    // fd_iter_next and svc_iter_next from a name: the first entry above it.
    method IterNext(compare: Node -> int) returns (next: Node?)
      requires Valid() && Searchable(Inorder(shape), compare) && UniqueMatch(Inorder(shape), compare)
      ensures FirstAbove(Inorder(shape), compare, next)
    {
      hide At, RedBlack;
      var nearest, relation;
      ghost var k, visits;
      nearest, relation, k, visits := Find(compare);
      if nearest == null {
        return null;
      }
      NextAbove(Inorder(shape), compare, k);
      if relation < 0 {
        return nearest;
      }
      next := GetNext(nearest, k);
    }
  }

  // All indexes share one leaf sentinel.  Adding to one tree, and pruning from it,
  // leaves every other tree as it was although rotations write to that sentinel.
  method AddBeside(a: RBTree, b: RBTree, node: Node, compare: Node -> int) returns (added: bool)
    requires a.Valid() && b.Valid() && a != b && a.leaf == b.leaf && a.dom * b.dom == {a.leaf} && node !in b.dom
    requires Searchable(Inorder(a.shape), compare)
    modifies a, a.dom, node
    ensures a.Valid() && b.Valid() && b.shape == old(b.shape) && a.dom * b.dom == {a.leaf}
  {
    ghost var m := b.Memory();
    assert forall x :: x in b.dom && x != b.leaf ==> x !in a.dom * b.dom && x !in a.dom;
    assert b.leaf !in Nodes(b.shape) && b.leaf != b.top;
    hide RedBlack, Inorder, InsertedAt, Searchable, RepTree, Separate, Nodes;
    added := a.Add(node, compare);
    assert RepLeaf(a.Memory(), a.Ends());
    SharedLeaf(m, b.Memory(), b.Ends(), Root, b.shape);
  }

  method PruneBeside(a: RBTree, b: RBTree, node: Node, ghost k: nat) returns (pruned: bool)
    requires a.Valid() && b.Valid() && a != b && a.leaf == b.leaf && a.dom * b.dom == {a.leaf} && node !in b.dom
    requires node.color != Unassigned ==> k < |Inorder(a.shape)| && Inorder(a.shape)[k] == node
    modifies a, a.dom, node
    ensures a.Valid() && b.Valid() && b.shape == old(b.shape) && a.dom * b.dom == {a.leaf}
  {
    ghost var m := b.Memory();
    assert forall x :: x in b.dom && x != b.leaf ==> x !in a.dom * b.dom && x !in a.dom;
    assert b.leaf !in Nodes(b.shape) && b.leaf != b.top;
    pruned := a.Prune(node, k);
    assert RepLeaf(a.Memory(), a.Ends());
    SharedLeaf(m, b.Memory(), b.Ends(), Root, b.shape);
  }
}
