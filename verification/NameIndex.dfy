/** The name indexes of src/fd.c and src/service.c: a tree of nodes that are embedded in
    named objects, compared by name.  The tree is the one of ContainedRBTree.
  */
module NameIndex {
  import opened RBShape
  import opened RBOrder
  import opened ContainedRBTree
  import opened Strseg

  type Name = string

  // The name of the object that the node is embedded in.
  function Key(names: map<Node, Name>): Node -> Name {
    (n: Node) => if n in names then names[n] else ""
  }

  // fd_by_name_compare, svc_by_name_compare
  function Against(names: map<Node, Name>, name: Name): Node -> int {
    (n: Node) => Cmp(name, if n in names then names[n] else "")
  }

  ghost predicate OneToOne(names: map<Node, Name>) {
    forall m, n :: m in names && n in names && names[m] == names[n] ==> m == n
  }

  // The object that has the name, if there is one.
  ghost predicate Holds(names: map<Node, Name>, name: Name, n: Node?) {
    if n != null then n in names && names[n] == name else forall m :: m in names ==> names[m] != name
  }

  class Index {
    const tree: RBTree
    var names: map<Node, Name>

    ghost predicate Valid()
      reads this, tree, tree.dom
    {
      tree.Valid() && names.Keys == Nodes(tree.shape) && Sorted(Inorder(tree.shape), Key(names), Cmp)
    }

    // RBTree_Init, in fd_init and svc_init
    constructor (sentinel: Node)
      requires sentinel.left == sentinel && sentinel.right == sentinel && sentinel.color == Black
      ensures Valid() && names == map[] && tree.leaf == sentinel && fresh(tree) && fresh(tree.top)
    {
      tree := new RBTree(sentinel);
      names := map[];
    }

    // fd_by_name, svc_by_name
    method ByName(name: Name) returns (n: Node?)
      requires Valid()
      ensures Holds(names, name, n)
    {
      hide RBTree.Valid, Inorder, Nodes, Sorted, Searchable, Nearest, Against, Holds;
      CanSearch(Inorder(tree.shape), names, name);
      InorderNodes(tree.shape);
      ghost var k, visits;
      var nearest, relation;
      nearest, relation, k, visits := tree.Find(Against(names, name));
      if nearest != null && relation == 0 {
        Hit(tree.shape, names, name, k, nearest);
        n := nearest;
      } else {
        Missed(tree.shape, names, name, k, nearest);
        n := null;
      }
    }

    // RBTree_Add of a node that is in no tree; its name may be taken.
    method Add(node: Node, name: Name)
      requires Valid() && node.color == Unassigned
      modifies this`names, tree, tree.dom, node
      ensures Valid() && node !in old(names) && names == old(names)[node := name]
      ensures tree.dom == old(tree.dom) + {node}
    {
      hide RBTree.Valid, Inorder, Nodes, Sorted, Searchable, InsertedAt, Against, Key;
      ghost var was, order := names, Inorder(tree.shape);
      CanSearch(order, names, name);
      tree.UnassignedIsForeign(node);
      InorderNodes(tree.shape);
      NoEnds(tree);
      var added := tree.Add(node, Against(names, name));
      names := names[node := name];
      NoEnds(tree);
      ghost var k :| InsertedAt(order, Inorder(tree.shape), node, k, Against(was, name));
      Added(order, Inorder(tree.shape), was, node, name, k);
    }

    // RBTreeNode_Prune
    method Remove(node: Node)
      requires Valid() && node in names
      modifies this`names, tree, tree.dom
      ensures Valid() && names == old(names) - {node} && node.color == Unassigned
      ensures tree.dom == old(tree.dom) - {node}
    {
      hide RBTree.Valid, Inorder, Nodes, Sorted, Without, Key;
      ghost var was, order := names, Inorder(tree.shape);
      InorderNodes(tree.shape);
      NoEnds(tree);
      ghost var k: nat :| k < |order| && order[k] == node;
      if node.color == Unassigned {
        tree.UnassignedIsForeign(node);
      }
      var pruned := tree.Prune(node, k);
      names := names - {node};
      NoEnds(tree);
      InorderNodes(tree.shape);
      Removed(order, Inorder(tree.shape), was, node, k);
    }

    /** The new object is added beside the one that has its name, and that one goes after it: the names are
        one-to-one again, and this name is all that changed. */
    method Rebind(node: Node, name: Name) returns (prior: Node?)
      requires Valid() && OneToOne(names) && node.color == Unassigned
      modifies this`names, tree, tree.dom, node
      ensures Valid() && OneToOne(names) && Holds(old(names), name, prior)
      ensures names == (old(names) - {prior})[node := name]
    {
      hide Index.Valid, OneToOne, Holds;
      prior := ByName(name);
      Add(node, name);
      AfterAdd(old(names), name, prior, node);
      if prior != null {
        Remove(prior);
      }
    }
  }

  lemma NoEnds(tree: RBTree)
    requires tree.Valid()
    ensures Nodes(tree.shape) == tree.dom - {tree.leaf, tree.top} && {tree.leaf, tree.top} <= tree.dom
  {
  }

  lemma AfterAdd(names: map<Node, Name>, name: Name, prior: Node?, node: Node)
    requires OneToOne(names) && Holds(names, name, prior) && node !in names
    ensures OneToOne((names - {prior})[node := name])
    ensures prior == null ==> names[node := name] == (names - {prior})[node := name]
    ensures prior != null ==> prior in names && names[node := name] - {prior} == (names - {prior})[node := name]
  {
  }

  lemma CanSearch(order: seq<Node>, names: map<Node, Name>, name: Name)
    requires Sorted(order, Key(names), Cmp)
    ensures Searchable(order, Against(names, name))
  {
    CmpTotalOrder();
    SortedSearchable(order, Against(names, name), name, Key(names), Cmp);
  }

  lemma Hit(t: Tree, names: map<Node, Name>, name: Name, k: int, x: Node)
    requires names.Keys == Nodes(t) && Nearest(Inorder(t), Against(names, name), k, x) && Against(names, name)(x) == 0
    ensures Holds(names, name, x)
  {
    InorderNodes(t);
    hide Inorder, Nodes;
    assert x in Inorder(t);
    CmpEqual(name, names[x]);
  }

  lemma Missed(t: Tree, names: map<Node, Name>, name: Name, k: int, x: Node?)
    requires names.Keys == Nodes(t) && (x == null ==> t == Leaf)
    requires x != null ==> Nearest(Inorder(t), Against(names, name), k, x) && Against(names, name)(x) != 0
    ensures Holds(names, name, null)
  {
    InorderNodes(t);
    assert t == Leaf ==> Nodes(t) == {};
    hide Inorder, Nodes;
    var order := Inorder(t);
    forall m | m in names
      ensures names[m] != name
    {
      CmpEqual(name, names[m]);
      var i :| 0 <= i < |order| && order[i] == m;
      assert order[i] == if i < k then order[..k][i] else order[k..][i - k];
      assert i <= k ==> order[i] == order[..k + 1][i];
      assert i > k ==> order[i] == order[k + 1..][i - k - 1];
    }
  }

  lemma Added(order: seq<Node>, after: seq<Node>, names: map<Node, Name>, node: Node, name: Name, k: int)
    requires Sorted(order, Key(names), Cmp) && node !in order
    requires InsertedAt(order, after, node, k, Against(names, name))
    ensures Sorted(after, Key(names[node := name]), Cmp)
  {
    CmpTotalOrder();
    var key := Key(names[node := name]);
    assert forall i :: 0 <= i < |order| ==> key(order[i]) == Key(names)(order[i]);
    AddKeepsSorted(order, after, node, k, Against(names, name), key, Cmp);
  }

  lemma Removed(order: seq<Node>, after: seq<Node>, names: map<Node, Name>, node: Node, k: nat)
    requires Sorted(order, Key(names), Cmp) && k < |order| && after == Without(order, k) && node !in after
    ensures Sorted(after, Key(names - {node}), Cmp)
  {
    RemoveKeepsSorted(order, k, Key(names), Cmp);
    assert forall i :: 0 <= i < |after| ==> Key(names - {node})(after[i]) == Key(names)(after[i]);
  }
}
