/** Searching by comparison: what a descent knows about the nodes it has passed. */
module RBOrder {
  import opened RBShape
  import opened Strseg

  // `compare(n)` is the sign of comparing the searched key with the key of n.
  // Along the order it is first positive, then zero, then negative.
  ghost predicate Searchable(order: seq<Node>, compare: Node -> int) {
    forall i, j :: 0 <= i < j < |order| ==>
      && (compare(order[i]) < 0 ==> compare(order[j]) < 0)
      && (compare(order[j]) > 0 ==> compare(order[i]) > 0)
  }

  // The new key is not below any of `before` and below all of `after`.
  ghost predicate Between(compare: Node -> int, before: seq<Node>, after: seq<Node>) {
    && (forall i :: 0 <= i < |before| ==> compare(before[i]) >= 0)
    && (forall i :: 0 <= i < |after| ==> compare(after[i]) < 0)
  }

  ghost predicate InsertedAt(old_: seq<Node>, new_: seq<Node>, x: Node, k: int, compare: Node -> int) {
    && 0 <= k <= |old_|
    && new_ == old_[..k] + [x] + old_[k..]
    && Between(compare, old_[..k], old_[k..])
  }

  lemma SearchStep(compare: Node -> int, before: seq<Node>, l: seq<Node>, x: Node, r: seq<Node>, after: seq<Node>)
    requires Searchable(before + (l + [x] + r) + after, compare) && Between(compare, before, after)
    ensures compare(x) < 0 ==> Between(compare, before, [x] + r + after)
    ensures compare(x) >= 0 ==> Between(compare, before + l + [x], after)
  {
    var order := before + (l + [x] + r) + after;
    var k := |before| + |l|;
    assert order[k] == x;
    if compare(x) < 0 {
      var b := [x] + r + after;
      forall i | 0 <= i < |b| ensures compare(b[i]) < 0 { assert b[i] == order[k + i]; }
    } else {
      var b := before + l + [x];
      forall i | 0 <= i < |b| ensures compare(b[i]) >= 0 { assert b[i] == order[i]; }
    }
  }

  lemma InsertedNodes(t: Tree, t': Tree, x: Node, before: seq<Node>, after: seq<Node>)
    requires Inorder(t) == before + after && Inorder(t') == before + [x] + after
    ensures Nodes(t') == Nodes(t) + {x}
  {
    InorderNodes(t);
    InorderNodes(t');
    SameNodes(before + [x] + after, Nodes(t'), before + after, Nodes(t), x);
  }

  lemma SameNodes(s': seq<Node>, n': set<Node>, s: seq<Node>, n: set<Node>, x: Node)
    requires Lists(s', n') && Lists(s, n) && x in s'
    requires forall i :: 0 <= i < |s'| ==> s'[i] == x || s'[i] in s
    requires forall i :: 0 <= i < |s| ==> s[i] in s'
    ensures n' == n + {x}
  {
  }

  function Without<T>(s: seq<T>, k: nat): seq<T>
    requires k < |s|
  {
    s[..k] + s[k + 1..]
  }

  lemma WithoutAt(ctx: Context, t: Tree)
    requires t.Branch?
    ensures Index(ctx, t) < |Inorder(Plug(ctx, t))|
    ensures Before(ctx) + Inorder(t.left) + Inorder(t.right) + After(ctx) ==
      Without(Inorder(Plug(ctx, t)), Index(ctx, t))
  {
    IndexOf(ctx, t);
    Associate(Before(ctx), Inorder(t.left), Inorder(t.right), After(ctx));
  }

  lemma Associate<T>(a: seq<T>, b: seq<T>, c: seq<T>, d: seq<T>)
    ensures (a + b) + (c + d) == a + b + c + d
  {
  }

  // Renaming the root of `t` renames one entry of the order and keeps the balance.
  lemma Renamed(ctx: Context, t: Tree, x: Node, h: nat)
    requires t.Branch? && RB(ctx, t, h)
    ensures RedBlack(Plug(ctx, t.(node := x)))
    ensures Index(ctx, t) < |Inorder(Plug(ctx, t))|
    ensures Inorder(Plug(ctx, t.(node := x))) == Inorder(Plug(ctx, t))[Index(ctx, t) := x]
  {
    RBPlug(ctx, t.(node := x), h);
    IndexOf(ctx, t);
    IndexOf(ctx, t.(node := x));
    OneEntry(Inorder(Plug(ctx, t)), Inorder(Plug(ctx, t.(node := x))), Index(ctx, t));
  }

  lemma OneEntry<T>(a: seq<T>, b: seq<T>, k: nat)
    requires k < |a| && k < |b| && a[..k] == b[..k] && a[k + 1..] == b[k + 1..]
    ensures b == a[k := b[k]]
  {
    assert a == a[..k] + [a[k]] + a[k + 1..] && b == b[..k] + [b[k]] + b[k + 1..];
  }

  // Cutting out a neighbour and putting it in the node's place is cutting out the node.
  lemma NeighbourTakesPlace<T>(s: seq<T>, k: nat, j: nat)
    requires k < |s| && j < |s| && (j == k + 1 || j + 1 == k)
    ensures var i := if j == k + 1 then k else k - 1;
      i < |Without(s, j)| && Without(s, j)[i] == s[k] && Without(s, j)[i := s[j]] == Without(s, k)
  {
  }

  lemma WithoutNodes(t: Tree, t': Tree, k: nat)
    requires Distinct(t) && k < |Inorder(t)| && Inorder(t') == Without(Inorder(t), k)
    ensures Inorder(t)[k] in Nodes(t) && Nodes(t') == Nodes(t) - {Inorder(t)[k]}
  {
    InorderNodes(t);
    InorderNodes(t');
    DistinctInorder(t);
    WithoutLists(Inorder(t), Nodes(t), k, Nodes(t'));
  }

  lemma WithoutLists(s: seq<Node>, n: set<Node>, k: nat, n': set<Node>)
    requires NoDuplicates(s) && k < |s| && Lists(s, n) && Lists(Without(s, k), n')
    ensures n' == n - {s[k]}
  {
    var w := Without(s, k);
    assert forall i :: 0 <= i < |w| ==> w[i] == if i < k then s[i] else s[i + 1];
    assert forall i :: 0 <= i < |s| && i != k ==> s[i] == if i < k then w[i] else w[i - 1];
    forall x | x in n' ensures x in n && x != s[k] {
      assert x in w;
      var i :| 0 <= i < |w| && w[i] == x;
    }
    forall x | x in n && x != s[k] ensures x in n' {
      assert x in s;
      var i :| 0 <= i < |s| && s[i] == x;
      assert x in w;
    }
  }

  // ---------------------------------------------------------------- exact search

  // The searched key lies strictly between `before` and `after`.
  ghost predicate Apart(compare: Node -> int, before: seq<Node>, after: seq<Node>) {
    && (forall i :: 0 <= i < |before| ==> compare(before[i]) > 0)
    && (forall i :: 0 <= i < |after| ==> compare(after[i]) < 0)
  }

  lemma FindStep(compare: Node -> int, before: seq<Node>, l: seq<Node>, x: Node, r: seq<Node>, after: seq<Node>)
    requires Searchable(before + (l + [x] + r) + after, compare) && Apart(compare, before, after)
    ensures compare(x) < 0 ==> Apart(compare, before, [x] + r + after)
    ensures compare(x) > 0 ==> Apart(compare, before + l + [x], after)
  {
    var order := before + (l + [x] + r) + after;
    var k := |before| + |l|;
    assert order[k] == x;
    if compare(x) < 0 {
      var b := [x] + r + after;
      forall i | 0 <= i < |b| ensures compare(b[i]) < 0 { assert b[i] == order[k + i]; }
    } else if compare(x) > 0 {
      var b := before + l + [x];
      forall i | 0 <= i < |b| ensures compare(b[i]) > 0 { assert b[i] == order[i]; }
    }
  }

  // `x` at index k is the node RBTree_Find must stop at: an equal one, else the
  // least greater one, else the greatest smaller one.
  ghost predicate Nearest(order: seq<Node>, compare: Node -> int, k: int, x: Node) {
    && 0 <= k < |order| && order[k] == x
    && (compare(x) < 0 ==> Apart(compare, order[..k], order[k..]))
    && (compare(x) > 0 ==> Apart(compare, order[..k + 1], order[k + 1..]))
  }

  lemma NearestAt(compare: Node -> int, ctx: Context, t: Tree)
    requires t.Branch?
    requires compare(t.node) == 0
      || (compare(t.node) < 0 && t.left == Leaf &&
        Apart(compare, Before(ctx), [t.node] + Inorder(t.right) + After(ctx)))
      || (compare(t.node) > 0 && t.right == Leaf &&
        Apart(compare, Before(ctx) + Inorder(t.left) + [t.node], After(ctx)))
    ensures Nearest(Inorder(Plug(ctx, t)), compare, Index(ctx, t), t.node)
  {
    IndexOf(ctx, t);
    assert Inorder(Leaf) == [];
    NearestSplit(Inorder(Plug(ctx, t)), compare, Before(ctx), Inorder(t.left), t.node, Inorder(t.right), After(ctx));
  }

  lemma NearestSplit(order: seq<Node>, compare: Node -> int, a: seq<Node>, l: seq<Node>, x: Node, r: seq<Node>,
                     b: seq<Node>)
    requires var k := |a| + |l|; k < |order| && order[k] == x && order[..k] == a + l && order[k + 1..] == r + b
    requires compare(x) == 0
      || (compare(x) < 0 && l == [] && Apart(compare, a, [x] + r + b))
      || (compare(x) > 0 && r == [] && Apart(compare, a + l + [x], b))
    ensures Nearest(order, compare, |a| + |l|, x)
  {
    var k := |a| + |l|;
    assert order[k..] == [x] + order[k + 1..] && order[..k + 1] == order[..k] + [x];
    assert [x] + (r + b) == [x] + r + b;
    assert l == [] ==> a + l == a;
    assert r == [] ==> r + b == b;
  }

  // No two nodes have the searched key.
  ghost predicate UniqueMatch(order: seq<Node>, compare: Node -> int) {
    forall i, j :: 0 <= i < j < |order| ==> !(compare(order[i]) == 0 && compare(order[j]) == 0)
  }

  // The first node whose key is greater than the searched one.
  ghost predicate FirstAbove(order: seq<Node>, compare: Node -> int, next: Node?) {
    if next == null then
      forall i :: 0 <= i < |order| ==> compare(order[i]) >= 0
    else
      exists k :: 0 <= k < |order| && order[k] == next && Between(compare, order[..k], order[k..])
  }

  lemma NextAbove(order: seq<Node>, compare: Node -> int, k: int)
    requires Searchable(order, compare) && UniqueMatch(order, compare)
    requires 0 <= k < |order| && Nearest(order, compare, k, order[k])
    ensures compare(order[k]) < 0 ==> FirstAbove(order, compare, order[k])
    ensures compare(order[k]) >= 0 ==> FirstAbove(order, compare, if k + 1 < |order| then order[k + 1] else null)
  {
    if compare(order[k]) < 0 {
      assert Between(compare, order[..k], order[k..]);
    } else {
      forall i | 0 <= i <= k ensures compare(order[i]) >= 0 {}
      forall i | k < i < |order| ensures compare(order[i]) < 0 {
        assert order[i] == order[k + 1..][i - k - 1];
      }
      if k + 1 < |order| { assert Between(compare, order[..k + 1], order[k + 1..]); }
    }
  }

  // ---------------------------------------------------------------- keys

  ghost predicate Sorted<K(!new)>(order: seq<Node>, key: Node -> K, cmp: (K, K) -> int) {
    forall i, j :: 0 <= i < j < |order| ==> cmp(key(order[i]), key(order[j])) <= 0
  }

  // The callback compares the key x.
  ghost predicate Compares<K(!new)>(order: seq<Node>, compare: Node -> int, x: K, key: Node -> K, cmp: (K, K) -> int) {
    forall i :: 0 <= i < |order| ==> compare(order[i]) == cmp(x, key(order[i]))
  }

  // A tree sorted by key can be searched for any key.
  lemma SortedSearchable<K(!new)>(order: seq<Node>, compare: Node -> int, x: K, key: Node -> K, cmp: (K, K) -> int)
    requires TotalOrder(cmp) && Sorted(order, key, cmp) && Compares(order, compare, x, key, cmp)
    ensures Searchable(order, compare)
  {
    forall i, j | 0 <= i < j < |order|
      ensures compare(order[i]) < 0 ==> compare(order[j]) < 0
      ensures compare(order[j]) > 0 ==> compare(order[i]) > 0
    {
      assert cmp(key(order[i]), key(order[j])) <= 0;
    }
  }

  // Where the nodes are after an insertion.
  lemma InsertedBefore(old_: seq<Node>, new_: seq<Node>, x: Node, k: int, compare: Node -> int, i: int)
    requires InsertedAt(old_, new_, x, k, compare) && 0 <= i < k
    ensures i < |old_| && new_[i] == old_[i] && compare(old_[i]) >= 0
  {
    assert new_[i] == old_[..k][i];
  }

  lemma InsertedAfter(old_: seq<Node>, new_: seq<Node>, x: Node, k: int, compare: Node -> int, i: int)
    requires InsertedAt(old_, new_, x, k, compare) && k < i < |new_|
    ensures i - 1 < |old_| && new_[i] == old_[i - 1] && compare(old_[i - 1]) < 0
  {
    assert new_[i] == old_[k..][i - k - 1];
  }

  // Adding a node by comparing its own key keeps the tree sorted.
  lemma AddKeepsSorted<K(!new)>(old_: seq<Node>, new_: seq<Node>, x: Node, k: int, compare: Node -> int,
                                key: Node -> K, cmp: (K, K) -> int)
    requires TotalOrder(cmp) && Sorted(old_, key, cmp)
    requires InsertedAt(old_, new_, x, k, compare) && Compares(old_, compare, key(x), key, cmp)
    ensures Sorted(new_, key, cmp)
  {
    assert |new_| == |old_| + 1 && 0 <= k <= |old_| && new_[k] == x;
    hide InsertedAt;
    forall i, j | 0 <= i < j < |new_| ensures cmp(key(new_[i]), key(new_[j])) <= 0 {
      if i < k { InsertedBefore(old_, new_, x, k, compare, i); }
      if i > k { InsertedAfter(old_, new_, x, k, compare, i); }
      if j < k { InsertedBefore(old_, new_, x, k, compare, j); }
      if j > k { InsertedAfter(old_, new_, x, k, compare, j); }
    }
  }

  lemma RemoveKeepsSorted<K(!new)>(order: seq<Node>, k: nat, key: Node -> K, cmp: (K, K) -> int)
    requires k < |order| && Sorted(order, key, cmp)
    ensures Sorted(Without(order, k), key, cmp)
  {
    var w := Without(order, k);
    forall i, j | 0 <= i < j < |w|
      ensures cmp(key(w[i]), key(w[j])) <= 0
    {
      assert w[i] == order[if i < k then i else i + 1] && w[j] == order[if j < k then j else j + 1];
    }
  }
}
