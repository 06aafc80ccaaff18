/** The in-order iterator: it finds its way by parent links alone. */
module RbIterators {
  import opened Items
  import opened RbColor
  import opened RbShape
  import opened RbTrees

  /** `node` is entry number `k` seen in direction `d`, or the sentinel after the last. */
  ghost predicate Stands(node: RbNode, d: Dir, k: nat, s: seq<Entry>, nil: RbNode) {
    k <= |s| && node == if k == |s| then nil else s[if d.R? then k else |s| - 1 - k].ref
  }

  lemma ClimbEnds(d: Dir, g: Spot)
    requires Held(g) && g.t.Node?
    ensures g.c.Top? ==> Stands(g.nil, d, RankAfter(d, g), g.view.entries, g.nil)
    ensures g.c.Frame? && g.c.dir != d ==> Stands(g.c.ref, d, RankAfter(d, g), g.view.entries, g.nil)
  {
    NextIsAbove(d, g);
    if g.c.Frame? {
      GoUp(g);
      RankIsIndex(Above(g));
    }
  }

  class RbIterator {
    const tree: RbTree
    var node: RbNode

    /** The iterator stands at entry `i`; one step outside either end it is at the sentinel. */
    ghost predicate At(i: int)
      reads this, tree, tree.sentinel, tree.view.refs
    {
      && tree.Valid() && -1 <= i <= |tree.view.entries|
      && node == if 0 <= i < |tree.view.entries| then tree.view.entries[i].ref else tree.sentinel
    }

    constructor (tree: RbTree, node: RbNode)
      ensures this.tree == tree && this.node == node
    {
      this.tree, this.node := tree, node;
    }

    /** With a `d` subtree: on to the entry of that subtree that is nearest. */
    method Descend(d: Dir, ghost g: Spot)
      requires tree.At(g) && tree.Sentinel() && g.t.Node? && node == g.t.ref && Child(g.t, d).Node?
      modifies `node
      ensures Stands(node, d, Rank(d, g) + 1, g.view.entries, tree.sentinel)
    {
      ghost var inner, t;
      See(g);
      GoDown(d, g);
      See(Below(d, g));
      node, inner, t := tree.Outermost(Other(d), Kid(node, d), Below(d, g));
      NextIsBelow(d, g, inner, t);
      RankIsIndex(Under(inner, Below(d, g), t));
    }

    /** Without one: up past every owner on whose `d` side the node is. */
    method Climb(d: Dir, ghost g0: Spot)
      requires tree.At(g0) && g0.t.Node? && node == g0.t.ref && Child(g0.t, d).Leaf?
      modifies `node
      ensures Stands(node, d, Rank(d, g0) + 1, g0.view.entries, tree.sentinel)
    {
      LastOfSubtree(d, g0);
      hide Held, Rank, RankAfter, Stands;
      ghost var g := g0;
      See(g);
      while node.parent != tree.sentinel && node == Kid(node.parent, d)
        invariant tree.At(g) && g.view == g0.view && g.t.Node? && node == g.t.ref
        invariant node.parent == Owner(g.c, tree.sentinel) && (g.c.Frame? ==> Kid(g.c.ref, g.c.dir) == node)
        invariant RankAfter(d, g) == RankAfter(d, g0)
        decreases g.c
      {
        NextIsAbove(d, g);
        See(g);
        GoUp(g);
        node := node.parent;
        g := Above(g);
        See(g);
      }
      See(g);
      ClimbEnds(d, g);
      if node.parent == tree.sentinel {
        node := tree.sentinel;
      } else if node == Kid(node.parent, Other(d)) {
        node := node.parent;
      }
    }

    /** One step in direction `d`: `Increment` for the right, `Decrement` for the left. */
    method Step(d: Dir, ghost i: nat)
      requires At(i) && i < |tree.view.entries|
      modifies `node
      ensures At(if d.R? then i + 1 else i - 1)
    {
      ghost var g := PlaceOf(tree, i);
      assert Rank(d, g) == if d.R? then i else |tree.view.entries| - 1 - i;
      hide RbTree.Valid, RbTree.At, RbTree.Sentinel, Held, Rank;
      if Kid(node, d) != tree.sentinel {
        Descend(d, g);
      } else {
        Climb(d, g);
      }
    }

    method Increment(ghost i: nat)
      requires At(i) && i < |tree.view.entries|
      modifies `node
      ensures At(i + 1)
    {
      Step(R, i);
    }

    method Decrement(ghost i: nat)
      requires At(i) && i < |tree.view.entries|
      modifies `node
      ensures At(i - 1)
    {
      Step(L, i);
    }

    /** `Begin` for the left, `ReverseBegin` for the right. */
    method First(d: Dir) returns (it: RbIterator)
      requires tree.Valid()
      ensures fresh(it) && it.tree == tree && it.At(if d.L? then 0 else |tree.view.entries| - 1)
    {
      ghost var f := Spot(tree.view, Top, tree.tree, tree.root, tree.sentinel);
      See(f);
      var node;
      ghost var inner, t;
      node, inner, t := tree.Outermost(d, tree.root, f);
      FirstRank(d, f, inner, t);
      it := new RbIterator(tree, node);
    }

    method End() returns (it: RbIterator)
      requires tree.Valid()
      ensures fresh(it) && it.tree == tree && it.At(|tree.view.entries|)
    {
      it := new RbIterator(tree, tree.sentinel);
    }
  }

  lemma FirstRank(d: Dir, f: Spot, inner: Ctx, t: Tree)
    requires f.c.Top? && Held(Under(inner, f, t)) && Plug(inner, t) == f.t && Straight(d, inner)
    requires (t.Node? ==> Child(t, d).Leaf?) && (t.Leaf? ==> inner.Top?)
    ensures Stands(Ptr(t, f.nil), Other(d), 0, f.view.entries, f.nil)
  {
    var g := Under(inner, f, t);
    HeldEntries(g);
    AppendInOrder(inner, f.c);
    StraightInOrder(d, inner);
    if t.Node? {
      RankIsIndex(g);
    }
  }

  /** Where a walk that begins on side `d` is after `k` steps, and what it finds there. */
  ghost function Pos(d: Dir, n: nat, k: nat): int {
    if d.L? then k else n - 1 - k
  }

  ghost function Nth(d: Dir, s: seq<Entry>, k: nat): Entry
    requires k < |s|
  {
    s[Pos(d, |s|, k)]
  }

  /** All items, from side `d` to the other. */
  ghost function Walk(d: Dir, s: seq<Entry>): (w: seq<Item>)
    ensures |w| == |s|
  {
    seq(|s|, k requires 0 <= k < |s| => Nth(d, s, k).item)
  }

  /** A walk is in strict order, one way or the other, so it meets nothing twice. */
  lemma WalkOrdered(d: Dir, s: seq<Entry>)
    requires Sorted(s)
    ensures var w := Walk(d, s);
      forall i, j :: 0 <= i < j < |w| ==> if d.L? then w[i].key < w[j].key else w[i].key > w[j].key
    ensures forall e <- s :: e.item in Walk(d, s)
  {
    var w := Walk(d, s);
    forall k | 0 <= k < |s| ensures s[k].item in w {
      assert w[Pos(d, |s|, k)] == s[k].item;
    }
  }

  /** An iterator is at the sentinel exactly when it is outside. */
  lemma OutsideIsEnd(it: RbIterator, i: int)
    requires it.At(i)
    ensures it.node == it.tree.sentinel <==> i < 0 || i == |it.tree.view.entries|
    ensures 0 <= i < |it.tree.view.entries| ==> it.node.data == it.tree.view.entries[i].item
  {
    hide RbTree.Valid;
    if 0 <= i {
      EntryIsReal(it.tree, i);
    }
  }

  /** The loop every client runs: from `Begin` by `++` until `End`, or, for `d` the right,
      from `ReverseBegin` by `--`. It sees every item once, in order, and then stops. */
  method Traverse(tree: RbTree, d: Dir) returns (seen: seq<Item>)
    requires tree.Valid()
    ensures seen == Walk(d, tree.view.entries) && |seen| == tree.nodeCount && Sorted(tree.view.entries)
  {
    ghost var s := tree.view.entries;
    EntryIsReal(tree, |s|);
    hide *;
    seen := [];
    var it, end := Ends(tree, d);
    while it.node != end.node
      invariant fresh(it) && it.tree == tree && end.node == tree.sentinel && tree.view.entries == s
      invariant |seen| <= |s| && it.At(Pos(d, |s|, |seen|)) && seen == Walk(d, s)[..|seen|]
      decreases |s| - |seen|
    {
      seen := Visit(it, d, seen);
    }
    OutsideIsEnd(it, Pos(d, |s|, |seen|));
    LastPos(d, |s|, |seen|);
    assert Walk(d, s)[..|s|] == Walk(d, s);
  }

  method Ends(tree: RbTree, d: Dir) returns (it: RbIterator, end: RbIterator)
    requires tree.Valid()
    ensures fresh(it) && it.tree == tree && it.At(Pos(d, |tree.view.entries|, 0)) && end.node == tree.sentinel
  {
    it := new RbIterator(tree, tree.sentinel);
    it := it.First(d);
    end := it.End();
  }

  lemma LastPos(d: Dir, n: nat, k: nat)
    requires k <= n
    ensures Pos(d, n, k) < 0 || Pos(d, n, k) == n ==> k == n || n == 0
  {
  }

  /** The body of that loop. */
  method Visit(it: RbIterator, d: Dir, seen: seq<Item>) returns (more: seq<Item>)
    requires |seen| <= |it.tree.view.entries| && it.At(Pos(d, |it.tree.view.entries|, |seen|))
    requires it.node != it.tree.sentinel && seen == Walk(d, it.tree.view.entries)[..|seen|]
    modifies it`node
    ensures |more| == |seen| + 1 <= |it.tree.view.entries| && more == Walk(d, it.tree.view.entries)[..|more|]
    ensures it.At(Pos(d, |it.tree.view.entries|, |more|))
  {
    ghost var k := Pos(d, |it.tree.view.entries|, |seen|);
    OutsideIsEnd(it, k);
    more := seen + [it.node.data];
    it.Step(Other(d), k);
  }

  /** Where `++` does not leave the tree, `--` undoes it. */
  method ThereAndBack(it: RbIterator, ghost i: nat)
    requires it.At(i) && i + 1 < |it.tree.view.entries|
    modifies it`node
    ensures it.node == old(it.node) && it.At(i)
  {
    it.Increment(i);
    it.Decrement(i + 1);
  }
}
