/** The tree as it works on the heap: one class with the source's fields, and ghost fields
    that say which picture the linked nodes make. */
module RbTrees {
  import opened Items
  import opened RbColor
  import opened RbShape

  class RbTree {
    const sentinel: RbNode
    var root: RbNode
    var nodeCount: nat
    ghost var tree: Tree

    ghost var view: View

    /** The linked nodes are a red-black search tree; nothing is said of the sentinel's owner link. */
    ghost predicate Valid()
      reads this, sentinel, view.refs
    {
      var valid :=
        && Sentinel() && At(Spot(view, Top, tree, root, sentinel))
        && RedBlack(tree) && Sorted(view.entries) && nodeCount == |view.entries|;
      valid
    }

    /** All of the sentinel but its owner link, which a deletion may leave set. */
    ghost predicate Sentinel()
      reads sentinel
    {
      sentinel.color == Black && sentinel.left == sentinel && sentinel.right == sentinel
    }

    constructor (d: Item)
      ensures Valid() && view.entries == [] && fresh(sentinel)
    {
      var nil := new RbNode.Sentinel(d);
      sentinel, root, nodeCount, tree, view := nil, nil, 0, Leaf, View({}, []);
    }

    ghost predicate At(f: Spot)
      reads this`root, f.view.refs
    {
      f.root == root && f.nil == sentinel && Held(f)
    }

    method LeftRotate(x: RbNode, ghost s: set<RbNode>)
      requires x.right != null && x.right.left != null && x.parent != null && sentinel !in s
      requires x in s && x.right in s && x.right.left in s + {sentinel} && x.parent in s + {sentinel}
      requires x != x.right && x.right.left !in {x, x.right} && x.parent !in {x, x.right}
      requires x.parent == x.right.left ==> x.parent == sentinel
      modifies this`root, s
      ensures Turned(L, s, x, old(x.right), old(x.right.left), old(x.parent), sentinel)
      ensures root == if x.parent.parent == sentinel then x.parent else old(root)
    {
      var y := x.right;
      x.right := y.left;
      if y.left != sentinel {
        y.left.parent := x;
      }
      y.parent := x.parent;
      if x.parent == sentinel {
        root := y;
      } else if x == x.parent.left {
        x.parent.left := y;
      } else {
        x.parent.right := y;
      }
      y.left := x;
      x.parent := y;
    }

    method TurnLeft(x: RbNode, ghost f: Spot)
      requires At(f) && f.t.Node? && f.t.right.Node? && x == f.t.ref
      modifies this`root, f.view.refs
      ensures At(After(Turn(L, f)))
    {
      TurnReady(Turn(L, f));
      hide Held;
      LeftRotate(x, f.view.refs);
      Rotated(Turn(L, f));
    }

    method RightRotate(x: RbNode, ghost s: set<RbNode>)
      requires x.left != null && x.left.right != null && x.parent != null && sentinel !in s
      requires x in s && x.left in s && x.left.right in s + {sentinel} && x.parent in s + {sentinel}
      requires x != x.left && x.left.right !in {x, x.left} && x.parent !in {x, x.left}
      requires x.parent == x.left.right ==> x.parent == sentinel
      requires x.parent != sentinel ==> (x.parent.left == x) != (x.parent.right == x)
      modifies this`root, s
      ensures Turned(R, s, x, old(x.left), old(x.left.right), old(x.parent), sentinel)
      ensures root == if x.parent.parent == sentinel then x.parent else old(root)
    {
      var y := x.left;
      x.left := y.right;
      if y.right != sentinel {
        y.right.parent := x;
      }
      y.parent := x.parent;
      if x.parent == sentinel {
        root := y;
      } else if x == x.parent.right {
        x.parent.right := y;
      } else {
        x.parent.left := y;
      }
      y.right := x;
      x.parent := y;
    }

    method TurnRight(x: RbNode, ghost f: Spot)
      requires At(f) && f.t.Node? && f.t.left.Node? && x == f.t.ref
      modifies this`root, f.view.refs
      ensures At(After(Turn(R, f)))
    {
      TurnReady(Turn(R, f));
      See(f);
      hide Held;
      RightRotate(x, f.view.refs);
      Rotated(Turn(R, f));
    }

    method SetColor(n: RbNode, k: Color, ghost f: Spot)
      requires At(f) && f.t.Node? && n == f.t.ref
      modifies n`color
      ensures At(Paint(f, k))
    {
      n.color := k;
      Painted(f);
    }

    method Rotate(d: Dir, x: RbNode, ghost f: Spot)
      requires At(f) && f.t.Node? && Child(f.t, Other(d)).Node? && x == f.t.ref
      modifies this`root, f.view.refs
      ensures At(After(Turn(d, f)))
    {
      if d.L? {
        TurnLeft(x, f);
      } else {
        TurnRight(x, f);
      }
    }

    // -------------------------------------------------------------- insertion

    /** Case 1: owner and uncle turn black, the grandparent red. */
    method PaintFamily(node: RbNode, uncle: RbNode, ghost f: Spot)
      requires At(f) && f.t.Node? && node == f.t.ref && f.c.Frame? && f.c.up.Frame?
      requires f.c.up.sib.Node? && uncle == f.c.up.sib.ref
      requires node.parent == f.c.ref && node.parent.parent == f.c.up.ref
      modifies f.view.refs
      ensures At(SplitBlack(f))
      ensures node.parent == f.c.ref && node.parent.parent == f.c.up.ref
    {
      hide Held;
      GoUp(f);
      See(f);
      See(Above(f));
      SetColor(node.parent, Black, Above(f));
      ghost var g := Paint(Above(f), Black);
      GoAcross(g);
      See(Beside(g));
      SetColor(uncle, Black, Beside(g));
      g := Paint(Beside(g), Black);
      GoUp(g);
      SetColor(node.parent.parent, Red, Above(g));
    }

    /** Cases 2 and 3, for an owner that is the `d` child: the owner replaces the grandparent. */
    method RaiseOwner(d: Dir, x: RbNode, ghost f0: Spot, ghost h: nat) returns (node: RbNode, ghost f: Spot)
      requires At(f0) && f0.t.Node? && x == f0.t.ref && OneRedPair(f0, h)
      requires RedOwner(f0.c) && f0.c.up.Frame? && f0.c.up.dir == d && !IsRed(f0.c.up.sib)
      modifies this`root, f0.view.refs
      ensures At(f) && f.view == f0.view && OneRedPair(f, h) && f.t.Node? && node == f.t.ref
      ensures !RedOwner(f.c) && Depth(f.c) < Depth(f0.c)
    {
      hide Held, OneRedPair;
      node, f := x, f0;
      assert Depth(f.c) == 1 + Depth(f.c.up) == 2 + Depth(f.c.up.up);
      SeeUp(f);
      if node == Kid(node.parent, Other(d)) {
        node := node.parent;
        Rotate(d, node, Above(f));
        GoDown(d, After(Turn(d, Above(f))));
        InnerChild(f, h);
        f := Outward(f);
        SeeUp(f);
      }
      SetColor(node.parent, Black, Above(f));
      GoUp(Paint(Above(f), Black));
      SetColor(node.parent.parent, Red, Above(Paint(Above(f), Black)));
      Rotate(Other(d), node.parent.parent, Paint(Above(Paint(Above(f), Black)), Red));
      GoDown(d, Lift(f));
      OuterChild(f, h);
      f := Below(d, Lift(f));
    }

    /** What a fix-up loop reads at its node. */
    ghost predicate Sees(node: RbNode, f: Spot)
      reads node, sentinel, f.view.refs
    {
      && node == Ptr(f.t, sentinel) && node.parent == Owner(f.c, sentinel) && sentinel !in f.view.refs
      && (f.c.Frame? ==> f.c.ref in f.view.refs && f.c.ref.color == f.c.color)
    }

    method InsertFixUp(x: RbNode, ghost x0: Spot, ghost h0: nat) returns (ghost r: Spot)
      requires At(x0) && Sees(x, x0) && OneRedPair(x0, h0) && sentinel.color == Black
      modifies this`root, x0.view.refs
      ensures At(r) && r.c.Top? && RedBlack(r.t) && r.view == x0.view
    {
      ghost var f, h := x0, h0;
      var node: RbNode := x;
      hide Held, OneRedPair;
      while node.parent.color == Red
        invariant At(f) && Sees(node, f) && OneRedPair(f, h) && f.view == x0.view
        decreases Depth(f.c)
      {
        GrandparentIsReal(f, h);
        SeeUp(f);
        assert Depth(f.c) == 1 + Depth(f.c.up) == 2 + Depth(f.c.up.up);
        var d := if node.parent == node.parent.parent.left then L else R;
        var uncle := Kid(node.parent.parent, Other(d));
        if uncle.color == Red {
          PaintFamily(node, uncle, f);
          RedUncle(f, h);
          node := node.parent.parent;
          f, h := SplitBlack(f), h + 1;
        } else {
          node, f := RaiseOwner(d, node, f, h);
          GrandparentIsReal(f, h);
        }
        See(f);
      }
      GrandparentIsReal(f, h);
      GoTop(f);
      RootTurnsBlack(f, h);
      See(Whole(f));
      SetColor(root, Black, Whole(f));
      r := Paint(Whole(f), Black);
    }

    // --------------------------------------------------------------- deletion

    /** Case 1, for a node that is the `d` child: its red sibling is rotated over the owner. */
    method RaiseSibling(d: Dir, node: RbNode, ghost f: Spot, ghost h: nat) returns (sibling: RbNode)
      requires At(f) && Sees(node, f) && OneBlackMissing(f, h)
      requires f.c.Frame? && f.c.dir == d && !IsRed(f.t) && IsRed(f.c.sib)
      modifies this`root, f.view.refs
      ensures At(SiblingUp(f)) && Sees(node, SiblingUp(f)) && sibling == Ptr(SiblingUp(f).c.sib, sentinel)
    {
      hide Held, OneBlackMissing;
      SiblingIsReal(f, h);
      RedSibling(f, h);
      See(f);
      GoAcross(f);
      See(Beside(f));
      sibling := Kid(node.parent, Other(d));
      SetColor(sibling, Black, Beside(f));
      ghost var g := Paint(Beside(f), Black);
      GoUp(g);
      SetColor(node.parent, Red, Above(g));
      g := Paint(Above(g), Red);
      Rotate(d, node.parent, g);
      g := After(Turn(d, g));
      GoDown(d, g);
      GoDown(d, Below(d, g));
      See(SiblingUp(f));
      sibling := Kid(node.parent, Other(d));
    }

    /** Case 3: the sibling's red near child is rotated over the sibling. */
    method RaiseNear(d: Dir, node: RbNode, sibling0: RbNode, ghost f: Spot, ghost h: nat) returns (sibling: RbNode)
      requires At(f) && Sees(node, f) && OneBlackMissing(f, h) && !IsRed(f.t)
      requires f.c.Frame? && f.c.dir == d && f.c.sib.Node? && sibling0 == f.c.sib.ref && !IsRed(f.c.sib)
      requires IsRed(Child(f.c.sib, d)) && !IsRed(Child(f.c.sib, Other(d)))
      modifies this`root, f.view.refs
      ensures At(NearUp(f)) && Sees(node, NearUp(f)) && sibling == Ptr(NearUp(f).c.sib, sentinel)
    {
      hide Held, OneBlackMissing;
      RedNear(f, h);
      SeeSibling(f);
      sibling := sibling0;
      SetColor(Kid(sibling, d), Black, Below(d, Beside(f)));
      ghost var g := Paint(Below(d, Beside(f)), Black);
      GoUp(g);
      SetColor(sibling, Red, Above(g));
      g := Paint(Above(g), Red);
      Rotate(Other(d), sibling, g);
      g := After(Turn(Other(d), g));
      GoUp(g);
      GoDown(d, Above(g));
      See(NearUp(f));
      sibling := Kid(node.parent, Other(d));
    }

    /** Case 4: the sibling's red far child becomes the missing black node. */
    method RaiseFar(d: Dir, node: RbNode, sibling: RbNode, ghost f: Spot, ghost h: nat)
      requires At(f) && Sees(node, f) && OneBlackMissing(f, h) && !IsRed(f.t)
      requires f.c.Frame? && f.c.dir == d && f.c.sib.Node? && sibling == f.c.sib.ref && !IsRed(f.c.sib)
      requires IsRed(Child(f.c.sib, Other(d)))
      modifies this`root, f.view.refs
      ensures At(Whole(FarUp(f)))
    {
      hide Held, OneBlackMissing;
      SeeSibling(f);
      See(f);
      SetColor(sibling, node.parent.color, Beside(f));
      ghost var g := Paint(Beside(f), f.c.color);
      GoUp(g);
      SetColor(node.parent, Black, Above(g));
      g := Paint(Above(g), Black);
      GoDown(Other(d), g);
      GoDown(Other(d), Below(Other(d), g));
      SetColor(Kid(sibling, Other(d)), Black, Below(Other(d), Below(Other(d), g)));
      g := Paint(Below(Other(d), Below(Other(d), g)), Black);
      GoUp(g);
      GoUp(Above(g));
      Rotate(d, node.parent, Above(Above(g)));
      GoTop(FarUp(f));
    }

    /** Cases 3 and 4. */
    method RaiseNephew(d: Dir, x: RbNode, sibling0: RbNode, ghost f0: Spot, ghost h0: nat)
      returns (node: RbNode, ghost f: Spot, ghost h: nat)
      requires At(f0) && Sees(x, f0) && OneBlackMissing(f0, h0) && !IsRed(f0.t) && sentinel.color == Black
      requires f0.c.Frame? && f0.c.dir == d && f0.c.sib.Node? && sibling0 == f0.c.sib.ref
      requires !IsRed(f0.c.sib) && !NoRedChild(f0.c.sib)
      modifies this`root, f0.view.refs
      ensures At(f) && Sees(node, f) && OneBlackMissing(f, h) && f.view == f0.view && f.c.Top?
    {
      hide Held, OneBlackMissing;
      f := f0;
      var sibling := sibling0;
      SeeSibling(f);
      if Kid(sibling, Other(d)).color == Black {
        RedNear(f, h0);
        sibling := RaiseNear(d, x, sibling, f, h0);
        f := NearUp(f);
      }
      RaiseFar(d, x, sibling, f, h0);
      RedFar(f, h0);
      node := root;
      f := Whole(FarUp(f));
      h := BlackHeight(f.t);
      See(f);
    }

    /** One round of the loop, for a node that is the `d` child. */
    method DeleteFixRound(d: Dir, x: RbNode, ghost f0: Spot, ghost h0: nat)
      returns (node: RbNode, ghost f: Spot, ghost h: nat)
      requires At(f0) && Sees(x, f0) && OneBlackMissing(f0, h0) && sentinel.color == Black
      requires f0.c.Frame? && f0.c.dir == d && !IsRed(f0.t)
      modifies this`root, f0.view.refs
      ensures At(f) && Sees(node, f) && OneBlackMissing(f, h) && f.view == f0.view
      ensures Rounds(f) < Rounds(f0)
    {
      hide Held, OneBlackMissing;
      node, f, h := x, f0, h0;
      SiblingIsReal(f, h);
      SeeSibling(f);
      var sibling := Kid(node.parent, Other(d));
      if sibling.color == Red {
        RedSibling(f, h);
        sibling := RaiseSibling(d, node, f, h);
        f := SiblingUp(f);
        SeeSibling(f);
      }
      if sibling.left.color == Black && sibling.right.color == Black {
        SetColor(sibling, Red, Beside(f));
        node := node.parent;
        BlackSibling(f, h);
        GoUp(Paint(Beside(f), Red));
        f, h := BlackUp(f), if f.c.color.Black? then h + 1 else h;
        See(f);
      } else {
        node, f, h := RaiseNephew(d, node, sibling, f, h);
      }
    }

    /** The last painting, at the root or at a red node. */
    method Blacken(node: RbNode, ghost f: Spot, ghost h: nat) returns (ghost r: Spot)
      requires At(f) && Sees(node, f) && OneBlackMissing(f, h) && sentinel.color == Black && (f.c.Top? || IsRed(f.t))
      modifies node`color
      ensures At(r) && r.c.Top? && RedBlack(r.t) && r.view == f.view && sentinel.color == Black
    {
      hide Held, OneBlackMissing;
      See(f);
      BlackIsBack(f, h);
      node.color := Black;
      r := f;
      if f.t.Node? {
        Painted(f);
        r := Paint(f, Black);
      }
      GoTop(r);
      r := Whole(r);
    }

    method DeleteFixUp(x: RbNode, ghost x0: Spot, ghost h0: nat) returns (ghost r: Spot)
      requires At(x0) && Sees(x, x0) && OneBlackMissing(x0, h0) && Sentinel()
      modifies this`root, x0.view.refs, sentinel`parent, sentinel`color
      ensures At(r) && r.c.Top? && RedBlack(r.t) && r.view == x0.view
      ensures Sentinel() && sentinel.parent == sentinel
    {
      hide Held, OneBlackMissing;
      ghost var f, h := x0, h0;
      var node: RbNode := x;
      RootIsTop(f);
      See(f);
      while node != root && node.color == Black
        invariant At(f) && Sees(node, f) && OneBlackMissing(f, h) && f.view == x0.view
        invariant (f.c.Top? <==> node == root) && (f.t.Node? ==> node.color == f.t.color)
        invariant Sentinel()
        decreases Rounds(f)
      {
        See(f);
        SiblingIsReal(f, h);
        var d := if node == node.parent.left then L else R;
        node, f, h := DeleteFixRound(d, node, f, h);
        RootIsTop(f);
        See(f);
      }
      See(f);
      r := Blacken(node, f, h);
      sentinel.parent := sentinel;
    }

    // ------------------------------------------------------ unlinking a node

    /** The outermost node on side `d` of the subtree at `n`: `LeftMost` and `RightMost`. */
    method Outermost(d: Dir, n: RbNode, ghost f: Spot) returns (m: RbNode, ghost inner: Ctx, ghost t: Tree)
      requires At(f) && n == Ptr(f.t, sentinel) && Sentinel()
      ensures At(Under(inner, f, t)) && Plug(inner, t) == f.t && Straight(d, inner)
      ensures m == Ptr(t, sentinel) && (t.Node? ==> Child(t, d).Leaf?) && (t.Leaf? ==> inner.Top? && f.t.Leaf?)
    {
      hide Held;
      m, inner, t := n, Top, f.t;
      See(f);
      while Kid(m, d) != sentinel
        invariant At(Under(inner, f, t)) && Plug(inner, t) == f.t && Straight(d, inner)
        invariant m == Ptr(t, sentinel) && (t.Node? ==> Kid(m, d) == Ptr(Child(t, d), sentinel))
        invariant t.Leaf? ==> inner.Top?
        invariant sentinel !in f.view.refs
        decreases t
      {
        GoDown(d, Under(inner, f, t));
        m, inner, t := Kid(m, d), Down(d, inner, t), Child(t, d);
        See(Under(inner, f, t));
      }
      if t.Node? {
        GoDown(d, Under(inner, f, t));
        See(Below(d, Under(inner, f, t)));
      }
    }

    /** Hangs `m` where `x` hangs. The owner link of `m` is set even when `m` is the sentinel. */
    method TransPlant(x: RbNode, m: RbNode)
      requires x.parent != null
      modifies this`root, ({x.parent} - {sentinel})`left, ({x.parent} - {sentinel})`right, m`parent
      ensures m.parent == old(x.parent)
      ensures root == if old(x.parent) == sentinel then m else old(root)
      ensures var p := old(x.parent);
        p == sentinel
        || (p.left == (if old(p.left) == x then m else old(p.left))
            && p.right == (if old(p.left) == x then old(p.right) else m))
    {
      if x.parent == sentinel {
        root := m;
      } else if x == x.parent.left {
        x.parent.left := m;
      } else {
        x.parent.right := m;
      }
      m.parent := x.parent;
    }

    /** Cases 1 and 2: a node without a child on the other side gives way to its `d` subtree. */
    method TakeOut(d: Dir, x: RbNode, ghost f: Spot) returns (fix: RbNode)
      requires At(f) && f.t.Node? && x == f.t.ref && Child(f.t, Other(d)).Leaf?
      modifies this`root, f.view.refs, sentinel`parent
      ensures At(Without(Turn(d, f))) && fix == Ptr(Child(f.t, d), sentinel) && fix.parent == Owner(f.c, sentinel)
      ensures x.color == old(x.color) && x.data == old(x.data)
    {
      hide Held;
      See(f);
      GoDown(d, f);
      See(Below(d, f));
      fix := Kid(x, d);
      ghost var m := Child(f.t, d);
      assert m.Node? && f.c.Frame? ==> f.c.ref in CRefs(f.c) && f.c.ref in CRefs(Down(d, f.c, f.t)) && m.ref != f.c.ref;
      assert f.c.Frame? ==> f.c.ref in CRefs(f.c) && x != f.c.ref;
      TransPlant(x, fix);
      assert f.c.Frame? ==> LinkMoved(f.c, fix);
      assert TakenOut(Turn(d, f));
      Removed(Turn(d, f));
    }

    /** `y` takes over the left subtree and the colour of `z`. */
    method TakeLeft(z: RbNode, y: RbNode)
      requires z.left != null && z.left != y && z != y
      modifies y`left, y`color, z.left`parent
      ensures y.left == old(z.left) && y.left.parent == y && y.color == z.color
    {
      y.left := z.left;
      y.left.parent := y;
      y.color := z.color;
    }

    /** `y`, already the owner of the right subtree of `z`, takes over the rest of `z`'s place. */
    method TakePlace(z: RbNode, y: RbNode, ghost f: Spot)
      requires Ready(f, y) && f.root == root && f.nil == sentinel && z == f.t.ref && f.t.left.Node?
      modifies this`root, f.view.refs, y
      ensures At(Heir(f, y, y.data)) && y.data == old(y.data)
      ensures z.data == old(z.data)
    {
      SeeReady(f, y);
      hide Ready, Held, Seen, Shape, Around, Refs, CRefs, Distinct, CDistinct, Pre, Post, InOrder;
      TransPlant(z, y);
      assert f.c.Frame? ==> LinkMoved(f.c, y);
      TakeLeft(z, y);
      assert Succeeded(Succession(f, y, y.data));
      Inherited(Succession(f, y, y.data));
    }

    /** `y`, outside the tree, takes over the right subtree of `z`. */
    method TakeRight(z: RbNode, y: RbNode, ghost f: Spot)
      requires At(f) && f.t.Node? && z == f.t.ref && f.t.right.Node? && y !in f.view.refs && y != sentinel
      requires z.right != null
      modifies y`right, z.right`parent
      ensures Ready(f, y)
    {
      ghost var m := f.t.right;
      assert Shape(m, z.right, z, sentinel) && Shape(f.t.left, z.left, z, sentinel);
      y.right := z.right;
      y.right.parent := y;
      Grafted(Graft(m, z, y, sentinel));
    }

    /** Case 3, first part: the leftmost node `y` below the right child of `z` gives up its place. */
    method FreeSuccessor(z: RbNode, ghost f: Spot) returns (y: RbNode, fix: RbNode, ghost inner: Ctx, ghost t: Tree)
      requires At(f) && f.t.Node? && z == f.t.ref && f.t.right.Node? && Sentinel()
      modifies this`root, f.view.refs, sentinel`parent
      ensures f.t.right == Plug(inner, t) && Straight(L, inner) && t.Node? && t.left.Leaf?
      ensures y in f.view.refs && y == t.ref && y.color == t.color && y.data == t.item
      ensures Ready(Shrunk(f, y, Plug(inner, t.right)), y) && root == f.root
      ensures fix == Ptr(t.right, sentinel) && (t.right.Leaf? ==> sentinel.parent == if inner.Top? then y else inner.ref)
    {
      hide Held, Ready;
      See(f);
      GoDown(R, f);
      y, inner, t := Outermost(L, z.right, Below(R, f));
      ghost var g := Under(inner, Below(R, f), t);
      See(g);
      GoDown(R, g);
      See(Below(R, g));
      fix := y.right;
      OwnerIsNear(f, inner, t);
      if y.parent == z {
        fix.parent := y;
        AdjacentReady(f);
      } else {
        fix := TakeOut(R, y, g);
        Detached(f, inner, t);
        ghost var f1 := Shrunk(f, y, Plug(inner, t.right));
        See(f1);
        GoDown(R, f1);
        See(Below(R, f1));
        TakeRight(z, y, f1);
      }
    }

    /** Case 3: the successor takes the place of `z`. */
    method PutSuccessor(z: RbNode, ghost f: Spot)
      returns (fix: RbNode, saved: Color, ghost q: Spot, ghost h: nat)
      requires At(f) && f.t.Node? && z == f.t.ref && f.t.left.Node? && f.t.right.Node? && Sentinel()
      requires RedBlack(Plug(f.c, f.t))
      modifies this`root, f.view.refs, sentinel`parent
      ensures At(q) && fix == Ptr(q.t, sentinel) && fix.parent == Owner(q.c, sentinel) && Repairable(saved, q, h)
      ensures q.view.refs == f.view.refs - {z}
      ensures q.view.entries == Pre(f.c) + InOrder(f.t.left) + InOrder(f.t.right) + Post(f.c)
    {
      assert Seen(f.view, f.c, f.t, f.nil);
      hide Held, Ready, Seen;
      var y: RbNode;
      ghost var inner, t;
      y, fix, inner, t := FreeSuccessor(z, f);
      saved := y.color;
      ghost var f1 := Shrunk(f, y, Plug(inner, t.right));
      TakePlace(z, y, f1);
      Placed(f, inner, y, t.item, t.right);
      HeirView(f, inner, t, Heir(f1, y, t.item));
      q := Under(inner, Below(R, Heir(f1, y, t.item)), t.right);
      See(q);
      h := SuccessorGood(f, inner, t, q);
    }

    // ------------------------------------------------------------- operations

    method Search(key: Key) returns (found: RbNode?, ghost f: Spot, ghost visited: nat)
      requires Valid()
      ensures At(f) && f.view == view && Plug(f.c, f.t) == tree && Between(key, f)
      ensures found == null ==> f.t.Leaf? && !HasKey(key, view.entries)
      ensures found != null ==> f.t.Node? && found == f.t.ref && found.data.key == key
      ensures found != null ==> found in view.refs && Entry(found, found.data) in view.entries
      ensures visited <= Height(tree)
    {
      hide Held;
      found := null;
      var p := root;
      f, visited := Spot(view, Top, tree, root, sentinel), 0;
      See(f);
      while p != sentinel
        invariant At(f) && f.view == view && Plug(f.c, f.t) == tree && Between(key, f)
        invariant p == Ptr(f.t, sentinel) && (f.t.Node? ==> p.data == f.t.item)
        invariant visited + Height(f.t) <= Height(tree)
        decreases f.t
      {
        See(f);
        visited := visited + 1;
        if p.data.key == key {
          found := p;
          break;
        } else {
          var d := if p.data.key > key then L else R;
          p := Kid(p, d);
          GoDown(d, f);
          HeldEntries(f);
          SearchDown(d, key, f);
          f := Below(d, f);
          See(f);
        }
      }
      if found == null {
        See(f);
        NotThere(key, f);
      } else {
        See(f);
        HeldEntries(f);
        assert Entry(f.t.ref, f.t.item) in InOrder(f.t);
      }
    }

    /** The empty place where a key that is not in the tree belongs. */
    method FindPlace(node: RbNode) returns (pp: RbNode, ghost f: Spot)
      requires Valid() && !HasKey(node.data.key, view.entries)
      ensures At(f) && f.view == view && Plug(f.c, f.t) == tree && Between(node.data.key, f)
      ensures f.t.Leaf? && pp == Owner(f.c, sentinel)
      ensures f.c.Frame? ==> pp in view.refs && (f.c.dir.L? <==> node.data.key < pp.data.key)
    {
      hide Held;
      var p: RbNode := root;
      pp := sentinel;
      f := Spot(view, Top, tree, root, sentinel);
      See(f);
      while p != sentinel
        invariant At(f) && f.view == view && Plug(f.c, f.t) == tree && Between(node.data.key, f)
        invariant p == Ptr(f.t, sentinel) && (f.t.Node? ==> p.data == f.t.item)
        invariant pp == Owner(f.c, sentinel)
        decreases f.t
      {
        See(f);
        pp := p;
        HeldEntries(f);
        assert Entry(p, p.data) in view.entries;
        var d := if p.data.key > node.data.key then L else R;
        p := Kid(p, d);
        GoDown(d, f);
        SearchDown(d, node.data.key, f);
        f := Below(d, f);
        See(f);
      }
      See(f);
      if f.c.Frame? {
        var x := Entry(f.c.ref, f.c.item);
        assert if f.c.dir.L? then x in Post(f.c) else x in Pre(f.c);
      }
    }

    /** Links a new node into the empty place `f`. */
    method Attach(node: RbNode, pp: RbNode, ghost f: Spot)
      requires At(f) && f.t.Leaf? && pp == Owner(f.c, sentinel) && node !in f.view.refs && node != sentinel
      requires f.c.Frame? ==> pp in f.view.refs && (f.c.dir.L? <==> node.data.key < pp.data.key)
      modifies this`root, f.view.refs, node
      ensures At(With(Arrival(f, node), node.data)) && node.data == old(node.data)
    {
      hide Held;
      See(f);
      if pp == sentinel {
        root := node;
      } else if node.data.key < pp.data.key {
        pp.left := node;
      } else {
        pp.right := node;
      }
      node.parent := pp;
      node.left := sentinel;
      node.right := sentinel;
      node.color := Red;
      Attached(Arrival(f, node));
    }

    method InsertNew(node: RbNode) returns (ghost pos: nat)
      requires Valid() && !HasKey(node.data.key, view.entries) && node !in view.refs && node != sentinel
      modifies this, view.refs, node
      ensures Valid() && pos <= |old(view.entries)| && view.refs == old(view.refs) + {node}
      ensures view.entries == old(view.entries[..pos]) + [Entry(node, old(node.data))] + old(view.entries[pos..])
    {
      hide Held, Good, HasKey, OneRedPair, Sorted, Between;
      var pp;
      ghost var f;
      pp, f := FindPlace(node);
      ghost var a := Arrival(f, node);
      pos := ArrivalView(a, node.data);
      ghost var h := ArrivalGood(a, node.data);
      Attach(node, pp, f);
      See(With(a, node.data));
      ghost var r := InsertFixUp(node, With(a, node.data), h);
      nodeCount := nodeCount + 1;
      tree, view := r.t, r.view;
    }

    method Insert(item: Item) returns (node: RbNode, ghost pos: nat)
      requires Valid()
      modifies this, view.refs
      ensures Valid() && pos <= |old(view.entries)| && node in view.refs && node.data.key == item.key
      ensures pos < |view.entries| && view.entries[pos] == Entry(node, node.data)
      ensures old(HasKey(item.key, view.entries)) ==> unchanged(this) && (forall o <- view.refs :: unchanged(o))
      ensures !old(HasKey(item.key, view.entries)) ==>
        && fresh(node) && view.refs == old(view.refs) + {node}
        && view.entries == old(view.entries[..pos]) + [Entry(node, item)] + old(view.entries[pos..])
    {
      hide Held, Good, Sorted;
      var found;
      ghost var f, visited;
      found, f, visited := Search(item.key);
      if found != null {
        HeldEntries(f);
        pos := |Pre(f.c) + InOrder(f.t.left)|;
        See(f);
        assert view.entries[pos] == Entry(f.t.ref, f.t.item);
        return found, pos;
      }
      node := new RbNode(item);
      pos := InsertNew(node);
      EntryIsReal(this, pos);
    }

    /** Takes `z` out of the linked tree; `fix` is where a black node may now be missing. */
    method Unlink(z: RbNode, ghost f: Spot) returns (fix: RbNode, saved: Color, ghost q: Spot, ghost h: nat)
      requires At(f) && f.t.Node? && z == f.t.ref && Sentinel() && RedBlack(Plug(f.c, f.t))
      modifies this`root, f.view.refs, sentinel`parent
      ensures At(q) && fix == Ptr(q.t, sentinel) && fix.parent == Owner(q.c, sentinel) && Repairable(saved, q, h)
      ensures q.view.refs == f.view.refs - {z}
      ensures q.view.entries == Pre(f.c) + InOrder(f.t.left) + InOrder(f.t.right) + Post(f.c)
    {
      hide Held, RedBlack, Repairable;
      See(f);
      GoDown(L, f);
      See(Below(L, f));
      GoDown(R, f);
      See(Below(R, f));
      if z.left == sentinel {
        saved := z.color;
        fix := TakeOut(R, z, f);
        q := Without(Turn(R, f));
        h := TakeOutGood(R, f);
      } else if z.right == sentinel {
        saved := z.color;
        fix := TakeOut(L, z, f);
        q := Without(Turn(L, f));
        h := TakeOutGood(L, f);
      } else {
        fix, saved, q, h := PutSuccessor(z, f);
      }
    }

    /** Repairs the colours where one black node may be missing. */
    method Repair(fix: RbNode, saved: Color, ghost q: Spot, ghost h: nat) returns (ghost r: Spot)
      requires At(q) && Sees(fix, q) && Repairable(saved, q, h) && Sentinel()
      modifies this`root, q.view.refs, sentinel`parent, sentinel`color
      ensures At(r) && r.c.Top? && RedBlack(r.t) && r.view == q.view && Sentinel()
    {
      if saved == Black {
        r := DeleteFixUp(fix, q, h);
      } else {
        GoTop(q);
        r := Whole(q);
      }
    }

    /** The end of a deletion, once the node is unlinked. */
    method Settle(fix: RbNode, saved: Color, ghost q: Spot, ghost h: nat)
      requires At(q) && Sees(fix, q) && Repairable(saved, q, h) && Sentinel()
      requires Sorted(q.view.entries) && nodeCount == |q.view.entries| + 1
      modifies this, sentinel`parent, sentinel`color, q.view.refs
      ensures Valid() && view == q.view
    {
      hide Held, Sorted, RedBlack, Repairable;
      ghost var r := Repair(fix, saved, q, h);
      nodeCount := nodeCount - 1;
      tree, view := r.t, r.view;
      See(r);
    }

    method DeleteNode(node: RbNode, ghost f: Spot) returns (ghost pos: nat)
      requires Valid() && At(f) && f.view == view && Plug(f.c, f.t) == tree && f.t.Node? && node == f.t.ref
      modifies this, sentinel`parent, sentinel`color, view.refs
      ensures Valid() && pos < |old(view.entries)| && old(view.entries)[pos] == Entry(node, old(node.data))
      ensures view.entries == old(view.entries[..pos]) + old(view.entries[pos + 1..])
      ensures view.refs == old(view.refs) - {node}
    {
      hide Held, Sorted, RedBlack, Repairable;
      ghost var r := Pre(f.c) + InOrder(f.t.left) + InOrder(f.t.right) + Post(f.c);
      pos := DepartureView(f, r);
      hide Pre, Post, InOrder;
      See(f);
      var fix, saved;
      ghost var q, h;
      fix, saved, q, h := Unlink(node, f);
      node.left := null;
      node.right := null;
      node.parent := null;
      See(q);
      Settle(fix, saved, q, h);
    }

    method Delete(key: Key) returns (ghost pos: nat)
      requires Valid()
      modifies this, sentinel`parent, sentinel`color, view.refs
      ensures Valid()
      ensures !old(HasKey(key, view.entries)) ==>
        unchanged(this) && unchanged(sentinel) && forall o <- view.refs :: unchanged(o)
      ensures old(HasKey(key, view.entries)) ==>
        && pos < |old(view.entries)| && old(view.entries)[pos].item.key == key
        && view.entries == old(view.entries[..pos]) + old(view.entries[pos + 1..])
        && view.refs == old(view.refs) - {old(view.entries)[pos].ref}
    {
      hide Held, Sorted, RedBlack, Between;
      pos := 0;
      var node;
      ghost var f, visited;
      node, f, visited := Search(key);
      if node == null {
        return;
      }
      pos := DeleteNode(node, f);
    }

    /** Writes the value of an entry, through a pointer that an earlier call handed out. */
    method SetValue(node: RbNode, value: Value, ghost f: Spot)
      requires Valid() && At(f) && f.view == view && Plug(f.c, f.t) == tree && f.t.Node? && node == f.t.ref
      modifies this`tree, this`view, node`data
      ensures Valid() && view.refs == old(view.refs)
      ensures view.entries == old(view.entries)[Rank(R, f) := Entry(node, Item(old(node.data.key), value))]
    {
      hide Held, RedBlack, Sorted, Rank, Plug;
      See(f);
      ghost var r := Revalue(f, Item(node.data.key, value));
      RevaluedView(r);
      RevaluedGood(r);
      node.data := Item(node.data.key, value);
      Rewritten(r);
      GoTop(Revalued(r));
      tree, view := Plug(Revalued(r).c, Revalued(r).t), Revalued(r).view;
    }

    /** Destroys a subtree, every node after its children. */
    method ClearAux(node: RbNode, ghost f: Spot) returns (destroyed: seq<RbNode>)
      requires At(f) && node == Ptr(f.t, sentinel)
      ensures destroyed == PostOrder(f.t)
      decreases f.t
    {
      hide Held;
      See(f);
      if node == sentinel {
        return [];
      }
      var left, right := [], [];
      GoDown(L, f);
      GoDown(R, f);
      if node.left != sentinel {
        left := ClearAux(node.left, Below(L, f));
      }
      if node.right != sentinel {
        right := ClearAux(node.right, Below(R, f));
      }
      See(Below(L, f));
      See(Below(R, f));
      return left + right + [node];
    }

    /** Each node of the tree is destroyed exactly once. */
    method Clear() returns (destroyed: seq<RbNode>)
      requires Valid()
      modifies this, sentinel
      ensures Valid() && view == View({}, [])
      ensures forall n :: n in destroyed <==> n in old(view.refs)
      ensures forall i, j :: 0 <= i < j < |destroyed| ==> destroyed[i] != destroyed[j]
    {
      ghost var f := Spot(view, Top, tree, root, sentinel);
      See(f);
      AllOnce(f);
      hide Held;
      destroyed := ClearAux(root, f);
      sentinel.parent := sentinel;
      sentinel.left := sentinel;
      sentinel.right := sentinel;
      root := sentinel;
      nodeCount := 0;
      tree, view := Leaf, View({}, []);
    }
  }

  /** The place of entry `i`. */
  lemma PlaceOf(tree: RbTree, i: nat) returns (g: Spot)
    requires tree.Valid() && i < |tree.view.entries|
    ensures tree.At(g) && g.view == tree.view && g.t.Node? && g.t.ref == tree.view.entries[i].ref
    ensures Rank(R, g) == i && Rank(L, g) == |tree.view.entries| - 1 - i
    ensures forall d :: Kid(g.t.ref, d) != tree.sentinel <==> Child(g.t, d).Node?
    ensures tree.Sentinel() && Plug(g.c, g.t) == tree.tree
  {
    g := Locate(Spot(tree.view, Top, tree.tree, tree.root, tree.sentinel), i);
    RankIsIndex(g);
    hide Held, Rank;
    See(g);
    GoDown(L, g);
    See(Below(L, g));
    GoDown(R, g);
    See(Below(R, g));
  }

  lemma EntryIsReal(tree: RbTree, i: nat)
    requires tree.Valid() && i <= |tree.view.entries|
    ensures i < |tree.view.entries| ==>
      var e := tree.view.entries[i]; e.ref in tree.view.refs && e.ref != tree.sentinel && e.ref.data == e.item
    ensures tree.nodeCount == |tree.view.entries| && Sorted(tree.view.entries)
  {
    if i < |tree.view.entries| {
      var g := PlaceOf(tree, i);
      See(g);
      RankIsIndex(g);
    }
  }

  /** A valid tree of n entries is at most 2 log2(n + 1) high; `Search` visits no more nodes. */
  lemma ValidHeight(t: RbTree)
    requires t.Valid()
    ensures Pow2(Height(t.tree)) <= (t.nodeCount + 1) * (t.nodeCount + 1)
  {
    HeldEntries(Spot(t.view, Top, t.tree, t.root, t.sentinel));
    RedBlackHeight(t.tree);
  }
}
