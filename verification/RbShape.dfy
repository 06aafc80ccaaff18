/** Red-black trees as values: the ghost picture of a heap of linked nodes.

    A `Tree` records what the links, colours and data of a subtree are; a `Ctx` is
    the path from the root down to a hole, one `Frame` per node passed. `Shape` and
    `Around` tie the two pictures to the fields of real nodes. */
module RbShape {
  import opened Items

  datatype Color = Red | Black

  class RbNode {
    var data: Item
    var parent: RbNode?
    var left: RbNode?
    var right: RbNode?
    var color: Color

    /** The sentinel: black, every link to itself. */
    constructor Sentinel(d: Item)
      ensures data == d && parent == left == right == this && color == Black
    {
      data, color := d, Black;
      parent, left, right := this, this, this;
    }

    /** A normal node: red, no links yet. */
    constructor (d: Item)
      ensures data == d && parent == left == right == null && color == Red
    {
      data, color := d, Red;
      parent, left, right := null, null, null;
    }
  }

  // ---------------------------------------------------------------- pictures

  datatype Dir = L | R

  datatype Tree =
    | Leaf
    | Node(color: Color, left: Tree, ref: RbNode, item: Item, right: Tree)

  /** `dir` says on which side of `ref` the hole is; `sib` is the other subtree. */
  datatype Ctx =
    | Top
    | Frame(dir: Dir, color: Color, ref: RbNode, item: Item, sib: Tree, up: Ctx)

  function Other(d: Dir): Dir {
    if d.L? then R else L
  }

  ghost function Child(t: Tree, d: Dir): Tree
    requires t.Node?
  {
    if d.L? then t.left else t.right
  }

  /** A node whose `d` child is `near` and whose other child is `far`. */
  ghost function Mk(d: Dir, color: Color, near: Tree, ref: RbNode, item: Item, far: Tree): Tree {
    if d.L? then Node(color, near, ref, item, far) else Node(color, far, ref, item, near)
  }

  /** The path to the `d` child of `t`, and back. */
  ghost function Down(d: Dir, c: Ctx, t: Tree): Ctx
    requires t.Node?
  {
    Frame(d, t.color, t.ref, t.item, Child(t, Other(d)), c)
  }

  ghost function Up(c: Ctx, t: Tree): Tree
    requires c.Frame?
  {
    Mk(c.dir, c.color, t, c.ref, c.item, c.sib)
  }

  ghost function Plug(c: Ctx, t: Tree): Tree {
    if c.Top? then t else Plug(c.up, Up(c, t))
  }

  lemma {:induction false} PlugNode(c: Ctx, t: Tree)
    requires t.Node? || c.Frame?
    ensures Plug(c, t).Node?
    decreases c
  {
    if c.Frame? {
      PlugNode(c.up, Up(c, t));
    }
  }

  /** The path `inner` continued upwards by `outer`. */
  ghost function Append(inner: Ctx, outer: Ctx): Ctx {
    if inner.Top? then outer else inner.(up := Append(inner.up, outer))
  }

  ghost function Depth(c: Ctx): nat {
    if c.Top? then 0 else 1 + Depth(c.up)
  }

  ghost function Height(t: Tree): nat {
    if t.Leaf? then 0 else 1 + if Height(t.left) < Height(t.right) then Height(t.right) else Height(t.left)
  }

  /** Rotation towards `d`: the other child takes the place of its owner. */
  ghost function Rot(d: Dir, t: Tree): Tree
    requires t.Node? && Child(t, Other(d)).Node?
  {
    var y := Child(t, Other(d));
    Mk(d, y.color, Mk(d, t.color, Child(t, d), t.ref, t.item, Child(y, d)), y.ref, y.item, Child(y, Other(d)))
  }

  lemma RotInverse(d: Dir, t: Tree)
    requires t.Node? && Child(t, Other(d)).Node?
    ensures Rot(d, t).Node? && Child(Rot(d, t), d).Node? && Rot(Other(d), Rot(d, t)) == t
  {
  }

  // ------------------------------------------------------- contents, in order

  datatype Entry = Entry(ref: RbNode, item: Item)

  ghost function InOrder(t: Tree): seq<Entry> {
    if t.Leaf? then [] else InOrder(t.left) + [Entry(t.ref, t.item)] + InOrder(t.right)
  }

  /** Everything before the hole, in order. */
  ghost function Pre(c: Ctx): seq<Entry> {
    if c.Top? then [] else if c.dir.L? then Pre(c.up) else Pre(c.up) + InOrder(c.sib) + [Entry(c.ref, c.item)]
  }

  /** Everything after the hole, in order. */
  ghost function Post(c: Ctx): seq<Entry> {
    if c.Top? then [] else if c.dir.R? then Post(c.up) else [Entry(c.ref, c.item)] + InOrder(c.sib) + Post(c.up)
  }

  lemma Regroup(p: seq<Entry>, a: seq<Entry>, x: seq<Entry>, b: seq<Entry>, q: seq<Entry>)
    ensures p + (a + x + b) + q == p + a + (x + b + q)
    ensures a + x + (b + p + q) == (a + x + b) + p + q
    ensures p + (a + x + b) + q == (p + a + x) + b + q
    ensures p + (a + x + b) + q == (p + a) + x + (b + q)
  {
  }

  lemma RotInOrder(d: Dir, t: Tree)
    requires t.Node? && Child(t, Other(d)).Node?
    ensures InOrder(Rot(d, t)) == InOrder(t)
  {
    var y := Child(t, Other(d));
    var a, b, g := InOrder(Child(t, d)), InOrder(Child(y, d)), InOrder(Child(y, Other(d)));
    var ex, ey := [Entry(t.ref, t.item)], [Entry(y.ref, y.item)];
    if d.L? {
      assert InOrder(t) == a + ex + InOrder(y) && InOrder(y) == b + ey + g;
      Regroup(ey, a, ex, b, g);
    } else {
      assert InOrder(t) == InOrder(y) + ex + a && InOrder(y) == g + ey + b;
      Regroup(ex, g, ey, b, a);
    }
  }

  /** Every step of the path goes to the `d` child. */
  ghost predicate Straight(d: Dir, c: Ctx) {
    c.Frame? ==> c.dir == d && Straight(d, c.up)
  }

  lemma {:induction false} StraightInOrder(d: Dir, c: Ctx)
    requires Straight(d, c)
    ensures if d.L? then Pre(c) == [] else Post(c) == []
  {
    if c.Frame? {
      StraightInOrder(d, c.up);
    }
  }

  lemma {:induction false} PlugInOrder(c: Ctx, t: Tree)
    ensures InOrder(Plug(c, t)) == Pre(c) + InOrder(t) + Post(c)
    decreases c
  {
    if c.Frame? {
      var u := Up(c, t);
      PlugInOrder(c.up, u);
      Regroup(Pre(c.up), InOrder(u.left), [Entry(u.ref, u.item)], InOrder(u.right), Post(c.up));
    }
  }

  // ---------------------------------------------------------- separated nodes

  ghost function Refs(t: Tree): set<RbNode> {
    if t.Leaf? then {} else Refs(t.left) + {t.ref} + Refs(t.right)
  }

  ghost function CRefs(c: Ctx): set<RbNode> {
    if c.Top? then {} else Refs(c.sib) + {c.ref} + CRefs(c.up)
  }

  lemma {:induction false} PlugRefs(c: Ctx, t: Tree)
    ensures Refs(Plug(c, t)) == CRefs(c) + Refs(t)
    decreases c
  {
    if c.Frame? {
      PlugRefs(c.up, Up(c, t));
    }
  }

  ghost predicate Distinct(t: Tree) {
    t.Node? ==>
      && t.ref !in Refs(t.left) && t.ref !in Refs(t.right)
      && Refs(t.left) !! Refs(t.right)
      && Distinct(t.left) && Distinct(t.right)
  }

  ghost predicate CDistinct(c: Ctx) {
    c.Frame? ==>
      && c.ref !in Refs(c.sib) && c.ref !in CRefs(c.up)
      && Refs(c.sib) !! CRefs(c.up)
      && Distinct(c.sib) && CDistinct(c.up)
  }

  ghost function PostOrder(t: Tree): seq<RbNode> {
    if t.Leaf? then [] else PostOrder(t.left) + PostOrder(t.right) + [t.ref]
  }

  lemma {:induction false} PostOrderOnce(t: Tree)
    requires Distinct(t)
    ensures forall i :: 0 <= i < |PostOrder(t)| ==> PostOrder(t)[i] in Refs(t)
    ensures forall n <- Refs(t) :: n in PostOrder(t)
    ensures forall i, j :: 0 <= i < j < |PostOrder(t)| ==> PostOrder(t)[i] != PostOrder(t)[j]
  {
    if t.Node? {
      PostOrderOnce(t.left);
      PostOrderOnce(t.right);
      OnceTogether(PostOrder(t.left), PostOrder(t.right), t.ref);
    }
  }

  lemma OnceTogether(a: seq<RbNode>, b: seq<RbNode>, x: RbNode)
    requires forall i, j :: 0 <= i < j < |a| ==> a[i] != a[j]
    requires forall i, j :: 0 <= i < j < |b| ==> b[i] != b[j]
    requires forall i :: 0 <= i < |a| ==> a[i] != x
    requires forall i :: 0 <= i < |b| ==> b[i] != x
    requires forall i, j :: 0 <= i < |a| && 0 <= j < |b| ==> a[i] != b[j]
    ensures var s := a + b + [x]; forall i, j :: 0 <= i < j < |s| ==> s[i] != s[j]
  {
  }

  // ----------------------------------------------------- pictures of the heap

  /** The nodes of a tree and its contents in order: what relinking and recolouring keep. */
  datatype View = View(refs: set<RbNode>, entries: seq<Entry>)

  ghost predicate Seen(v: View, c: Ctx, t: Tree, nil: RbNode) {
    && v.refs == CRefs(c) + Refs(t) && nil !in v.refs
    && Distinct(t) && CDistinct(c) && Refs(t) !! CRefs(c)
    && v.entries == Pre(c) + InOrder(t) + Post(c)
  }

  function Kid(n: RbNode, d: Dir): RbNode?
    reads n
  {
    if d.L? then n.left else n.right
  }

  /** Pointer `n`, whose owner is `p`, is the root of a linked copy of `t`. */
  ghost predicate Shape(t: Tree, n: RbNode?, p: RbNode?, nil: RbNode)
    reads Refs(t)
  {
    if t.Leaf? then n == nil else
      && n == t.ref && t.ref.parent == p && t.ref.color == t.color && t.ref.data == t.item
      && Shape(t.left, t.ref.left, t.ref, nil) && Shape(t.right, t.ref.right, t.ref, nil)
  }

  ghost function Ptr(t: Tree, nil: RbNode): RbNode {
    if t.Leaf? then nil else t.ref
  }

  ghost function Owner(c: Ctx, p: RbNode): RbNode {
    if c.Top? then p else c.ref
  }

  /** The nodes of path `c` are linked as pictured; the hole holds pointer `n`. The
      uppermost pointer is `top`, and its owner is `p`. */
  ghost predicate Around(c: Ctx, n: RbNode?, top: RbNode?, p: RbNode, nil: RbNode)
    reads CRefs(c)
  {
    if c.Top? then n == top else
      && c.ref.parent == Owner(c.up, p) && c.ref.color == c.color && c.ref.data == c.item
      && n == Kid(c.ref, c.dir) && Shape(c.sib, Kid(c.ref, Other(c.dir)), c.ref, nil)
      && Around(c.up, c.ref, top, p, nil)
  }

  /** One place in a tree: the subtree `t`, the path `c` to it, and the node `root`
      that `Plug(c, t)` hangs from. */
  datatype Spot = Spot(view: View, c: Ctx, t: Tree, root: RbNode, nil: RbNode)

  /** The heap looks as the spot says. */
  ghost predicate Held(f: Spot)
    reads f.view.refs
  {
    var held :=
      && Seen(f.view, f.c, f.t, f.nil)
      && Around(f.c, Ptr(f.t, f.nil), f.root, f.nil, f.nil)
      && Shape(f.t, Ptr(f.t, f.nil), Owner(f.c, f.nil), f.nil);
    held
  }

  lemma AllOnce(f: Spot)
    requires Held(f) && f.c.Top?
    ensures forall i :: 0 <= i < |PostOrder(f.t)| ==> PostOrder(f.t)[i] in f.view.refs
    ensures forall n <- f.view.refs :: n in PostOrder(f.t)
    ensures forall i, j :: 0 <= i < j < |PostOrder(f.t)| ==> PostOrder(f.t)[i] != PostOrder(f.t)[j]
  {
    PostOrderOnce(f.t);
  }

  ghost function Above(f: Spot): Spot
    requires f.c.Frame?
  {
    f.(c := f.c.up, t := Up(f.c, f.t))
  }

  ghost function Below(d: Dir, f: Spot): Spot
    requires f.t.Node?
  {
    f.(c := Down(d, f.c, f.t), t := Child(f.t, d))
  }

  /** The place next to `f`, under the same owner. */
  ghost function Beside(f: Spot): Spot
    requires f.c.Frame?
  {
    Below(Other(f.c.dir), Above(f))
  }

  ghost function Paint(f: Spot, k: Color): Spot
    requires f.t.Node?
  {
    f.(t := f.t.(color := k))
  }

  ghost function Whole(f: Spot): Spot {
    f.(c := Top, t := Plug(f.c, f.t))
  }

  lemma GoUp(f: Spot)
    requires Held(f) && f.c.Frame?
    ensures Held(Above(f))
  {
    var t := Up(f.c, f.t);
    Regroup(Pre(f.c.up), InOrder(t.left), [Entry(t.ref, t.item)], InOrder(t.right), Post(f.c.up));
  }

  lemma GoDown(d: Dir, f: Spot)
    requires Held(f) && f.t.Node?
    ensures Held(Below(d, f))
  {
    assert Shape(Child(f.t, d), Kid(f.t.ref, d), f.t.ref, f.nil);
    Regroup(Pre(f.c), InOrder(f.t.left), [Entry(f.t.ref, f.t.item)], InOrder(f.t.right), Post(f.c));
  }

  lemma GoAcross(f: Spot)
    requires Held(f) && f.c.Frame?
    ensures Held(Beside(f))
  {
    GoUp(f);
    GoDown(Other(f.c.dir), Above(f));
  }

  lemma {:induction false} GoTop(f: Spot)
    requires Held(f)
    ensures Held(Whole(f))
    decreases f.c
  {
    if f.c.Frame? {
      GoUp(f);
      GoTop(Above(f));
    }
  }

  // ------------------------------------------------------- one change of the heap

  /** Of all the nodes in `s`, only `n` has changed, and only its colour. */
  twostate predicate Repainted(s: set<RbNode>, n: RbNode)
    reads s, n
  {
    && n.parent == old(n.parent) && n.left == old(n.left) && n.right == old(n.right) && n.data == old(n.data)
    && forall o | o in s && o != n :: unchanged(o)
  }

  twostate lemma Painted(f: Spot)
    ensures old(Held(f)) && f.t.Node? && Repainted(f.view.refs, f.t.ref)
            ==> Held(Paint(f, f.t.ref.color))
  {
  }

  /** Node `n` has owner `q`; nothing else in `s` has changed. */
  twostate predicate Adopted(s: set<RbNode>, n: RbNode, q: RbNode)
    reads s, n
  {
    && n.parent == q && n.left == old(n.left) && n.right == old(n.right)
    && n.color == old(n.color) && n.data == old(n.data)
    && forall o | o in s && o != n :: unchanged(o)
  }

  /** A subtree that goes from owner `p` to owner `q`. */
  datatype Graft = Graft(t: Tree, p: RbNode?, q: RbNode, nil: RbNode)

  twostate lemma Grafted(g: Graft)
    ensures old(Shape(g.t, Ptr(g.t, g.nil), g.p, g.nil)) && Distinct(g.t)
            && (g.t.Node? ==> Adopted(Refs(g.t), g.t.ref, g.q))
            ==> Shape(g.t, Ptr(g.t, g.nil), g.q, g.nil)
  {
  }

  /** The `d` link of node `o` is `m`; nothing else in `s` has changed. */
  twostate predicate Relinked(s: set<RbNode>, o: RbNode, d: Dir, m: RbNode)
    reads s, o
  {
    && o.parent == old(o.parent) && o.color == old(o.color) && o.data == old(o.data)
    && Kid(o, d) == m && Kid(o, Other(d)) == old(Kid(o, Other(d)))
    && forall a | a in s && a != o :: unchanged(a)
  }

  /** A path whose hole, once `n`, becomes `m`. */
  datatype Hook = Hook(c: Ctx, n: RbNode?, m: RbNode, top: RbNode?, p: RbNode, nil: RbNode)

  twostate lemma Hooked(h: Hook)
    ensures old(Around(h.c, h.n, h.top, h.p, h.nil)) && CDistinct(h.c)
            && (h.c.Frame? ==> Relinked(CRefs(h.c), h.c.ref, h.c.dir, h.m))
            ==> Around(h.c, h.m, if h.c.Top? then h.m else h.top, h.p, h.nil)
  {
  }

  /** A rotation towards `d` at `x` changes these links and nothing else. */
  twostate predicate Turned(d: Dir, s: set<RbNode>, x: RbNode, y: RbNode, b: RbNode, p: RbNode,
                            nil: RbNode)
    reads s, x, y, b, p, nil
  {
    && old(Kid(x, Other(d)) == y && Kid(y, d) == b && x.parent == p)
    && Kid(x, Other(d)) == b && x.parent == y && Kid(y, d) == x && y.parent == p
    && (b != nil ==> b.parent == x)
    && (p != nil ==>
          && p.left == (if old(p.left) == x then y else old(p.left))
          && p.right == (if old(p.left) != x then y else old(p.right)))
    && Kid(x, d) == old(Kid(x, d)) && x.color == old(x.color) && x.data == old(x.data)
    && Kid(y, Other(d)) == old(Kid(y, Other(d))) && y.color == old(y.color) && y.data == old(y.data)
    && (b != nil ==> b.left == old(b.left) && b.right == old(b.right) && b.color == old(b.color) && b.data == old(b.data))
    && (p != nil ==> p.parent == old(p.parent) && p.color == old(p.color) && p.data == old(p.data))
    && (forall o | o in s && o !in {x, y, b, p} :: unchanged(o))
    && unchanged(nil)
  }

  lemma RotSeen(d: Dir, v: View, c: Ctx, t: Tree, nil: RbNode)
    requires Seen(v, c, t, nil) && t.Node? && Child(t, Other(d)).Node?
    ensures Seen(v, c, Rot(d, t), nil)
  {
    assert Distinct(Child(t, Other(d)));
    assert Distinct(Child(Rot(d, t), d));
    RotInOrder(d, t);
  }

  /** A rotation about to happen, or the one undoing it. */
  datatype Turn = Turn(d: Dir, f: Spot)

  ghost function After(r: Turn): Spot
    requires r.f.t.Node? && Child(r.f.t, Other(r.d)).Node?
  {
    var y := Rot(r.d, r.f.t);
    r.f.(t := y, root := if r.f.c.Top? then y.ref else r.f.root)
  }

  /** The links of the spot's root have been turned by a rotation. */
  twostate predicate TurnedAt(r: Turn)
    reads *
  {
    && r.f.t.Node? && Child(r.f.t, Other(r.d)).Node? && old(Held(r.f))
    && var y := Child(r.f.t, Other(r.d));
       Turned(r.d, r.f.view.refs, r.f.t.ref, y.ref, Ptr(Child(y, r.d), r.f.nil), Owner(r.f.c, r.f.nil), r.f.nil)
  }

  twostate lemma RotatedPath(r: Turn)
    ensures TurnedAt(r) ==> var y := After(r); Around(y.c, y.t.ref, y.root, y.nil, y.nil)
  {
    if TurnedAt(r) {
      var c, y := r.f.c, Child(r.f.t, Other(r.d));
      ChildRefs(r.d, r.f.t);
      if c.Frame? {
        assert c.ref in CRefs(c);
        assert Kid(c.ref, c.dir) == y.ref && Kid(c.ref, Other(c.dir)) == old(Kid(c.ref, Other(c.dir)));
        assert Relinked(CRefs(c), c.ref, c.dir, y.ref);
      }
      Hooked(Hook(r.f.c, r.f.t.ref, After(r).t.ref, r.f.root, r.f.nil, r.f.nil));
    }
  }

  /** The nodes that a rotation touches are in the subtree. */
  lemma ChildRefs(d: Dir, t: Tree)
    requires t.Node? && Child(t, Other(d)).Node?
    ensures var y := Child(t, Other(d));
      t.ref in Refs(t) && y.ref in Refs(t) && (Child(y, d).Node? ==> Child(y, d).ref in Refs(t))
  {
    var y := Child(t, Other(d));
    assert Refs(t) == Refs(t.left) + {t.ref} + Refs(t.right);
    assert Refs(y) == Refs(y.left) + {y.ref} + Refs(y.right);
    assert Child(y, d).Node? ==> Child(y, d).ref in Refs(Child(y, d));
  }

  /** What matters of that for the subtree alone. */
  twostate predicate TurnedBelow(r: Turn)
    reads *
  {
    var t, p, nil := r.f.t, Owner(r.f.c, r.f.nil), r.f.nil;
    && t.Node? && Child(t, Other(r.d)).Node? && Distinct(t) && nil !in Refs(t) && p !in Refs(t)
    && old(Shape(t, t.ref, p, nil))
    && var y := Child(t, Other(r.d));
       Turned(r.d, Refs(t), t.ref, y.ref, Ptr(Child(y, r.d), nil), p, nil)
  }

  twostate lemma RotatedBelow(r: Turn)
    ensures TurnedBelow(r) ==> var y := After(r); Shape(y.t, y.t.ref, Owner(y.c, y.nil), y.nil)
  {
    if TurnedBelow(r) {
      var y := Child(r.f.t, Other(r.d));
      var b := Child(y, r.d);
      assert Distinct(y);
      assert old(Shape(y, y.ref, r.f.t.ref, r.f.nil));
      assert old(Shape(b, Ptr(b, r.f.nil), y.ref, r.f.nil));
      Grafted(Graft(b, y.ref, r.f.t.ref, r.f.nil));
    }
  }

  twostate lemma RotatedTree(r: Turn)
    ensures TurnedAt(r) ==> var y := After(r); Shape(y.t, y.t.ref, Owner(y.c, y.nil), y.nil)
  {
    if TurnedAt(r) {
      assert r.f.c.Frame? ==> r.f.c.ref in CRefs(r.f.c);
      assert TurnedBelow(r);
      hide *;
      RotatedBelow(r);
    }
  }

  twostate lemma Rotated(r: Turn)
    ensures TurnedAt(r) ==> Held(After(r))
  {
    if TurnedAt(r) {
      RotatedPath(r);
      RotatedTree(r);
      RotSeen(r.d, r.f.view, r.f.c, r.f.t, r.f.nil);
    }
  }

  /** The nodes a rotation touches are there and distinct. */
  lemma TurnReady(r: Turn)
    requires Held(r.f) && r.f.t.Node? && Child(r.f.t, Other(r.d)).Node?
    ensures var x, y, p := r.f.t.ref, Child(r.f.t, Other(r.d)).ref, Owner(r.f.c, r.f.nil);
            var b := Ptr(Child(Child(r.f.t, Other(r.d)), r.d), r.f.nil);
            && Kid(x, Other(r.d)) == y && Kid(y, r.d) == b && x.parent == p
            && x in r.f.view.refs && y in r.f.view.refs && x != y
            && (b in r.f.view.refs || b == r.f.nil) && b !in {x, y}
            && (p in r.f.view.refs || p == r.f.nil) && p !in {x, y} && (p == b ==> p == r.f.nil)
            && r.f.nil !in r.f.view.refs
  {
    var y := Child(r.f.t, Other(r.d));
    assert Shape(y, Kid(r.f.t.ref, Other(r.d)), r.f.t.ref, r.f.nil);
    var b, c := Child(y, r.d), r.f.c;
    assert Distinct(y) && y.ref in Refs(r.f.t);
    assert Shape(b, Kid(y.ref, r.d), y.ref, r.f.nil);
    assert b.Node? ==> b.ref in Refs(y) && b.ref in Refs(r.f.t) && b.ref != y.ref;
    assert c.Frame? ==> c.ref in CRefs(c);
  }

  /** What the fields around a spot say. */
  lemma See(f: Spot)
    requires Held(f)
    ensures f.nil !in f.view.refs
    ensures f.t.Node? ==> var n := f.t.ref;
      && n in f.view.refs && n.parent == Owner(f.c, f.nil) && n.color == f.t.color && n.data == f.t.item
      && n.left == Ptr(f.t.left, f.nil) && n.right == Ptr(f.t.right, f.nil) && n !in CRefs(f.c)
    ensures f.c.Frame? ==> var o := f.c.ref;
      && o in f.view.refs && o.parent == Owner(f.c.up, f.nil) && o.color == f.c.color && o.data == f.c.item
      && Kid(o, f.c.dir) == Ptr(f.t, f.nil) && Kid(o, Other(f.c.dir)) == Ptr(f.c.sib, f.nil)
      && (f.t.Node? || f.c.sib.Node? ==> Ptr(f.t, f.nil) != Ptr(f.c.sib, f.nil))
    ensures f.c.Top? ==> f.root == Ptr(f.t, f.nil)
  {
    var c, t := f.c, f.t;
    if t.Node? {
      assert Shape(t.left, t.ref.left, t.ref, f.nil) && Shape(t.right, t.ref.right, t.ref, f.nil);
    }
    if c.Frame? {
      assert Shape(c.sib, Kid(c.ref, Other(c.dir)), c.ref, f.nil);
      assert c.sib.Node? ==> c.sib.ref in Refs(c.sib) && c.sib.ref in CRefs(c);
    }
  }

  /** The same for the owner and the sibling of the owner. */
  lemma SeeUp(f: Spot)
    requires Held(f) && f.c.Frame? && f.c.up.Frame? && f.t.Node?
    ensures var o, g := f.c.ref, f.c.up.ref;
      && f.t.ref.parent == o && o.parent == g && {f.t.ref, o, g} <= f.view.refs && f.nil !in f.view.refs
      && Kid(o, f.c.dir) == f.t.ref && Kid(o, Other(f.c.dir)) != f.t.ref && o.color == f.c.color
      && Kid(g, f.c.up.dir) == o && Kid(g, Other(f.c.up.dir)) == Ptr(f.c.up.sib, f.nil) != o
      && (f.c.up.sib.Node? ==> f.c.up.sib.ref.color == f.c.up.sib.color && f.c.up.sib.ref in f.view.refs)
    ensures Held(Above(f)) && Held(Above(Above(f)))
  {
    See(f);
    GoUp(f);
    See(Above(f));
    GoAcross(Above(f));
    See(Beside(Above(f)));
    GoUp(Above(f));
  }

  /** Only the whole tree hangs from the root pointer. */
  lemma {:induction false} RootIsTop(f: Spot)
    requires Held(f)
    ensures f.c.Top? <==> Ptr(f.t, f.nil) == f.root
    ensures f.c.Frame? ==> f.root in CRefs(f.c)
    decreases f.c
  {
    if f.c.Frame? {
      GoUp(f);
      RootIsTop(Above(f));
    }
  }

  /** The same for the `d` child of the sibling. */
  ghost predicate SeesKid(d: Dir, f: Spot)
    requires f.c.Frame? && f.c.sib.Node?
    reads f.c.sib.ref, f.view.refs
  {
    var k := Child(f.c.sib, d);
    && Held(Below(d, Beside(f))) && Kid(f.c.sib.ref, d) == Ptr(k, f.nil)
    && (k.Node? ==> k.ref in f.view.refs && k.ref.color == k.color)
  }

  lemma SeeSibling(f: Spot)
    requires Held(f) && f.c.Frame? && f.c.sib.Node?
    ensures Held(Beside(f)) && Held(Above(f)) && Kid(f.c.ref, Other(f.c.dir)) == f.c.sib.ref && f.nil !in f.view.refs
    ensures var s := f.c.sib; s.ref in f.view.refs && s.ref.color == s.color && s.ref.parent == f.c.ref
    ensures SeesKid(L, f) && SeesKid(R, f)
  {
    hide Held;
    See(f);
    GoUp(f);
    GoAcross(f);
    See(Beside(f));
    GoDown(L, Beside(f));
    GoDown(R, Beside(f));
    See(Below(L, Beside(f)));
    See(Below(R, Beside(f)));
  }

  // --------------------------------------------------- nodes leaving and coming

  /** The link that path `c` ends in has become `m`. */
  twostate predicate LinkMoved(c: Ctx, m: RbNode)
    requires c.Frame?
    reads c.ref
  {
    && c.ref.parent == old(c.ref.parent) && c.ref.color == old(c.ref.color) && c.ref.data == old(c.ref.data)
    && Kid(c.ref, c.dir) == m && Kid(c.ref, Other(c.dir)) == old(Kid(c.ref, Other(c.dir)))
  }

  /** The spot's node, whose `d` subtree is the only one, gives its place to that subtree. */
  ghost function Without(r: Turn): Spot
    requires r.f.t.Node?
  {
    var f, m := r.f, Child(r.f.t, r.d);
    Spot(View(f.view.refs - {f.t.ref}, Pre(f.c) + InOrder(m) + Post(f.c)), f.c, m,
         if f.c.Top? then Ptr(m, f.nil) else f.root, f.nil)
  }

  twostate predicate TakenOut(r: Turn)
    reads *
  {
    && r.f.t.Node? && Child(r.f.t, Other(r.d)).Leaf? && old(Held(r.f))
    && var m := Child(r.f.t, r.d);
       && (m.Node? ==>
             && m.ref.parent == Owner(r.f.c, r.f.nil) && m.ref.left == old(m.ref.left) && m.ref.right == old(m.ref.right)
             && m.ref.color == old(m.ref.color) && m.ref.data == old(m.ref.data))
       && (r.f.c.Frame? ==> LinkMoved(r.f.c, Ptr(m, r.f.nil)))
       && forall o | o in r.f.view.refs && o !in {r.f.t.ref, Ptr(m, r.f.nil), Owner(r.f.c, r.f.nil)} :: unchanged(o)
  }

  lemma WithoutSeen(r: Turn)
    requires r.f.t.Node? && Child(r.f.t, Other(r.d)).Leaf? && Seen(r.f.view, r.f.c, r.f.t, r.f.nil)
    ensures var g := Without(r); Seen(g.view, g.c, g.t, g.nil)
  {
  }

  twostate lemma RemovedPath(r: Turn)
    ensures TakenOut(r) ==> var g := Without(r); Around(g.c, Ptr(g.t, g.nil), g.root, g.nil, g.nil)
  {
    hide Pre, Post, InOrder, Shape;
    if TakenOut(r) {
      var f, m := r.f, Child(r.f.t, r.d);
      assert m.Node? ==> m.ref in Refs(m) && m.ref in Refs(f.t);
      Hooked(Hook(f.c, f.t.ref, Ptr(m, f.nil), f.root, f.nil, f.nil));
    }
  }

  twostate lemma RemovedTree(r: Turn)
    ensures TakenOut(r) ==> var g := Without(r); Shape(g.t, Ptr(g.t, g.nil), Owner(g.c, g.nil), g.nil)
  {
    if TakenOut(r) {
      var f, m := r.f, Child(r.f.t, r.d);
      assert m.Node? ==> m.ref in Refs(m) && m.ref in Refs(f.t);
      assert old(Shape(m, Kid(f.t.ref, r.d), f.t.ref, f.nil));
      hide Pre, Post, InOrder, Around;
      Grafted(Graft(m, f.t.ref, Owner(f.c, f.nil), f.nil));
    }
  }

  twostate lemma Removed(r: Turn)
    ensures TakenOut(r) ==> Held(Without(r))
  {
    if TakenOut(r) {
      WithoutSeen(r);
      RemovedPath(r);
      RemovedTree(r);
    }
  }

  lemma {:induction false} PlugAppend(inner: Ctx, outer: Ctx, t: Tree)
    ensures Plug(Append(inner, outer), t) == Plug(outer, Plug(inner, t))
    decreases inner
  {
    if inner.Frame? {
      PlugAppend(inner.up, outer, Up(inner, t));
    }
  }

  lemma {:induction false} SuccessorInOrder(inner: Ctx, y: Tree)
    requires y.Node? && y.left.Leaf? && Straight(L, inner)
    ensures InOrder(Plug(inner, y)) == [Entry(y.ref, y.item)] + InOrder(Plug(inner, y.right))
  {
    PlugInOrder(inner, y);
    PlugInOrder(inner, y.right);
    StraightInOrder(L, inner);
  }

  /** Down a whole path, and up again. */
  ghost function Under(inner: Ctx, f: Spot, t: Tree): Spot {
    f.(c := Append(inner, f.c), t := t)
  }

  lemma {:induction false} GoUpPath(inner: Ctx, f: Spot, t: Tree)
    requires Held(Under(inner, f, t))
    ensures Held(f.(t := Plug(inner, t)))
    decreases inner
  {
    if inner.Frame? {
      GoUp(Under(inner, f, t));
      GoUpPath(inner.up, f, Up(inner, t));
    }
  }

  lemma {:induction false} GoDownPath(inner: Ctx, f: Spot, t: Tree)
    requires Held(f.(t := Plug(inner, t)))
    ensures Held(Under(inner, f, t))
    decreases inner
  {
    if inner.Frame? {
      GoDownPath(inner.up, f, Up(inner, t));
      GoDown(inner.dir, Under(inner.up, f, Up(inner, t)));
    }
  }

  /** Node `y`, outside the tree, can replace the spot's node: it already owns the right subtree. */
  ghost function Heir(f: Spot, y: RbNode, item: Item): Spot
    requires f.t.Node?
  {
    var t := f.t.(ref := y, item := item);
    Spot(View(f.view.refs - {f.t.ref} + {y}, Pre(f.c) + InOrder(t) + Post(f.c)), f.c, t,
         if f.c.Top? then y else f.root, f.nil)
  }

  ghost predicate Ready(f: Spot, y: RbNode)
    reads f.view.refs, y
  {
    && f.t.Node? && Seen(f.view, f.c, f.t, f.nil) && y !in f.view.refs && y != f.nil
    && Around(f.c, f.t.ref, f.root, f.nil, f.nil)
    && f.t.ref.parent == Owner(f.c, f.nil) && f.t.ref.left == Ptr(f.t.left, f.nil) && f.t.ref.color == f.t.color
    && Shape(f.t.left, Ptr(f.t.left, f.nil), f.t.ref, f.nil)
    && Shape(f.t.right, Ptr(f.t.right, f.nil), y, f.nil) && y.right == Ptr(f.t.right, f.nil)
  }

  /** What the fields around such a spot say. */
  lemma SeeReady(f: Spot, y: RbNode)
    requires Ready(f, y) && f.t.left.Node?
    ensures var z, l := f.t.ref, f.t.left.ref;
      && z.parent == Owner(f.c, f.nil) && z.left == l && z.color == f.t.color && y.right == Ptr(f.t.right, f.nil)
      && z in f.view.refs && l in f.view.refs && y !in f.view.refs && f.nil !in f.view.refs && y != f.nil && z != l
    ensures f.c.Frame? ==> var o := f.c.ref;
      && o in f.view.refs && o != f.t.ref && o != f.t.left.ref
      && Kid(o, f.c.dir) == f.t.ref && Kid(o, Other(f.c.dir)) != f.t.ref
    ensures f.c.Top? ==> f.root == f.t.ref
    ensures Refs(f.t.left) <= f.view.refs && f.t.ref !in Refs(f.t.left)
    ensures f.c.Frame? ==> f.c.ref !in Refs(f.t.left)
  {
    var c := f.c;
    assert f.t.left.ref in Refs(f.t.left);
    if c.Frame? {
      assert Shape(c.sib, Kid(c.ref, Other(c.dir)), c.ref, f.nil);
      assert c.ref in CRefs(c) && (c.sib.Node? ==> c.sib.ref in Refs(c.sib) && c.sib.ref in CRefs(c));
    }
  }

  /** The spot once its successor `y` has left the right subtree, of which `m` remains. */
  ghost function Shrunk(f: Spot, y: RbNode, m: Tree): Spot
    requires f.t.Node?
  {
    var t := f.t.(right := m);
    f.(t := t, view := View(f.view.refs - {y}, Pre(f.c) + InOrder(t) + Post(f.c)))
  }

  lemma AdjacentReady(f: Spot)
    requires Held(f) && f.t.Node? && f.t.right.Node? && f.t.right.left.Leaf?
    ensures Ready(Shrunk(f, f.t.right.ref, f.t.right.right), f.t.right.ref)
  {
    var y := f.t.right;
    assert Shape(y, f.t.ref.right, f.t.ref, f.nil) && Distinct(y);
    assert Shape(y.right, y.ref.right, y.ref, f.nil) && Shape(f.t.left, f.t.ref.left, f.t.ref, f.nil);
  }

  lemma {:induction false} AppendRefs(inner: Ctx, outer: Ctx)
    ensures CRefs(Append(inner, outer)) == CRefs(inner) + CRefs(outer)
  {
    if inner.Frame? {
      AppendRefs(inner.up, outer);
    }
  }

  /** The successor's owner is the node itself exactly when no path lies between them. */
  lemma OwnerIsNear(f: Spot, inner: Ctx, t: Tree)
    requires f.t.Node? && Held(Under(inner, Below(R, f), t))
    ensures inner.Frame? ==> inner.ref != f.t.ref
  {
    if inner.Frame? {
      AppendRefs(inner.up, Below(R, f).c);
      assert f.t.ref in CRefs(Below(R, f).c);
    }
  }

  /** The successor `t` has left its place below `f`. */
  lemma Detached(f: Spot, inner: Ctx, t: Tree)
    requires f.t.Node? && t.Node? && inner.Frame? && f.t.right == Plug(inner, t)
    requires Held(Without(Turn(R, Under(inner, Below(R, f), t))))
    ensures Held(Shrunk(f, t.ref, Plug(inner, t.right))) && Plug(inner, t.right).Node?
  {
    PlugNode(inner, t.right);
    var w := Without(Turn(R, Under(inner, Below(R, f), t)));
    var b := Below(R, f).(view := w.view);
    GoUpPath(inner, b, t.right);
    GoUp(b.(t := Plug(inner, t.right)));
  }

  lemma HeirEntries(p: seq<Entry>, a: seq<Entry>, x: Entry, b: seq<Entry>, q: seq<Entry>)
    ensures p + (a + [x] + b) + q == p + a + ([x] + b) + q
  {
  }

  lemma HeirRefs(f: Spot, inner: Ctx, t: Tree)
    requires Seen(f.view, f.c, f.t, f.nil) && f.t.Node? && t.Node? && f.t.right == Plug(inner, t)
    ensures f.view.refs - {t.ref} - {f.t.ref} + {t.ref} == f.view.refs - {f.t.ref}
  {
    PlugRefs(inner, t);
    hide Plug, InOrder, Pre, Post, CDistinct, CRefs;
    assert t.ref in Refs(t) && t.ref in Refs(f.t);
  }

  lemma HeirView(f: Spot, inner: Ctx, t: Tree, g: Spot)
    requires Seen(f.view, f.c, f.t, f.nil) && f.t.Node? && t.Node? && t.left.Leaf? && Straight(L, inner)
    requires f.t.right == Plug(inner, t) && g == Heir(Shrunk(f, t.ref, Plug(inner, t.right)), t.ref, t.item)
    ensures g.view.refs == f.view.refs - {f.t.ref}
    ensures g.view.entries == Pre(f.c) + InOrder(f.t.left) + InOrder(f.t.right) + Post(f.c)
  {
    HeirRefs(f, inner, t);
    SuccessorInOrder(inner, t);
    hide Seen, Plug, Pre, Post, Straight;
    assert InOrder(g.t) == InOrder(f.t.left) + [Entry(t.ref, t.item)] + InOrder(Plug(inner, t.right));
    hide InOrder;
    HeirEntries(Pre(f.c), InOrder(f.t.left), Entry(t.ref, t.item), InOrder(Plug(inner, t.right)), Post(f.c));
  }

  /** The successor has taken its new place; `inner` leads to what it left behind. */
  lemma Placed(f: Spot, inner: Ctx, y: RbNode, item: Item, m: Tree)
    requires f.t.Node? && Held(Heir(Shrunk(f, y, Plug(inner, m)), y, item))
    ensures Held(Under(inner, Below(R, Heir(Shrunk(f, y, Plug(inner, m)), y, item)), m))
  {
    var g := Heir(Shrunk(f, y, Plug(inner, m)), y, item);
    GoDown(R, g);
    GoDownPath(inner, Below(R, g), m);
  }

  datatype Succession = Succession(f: Spot, y: RbNode, item: Item)

  twostate predicate Succeeded(s: Succession)
    reads *
  {
    var f, y := s.f, s.y;
    var succeeded :=
      && old(Ready(f, y))
      && y.parent == Owner(f.c, f.nil) && y.left == Ptr(f.t.left, f.nil) && y.right == Ptr(f.t.right, f.nil)
      && y.color == f.t.color && y.data == s.item
      && (f.t.left.Node? ==> Adopted(Refs(f.t.left), f.t.left.ref, y))
      && (f.c.Frame? ==> LinkMoved(f.c, y))
      && forall o | o in f.view.refs && o !in {f.t.ref, Ptr(f.t.left, f.nil), Owner(f.c, f.nil)} :: unchanged(o);
    succeeded
  }

  lemma HeirSeen(f: Spot, y: RbNode, item: Item)
    requires f.t.Node? && Seen(f.view, f.c, f.t, f.nil) && y !in f.view.refs && y != f.nil
    ensures var g := Heir(f, y, item); Seen(g.view, g.c, g.t, g.nil)
  {
  }

  twostate lemma InheritedPath(s: Succession)
    ensures Succeeded(s) ==> var g := Heir(s.f, s.y, s.item); Around(g.c, s.y, g.root, g.nil, g.nil)
  {
    if Succeeded(s) {
      Hooked(Hook(s.f.c, s.f.t.ref, s.y, s.f.root, s.f.nil, s.f.nil));
    }
  }

  twostate lemma InheritedTree(s: Succession)
    ensures Succeeded(s) ==> var g := Heir(s.f, s.y, s.item); Shape(g.t, s.y, Owner(g.c, g.nil), g.nil)
  {
    if Succeeded(s) {
      Grafted(Graft(s.f.t.left, s.f.t.ref, s.y, s.f.nil));
    }
  }

  twostate lemma Inherited(s: Succession)
    ensures Succeeded(s) ==> Held(Heir(s.f, s.y, s.item))
  {
    if Succeeded(s) {
      HeirSeen(s.f, s.y, s.item);
      InheritedPath(s);
      InheritedTree(s);
    }
  }

  /** A new red node in an empty hole. */
  datatype Arrival = Arrival(f: Spot, n: RbNode)

  ghost function With(a: Arrival, item: Item): Spot {
    var f := a.f;
    Spot(View(f.view.refs + {a.n}, Pre(f.c) + [Entry(a.n, item)] + Post(f.c)), f.c,
         Node(Red, Leaf, a.n, item, Leaf), if f.c.Top? then a.n else f.root, f.nil)
  }

  twostate predicate Arrived(a: Arrival)
    reads *
  {
    var f, n := a.f, a.n;
    && old(Held(f)) && f.t.Leaf? && n !in f.view.refs && n != f.nil
    && n.parent == Owner(f.c, f.nil) && n.left == f.nil && n.right == f.nil && n.color == Red
    && (f.c.Frame? ==> LinkMoved(f.c, n))
    && forall o | o in f.view.refs && o != Owner(f.c, f.nil) :: unchanged(o)
  }

  twostate lemma Attached(a: Arrival)
    ensures Arrived(a) ==> Held(With(a, a.n.data))
  {
    if Arrived(a) {
      Hooked(Hook(a.f.c, a.f.nil, a.n, a.f.root, a.f.nil, a.f.nil));
    }
  }

  /** A node keeps its key and gets a new value. */
  datatype Revalue = Revalue(f: Spot, item: Item)

  ghost function Revalued(r: Revalue): Spot
    requires r.f.t.Node?
  {
    var t := r.f.t.(item := r.item);
    r.f.(t := t, view := r.f.view.(entries := Pre(r.f.c) + InOrder(t) + Post(r.f.c)))
  }

  twostate predicate DataWritten(r: Revalue)
    reads *
  {
    && old(Held(r.f)) && r.f.t.Node?
    && var n := r.f.t.ref;
       && n.data == r.item && n.parent == old(n.parent) && n.left == old(n.left) && n.right == old(n.right)
       && n.color == old(n.color)
       && forall o | o in r.f.view.refs && o != n :: unchanged(o)
  }

  twostate lemma Rewritten(r: Revalue)
    ensures DataWritten(r) ==> Held(Revalued(r))
  {
  }

  // ---------------------------------------------------------------- searching

  ghost predicate Sorted(s: seq<Entry>) {
    forall i, j :: 0 <= i < j < |s| ==> s[i].item.key < s[j].item.key
  }

  /** The hole is where `key` belongs. */
  ghost predicate Between(key: Key, f: Spot) {
    && (forall e <- Pre(f.c) :: e.item.key < key)
    && (forall e <- Post(f.c) :: key < e.item.key)
  }

  lemma SortedAround(a: seq<Entry>, x: Entry, b: seq<Entry>)
    requires Sorted(a + [x] + b)
    ensures forall e <- a :: e.item.key < x.item.key
    ensures forall e <- b :: x.item.key < e.item.key
  {
    var s := a + [x] + b;
    assert s[|a|] == x;
    forall e | e in a ensures e.item.key < x.item.key {
      var i :| 0 <= i < |a| && a[i] == e;
      assert s[i] == e;
    }
    forall e | e in b ensures x.item.key < e.item.key {
      var i :| 0 <= i < |b| && b[i] == e;
      assert s[|a| + 1 + i] == e;
    }
  }

  lemma HeldEntries(f: Spot)
    requires Held(f)
    ensures f.view.entries == Pre(f.c) + InOrder(f.t) + Post(f.c)
  {
  }

  lemma SearchDown(d: Dir, key: Key, f: Spot)
    requires f.view.entries == Pre(f.c) + InOrder(f.t) + Post(f.c)
    requires f.t.Node? && Sorted(f.view.entries) && Between(key, f)
    requires if d.L? then key < f.t.item.key else f.t.item.key < key
    ensures Between(key, Below(d, f))
  {
    assert InOrder(f.t) == InOrder(f.t.left) + [Entry(f.t.ref, f.t.item)] + InOrder(f.t.right);
    hide Sorted, InOrder;
    SortedParts(Pre(f.c), InOrder(f.t.left), Entry(f.t.ref, f.t.item), InOrder(f.t.right), Post(f.c));
  }

  lemma SortedParts(p: seq<Entry>, a: seq<Entry>, x: Entry, b: seq<Entry>, q: seq<Entry>)
    requires Sorted(p + (a + [x] + b) + q)
    ensures forall e <- a :: e.item.key < x.item.key
    ensures forall e <- b :: x.item.key < e.item.key
  {
    Regroup(p, a, [x], b, q);
    hide Sorted;
    SortedAround(p + a, x, b + q);
  }

  /** The key belongs into an empty hole: it is nowhere in the tree. */
  lemma NotThere(key: Key, f: Spot)
    requires Held(f) && f.t.Leaf? && Between(key, f)
    ensures !HasKey(key, f.view.entries)
  {
  }

  ghost predicate HasKey(key: Key, s: seq<Entry>) {
    exists e :: e in s && e.item.key == key
  }

  /** An entry that belongs between two parts keeps their order. */
  lemma SortedInsert(a: seq<Entry>, x: Entry, b: seq<Entry>)
    requires Sorted(a + b)
    requires (forall e <- a :: e.item.key < x.item.key) && (forall e <- b :: x.item.key < e.item.key)
    ensures Sorted(a + [x] + b)
  {
    var s, r := a + b, a + [x] + b;
    forall i, j | 0 <= i < j < |r| ensures r[i].item.key < r[j].item.key {
      var i0, j0 := if i <= |a| then i else i - 1, if j <= |a| then j else j - 1;
      if i != |a| && j != |a| {
        assert r[i] == s[i0] && r[j] == s[j0];
      } else if i == |a| {
        assert r[j] == b[j - |a| - 1];
      } else {
        assert r[i] == a[i];
      }
    }
  }

  /** The view with the new node: one entry more, in its sorted place. */
  lemma ArrivalView(a: Arrival, item: Item) returns (pos: nat)
    requires Held(a.f) && a.f.t.Leaf? && Sorted(a.f.view.entries) && Between(item.key, a.f)
    ensures var s, r := a.f.view.entries, With(a, item).view.entries;
      && pos <= |s| && r == s[..pos] + [Entry(a.n, item)] + s[pos..] && Sorted(r) && |r| == |s| + 1
  {
    HeldEntries(a.f);
    pos := |Pre(a.f.c)|;
    assert a.f.view.entries == Pre(a.f.c) + Post(a.f.c);
    SortedInsert(Pre(a.f.c), Entry(a.n, item), Post(a.f.c));
  }

  lemma SortedRemove(a: seq<Entry>, x: Entry, b: seq<Entry>)
    requires Sorted(a + [x] + b)
    ensures Sorted(a + b)
  {
    var s, r := a + [x] + b, a + b;
    forall i, j | 0 <= i < j < |r| ensures r[i].item.key < r[j].item.key {
      assert r[i] == s[if i < |a| then i else i + 1] && r[j] == s[if j < |a| then j else j + 1];
    }
  }

  /** The view without the spot's node: one entry less. */
  lemma DepartureView(f: Spot, r: seq<Entry>) returns (pos: nat)
    requires Held(f) && f.t.Node? && Sorted(f.view.entries)
    requires r == Pre(f.c) + InOrder(f.t.left) + InOrder(f.t.right) + Post(f.c)
    ensures var s := f.view.entries;
      && pos < |s| && s[pos] == Entry(f.t.ref, f.t.item) && r == s[..pos] + s[pos + 1..]
      && Sorted(r) && |r| + 1 == |s|
  {
    HeldEntries(f);
    hide Held, Sorted;
    var p, a, x, b, q := Pre(f.c), InOrder(f.t.left), Entry(f.t.ref, f.t.item), InOrder(f.t.right), Post(f.c);
    pos := |p + a|;
    Regroup(p, a, [x], b, q);
    SortedRemove(p + a, x, b + q);
    hide InOrder, Pre, Post;
    assert r == (p + a) + (b + q);
  }

  // ---------------------------------------------------------------- iterating

  /** How many entries lie before the spot's node, seen in direction `d`. */
  ghost function Rank(d: Dir, f: Spot): nat
    requires f.t.Node?
  {
    if d.R? then |Pre(f.c)| + |InOrder(f.t.left)| else |Post(f.c)| + |InOrder(f.t.right)|
  }

  lemma RankIsIndex(f: Spot)
    requires Held(f) && f.t.Node?
    ensures Rank(R, f) + 1 + Rank(L, f) == |f.view.entries|
    ensures f.view.entries[Rank(R, f)] == Entry(f.t.ref, f.t.item)
  {
    HeldEntries(f);
  }

  lemma {:induction false} Locate(f: Spot, i: nat) returns (g: Spot)
    requires Held(f) && |Pre(f.c)| <= i < |Pre(f.c)| + |InOrder(f.t)|
    ensures Held(g) && g.view == f.view && g.root == f.root && g.nil == f.nil
    ensures g.t.Node? && Rank(R, g) == i && Plug(g.c, g.t) == Plug(f.c, f.t)
    decreases f.t
  {
    var k := |Pre(f.c)| + |InOrder(f.t.left)|;
    if i < k {
      GoDown(L, f);
      g := Locate(Below(L, f), i);
    } else if i == k {
      g := f;
    } else {
      GoDown(R, f);
      g := Locate(Below(R, f), i);
    }
  }

  lemma {:induction false} AppendInOrder(inner: Ctx, outer: Ctx)
    ensures Pre(Append(inner, outer)) == Pre(outer) + Pre(inner)
    ensures Post(Append(inner, outer)) == Post(inner) + Post(outer)
  {
    if inner.Frame? {
      AppendInOrder(inner.up, outer);
    }
  }

  /** The nearest node in the `d` subtree comes next in direction `d`. */
  lemma NextIsBelow(d: Dir, f: Spot, inner: Ctx, t: Tree)
    requires f.t.Node? && t.Node? && Child(t, Other(d)).Leaf? && Straight(Other(d), inner)
    ensures Rank(d, Under(inner, Below(d, f), t)) == Rank(d, f) + 1
  {
    AppendInOrder(inner, Below(d, f).c);
    StraightInOrder(Other(d), inner);
  }

  /** Climbing from the `d` side passes only earlier entries; the next is the owner on the other side. */
  lemma NextIsAbove(d: Dir, f: Spot)
    requires Held(f) && f.t.Node?
    ensures f.c.Top? ==> RankAfter(d, f) == |f.view.entries|
    ensures f.c.Frame? && f.c.dir == d ==> RankAfter(d, Above(f)) == RankAfter(d, f)
    ensures f.c.Frame? && f.c.dir != d ==> Rank(d, Above(f)) == RankAfter(d, f)
  {
    HeldEntries(f);
  }

  /** How many entries lie before the end of the spot's subtree, seen in direction `d`. */
  ghost function RankAfter(d: Dir, f: Spot): nat {
    (if d.R? then |Pre(f.c)| else |Post(f.c)|) + |InOrder(f.t)|
  }

  lemma LastOfSubtree(d: Dir, f: Spot)
    requires f.t.Node? && Child(f.t, d).Leaf?
    ensures RankAfter(d, f) == Rank(d, f) + 1
  {
    assert |InOrder(f.t)| == |InOrder(f.t.left)| + 1 + |InOrder(f.t.right)|;
    assert InOrder(Child(f.t, d)) == [];
  }

  lemma RevaluedView(r: Revalue)
    requires Held(r.f) && r.f.t.Node? && r.item.key == r.f.t.item.key && Sorted(r.f.view.entries)
    ensures Rank(R, r.f) < |r.f.view.entries|
    ensures Revalued(r).view.entries == r.f.view.entries[Rank(R, r.f) := Entry(r.f.t.ref, r.item)]
    ensures Sorted(Revalued(r).view.entries) && |Revalued(r).view.entries| == |r.f.view.entries|
  {
    RankIsIndex(r.f);
    HeldEntries(r.f);
    hide Held, Sorted;
    var p, a, b, q := Pre(r.f.c), InOrder(r.f.t.left), InOrder(r.f.t.right), Post(r.f.c);
    var x, y := Entry(r.f.t.ref, r.f.t.item), Entry(r.f.t.ref, r.item);
    Regroup(p, a, [x], b, q);
    Regroup(p, a, [y], b, q);
    SetMiddle(p + a, x, y, b + q);
    RevaluedSorted(r.f.view.entries, Rank(R, r.f), y);
  }

  lemma SetMiddle(a: seq<Entry>, x: Entry, y: Entry, b: seq<Entry>)
    ensures a + [y] + b == (a + [x] + b)[|a| := y]
  {
  }

  lemma RevaluedSorted(s: seq<Entry>, i: nat, y: Entry)
    requires Sorted(s) && i < |s| && s[i].item.key == y.item.key
    ensures Sorted(s[i := y])
  {
  }
}
