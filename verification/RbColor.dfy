/** The colouring rules of red-black trees, for subtrees and for the paths to them. */
module RbColor {
  import opened Items
  import opened RbShape

  ghost predicate IsRed(t: Tree) {
    t.Node? && t.color.Red?
  }

  ghost predicate RedOwner(c: Ctx) {
    c.Frame? && c.color.Red?
  }

  /** No red node has a red child, and every way down passes `h` black nodes. */
  ghost predicate Good(t: Tree, h: int) {
    if t.Leaf? then h == 0
    else if t.color.Black? then Good(t.left, h - 1) && Good(t.right, h - 1)
    else !IsRed(t.left) && !IsRed(t.right) && Good(t.left, h) && Good(t.right, h)
  }

  ghost function BlackHeight(t: Tree): nat {
    if t.Leaf? then 0 else BlackHeight(t.left) + if t.color.Black? then 1 else 0
  }

  ghost predicate RedBlack(t: Tree) {
    !IsRed(t) && Good(t, BlackHeight(t))
  }

  /** Filling the hole of `c` with a good tree of black height `h` keeps every rule,
      except perhaps that a red owner gets a red child. */
  ghost predicate PathGood(c: Ctx, h: int) {
    c.Frame? ==>
      && Good(c.sib, h)
      && if c.color.Black? then PathGood(c.up, h + 1)
         else !IsRed(c.sib) && c.up.Frame? && c.up.color.Black? && PathGood(c.up, h)
  }

  lemma {:induction false} GoodHeight(t: Tree, h: int)
    requires Good(t, h)
    ensures h == BlackHeight(t)
  {
    if t.Node? {
      GoodHeight(t.left, if t.color.Black? then h - 1 else h);
    }
  }

  lemma {:induction false} PlugGood(c: Ctx, t: Tree, h: int)
    requires Good(t, h) && PathGood(c, h) && !(IsRed(t) && RedOwner(c))
    ensures Good(Plug(c, t), BlackHeight(Plug(c, t)))
    ensures c.Frame? ==> !IsRed(Plug(c, t))
    decreases c
  {
    if c.Top? {
      GoodHeight(t, h);
    } else {
      PlugGood(c.up, Up(c, t), if c.color.Black? then h + 1 else h);
    }
  }

  lemma {:induction false} UnplugGood(c: Ctx, t: Tree) returns (h: nat)
    requires RedBlack(Plug(c, t))
    ensures Good(t, h) && PathGood(c, h)
    ensures IsRed(t) ==> c.Frame? && c.color.Black?
    decreases c
  {
    h := BlackHeight(Plug(c, t));
    if c.Frame? {
      h := UnplugGood(c.up, Up(c, t));
      if c.color.Black? {
        GoodHeight(t, h - 1);
        h := BlackHeight(t);
      }
    }
  }

  // ---------------------------------------------------------------- insertion

  /** All rules hold, except that `t` is red and its owner may be red too. */
  ghost predicate OneRedPair(f: Spot, h: int) {
    IsRed(f.t) && Good(f.t, h) && PathGood(f.c, h)
  }

  /** A new red node in an empty hole is such a place. */
  lemma ArrivalGood(a: Arrival, item: Item) returns (h: nat)
    requires a.f.t.Leaf? && RedBlack(Plug(a.f.c, a.f.t))
    ensures OneRedPair(With(a, item), h)
  {
    h := UnplugGood(a.f.c, a.f.t);
  }

  /** A red owner has an owner of its own, and that one is black. */
  lemma GrandparentIsReal(f: Spot, h: int)
    requires OneRedPair(f, h)
    ensures f.t.Node? && (RedOwner(f.c) ==> f.c.up.Frame? && f.c.up.color.Black? && !IsRed(f.c.sib))
  {
  }

  ghost function SplitBlack(f: Spot): Spot
    requires f.c.Frame? && f.c.up.Frame? && f.c.up.sib.Node?
  {
    Paint(Above(Paint(Beside(Paint(Above(f), Black)), Black)), Red)
  }

  /** Case 1, red uncle: the pair moves two levels up. */
  lemma RedUncle(f: Spot, h: int)
    requires OneRedPair(f, h) && RedOwner(f.c) && IsRed(f.c.up.sib)
    ensures OneRedPair(SplitBlack(f), h + 1) && SplitBlack(f).c == f.c.up.up
  {
    var c := f.c;
    assert PathGood(c.up, h);
    assert Good(Mk(c.dir, Black, f.t, c.ref, c.item, c.sib), h + 1);
    assert Good(c.up.sib.(color := Black), h + 1);
  }

  /** Case 2, inner child: rotating its owner away makes it an outer one. */
  ghost function Outward(f: Spot): Spot
    requires f.c.Frame? && f.t.Node?
  {
    Below(Other(f.c.dir), After(Turn(Other(f.c.dir), Above(f))))
  }

  lemma InnerChild(f: Spot, h: int)
    requires OneRedPair(f, h) && RedOwner(f.c) && f.c.dir != f.c.up.dir
    ensures OneRedPair(Outward(f), h) && RedOwner(Outward(f).c)
    ensures Outward(f).c.up == f.c.up && Outward(f).c.dir == f.c.up.dir
  {
  }

  /** Case 3, outer child and black uncle: its owner takes the grandparent's place. */
  ghost function Lift(f: Spot): Spot
    requires f.c.Frame? && f.c.up.Frame? && f.c.dir == f.c.up.dir
  {
    After(Turn(Other(f.c.up.dir), Paint(Above(Paint(Above(f), Black)), Red)))
  }

  lemma OuterChild(f: Spot, h: int)
    requires OneRedPair(f, h) && RedOwner(f.c) && f.c.dir == f.c.up.dir && !IsRed(f.c.up.sib)
    ensures OneRedPair(Below(f.c.dir, Lift(f)), h) && !RedOwner(Below(f.c.dir, Lift(f)).c)
    ensures Child(Lift(f).t, f.c.dir) == f.t
  {
    assert PathGood(f.c.up, h);
  }

  /** Without a red pair, blackening the root leaves no rule broken. */
  lemma RootTurnsBlack(f: Spot, h: int)
    requires OneRedPair(f, h) && !RedOwner(f.c)
    ensures Plug(f.c, f.t).Node? && RedBlack(Plug(f.c, f.t).(color := Black))
  {
    PlugNode(f.c, f.t);
    PlugGood(f.c, f.t, h);
    var p := Plug(f.c, f.t);
    if IsRed(p) {
      assert Good(p.(color := Black), BlackHeight(p) + 1);
    }
  }

  // ----------------------------------------------------------------- deletion

  /** The ways through the hole of `f.c` lack one black node. A red `f.t` stands for
      the node that is about to be painted black, which adds it. */
  ghost predicate OneBlackMissing(f: Spot, h: nat) {
    && PathGood(f.c, h + 1)
    && if IsRed(f.t) then Good(f.t.(color := Black), h + 1) else Good(f.t, h)
  }

  lemma {:induction false} GoodTakesBlack(t: Tree, h: int)
    requires Good(t, h)
    ensures h >= 0 && (IsRed(t) ==> Good(t.(color := Black), h + 1))
  {
    GoodHeight(t, h);
  }

  lemma SiblingIsReal(f: Spot, h: nat)
    requires OneBlackMissing(f, h) && f.c.Frame?
    ensures f.c.sib.Node? && (f.c.sib.color.Red? ==> f.c.color.Black?)
    ensures f.c.sib.color.Red? ==> f.c.sib.left.Node? && f.c.sib.right.Node?
  {
    var s := f.c.sib;
    assert s.Node? && s.color.Red? ==> Good(s.left, h + 1) && Good(s.right, h + 1);
  }

  /** Case 1, red sibling: rotate it over the owner. */
  ghost function SiblingUp(f: Spot): Spot
    requires f.c.Frame? && f.c.sib.Node?
  {
    var d := f.c.dir;
    Below(d, Below(d, After(Turn(d, Paint(Above(Paint(Beside(f), Black)), Red)))))
  }

  lemma RedSibling(f: Spot, h: nat)
    requires OneBlackMissing(f, h) && f.c.Frame? && !IsRed(f.t) && IsRed(f.c.sib)
    ensures var r := SiblingUp(f);
      && OneBlackMissing(r, h) && r.t == f.t && r.c.Frame? && r.c.ref == f.c.ref
      && r.c.dir == f.c.dir && r.c.color.Red? && r.c.sib.Node? && !IsRed(r.c.sib)
      && Depth(r.c) == Depth(f.c) + 1
  {
    assert Good(Child(f.c.sib, f.c.dir), h + 1);
    assert PathGood(SiblingUp(f).c.up, h + 1);
  }

  /** Case 2, black sibling without a red child: take the black from both. */
  ghost function BlackUp(f: Spot): Spot
    requires f.c.Frame? && f.c.sib.Node?
  {
    Above(Paint(Beside(f), Red))
  }

  ghost predicate NoRedChild(t: Tree) {
    t.Node? && !IsRed(t.left) && !IsRed(t.right)
  }

  lemma BlackSibling(f: Spot, h: nat)
    requires OneBlackMissing(f, h) && f.c.Frame? && !IsRed(f.t) && !IsRed(f.c.sib) && NoRedChild(f.c.sib)
    ensures OneBlackMissing(BlackUp(f), if f.c.color.Black? then h + 1 else h)
    ensures BlackUp(f).c == f.c.up && BlackUp(f).t.color == f.c.color
  {
    assert Good(f.c.sib.(color := Red), h);
  }

  /** Case 3, the sibling's far child is black: rotate the near one up. */
  ghost function NearUp(f: Spot): Spot
    requires f.c.Frame? && f.c.sib.Node? && Child(f.c.sib, f.c.dir).Node?
  {
    var d := f.c.dir;
    var s := Paint(Above(Paint(Below(d, Beside(f)), Black)), Red);
    Below(d, Above(After(Turn(Other(d), s))))
  }

  lemma RedNear(f: Spot, h: nat)
    requires OneBlackMissing(f, h) && f.c.Frame? && !IsRed(f.t) && !IsRed(f.c.sib) && f.c.sib.Node?
    requires IsRed(Child(f.c.sib, f.c.dir)) && !IsRed(Child(f.c.sib, Other(f.c.dir)))
    ensures var r := NearUp(f);
      && OneBlackMissing(r, h) && r.t == f.t && r.c.Frame? && r.c.ref == f.c.ref
      && r.c.dir == f.c.dir && r.c.up == f.c.up && r.c.color == f.c.color
      && r.c.sib.Node? && !IsRed(r.c.sib) && IsRed(Child(r.c.sib, Other(r.c.dir)))
  {
    var s := f.c.sib;
    assert Good(Child(s, f.c.dir), h) && Good(Child(s, Other(f.c.dir)), h);
    assert Good(Child(NearUp(f).c.sib, Other(f.c.dir)), h);
  }

  /** Case 4, the sibling's far child is red: it becomes the missing black node. */
  ghost function FarUp(f: Spot): Spot
    requires f.c.Frame? && f.c.sib.Node? && Child(f.c.sib, Other(f.c.dir)).Node?
  {
    var d := f.c.dir;
    var p := Paint(Above(Paint(Beside(f), f.c.color)), Black);
    var far := Paint(Below(Other(d), Below(Other(d), p)), Black);
    After(Turn(d, Above(Above(far))))
  }

  lemma RedFar(f: Spot, h: nat)
    requires OneBlackMissing(f, h) && f.c.Frame? && !IsRed(f.t) && f.c.sib.Node? && !IsRed(f.c.sib)
    requires IsRed(Child(f.c.sib, Other(f.c.dir)))
    ensures OneBlackMissing(Whole(FarUp(f)), BlackHeight(Whole(FarUp(f)).t)) && Whole(FarUp(f)).t.Node?
  {
    var s, r, k := f.c.sib, FarUp(f), if f.c.color.Black? then h + 2 else h + 1;
    var near, far := Child(r.t, f.c.dir), Child(r.t, Other(f.c.dir));
    assert Good(Child(s, Other(f.c.dir)), h);
    assert Good(near, h + 1) && Good(far, h + 1);
    assert Good(r.t, k) && PathGood(r.c, k);
    PlugGood(r.c, r.t, k);
    PlugNode(r.c, r.t);
    GoodTakesBlack(Plug(r.c, r.t), BlackHeight(Plug(r.c, r.t)));
    assert Whole(r).t == Plug(r.c, r.t);
    assert !IsRed(Plug(r.c, r.t));
  }

  lemma {:induction false} AppendGood(inner: Ctx, old0: Ctx, new0: Ctx, h: int)
    requires old0.Frame? && new0.Frame? && new0 == old0.(ref := new0.ref, item := new0.item) && PathGood(Append(inner, old0), h)
    ensures PathGood(Append(inner, new0), h)
    decreases inner
  {
    if inner.Frame? {
      AppendGood(inner.up, old0, new0, if inner.color.Black? then h + 1 else h);
    }
  }

  /** The subtree left at a spot after its node has gone: a black node is missed, a red one is not. */
  ghost predicate Repairable(saved: Color, q: Spot, h: nat) {
    if saved.Black? then OneBlackMissing(q, h) else RedBlack(Plug(q.c, q.t))
  }

  lemma UnlinkGood(d: Dir, t: Tree, q: Spot, k: int) returns (h: nat)
    requires t.Node? && Child(t, Other(d)).Leaf? && q.t == Child(t, d)
    requires Good(t, k) && PathGood(q.c, k) && (t.color.Red? ==> q.c.Frame? && q.c.color.Black?)
    ensures Repairable(t.color, q, h)
  {
    if t.color.Black? {
      GoodTakesBlack(q.t, k - 1);
      h := k - 1;
    } else {
      PlugGood(q.c, q.t, k);
      h := 0;
    }
  }

  lemma TakeOutGood(d: Dir, f: Spot) returns (h: nat)
    requires f.t.Node? && Child(f.t, Other(d)).Leaf? && RedBlack(Plug(f.c, f.t))
    ensures Repairable(f.t.color, Without(Turn(d, f)), h)
  {
    var k := UnplugGood(f.c, f.t);
    h := UnlinkGood(d, f.t, Without(Turn(d, f)), k);
  }

  /** The path to the subtree that the successor leaves behind when it replaces the spot's node. */
  ghost function HeirPath(f: Spot, y: Tree): Ctx
    requires f.t.Node? && y.Node?
  {
    Frame(R, f.t.color, y.ref, y.item, f.t.left, f.c)
  }

  lemma SuccessorGood(f: Spot, inner: Ctx, y: Tree, q: Spot) returns (h: nat)
    requires f.t.Node? && y.Node? && y.left.Leaf? && Plug(inner, y) == f.t.right && RedBlack(Plug(f.c, f.t))
    requires q.t == y.right && q.c == Append(inner, HeirPath(f, y))
    ensures Repairable(y.color, q, h)
  {
    var c := Append(inner, Down(R, f.c, f.t));
    PlugAppend(inner, Down(R, f.c, f.t), y);
    var k := UnplugGood(c, y);
    AppendGood(inner, Down(R, f.c, f.t), HeirPath(f, y), k);
    h := UnlinkGood(R, y, q, k);
  }

  /** Colours do not depend on data. */
  lemma RevaluedGood(r: Revalue)
    requires r.f.t.Node? && RedBlack(Plug(r.f.c, r.f.t))
    ensures RedBlack(Plug(Revalued(r).c, Revalued(r).t))
  {
    var h := UnplugGood(r.f.c, r.f.t);
    var t := Revalued(r).t;
    PlugGood(r.f.c, t, h);
    if r.f.c.Top? {
      GoodHeight(t, h);
    }
  }

  /** At the root, or at a red node, painting the node black ends the repair. */
  lemma BlackIsBack(f: Spot, h: nat)
    requires OneBlackMissing(f, h) && (f.c.Top? || IsRed(f.t))
    ensures var t := if f.t.Node? then f.t.(color := Black) else Leaf; RedBlack(Plug(f.c, t))
    ensures f.t.Leaf? ==> f.c.Top?
  {
    if IsRed(f.t) {
      PlugGood(f.c, f.t.(color := Black), h + 1);
    } else {
      GoodHeight(f.t, h);
    }
  }

  /** A bound on the rounds left: paths get shorter, or a red node ends the loop. */
  ghost function Rounds(f: Spot): nat {
    2 * Depth(f.c) + if IsRed(f.t) then 0 else 1
  }

  // ------------------------------------------------- what the rules are worth

  /** A way from the root of `t` down to an empty place. */
  ghost predicate LeadsOut(t: Tree, way: seq<Dir>) {
    if t.Leaf? then way == [] else way != [] && LeadsOut(Child(t, way[0]), way[1..])
  }

  ghost function BlackCount(t: Tree, way: seq<Dir>): nat
    requires LeadsOut(t, way)
  {
    if t.Leaf? then 0 else BlackCount(Child(t, way[0]), way[1..]) + if t.color.Black? then 1 else 0
  }

  ghost predicate RedPairOn(t: Tree, way: seq<Dir>)
    requires LeadsOut(t, way)
  {
    t.Node? && (RedPairOn(Child(t, way[0]), way[1..]) || (t.color.Red? && IsRed(Child(t, way[0]))))
  }

  ghost predicate FairWay(t: Tree, h: int, way: seq<Dir>) {
    LeadsOut(t, way) ==> BlackCount(t, way) == h && !RedPairOn(t, way)
  }

  /** `Good` is the textbook condition on all ways out. */
  lemma {:induction false} GoodMeaning(t: Tree, h: int)
    ensures Good(t, h) <==> forall way :: FairWay(t, h, way)
  {
    if t.Leaf? {
      assert FairWay(t, h, []) <==> h == 0;
    } else {
      var k := if t.color.Black? then h - 1 else h;
      GoodMeaning(t.left, k);
      GoodMeaning(t.right, k);
      if Good(t, h) {
        forall way ensures FairWay(t, h, way) {
          if LeadsOut(t, way) {
            assert FairWay(Child(t, way[0]), k, way[1..]);
          }
        }
      }
      if forall way :: FairWay(t, h, way) {
        forall d, w: seq<Dir>
          ensures FairWay(Child(t, d), k, w)
          ensures LeadsOut(Child(t, d), w) ==> !(t.color.Red? && IsRed(Child(t, d)))
        {
          assert FairWay(t, h, [d] + w) && ([d] + w)[1..] == w;
        }
        var l := WayOut(t.left);
        var r := WayOut(t.right);
        assert FairWay(Child(t, L), k, l) && FairWay(Child(t, R), k, r);
        forall w ensures FairWay(t.left, k, w) && FairWay(t.right, k, w) {
          assert FairWay(Child(t, L), k, w) && FairWay(Child(t, R), k, w);
        }
      }
    }
  }

  lemma {:induction false} WayOut(t: Tree) returns (way: seq<Dir>)
    ensures LeadsOut(t, way)
  {
    if t.Leaf? {
      way := [];
    } else {
      var w := WayOut(t.left);
      way := [L] + w;
      assert way[1..] == w;
    }
  }

  ghost function Pow2(n: nat): nat {
    if n == 0 then 1 else 2 * Pow2(n - 1)
  }

  lemma {:induction false} GoodSize(t: Tree, h: nat)
    requires Good(t, h)
    ensures |InOrder(t)| + 1 >= Pow2(h)
    ensures Height(t) <= 2 * h + if IsRed(t) then 1 else 0
  {
    if t.Node? {
      var k := if t.color.Black? then h - 1 else h;
      GoodTakesBlack(t.left, k);
      GoodSize(t.left, k);
      GoodSize(t.right, k);
    }
  }

  lemma {:induction false} PowersGrow(m: nat, n: nat)
    requires m <= n
    ensures Pow2(m) <= Pow2(n) && Pow2(n + n) == Pow2(n) * Pow2(n)
    decreases n
  {
    if m < n {
      PowersGrow(m, n - 1);
    } else if n > 0 {
      PowersGrow(n - 1, n - 1);
    }
    if n > 0 {
      assert Pow2(n + n) == 4 * Pow2((n - 1) + (n - 1));
    }
  }

  /** The height is at most twice the binary logarithm of the number of entries plus one. */
  lemma RedBlackHeight(t: Tree)
    requires RedBlack(t)
    ensures var n := |InOrder(t)| + 1; Pow2(Height(t)) <= n * n
  {
    var h := BlackHeight(t);
    GoodSize(t, h);
    PowersGrow(Height(t), 2 * h);
    PowersGrow(h, h);
    var n := |InOrder(t)| + 1;
    assert Pow2(h) * Pow2(h) <= n * n by {
      SquaresGrow(Pow2(h), n);
    }
  }

  lemma SquaresGrow(a: nat, b: nat)
    requires a <= b
    ensures a * a <= b * b
  {
    assert b * b - a * a == (b - a) * (b + a);
  }
}
