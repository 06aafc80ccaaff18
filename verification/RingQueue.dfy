/** The queue proper: a ring of doubly linked nodes closed by one sentinel. */
module RingQueues {

  datatype Result<+T> = Ok(value: T) | EmptyQueue

  class QueueNode<T> {
    var data: T
    var prev: QueueNode?<T>
    var next: QueueNode?<T>

    constructor Sentinel(d: T)
      ensures data == d && prev == next == this
    {
      data := d;
      prev, next := this, this;
    }

    constructor (d: T)
      ensures data == d && prev == next == null
    {
      data := d;
      prev, next := null, null;
    }
  }

  class RingQueue<T(==)> {
    const sentinel: QueueNode<T>
    var nodeCount: nat
    /** The data nodes, front to back. */
    ghost var nodes: seq<QueueNode<T>>

    /** The node at position `i`; just outside either end that is the sentinel. */
    ghost function At(i: int): QueueNode<T>
      reads this
    {
      if 0 <= i < |nodes| then nodes[i] else sentinel
    }

    ghost predicate Linked(i: int)
      reads this, sentinel, nodes
    {
      At(i).next == At(i + 1) && At(i + 1).prev == At(i)
    }

    /** Both ways round, the links of the ring visit the nodes in order and come back. */
    ghost predicate Valid()
      reads this, sentinel, nodes
    {
      && nodeCount == |nodes| && sentinel !in nodes
      && (forall i, j :: 0 <= i < j < |nodes| ==> nodes[i] != nodes[j])
      && forall i :: -1 <= i < |nodes| ==> Linked(i)
    }

    ghost function Contents(): seq<T>
      reads this, nodes
    {
      seq(|nodes|, i requires 0 <= i < |nodes| reads this, nodes => nodes[i].data)
    }

    constructor (d: T)
      ensures Valid() && Contents() == [] && fresh(sentinel) && nodes == []
    {
      sentinel := new QueueNode.Sentinel(d);
      nodeCount, nodes := 0, [];
    }

    method EnQueue(x: T)
      requires Valid()
      modifies this, sentinel, nodes
      ensures Valid() && Contents() == old(Contents()) + [x]
      ensures |nodes| > 0 && fresh(nodes[|nodes| - 1]) && nodes[..|nodes| - 1] == old(nodes)
    {
      var node := new QueueNode(x);
      ghost var was := nodes;
      assert Linked(|was| - 1);
      node.prev := sentinel.prev;
      node.next := sentinel;
      sentinel.prev.next := node;
      sentinel.prev := node;
      nodeCount := nodeCount + 1;
      nodes := was + [node];
      forall i | -1 <= i < |nodes| ensures Linked(i) {
        if i < |was| - 1 {
          assert old(Linked(i));
        }
      }
      hide Linked, At;
      assert nodes[..|nodes| - 1] == was;
      assert Contents() == old(Contents()) + [x];
    }

    method DeQueue() returns (r: Result<T>)
      requires Valid()
      modifies this, sentinel, nodes
      ensures Valid() && nodes == if old(nodes) == [] then [] else old(nodes)[1..]
      ensures old(Contents()) == [] ==> r == EmptyQueue && Contents() == []
      ensures old(Contents()) != [] ==> r == Ok(old(Contents())[0]) && Contents() == old(Contents())[1..]
    {
      if nodeCount == 0 {
        return EmptyQueue;
      }
      assert Linked(-1) && Linked(0);
      var node := sentinel.next;
      sentinel.next := node.next;
      node.next.prev := sentinel;
      node.prev := null;
      node.next := null;
      r := Ok(node.data);
      nodeCount := nodeCount - 1;
      nodes := nodes[1..];
      forall i | -1 <= i < |nodes| ensures Linked(i) {
        assert old(Linked(i + 1));
      }
    }

    /** Walks the ring once, leaving each node before it is destroyed. */
    method Clear() returns (destroyed: seq<QueueNode<T>>)
      requires Valid()
      modifies this, sentinel
      ensures Valid() && Contents() == [] && nodes == [] && destroyed == old(nodes)
    {
      var p := sentinel.next;
      destroyed := [];
      assert Linked(-1);
      while p != sentinel
        invariant |destroyed| <= |nodes| && destroyed == nodes[..|destroyed|] && p == At(|destroyed|)
        decreases |nodes| - |destroyed|
      {
        assert Linked(|destroyed|);
        var q := p;
        p := p.next;
        destroyed := destroyed + [q];
      }
      sentinel.prev := sentinel;
      sentinel.next := sentinel;
      nodeCount, nodes := 0, [];
    }

    /** The first node that holds `x`, if any. */
    method Search(x: T) returns (found: QueueNode?<T>)
      requires Valid()
      ensures found == null ==> x !in Contents()
      ensures found != null ==> exists i :: 0 <= i < |nodes| && nodes[i] == found && found.data == x && x !in Contents()[..i]
    {
      found := null;
      var p := sentinel.next;
      ghost var i := 0;
      assert Linked(-1);
      while p != sentinel
        invariant 0 <= i <= |nodes| && p == (if i < |nodes| then nodes[i] else sentinel)
        invariant found == null && x !in Contents()[..i]
        decreases |nodes| - i
      {
        if p.data == x {
          found := p;
          break;
        }
        assert Linked(i);
        p := p.next;
        i := i + 1;
      }
      assert Contents()[..|nodes|] == Contents();
    }
  }

  // ------------------------------------------------------- whole histories

  datatype Op<T> = Put(x: T) | Take | Drop

  function Effect<T>(op: Op<T>, s: seq<T>): seq<T> {
    match op
    case Put(x) => s + [x]
    case Take => if s == [] then [] else s[1..]
    case Drop => []
  }

  /** What taking from the front brings. */
  function Front<T>(s: seq<T>): Result<T> {
    if s == [] then EmptyQueue else Ok(s[0])
  }

  ghost function Effects<T>(ops: seq<Op<T>>, n: nat): seq<T>
    requires n <= |ops|
  {
    if n == 0 then [] else Effect(ops[n - 1], Effects(ops, n - 1))
  }

  /** What the takes among the first `n` operations bring, in order. */
  ghost function Brought<T>(ops: seq<Op<T>>, n: nat): seq<Result<T>>
    requires n <= |ops|
  {
    if n == 0 then [] else
    Brought(ops, n - 1) + if ops[n - 1].Take? then [Front(Effects(ops, n - 1))] else []
  }

  /** Every sequence of operations on a new queue does what it does to a sequence. */
  method RunAll<T(==)>(ops: seq<Op<T>>, d: T) returns (q: RingQueue<T>, taken: seq<Result<T>>)
    ensures fresh(q) && q.Valid() && q.Contents() == Effects(ops, |ops|) && taken == Brought(ops, |ops|)
  {
    hide RingQueue.Valid, RingQueue.Contents;
    q := new RingQueue(d);
    taken := [];
    for i := 0 to |ops|
      invariant fresh(q) && fresh(q.sentinel) && fresh(q.nodes)
      invariant q.Valid() && q.Contents() == Effects(ops, i) && taken == Brought(ops, i)
    {
      match ops[i] {
        case Put(x) => q.EnQueue(x);
        case Take =>
          var r := q.DeQueue();
          taken := taken + [r];
        case Drop => var destroyed := q.Clear();
      }
    }
  }

  /** What the puts among the first `n` operations put in, in order. */
  ghost function PutIn<T>(ops: seq<Op<T>>, n: nat): seq<T>
    requires n <= |ops|
  {
    if n == 0 then [] else PutIn(ops, n - 1) + if ops[n - 1].Put? then [ops[n - 1].x] else []
  }

  /** The values among what takes have brought. */
  ghost function Values<T>(r: seq<Result<T>>): seq<T> {
    if r == [] then [] else
    var n := |r| - 1;
    Values(r[..n]) + if r[n].Ok? then [r[n].value] else []
  }

  /** First in, first out: unless the queue is cleared, what has come out and what is still
      in it are what was put in, in the same order. */
  lemma {:induction false} FirstInFirstOut<T>(ops: seq<Op<T>>, n: nat)
    requires n <= |ops| && forall i :: 0 <= i < n ==> !ops[i].Drop?
    ensures Values(Brought(ops, n)) + Effects(ops, n) == PutIn(ops, n)
  {
    if n > 0 {
      FirstInFirstOut(ops, n - 1);
      var s, r, v := Effects(ops, n - 1), Brought(ops, n - 1), PutIn(ops, n - 1);
      hide Values;
      if ops[n - 1].Put? {
        OneIn(Values(r), s, v, ops[n - 1].x);
        assert r + [] == r;
      } else {
        ValuesMore(r, Front(s));
        OneOut(Values(r), s, v);
        assert v + [] == v;
      }
    }
  }

  lemma OneIn<T>(a: seq<T>, s: seq<T>, v: seq<T>, x: T)
    requires a + s == v
    ensures a + (s + [x]) == v + [x]
  {
  }

  lemma OneOut<T>(a: seq<T>, s: seq<T>, v: seq<T>)
    requires a + s == v
    ensures if s == [] then a + [] + s == v else a + [s[0]] + s[1..] == v
  {
  }

  lemma ValuesMore<T>(r: seq<Result<T>>, x: Result<T>)
    ensures Values(r + [x]) == Values(r) + if x.Ok? then [x.value] else []
  {
    assert (r + [x])[..|r|] == r;
  }
}
