/** The pool allocator: a list of nodes to carve small blocks from, a list of large blocks
    whose headers are small blocks themselves, and the teardown of it all. */
module Pool {
  import opened PoolLayout

  class PoolNode {
    const base: nat
    var emptyStart: nat
    var next: PoolNode?
    var large: LargeBlock?
    /** Whether the node's memory has been given back to the system. */
    ghost var freed: bool

    constructor (addr: nat, head: nat)
      ensures base == addr && emptyStart == addr + head && next == null && large == null && !freed
    {
      base, emptyStart, next, large, freed := addr, addr + head, null, null, false;
    }

    function GetNext(): PoolNode?
      requires !freed
      reads this
    {
      next
    }

    function GetLarge(): LargeBlock?
      requires !freed
      reads this
    {
      large
    }

    function GetAlignedPtr(): nat
      requires !freed
      reads this
    {
      Aligned(emptyStart)
    }
  }

  class LargeBlock {
    const addr: nat          // where the header lies
    const payload: nat       // what malloc returned
    var isFreed: bool        // m_pData has been freed and set to null
    var next: LargeBlock?
    /** The header is the pool's small block number `block`, which lies in node `home`. */
    ghost const block: nat
    ghost const home: PoolNode

    constructor (a: nat, p: nat, ghost b: nat, ghost h: PoolNode)
      ensures addr == a && payload == p && !isFreed && next == null && block == b && home == h
    {
      addr, payload, isFreed, next, block, home := a, p, false, null, b, h;
    }

    function GetNext(): LargeBlock?
      requires !home.freed
      reads this, home
    {
      next
    }
  }

  lemma LastBlock(spans: seq<Span>, blocks: seq<Block>)
    requires Sound(spans, blocks) && blocks != []
    ensures blocks[|blocks| - 1].node < |spans|
  {
    assert BlockOk(spans, blocks[|blocks| - 1]);
  }

  class Pool {
    const first: PoolNode
    /** The nodes in list order and what they look like, the large blocks from the newest on,
        and the small blocks in the order they were handed out. */
    ghost var nodes: seq<PoolNode>
    ghost var spans: seq<Span>
    ghost var larges: seq<LargeBlock>
    ghost var blocks: seq<Block>

    ghost function NodeAt(i: int): PoolNode?
      reads this`nodes
    {
      if 0 <= i < |nodes| then nodes[i] else null
    }

    ghost function LargeAt(i: int): LargeBlock?
      reads this`larges
    {
      if 0 <= i < |larges| then larges[i] else null
    }

    ghost predicate NodeLinked(i: nat)
      requires i < |nodes| == |spans|
      reads this`nodes, this`spans, nodes
    {
      && nodes[i].next == NodeAt(i + 1) && !nodes[i].freed && (i > 0 ==> nodes[i].large == null)
      && nodes[i].base == spans[i].base && nodes[i].emptyStart == spans[i].start
    }

    ghost predicate Nodes()
      reads this`nodes, this`spans, nodes
    {
      && |nodes| == |spans| && nodes != [] && nodes[0] == first
      && forall i | 0 <= i < |nodes| :: NodeLinked(i)
    }

    ghost predicate LargeLinked(i: nat)
      requires i < |larges|
      reads this`larges, larges
    {
      larges[i].next == LargeAt(i + 1) && !larges[i].isFreed
    }

    /** The header of a large block is a small block of the pool. */
    ghost predicate HeaderPlaced(i: nat)
      requires i < |larges|
      reads this`larges, this`blocks, this`nodes
    {
      && larges[i].block < |blocks| && blocks[larges[i].block].node < |nodes|
      && blocks[larges[i].block] == Block(larges[i].addr, LARGE_HEAD, blocks[larges[i].block].node)
      && larges[i].home == nodes[blocks[larges[i].block].node]
    }

    ghost predicate Larges()
      reads this`larges, this`blocks, this`nodes, first`large, larges
    {
      && first.large == LargeAt(0)
      && (forall i, j | 0 <= i < j < |larges| :: larges[i] != larges[j])
      && (forall i | 0 <= i < |larges| :: LargeLinked(i))
      && forall i | 0 <= i < |larges| :: HeaderPlaced(i)
    }

    ghost predicate Valid()
      reads this, first, nodes, larges
    {
      Nodes() && Larges() && Sound(spans, blocks)
    }

    constructor (place: nat)
      requires CanPlace([], place)
      ensures Valid() && spans == [Span(place, place + POOL_HEAD)] && blocks == [] && larges == []
      ensures fresh(nodes)
    {
      first := new PoolNode(place, POOL_HEAD);
      nodes, larges, blocks := [first], [], [];
      spans := [Span(place, place + POOL_HEAD)];
    }

    /** Nodes at different places are different nodes. */
    lemma NodesDiffer(i: nat, j: nat)
      requires Nodes() && Sound(spans, blocks) && i < j < |nodes|
      ensures nodes[i] != nodes[j]
    {
      hide BlockOk, NodeOk;
      assert NodeLinked(i) && NodeLinked(j);
      assert Clear(spans[i].base, NODE_BYTES, spans[j].base, NODE_BYTES);
    }

    /** The search of `DoPoolAllocate`: the first node with room, or the last node. */
    method FindNode(size: nat) returns (current: PoolNode?, last: PoolNode, ghost n: nat)
      requires Nodes()
      ensures n == FirstFit(spans, size) && current == NodeAt(n)
      ensures current == null ==> last == nodes[|nodes| - 1]
    {
      hide FirstFit, Aligned;
      current, last, n := first, first, 0;
      while current != null
        invariant 0 <= n <= |nodes| && current == NodeAt(n) && (n > 0 ==> last == nodes[n - 1])
        invariant forall j :: 0 <= j < n ==> !HasRoom(spans[j], size)
        decreases |nodes| - n
      {
        assert NodeLinked(n);
        var aligned := current.GetAlignedPtr();
        if size <= (current.base + NODE_BYTES - aligned) % WORD { break; }
        last := current;
        current := current.GetNext();
        n := n + 1;
      }
      FirstFitIs(spans, size, n);
    }

    /** Links a new node behind the last one; `place` is what `posix_memalign` returned. */
    method AddNode(last: PoolNode, place: nat, size: nat) returns (node: PoolNode)
      requires Valid() && last == nodes[|nodes| - 1]
      requires CanPlace(spans, place) && FirstFit(spans, size) == |nodes| && size <= SMALL_LIMIT
      modifies this`nodes, this`spans, last`next
      ensures Valid() && fresh(node) && nodes == old(nodes) + [node]
      ensures spans == Grown(old(spans), size, place)
    {
      hide Sound, FirstFit, CanPlace, Grown;
      GrownSound(spans, blocks, size, place);
      GrownIs(spans, size, place);
      node := new PoolNode(place, NODE_HEAD);
      forall i | 0 <= i < |nodes| - 1 ensures nodes[i] != last {
        NodesDiffer(i, |nodes| - 1);
      }
      last.next := node;
      nodes := nodes + [node];
      spans := spans + [Span(place, place + NODE_HEAD)];
      forall i | 0 <= i < |nodes| ensures NodeLinked(i) {
        assert i < |nodes| - 1 ==> old(NodeLinked(i));
      }
      forall i | 0 <= i < |larges| ensures HeaderPlaced(i) {
        assert old(HeaderPlaced(i));
      }
    }

    /** Takes `size` bytes from the aligned start of the first node with room. */
    method AllocateSmall(size: nat, place: nat) returns (addr: nat)
      requires Valid() && CanPlace(spans, place) && size <= SMALL_LIMIT
      modifies this`nodes, this`spans, this`blocks, nodes
      ensures Valid() && old(nodes) <= nodes && fresh(nodes[|old(nodes)|..])
      ensures spans == Taken(old(spans), size, place)
      ensures blocks == old(blocks) + [Given(old(spans), size, place)] && addr == blocks[|old(blocks)|].addr
      ensures first.large == old(first.large)
    {
      hide Sound, FirstFit, CanPlace, Grown, HasRoom, Aligned;
      ghost var was := spans;
      AllocationSound(was, blocks, size, place);
      GrownIs(was, size, place);
      var current, last;
      ghost var n;
      current, last, n := FindNode(size);
      if current == null {
        current := AddNode(last, place, size);
      }
      addr := Carve(current, n, size);
      blocks := blocks + [Given(was, size, place)];
      forall i | 0 <= i < |larges| ensures HeaderPlaced(i) {
        assert old(HeaderPlaced(i));
      }
    }

    method Carve(node: PoolNode, ghost n: nat, size: nat) returns (addr: nat)
      requires Valid() && n < |nodes| && nodes[n] == node
      modifies this`spans, node`emptyStart
      ensures Nodes() && Larges() && addr == Aligned(old(spans)[n].start)
      ensures spans == old(spans)[n := old(spans)[n].(start := addr + size)]
    {
      hide Sound, Aligned, Larges;
      assert NodeLinked(n);
      addr := node.GetAlignedPtr();
      forall i | 0 <= i < |nodes| && i != n ensures nodes[i] != node {
        if i < n { NodesDiffer(i, n); } else { NodesDiffer(n, i); }
      }
      node.emptyStart := addr + size;
      spans := spans[n := spans[n].(start := addr + size)];
      forall i | 0 <= i < |nodes| ensures NodeLinked(i) {
        assert old(NodeLinked(i));
      }
    }

    /** `payload` is what `malloc(size)` returned, should it come to that. A large block's
        header is itself a small block, so the two methods call each other only once. */
    method DoPoolAllocate(size: nat, place: nat, payload: nat) returns (addr: nat)
      requires Valid() && CanPlace(spans, place)
      modifies this, nodes
      ensures Valid() && old(nodes) <= nodes && fresh(nodes[|old(nodes)|..])
      ensures var cut := if size > SMALL_LIMIT then LARGE_HEAD else size;
        && spans == Taken(old(spans), cut, place)
        && blocks == old(blocks) + [Given(old(spans), cut, place)]
      ensures size <= SMALL_LIMIT ==> addr == blocks[|old(blocks)|].addr && larges == old(larges)
      ensures size > SMALL_LIMIT ==>
        && addr == payload && |larges| > 0 && fresh(larges[0]) && larges[1..] == old(larges)
        && larges[0].addr == blocks[|old(blocks)|].addr && larges[0].payload == payload
      decreases size > SMALL_LIMIT
    {
      if size > SMALL_LIMIT {
        addr := DoPoolAllocateLarge(size, place, payload);
      } else {
        addr := AllocateSmall(size, place);
      }
    }

    method DoPoolAllocateLarge(size: nat, place: nat, payload: nat) returns (addr: nat)
      requires Valid() && CanPlace(spans, place) && size > SMALL_LIMIT
      modifies this, nodes
      ensures Valid() && old(nodes) <= nodes && fresh(nodes[|old(nodes)|..])
      ensures spans == Taken(old(spans), LARGE_HEAD, place)
      ensures blocks == old(blocks) + [Given(old(spans), LARGE_HEAD, place)]
      ensures addr == payload && |larges| > 0 && fresh(larges[0]) && larges[1..] == old(larges)
      ensures larges[0].addr == blocks[|old(blocks)|].addr && larges[0].payload == payload
      decreases true, 0
    {
      hide Sound, FirstFit, CanPlace, Grown, HasRoom, Taken;
      var temp := DoPoolAllocate(LARGE_HEAD, place, payload);
      ghost var k := |blocks| - 1;
      LastBlock(spans, blocks);
      var large := new LargeBlock(temp, payload, k, nodes[blocks[k].node]);
      label Mid:
      forall i | 0 < i < |nodes| ensures nodes[i] != first {
        NodesDiffer(0, i);
      }
      large.next := first.large;
      first.large := large;
      larges := [large] + larges;
      forall i | 0 <= i < |nodes| ensures NodeLinked(i) {
        assert old@Mid(NodeLinked(i));
      }
      forall i | 0 <= i < |larges| ensures LargeLinked(i) && HeaderPlaced(i) {
        assert i > 0 ==> old@Mid(LargeLinked(i - 1) && HeaderPlaced(i - 1));
      }
      addr := large.payload;
    }

    /** `~xtyLargeBlock`, called on the newest large block: frees every payload down the list. */
    method FreeLarges(newest: LargeBlock) returns (log: seq<Release>)
      requires Valid() && newest == LargeAt(0)
      modifies larges
      ensures log == Payloads(larges) && Nodes()
    {
      hide Sound, Nodes, NodeLinked, HeaderPlaced;
      log := [];
      var p: LargeBlock? := newest;
      ghost var i := 0;
      while p != null
        invariant 0 <= i <= |larges| && p == LargeAt(i) && log == Payloads(larges)[..i]
        invariant forall j | i <= j < |larges| :: LargeLinked(j)
        invariant Nodes()
        decreases |larges| - i
      {
        assert LargeLinked(i) && HeaderPlaced(i);
        HomeAlive(i);
        assert forall j | i < j < |larges| :: larges[j] != larges[i] && LargeLinked(j);
        label Before:
        if !p.isFreed {
          log := log + [Payload(p)];
          p.isFreed := true;
        }
        forall j | i < j < |larges| ensures LargeLinked(j) {
          assert old@Before(LargeLinked(j));
        }
        p := p.GetNext();
        i := i + 1;
      }
    }

    lemma HomeAlive(i: nat)
      requires Nodes() && i < |larges| && HeaderPlaced(i)
      ensures !larges[i].home.freed
    {
      assert NodeLinked(blocks[larges[i].block].node);
    }

    /** Gives everything back: first the large payloads, whose headers lie in nodes, then the
        other nodes, and the pool itself, which holds the first node, last. */
    method MemoryCleanUp() returns (log: seq<Release>)
      requires Valid()
      modifies nodes, larges
      ensures log == GivenBack(larges, nodes)
    {
      assert first.large == LargeAt(0);
      hide Sound, Larges;
      assert NodeLinked(0);
      forall i, j | 0 <= i < j < |nodes| ensures nodes[i] != nodes[j] {
        NodesDiffer(i, j);
      }
      var current: PoolNode? := first;
      var next := current.GetNext();
      log := [];
      ghost var i := 0;
      while current != null
        invariant 0 <= i < |nodes| && current == nodes[i] && next == NodeAt(i + 1)
        invariant i == 0 ==> Valid() && first.large == LargeAt(0) && log == []
        invariant i > 0 ==> log == Payloads(larges) + Extras(nodes)[..i - 1]
        invariant forall j | i <= j < |nodes| :: NodeLinked(j)
        decreases |nodes| - i
      {
        assert NodeLinked(i) && forall j | i <= j < |nodes| :: NodeLinked(j);
        label Before:
        if current.GetLarge() != null {
          log := FreeLarges(current.GetLarge());
          current.large := null;
        }
        if current != first {
          log := log + [Node(current)];
          current.freed := true;
        }
        forall j | i < j < |nodes| ensures NodeLinked(j) {
          assert old@Before(NodeLinked(j)) && nodes[j] != nodes[i];
        }
        if next == null { break; }
        assert NodeLinked(i + 1);
        current := next;
        next := next.GetNext();
        i := i + 1;
      }
      log := log + [Node(first)];
      first.freed := true;
    }

    /** Nothing is given back twice, and nothing is forgotten. */
    lemma EachReleasedOnce()
      requires Valid()
      ensures var r := GivenBack(larges, nodes);
        && (forall i, j :: 0 <= i < j < |r| ==> r[i] != r[j])
        && (forall l <- larges :: Payload(l) in r) && (forall n <- nodes :: Node(n) in r)
    {
      forall i, j | 0 <= i < j < |nodes| ensures nodes[i] != nodes[j] {
        NodesDiffer(i, j);
      }
      ReleasedOnce(larges, nodes);
    }
  }

  /** What goes back to the system: a large block's payload, or a node. */
  datatype Release = Payload(l: LargeBlock) | Node(n: PoolNode)

  ghost function Payloads(larges: seq<LargeBlock>): (r: seq<Release>)
    ensures |r| == |larges|
  {
    seq(|larges|, i requires 0 <= i < |larges| => Payload(larges[i]))
  }

  /** The nodes behind the first. */
  ghost function Extras(nodes: seq<PoolNode>): (r: seq<Release>)
    requires nodes != []
    ensures |r| == |nodes| - 1
  {
    seq(|nodes| - 1, i requires 0 <= i < |nodes| - 1 => Node(nodes[i + 1]))
  }

  /** All payloads from the newest on, all extra nodes in list order, and the pool. */
  ghost function GivenBack(larges: seq<LargeBlock>, nodes: seq<PoolNode>): seq<Release>
    requires nodes != []
  {
    Payloads(larges) + Extras(nodes) + [Node(nodes[0])]
  }

  lemma ReleasedOnce(larges: seq<LargeBlock>, nodes: seq<PoolNode>)
    requires nodes != []
    requires forall i, j :: 0 <= i < j < |larges| ==> larges[i] != larges[j]
    requires forall i, j :: 0 <= i < j < |nodes| ==> nodes[i] != nodes[j]
    ensures var r := GivenBack(larges, nodes);
      && (forall i, j :: 0 <= i < j < |r| ==> r[i] != r[j])
      && (forall l <- larges :: Payload(l) in r) && (forall n <- nodes :: Node(n) in r)
  {
    var r, k := GivenBack(larges, nodes), |larges|;
    assert forall i | 0 <= i < k :: r[i] == Payload(larges[i]);
    assert r[|r| - 1] == Node(nodes[0]);
    forall i | 0 < i < |nodes| ensures r[k + i - 1] == Node(nodes[i]) {
    }
  }

  // ------------------------------------------------------- whole histories

  /** What the system gets back: an address that `malloc` gave, or that of a node. */
  datatype Returned = PayloadAt(a: nat) | NodeAt(a: nat)

  function Where(r: Release): Returned {
    match r
    case Payload(l) => PayloadAt(l.payload)
    case Node(n) => NodeAt(n.base)
  }

  function Places(log: seq<Release>): (p: seq<Returned>)
    ensures |p| == |log|
  {
    seq(|log|, i requires 0 <= i < |log| => Where(log[i]))
  }

  /** The payloads of the large requests among the first `n`, newest first. */
  function LargeOnes(requests: seq<Request>, payloads: seq<nat>, n: nat): seq<nat>
    requires n <= |requests| == |payloads|
  {
    if n == 0 then []
    else if requests[n - 1].size > SMALL_LIMIT then [payloads[n - 1]] + LargeOnes(requests, payloads, n - 1)
    else LargeOnes(requests, payloads, n - 1)
  }

  /** All that the system has given, in the order in which it comes back. */
  function AllBack(spans: seq<Span>, large: seq<nat>): (p: seq<Returned>)
    requires spans != []
    ensures |p| == |large| + |spans|
  {
    seq(|large|, i requires 0 <= i < |large| => PayloadAt(large[i]))
    + seq(|spans| - 1, i requires 0 <= i < |spans| - 1 => NodeAt(spans[i + 1].base)) + [NodeAt(spans[0].base)]
  }

  ghost predicate PayloadsAre(larges: seq<LargeBlock>, payloads: seq<nat>) {
    |larges| == |payloads| && forall i | 0 <= i < |larges| :: larges[i].payload == payloads[i]
  }

  lemma PlacesJoin(x: seq<Release>, y: seq<Release>)
    ensures Places(x + y) == Places(x) + Places(y)
  {
  }

  lemma BackAre(larges: seq<LargeBlock>, payloads: seq<nat>, nodes: seq<PoolNode>, spans: seq<Span>)
    requires PayloadsAre(larges, payloads) && |nodes| == |spans| > 0
    requires forall i | 0 <= i < |nodes| :: nodes[i].base == spans[i].base
    ensures Places(GivenBack(larges, nodes)) == AllBack(spans, payloads)
  {
    var x, y, z := Payloads(larges), Extras(nodes), [Node(nodes[0])];
    PlacesJoin(x + y, z);
    PlacesJoin(x, y);
    assert forall i | 0 <= i < |larges| :: x[i] == Payload(larges[i]);
    assert Places(x) == seq(|payloads|, i requires 0 <= i < |payloads| => PayloadAt(payloads[i]));
    assert forall i | 0 <= i < |y| :: y[i] == Node(nodes[i + 1]);
    assert Places(y) == seq(|spans| - 1, i requires 0 <= i < |spans| - 1 => NodeAt(spans[i + 1].base));
    assert Places(z) == [NodeAt(spans[0].base)];
  }

  /** What is so after `n` requests. */
  ghost predicate Stands(p: Pool, place: nat, requests: seq<Request>, payloads: seq<nat>, n: nat)
    requires n <= |requests| == |payloads|
    reads p, p.first, p.nodes, p.larges
  {
    var h := StateAfter(place, requests, n);
    && p.Valid() && p.spans == h.spans && p.blocks == h.blocks && |h.blocks| == n
    && PayloadsAre(p.larges, LargeOnes(requests, payloads, n))
  }

  method Serve(p: Pool, ghost place: nat, requests: seq<Request>, payloads: seq<nat>, n: nat) returns (addr: nat)
    requires n < |requests| == |payloads| && Stands(p, place, requests, payloads, n) && AnsweredAt(place, requests, n)
    modifies p, p.nodes
    ensures Stands(p, place, requests, payloads, n + 1)
    ensures |p.blocks| == n + 1 && p.blocks[..n] == old(p.blocks)
    ensures addr == if requests[n].size > SMALL_LIMIT then payloads[n] else p.blocks[n].addr
    ensures (forall x <- p.nodes :: x in old(p.nodes) || fresh(x)) && forall x <- p.larges :: x in old(p.larges) || fresh(x)
  {
    hide Taken, Given, CanPlace, Pool.Valid, PayloadsAre;
    ghost var nodes, larges := p.nodes, p.larges;
    addr := p.DoPoolAllocate(requests[n].size, requests[n].place, payloads[n]);
    assert p.nodes == nodes + p.nodes[|nodes|..];
    if requests[n].size > SMALL_LIMIT {
      assert p.larges == [p.larges[0]] + larges;
      OneMorePayload(p.larges[0], larges, LargeOnes(requests, payloads, n));
    }
  }

  lemma OneMorePayload(l: LargeBlock, larges: seq<LargeBlock>, payloads: seq<nat>)
    requires PayloadsAre(larges, payloads)
    ensures PayloadsAre([l] + larges, [l.payload] + payloads)
  {
  }

  method TearDown(p: Pool, ghost place: nat, requests: seq<Request>, payloads: seq<nat>) returns (log: seq<Release>)
    requires |payloads| == |requests| && Stands(p, place, requests, payloads, |requests|)
    modifies p.nodes, p.larges
    ensures StateAfter(place, requests, |requests|).spans != []
    ensures StateAfter(place, requests, |requests|).blocks == old(p.blocks)
    ensures Places(log) == AllBack(StateAfter(place, requests, |requests|).spans, LargeOnes(requests, payloads, |requests|))
    ensures forall i, j | 0 <= i < j < |log| :: log[i] != log[j]
  {
    hide StateAfter, LargeOnes, AllBack, GivenBack, PayloadsAre;
    assert forall i | 0 <= i < |p.nodes| :: p.NodeLinked(i) && p.nodes[i].base == p.spans[i].base;
    BackAre(p.larges, LargeOnes(requests, payloads, |requests|), p.nodes, p.spans);
    hide Pool.Valid;
    p.EachReleasedOnce();
    log := p.MemoryCleanUp();
  }

  /** A small request gets its block, a large one its payload. */
  predicate Served(addrs: seq<nat>, requests: seq<Request>, payloads: seq<nat>, blocks: seq<Block>) {
    && |addrs| == |blocks| <= |requests| == |payloads|
    && forall k | 0 <= k < |addrs| :: addrs[k] == if requests[k].size > SMALL_LIMIT then payloads[k] else blocks[k].addr
  }

  lemma OneMoreServed(addrs: seq<nat>, requests: seq<Request>, payloads: seq<nat>, blocks: seq<Block>, addr: nat, more: seq<Block>)
    requires Served(addrs, requests, payloads, blocks) && |blocks| < |requests|
    requires var n := |blocks|;
      |more| == n + 1 && more[..n] == blocks && addr == if requests[n].size > SMALL_LIMIT then payloads[n] else more[n].addr
    ensures Served(addrs + [addr], requests, payloads, more)
  {
    assert forall k | 0 <= k < |blocks| :: more[k] == more[..|blocks|][k] == blocks[k];
  }

  method Start(place: nat, requests: seq<Request>, payloads: seq<nat>) returns (p: Pool)
    requires Answered(place, requests) && |payloads| == |requests|
    ensures fresh(p) && fresh(p.nodes) && p.larges == [] && p.blocks == []
    ensures Stands(p, place, requests, payloads, 0) && Served([], requests, payloads, p.blocks)
  {
    p := new Pool(place);
  }

  /** Every history of requests to a new pool, and its teardown: each request gets the block
      that `StateAfter` says, or the payload, and then each payload and each node is given
      back once. */
  method RunAll(place: nat, requests: seq<Request>, payloads: seq<nat>) returns (addrs: seq<nat>, log: seq<Release>)
    requires Answered(place, requests) && |payloads| == |requests|
    ensures var h := StateAfter(place, requests, |requests|);
      && |addrs| == |requests| && Served(addrs, requests, payloads, h.blocks)
      && h.spans != [] && Places(log) == AllBack(h.spans, LargeOnes(requests, payloads, |requests|))
    ensures forall i, j | 0 <= i < j < |log| :: log[i] != log[j]
  {
    hide Answered, AnsweredAt, Served, LargeOnes, AllBack, Places, CanPlace, Pool.Valid;
    hide Stands, StateAfter;
    var p := Start(place, requests, payloads);
    addrs := [];
    for n := 0 to |requests|
      invariant fresh(p) && (forall x <- p.nodes :: fresh(x)) && forall x <- p.larges :: fresh(x)
      invariant fresh(p.nodes) && fresh(p.larges) && |addrs| == |p.blocks| == n
      invariant Stands(p, place, requests, payloads, n) && Served(addrs, requests, payloads, p.blocks)
    {
      IsAnswered(place, requests, n);
      ghost var blocks := p.blocks;
      var addr := Serve(p, place, requests, payloads, n);
      OneMoreServed(addrs, requests, payloads, blocks, addr, p.blocks);
      addrs := addrs + [addr];
      assert (forall i | 0 <= i < |p.nodes| :: p.nodes[i] in p.nodes) && forall i | 0 <= i < |p.larges| :: p.larges[i] in p.larges;
    }
    log := TearDown(p, place, requests, payloads);
  }

  lemma IsAnswered(place: nat, requests: seq<Request>, n: nat)
    requires Answered(place, requests) && n < |requests|
    ensures AnsweredAt(place, requests, n)
  {
  }
}
