/** Where the pool allocator puts its blocks: nodes of fixed size, each a header followed by
    blocks and then free space. */
module PoolLayout {

  // Sizes on a 64-bit host.
  const PTR_ALIGNMENT: nat := 8       // sizeof(unsigned long)
  const POOL_ALIGNMENT: nat := 16
  const NODE_BYTES: nat := 4 * 4096   // XTY_DEFAULT_POOL_SIZE
  const NODE_HEAD: nat := 32          // sizeof(xtyPoolNode): four pointers
  const POOL_HEAD: nat := 64          // sizeof(xtyPool): dispatch pointer, mutex, first node
  const LARGE_HEAD: nat := 16         // sizeof(xtyLargeBlock): two pointers
  const SMALL_LIMIT: nat := 4096 - POOL_HEAD   // largest size that counts as small
  const WORD: nat := 0x1_0000_0000_0000_0000

  /** A node: its address, and where its free space starts. */
  datatype Span = Span(base: nat, start: nat) {
    function End(): nat { base + NODE_BYTES }
  }

  /** A block handed out, and the node it lies in. */
  datatype Block = Block(addr: nat, size: nat, node: nat)

  function Head(i: nat): nat {
    if i == 0 then POOL_HEAD else NODE_HEAD
  }

  /** `GetAlignedPtr`: clearing the low bits of `p + 7` gives the least multiple of 8 from `p` on. */
  function Aligned(p: nat): (r: nat)
    ensures r % 8 == 0 && p <= r < p + 8
    ensures forall x: nat | x % 8 == 0 && p <= x :: r <= x
  {
    (p + PTR_ALIGNMENT - 1) / PTR_ALIGNMENT * PTR_ALIGNMENT
  }

  /** The test for enough room, on the difference of the two pointers as an unsigned word. */
  function HasRoom(s: Span, size: nat): bool {
    size <= (s.End() - Aligned(s.start)) % WORD
  }

  /** The first node with enough room; the number of nodes if there is none. */
  ghost function FirstFit(spans: seq<Span>, size: nat): (i: nat)
    ensures i <= |spans| && (i < |spans| ==> HasRoom(spans[i], size))
    ensures forall j | 0 <= j < i :: !HasRoom(spans[j], size)
  {
    if spans == [] || HasRoom(spans[0], size) then 0 else 1 + FirstFit(spans[1..], size)
  }

  lemma FirstFitIs(spans: seq<Span>, size: nat, i: nat)
    requires i <= |spans| && (i < |spans| ==> HasRoom(spans[i], size))
    requires forall j | 0 <= j < i :: !HasRoom(spans[j], size)
    ensures FirstFit(spans, size) == i
  {
  }

  /** The nodes with one more behind them when none has room. */
  ghost function Grown(spans: seq<Span>, size: nat, place: nat): (r: seq<Span>)
    ensures FirstFit(spans, size) < |r|
  {
    if FirstFit(spans, size) < |spans| then spans else spans + [Span(place, place + NODE_HEAD)]
  }

  lemma GrownIs(spans: seq<Span>, size: nat, place: nat)
    ensures Grown(spans, size, place) ==
      if FirstFit(spans, size) < |spans| then spans else spans + [Span(place, place + NODE_HEAD)]
  {
  }

  ghost function Given(spans: seq<Span>, size: nat, place: nat): Block {
    var i := FirstFit(spans, size);
    Block(Aligned(Grown(spans, size, place)[i].start), size, i)
  }

  ghost function Taken(spans: seq<Span>, size: nat, place: nat): seq<Span> {
    var i, r := FirstFit(spans, size), Grown(spans, size, place);
    r[i := r[i].(start := Aligned(r[i].start) + size)]
  }

  /** `[a, a + m)` and `[b, b + n)` have no byte in common. */
  ghost predicate Clear(a: nat, m: nat, b: nat, n: nat) {
    a + m <= b || b + n <= a
  }

  ghost predicate NodeOk(spans: seq<Span>, i: nat)
    requires i < |spans|
  {
    && spans[i].base % POOL_ALIGNMENT == 0 && spans[i].End() < WORD
    && spans[i].base + Head(i) <= spans[i].start <= spans[i].End()
  }

  ghost predicate BlockOk(spans: seq<Span>, b: Block) {
    && b.node < |spans| && b.addr % PTR_ALIGNMENT == 0
    && spans[b.node].base + Head(b.node) <= b.addr && b.addr + b.size <= spans[b.node].start
  }

  ghost predicate Sound(spans: seq<Span>, blocks: seq<Block>) {
    && spans != []
    && (forall i | 0 <= i < |spans| :: NodeOk(spans, i))
    && (forall i, j | 0 <= i < j < |spans| :: Clear(spans[i].base, NODE_BYTES, spans[j].base, NODE_BYTES))
    && (forall k | 0 <= k < |blocks| :: BlockOk(spans, blocks[k]))
    && (forall j, k | 0 <= j < k < |blocks| && blocks[j].node == blocks[k].node ::
          blocks[j].addr + blocks[j].size <= blocks[k].addr)
  }

  /** What `posix_memalign` may answer. */
  ghost predicate CanPlace(spans: seq<Span>, place: nat) {
    && place % POOL_ALIGNMENT == 0 && place + NODE_BYTES < WORD
    && forall i | 0 <= i < |spans| :: Clear(spans[i].base, NODE_BYTES, place, NODE_BYTES)
  }

  /** The end of a node is aligned, so aligning never passes it, the difference is no wrapped
      word, and the test means what it says. */
  lemma RoomIsRoom(spans: seq<Span>, i: nat, size: nat)
    requires i < |spans| && NodeOk(spans, i)
    ensures Aligned(spans[i].start) <= spans[i].End()
    ensures HasRoom(spans[i], size) <==> Aligned(spans[i].start) + size <= spans[i].base + 16384
  {
    EndAligned(spans[i].base);
    hide Aligned;
    var end, p := spans[i].End(), Aligned(spans[i].start);
    assert end % PTR_ALIGNMENT == 0 && spans[i].start <= end;
    assert p <= end;
    SmallWord(end - p);
  }

  lemma EndAligned(base: nat)
    requires base % POOL_ALIGNMENT == 0
    ensures (base + NODE_BYTES) % PTR_ALIGNMENT == 0
  {
    assert base == 16 * (base / 16);
    assert base + NODE_BYTES == 8 * (2 * (base / 16) + 2048);
  }

  lemma SmallWord(n: nat)
    requires n < WORD
    ensures n % WORD == n
  {
  }

  lemma GrownSound(spans: seq<Span>, blocks: seq<Block>, size: nat, place: nat)
    requires Sound(spans, blocks) && CanPlace(spans, place) && size <= SMALL_LIMIT
    ensures Sound(Grown(spans, size, place), blocks)
    ensures HasRoom(Grown(spans, size, place)[FirstFit(spans, size)], size)
  {
    hide FirstFit, HasRoom, Aligned;
    var r := Grown(spans, size, place);
    if FirstFit(spans, size) == |spans| {
      forall i | 0 <= i < |r| ensures NodeOk(r, i) {
        assert i < |spans| ==> NodeOk(spans, i);
      }
      forall k | 0 <= k < |blocks| ensures BlockOk(r, blocks[k]) {
        assert BlockOk(spans, blocks[k]);
      }
      NewRoom(place, size);
    }
  }

  lemma NewRoom(place: nat, size: nat)
    requires place % POOL_ALIGNMENT == 0 && place + NODE_BYTES < WORD && size <= SMALL_LIMIT
    ensures HasRoom(Span(place, place + NODE_HEAD), size)
  {
  }

  /** Every small allocation, wherever the system puts a new node, keeps all blocks aligned,
      inside their nodes past the header, and in order. */
  lemma AllocationSound(spans: seq<Span>, blocks: seq<Block>, size: nat, place: nat)
    requires Sound(spans, blocks) && CanPlace(spans, place) && size <= SMALL_LIMIT
    ensures Sound(Taken(spans, size, place), blocks + [Given(spans, size, place)])
  {
    hide FirstFit, HasRoom, Aligned, Grown;
    var n, r, t := FirstFit(spans, size), Grown(spans, size, place), Taken(spans, size, place);
    var b := Given(spans, size, place);
    GrownSound(spans, blocks, size, place);
    RoomIsRoom(r, n, size);
    forall i | 0 <= i < |t| ensures NodeOk(t, i) {
      assert NodeOk(r, i);
    }
    assert NodeOk(r, n);
    forall k | 0 <= k < |blocks|
      ensures BlockOk(t, blocks[k]) && (blocks[k].node == n ==> blocks[k].addr + blocks[k].size <= b.addr)
    {
      assert BlockOk(r, blocks[k]);
    }
  }

  /** An aligned block between the header of its node and the end of it. */
  ghost predicate Inside(spans: seq<Span>, b: Block) {
    && b.node < |spans| && b.addr % 8 == 0
    && spans[b.node].base + (if b.node == 0 then 64 else 32) <= b.addr && b.addr + b.size <= spans[b.node].base + 16384
  }

  lemma BlockInside(spans: seq<Span>, blocks: seq<Block>, k: nat)
    requires Sound(spans, blocks) && k < |blocks|
    ensures Inside(spans, blocks[k])
  {
    assert BlockOk(spans, blocks[k]) && NodeOk(spans, blocks[k].node);
  }

  /** So no two blocks ever overlap. */
  lemma BlocksApart(spans: seq<Span>, blocks: seq<Block>, j: nat, k: nat)
    requires Sound(spans, blocks) && j < k < |blocks|
    ensures Clear(blocks[j].addr, blocks[j].size, blocks[k].addr, blocks[k].size)
  {
    var x, y := blocks[j].node, blocks[k].node;
    assert BlockOk(spans, blocks[j]) && BlockOk(spans, blocks[k]);
    assert NodeOk(spans, x) && NodeOk(spans, y);
    if x < y {
      assert Clear(spans[x].base, NODE_BYTES, spans[y].base, NODE_BYTES);
    } else if y < x {
      assert Clear(spans[y].base, NODE_BYTES, spans[x].base, NODE_BYTES);
    }
  }

  /** A request to the pool, and where the system would put a new node at that moment. */
  datatype Request = Request(size: nat, place: nat) {
    /** A large block takes no more than its header from the pool. */
    function Cut(): (r: nat)
      ensures r <= SMALL_LIMIT
    {
      if size > SMALL_LIMIT then LARGE_HEAD else size
    }
  }

  datatype History = History(spans: seq<Span>, blocks: seq<Block>)

  /** The pool after the first `n` requests. */
  ghost function StateAfter(place: nat, requests: seq<Request>, n: nat): History
    requires n <= |requests|
  {
    if n == 0 then History([Span(place, place + POOL_HEAD)], [])
    else
      var h, r := StateAfter(place, requests, n - 1), requests[n - 1];
      History(Taken(h.spans, r.Cut(), r.place), h.blocks + [Given(h.spans, r.Cut(), r.place)])
  }

  /** At every request the system has answered with free memory. */
  ghost predicate Answered(place: nat, requests: seq<Request>) {
    && CanPlace([], place)
    && forall k | 0 <= k < |requests| :: AnsweredAt(place, requests, k)
  }

  ghost predicate AnsweredAt(place: nat, requests: seq<Request>, k: nat)
    requires k < |requests|
  {
    CanPlace(StateAfter(place, requests, k).spans, requests[k].place)
  }

  lemma {:induction false} HistorySound(place: nat, requests: seq<Request>, n: nat)
    requires Answered(place, requests) && n <= |requests|
    ensures var h := StateAfter(place, requests, n);
      && Sound(h.spans, h.blocks) && |h.blocks| == n && forall k | 0 <= k < n :: h.blocks[k].size == requests[k].Cut()
  {
    hide Sound, CanPlace, Taken, FirstFit, Grown;
    if n == 0 {
      FirstNodeSound(place);
    } else {
      HistorySound(place, requests, n - 1);
      assert AnsweredAt(place, requests, n - 1);
      var h, r := StateAfter(place, requests, n - 1), requests[n - 1];
      AllocationSound(h.spans, h.blocks, r.Cut(), r.place);
    }
  }

  lemma FirstNodeSound(place: nat)
    requires CanPlace([], place)
    ensures Sound([Span(place, place + POOL_HEAD)], [])
  {
  }

  /** Over every history of requests, each block is as large as asked for, 8-aligned, inside
      its node and past its header, and no two blocks share a byte. */
  lemma EveryHistory(place: nat, requests: seq<Request>)
    requires Answered(place, requests)
    ensures var h := StateAfter(place, requests, |requests|);
      && |h.blocks| == |requests|
      && (forall k | 0 <= k < |h.blocks| ::
            Inside(h.spans, h.blocks[k]) && h.blocks[k].size == if requests[k].size > 4032 then 16 else requests[k].size)
      && forall j, k | 0 <= j < k < |h.blocks| ::
           Clear(h.blocks[j].addr, h.blocks[j].size, h.blocks[k].addr, h.blocks[k].size)
  {
    HistorySound(place, requests, |requests|);
    hide StateAfter, Answered;
    var h := StateAfter(place, requests, |requests|);
    forall k | 0 <= k < |h.blocks| ensures Inside(h.spans, h.blocks[k]) {
      BlockInside(h.spans, h.blocks, k);
    }
    forall j, k | 0 <= j < k < |h.blocks|
      ensures Clear(h.blocks[j].addr, h.blocks[j].size, h.blocks[k].addr, h.blocks[k].size)
    {
      BlocksApart(h.spans, h.blocks, j, k);
    }
  }

  /** The first block of a pool lies right behind the pool's own head, and that of any later
      node right behind the node's. */
  lemma FirstBlocks(spans: seq<Span>, size: nat, place: nat)
    requires CanPlace(spans, place) && size <= SMALL_LIMIT
    ensures Given([Span(place, place + POOL_HEAD)], size, place).addr == place + 64
    ensures FirstFit(spans, size) == |spans| ==> Given(spans, size, place).addr == place + 32
  {
    AlignedHead(place);
    var s := Span(place, place + POOL_HEAD);
    hide Aligned;
    assert HasRoom(s, size);
  }

  /** A block starts less than eight bytes behind what its node had taken before, the next one
      can start right behind it, and nothing is taken of any other node. */
  lemma NothingWasted(spans: seq<Span>, size: nat, place: nat)
    ensures var i, b, t := FirstFit(spans, size), Given(spans, size, place), Taken(spans, size, place);
      && b.node == i && i < |t| && t[i].start == b.addr + b.size && b.size == size
      && |t| == (if i < |spans| then |spans| else |spans| + 1)
      && (forall j | 0 <= j < |spans| && j != i :: t[j] == spans[j])
      && (i < |spans| ==> t[i].base == spans[i].base && spans[i].start <= b.addr < spans[i].start + 8)
  {
    GrownIs(spans, size, place);
    hide FirstFit, Aligned, Grown;
  }

  lemma AlignedHead(place: nat)
    requires place % POOL_ALIGNMENT == 0
    ensures Aligned(place + 64) == place + 64 && Aligned(place + 32) == place + 32
  {
    assert place == 16 * (place / 16);
  }
}
