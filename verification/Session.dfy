/** A session at work, step by step: any number of threads receive packets, decode them into
    entities and queue the messages, or take messages off the queue, copy them out and
    release their entities. */
module Session {
  import opened Bytes
  import opened Codec
  import opened Counting
  import opened Options
  import opened Slots

  type Tid(==, !new)
  type Addr(==, !new, 00)

  /** A queued message. Its entity `at` is recorded for reference; no step looks at it. */
  datatype Letter = Letter(at: nat, msg: Addr)

  /** A packet, and the bytes that the decoder finds from the start of its buffer up to the
      end it is told of. */
  datatype Sight = Sight(packet: seq<byte>, bytes: seq<byte>)

  /** Where a thread is. In the last place it is about to use a null pointer. */
  datatype Pc =
    | Idle
    | Received(b: seq<byte>) | Asleep(b: seq<byte>) | Awake(b: seq<byte>)
    | Holding(b: seq<byte>, at: nat) | Decoding(b: seq<byte>, l: Letter) | Pushing(s: Sight, l: Letter)
    | Popped(l: Letter, k: nat) | Releasing(l: Letter) | Signalling | Dereferenced(l: Letter, k: nat)

  /** Who answers for an entity: nobody, a thread, the queue for its k-th message, or nobody
      any more because decoding into it has thrown. */
  datatype Owner = Free | Thread(t: Tid) | Queued(k: nat) | Lost

  /** What the threads share. `arrived` records the packets received, `decoded` what the
      decoder found for each, `accepted` what is behind the messages pushed, `received` what
      clients got for them; `owner` is bookkeeping too. `failed` is set when a message is
      deleted twice or used after its deletion, `overrun` when the decoder is told of an end
      outside its buffer, `nullUsed` when a client is about to use a null pointer. */
  datatype Shared = Shared(
    slots: seq<Slot<Addr>>, heap: map<Addr, Msg>, queue: seq<Letter>, popped: nat,
    arrived: seq<seq<byte>>, decoded: seq<Sight>, accepted: seq<Sight>, received: map<nat, Msg>, owner: seq<Owner>,
    failed: bool, overrun: bool, nullUsed: bool)

  /** Peers send the packets in `packets`, and no others. */
  datatype State = State(pc: map<Tid, Pc>, packets: iset<seq<byte>>, sh: Shared)

  ghost function LenOf(b: seq<byte>): nat
    requires |b| >= TYPE_LEN + SIZE_LEN
  {
    BytesNat(b[TYPE_LEN..TYPE_LEN + SIZE_LEN])
  }

  /** Lengths from here on could carry a pointer past the end of the address space. */
  const FAR: nat := 0x8000_0000_0000_0000

  /** What the receiver lets pass: its comparison narrows the length field to 32 bits. The
      type has to be one that has a message. */
  ghost predicate Accepted(b: seq<byte>) {
    && TYPE_LEN + SIZE_LEN <= |b| <= BUF_LEN && HasType(b)
    && LenOf(b) % 0x1_0000_0000 == |b| && LenOf(b) < FAR
  }

  /** A packet that is as long as it says. */
  ghost predicate HeaderOk(b: seq<byte>) {
    Accepted(b) && LenOf(b) == |b|
  }

  /** What the decoder may find: the packet, zeros to the end of the buffer it was received
      into, and behind that buffer anything, up to as many bytes as the length field says. */
  ghost predicate Sees(s: Sight) {
    && Accepted(s.packet) && s.packet <= s.bytes && |s.bytes| == LenOf(s.packet)
    && (forall i | |s.packet| <= i < |s.bytes| && i < BUF_LEN :: s.bytes[i] == 0)
    && HasType(s.bytes)
  }

  /** What the decoder finds is a message. */
  ghost predicate Good(s: Sight) {
    Sees(s) && Decode(s.bytes).Done?
  }

  ghost predicate Init(s: State, n: nat) {
    && (forall t <- s.pc :: s.pc[t] == Idle)
    && s.sh == Shared(seq(n, _ => Slot(None, false)), map[], [], 0, [], [], [], map[], seq(n, _ => Free),
                      false, false, false)
  }

  ghost predicate Acquire(t: Tid, p: seq<byte>, a: Shared, q: Pc, b: Shared)
    requires |a.owner| == |a.slots|
  {
    var i := FirstFree(a.slots);
    if i == |a.slots| then q == Asleep(p) && b == a
    else q == Holding(p, i) && b == a.(slots := Slots.Acquired(a.slots), owner := a.owner[i := Thread(t)])
  }

  /** Delete what the entity held, create a message at some address not in use. */
  ghost predicate Prepare(p: seq<byte>, i: nat, a: Shared, q: Pc, b: Shared)
    requires i < |a.slots|
  {
    var was := a.slots[i].held;
    var rest := if was.Some? then a.heap - {was.value} else a.heap;
    && q.Decoding? && q.b == p && q.l.at == i && q.l.msg !in rest && q.l.msg in b.heap
    && b == a.(slots := a.slots[i := a.slots[i].(held := Some(q.l.msg))],
               heap := rest[q.l.msg := b.heap[q.l.msg]],
               failed := a.failed || (was.Some? && was.value !in a.heap))
  }

  /** Decodes what is found up to the end that the length field gives. */
  ghost predicate DeSerialize(p: seq<byte>, l: Letter, a: Shared, q: Pc, b: Shared)
    requires Accepted(p) && l.at < |a.owner|
  {
    && l.msg in b.heap
    && if l.msg !in a.heap then q == Idle && b == a.(heap := b.heap, failed := true) else
       && |b.decoded| == |a.decoded| + 1
       && var s, wild := b.decoded[|a.decoded|], a.overrun || LenOf(p) != |p|;
          && s.packet == p && Sees(s) && b.decoded == a.decoded + [s]
          && if Decode(s.bytes).Done? then
               && q == Pushing(s, l)
               && b == a.(heap := a.heap[l.msg := Decode(s.bytes).value], decoded := b.decoded, overrun := wild)
             else
               && q == Idle
               && b == a.(heap := a.heap[l.msg := b.heap[l.msg]], owner := a.owner[l.at := Lost],
                          decoded := b.decoded, overrun := wild)
  }

  /** `RecvMsg` copies a data message; the cast of any other message gives null. */
  ghost predicate Copy(l: Letter, k: nat, a: Shared, q: Pc, b: Shared) {
    if l.msg !in a.heap then q == Releasing(l) && b == a.(failed := true)
    else if a.heap[l.msg].DataMsg? then q == Releasing(l) && b == a.(received := a.received[k := a.heap[l.msg]])
    else q == Dereferenced(l, k) && b == a.(nullUsed := true)
  }

  ghost predicate Act(t: Tid, packets: iset<seq<byte>>, p: Pc, a: Shared, q: Pc, b: Shared) {
    |a.owner| == |a.slots| &&
    match p
    case Idle =>
      || (q.Received? && q.b in packets && Accepted(q.b) && b == a.(arrived := a.arrived + [q.b]))
      || (a.queue != [] && a.queue[0].at < |a.owner| && q == Popped(a.queue[0], a.popped)
          && b == a.(queue := a.queue[1..], popped := a.popped + 1, owner := a.owner[a.queue[0].at := Thread(t)]))
    case Received(c) => Acquire(t, c, a, q, b)
    case Asleep(c) => q == Awake(c) && b == a
    case Awake(c) => Acquire(t, c, a, q, b)
    case Holding(c, i) => i < |a.slots| && Prepare(c, i, a, q, b)
    case Decoding(c, l) => Accepted(c) && l.at < |a.owner| && DeSerialize(c, l, a, q, b)
    case Pushing(c, l) =>
      && l.at < |a.owner| && q == Idle
      && b == a.(queue := a.queue + [l], accepted := a.accepted + [c], owner := a.owner[l.at := Queued(|a.accepted|)])
    case Popped(l, k) => Copy(l, k, a, q, b)
    case Releasing(l) =>
      && l.at < |a.owner| && q == Signalling
      && b == a.(slots := Released(a.slots, l.msg), owner := a.owner[l.at := Free])
    case Signalling => q == Idle && b == a
    case Dereferenced(_, _) => false
  }

  ghost function Sleepers(pc: map<Tid, Pc>): set<Tid> {
    set t | t in pc && pc[t].Asleep?
  }

  ghost function Wake(pc: map<Tid, Pc>, w: set<Tid>): map<Tid, Pc> {
    map t | t in pc :: if t in w && pc[t].Asleep? then Awake(pc[t].b) else pc[t]
  }

  /** A signal wakes some of the sleepers, at least one if there is any. */
  ghost predicate Signals(p: Pc, pc: map<Tid, Pc>, w: set<Tid>) {
    if p == Signalling then w <= Sleepers(pc) && (Sleepers(pc) != {} ==> w != {}) else w == {}
  }

  ghost predicate Step(s: State, r: State, t: Tid, w: set<Tid>)
    requires t in s.pc
  {
    && t in r.pc && r.packets == s.packets && Act(t, s.packets, s.pc[t], s.sh, r.pc[t], r.sh)
    && Signals(s.pc[t], s.pc, w)
    && r.pc == Wake(s.pc, w)[t := r.pc[t]]
  }

  ghost predicate Next(s: State, r: State) {
    exists t, w :: t in s.pc && Step(s, r, t, w)
  }

  ghost predicate NextAt(run: seq<State>, i: nat)
    requires 0 < i < |run|
  {
    Next(run[i - 1], run[i])
  }

  ghost predicate Run(run: seq<State>, n: nat) {
    && run != [] && Init(run[0], n)
    && forall i | 0 < i < |run| :: NextAt(run, i)
  }

  // --------------------------------------------------------------- invariant

  /** The entity a thread answers for. */
  ghost function Entity(p: Pc): Option<nat> {
    match p
    case Holding(_, i) => Some(i)
    case Decoding(_, l) => Some(l.at)
    case Pushing(_, l) => Some(l.at)
    case Popped(l, _) => Some(l.at)
    case Releasing(l) => Some(l.at)
    case Dereferenced(l, _) => Some(l.at)
    case _ => None
  }

  ghost predicate Base(a: Shared) {
    && |a.owner| == |a.slots| && Apart(a.slots) && !a.failed
    && (forall i | 0 <= i < |a.slots| ::
          && (a.slots[i].held.Some? ==> a.slots[i].held.value in a.heap)
          && (a.owner[i] == Free <==> !a.slots[i].occupied))
  }

  /** The entity at `l.at` belongs to `o` and holds the message of `l`. */
  ghost predicate Holds(a: Shared, l: Letter, o: Owner) {
    && l.at < |a.owner| == |a.slots| && a.owner[l.at] == o
    && a.slots[l.at].held == Some(l.msg) && l.msg in a.heap
  }

  ghost predicate Carries(a: Shared, l: Letter, o: Owner, s: Sight) {
    Holds(a, l, o) && Good(s) && a.heap[l.msg] == Decode(s.bytes).value
  }

  ghost predicate Fine(t: Tid, p: Pc, a: Shared) {
    match p
    case Received(c) => Accepted(c)
    case Asleep(c) => Accepted(c)
    case Awake(c) => Accepted(c)
    case Holding(c, i) => Accepted(c) && i < |a.owner| && a.owner[i] == Thread(t)
    case Decoding(c, l) => Accepted(c) && Holds(a, l, Thread(t))
    case Pushing(c, l) => Carries(a, l, Thread(t), c)
    case Popped(l, k) => k < a.popped <= |a.accepted| && Carries(a, l, Thread(t), a.accepted[k])
    case Releasing(l) => Holds(a, l, Thread(t))
    case Dereferenced(l, _) => Holds(a, l, Thread(t))
    case _ => true
  }

  /** The queue holds the messages of the packets pushed and not yet popped, in order. */
  ghost predicate Letters(a: Shared) {
    && |a.accepted| == a.popped + |a.queue|
    && forall j | 0 <= j < |a.queue| :: Carries(a, a.queue[j], Queued(a.popped + j), a.accepted[a.popped + j])
  }

  /** Clients have got what was decoded, and data messages only. */
  ghost predicate Delivered(a: Shared) {
    && a.popped <= |a.accepted|
    && forall k <- a.received ::
         k < a.popped && Good(a.accepted[k]) && a.received[k] == Decode(a.accepted[k].bytes).value && a.received[k].DataMsg?
  }

  ghost predicate Mail(a: Shared) {
    Letters(a) && Delivered(a)
  }

  /** Whoever is said to own an entity does. */
  ghost predicate Backed(s: State, i: nat)
    requires i < |s.sh.owner|
  {
    match s.sh.owner[i]
    case Thread(t) => t in s.pc && Entity(s.pc[t]) == Some(i)
    case Queued(k) => s.sh.popped <= k < s.sh.popped + |s.sh.queue| && s.sh.queue[k - s.sh.popped].at == i
    case _ => true
  }

  ghost predicate Inv(s: State) {
    && Base(s.sh) && Mail(s.sh)
    && (forall t <- s.pc :: Fine(t, s.pc[t], s.sh))
    && (forall i | 0 <= i < |s.sh.owner| :: Backed(s, i))
  }

  // ------------------------------------------------------------ one step each

  /** The entity a step works on. */
  ghost function Touched(p: Pc, q: Pc): Option<nat> {
    if Entity(p).Some? then Entity(p) else Entity(q)
  }

  ghost predicate Same(a: Shared, b: Shared, i: nat) {
    && i < |a.owner| == |a.slots| == |b.owner| == |b.slots|
    && b.owner[i] == a.owner[i] && b.slots[i] == a.slots[i]
    && (a.slots[i].held.Some? && a.slots[i].held.value in a.heap ==>
          a.slots[i].held.value in b.heap && b.heap[a.slots[i].held.value] == a.heap[a.slots[i].held.value])
  }

  ghost predicate OthersSame(a: Shared, b: Shared, e: Option<nat>) {
    && |a.owner| == |a.slots| == |b.owner| == |b.slots|
    && forall i | 0 <= i < |a.owner| && e != Some(i) :: Same(a, b, i)
  }

  /** An entity passes from its old owner to its new one. */
  ghost predicate Passes(t: Tid, p: Pc, a: Shared, q: Pc, b: Shared) {
    var e := Touched(p, q);
    e.Some? ==>
      && e.value < |a.owner| == |b.owner|
      && (a.owner[e.value] == if Entity(p).Some? then Thread(t) else if p == Idle then Queued(a.popped) else Free)
      && (if Entity(q).Some? then Entity(q) == e && b.owner[e.value] == Thread(t)
          else if p.Pushing? then b.owner[e.value] == Queued(|a.accepted|)
          else b.owner[e.value] == Free || b.owner[e.value] == Lost)
  }

  /** What every step keeps, and what it does to the entities. */
  ghost predicate Kept(t: Tid, p: Pc, a: Shared, q: Pc, b: Shared) {
    Base(b) && Fine(t, q, b) && OthersSame(a, b, Touched(p, q)) && Passes(t, p, a, q, b)
  }

  lemma AcquireKeeps(t: Tid, p: Pc, a: Shared, q: Pc, b: Shared)
    requires (p.Received? || p.Awake?) && Base(a) && Accepted(p.b) && Acquire(t, p.b, a, q, b)
    ensures Kept(t, p, a, q, b)
  {
    hide FirstFree, Accepted;
    ApartKept(a.slots);
  }

  lemma PrepareKeeps(t: Tid, p: Pc, a: Shared, q: Pc, b: Shared)
    requires p.Holding? && Base(a) && Fine(t, p, a) && Prepare(p.b, p.at, a, q, b)
    ensures Kept(t, p, a, q, b)
  {
    hide Accepted;
    forall j | 0 <= j < |a.slots| && j != p.at && a.slots[j].held.Some?
      ensures a.slots[j].held != a.slots[p.at].held && a.slots[j].held != Some(q.l.msg)
    {
    }
  }

  lemma DeSerializeKeeps(t: Tid, p: Pc, a: Shared, q: Pc, b: Shared)
    requires p.Decoding? && Base(a) && Fine(t, p, a) && DeSerialize(p.b, p.l, a, q, b)
    ensures Kept(t, p, a, q, b)
  {
    hide Accepted, Decode, LenOf;
  }

  lemma ReleaseKeeps(t: Tid, p: Pc, a: Shared, b: Shared)
    requires p.Releasing? && Base(a) && Fine(t, p, a)
    requires b == a.(slots := Released(a.slots, p.l.msg), owner := a.owner[p.l.at := Free])
    ensures Kept(t, p, a, Signalling, b)
  {
    hide HolderOf;
    HolderIs(a.slots, p.l.msg, p.l.at);
    ApartKept(a.slots);
  }

  lemma PushKeeps(t: Tid, p: Pc, a: Shared, b: Shared)
    requires p.Pushing? && Base(a) && Fine(t, p, a)
    requires b == a.(queue := a.queue + [p.l], accepted := a.accepted + [p.s], owner := a.owner[p.l.at := Queued(|a.accepted|)])
    ensures Kept(t, p, a, Idle, b)
  {
    hide Apart, Good;
  }

  lemma PopKeeps(t: Tid, a: Shared, b: Shared)
    requires Base(a) && Mail(a) && a.queue != [] && a.queue[0].at < |a.owner|
    requires b == a.(queue := a.queue[1..], popped := a.popped + 1, owner := a.owner[a.queue[0].at := Thread(t)])
    ensures Kept(t, Idle, a, Popped(a.queue[0], a.popped), b)
  {
    hide Apart, Good, Decode;
    assert Carries(a, a.queue[0], Queued(a.popped), a.accepted[a.popped]);
  }

  /** Steps that leave the entities alone. */
  lemma BooksKeep(t: Tid, p: Pc, a: Shared, q: Pc, b: Shared)
    requires Base(a) && b == a.(arrived := b.arrived, received := b.received, nullUsed := b.nullUsed)
    requires Fine(t, q, b) && Entity(p) == Entity(q) && (Entity(p).Some? ==> Fine(t, p, a))
    ensures Kept(t, p, a, q, b)
  {
    hide Apart, Good, Decode;
  }

  lemma CopyKeeps(t: Tid, p: Pc, a: Shared, q: Pc, b: Shared)
    requires p.Popped? && Base(a) && Fine(t, p, a) && Copy(p.l, p.k, a, q, b)
    ensures Kept(t, p, a, q, b)
  {
    assert Holds(a, p.l, Thread(t));
    hide Base, Carries;
    BooksKeep(t, p, a, q, b);
  }

  lemma ActKeeps(t: Tid, packets: iset<seq<byte>>, p: Pc, a: Shared, q: Pc, b: Shared)
    requires Base(a) && Mail(a) && Fine(t, p, a) && Act(t, packets, p, a, q, b)
    ensures Kept(t, p, a, q, b)
  {
    hide FirstFree, HolderOf, Accepted, Decode, LenOf, Base, Good, Acquire, Prepare, DeSerialize, Copy, Kept,
      Slots.Acquired, Released, Mail, Holds;
    match p
    case Idle => if q.Popped? { PopKeeps(t, a, b); } else { BooksKeep(t, p, a, q, b); }
    case Received(c) => AcquireKeeps(t, p, a, q, b);
    case Asleep(c) => BooksKeep(t, p, a, q, b);
    case Awake(c) => AcquireKeeps(t, p, a, q, b);
    case Holding(c, i) => PrepareKeeps(t, p, a, q, b);
    case Decoding(c, l) => DeSerializeKeeps(t, p, a, q, b);
    case Pushing(c, l) => PushKeeps(t, p, a, b);
    case Popped(l, k) => CopyKeeps(t, p, a, q, b);
    case Releasing(l) => ReleaseKeeps(t, p, a, b);
    case Signalling => BooksKeep(t, p, a, q, b);
  }

  /** How the books of the mail move. */
  ghost predicate Posts(t: Tid, p: Pc, a: Shared, q: Pc, b: Shared) {
    && (p.Pushing? ==> b.queue == a.queue + [p.l] && b.accepted == a.accepted + [p.s])
    && (!p.Pushing? ==> b.accepted == a.accepted)
    && (q.Popped? ==> a.queue != [] && q == Popped(a.queue[0], a.popped) && b.queue == a.queue[1..])
    && (!q.Popped? ==> b.popped == a.popped && (!p.Pushing? ==> b.queue == a.queue))
    && (q.Popped? ==> b.popped == a.popped + 1)
    && b.arrived == (if q.Received? then a.arrived + [q.b] else a.arrived)
    && (if p.Decoding? then
          && |b.decoded| == |a.decoded| + 1
          && var s := b.decoded[|a.decoded|];
             && b.decoded == a.decoded + [s] && s.packet == p.b && Sees(s)
             && (if q == Idle then Decode(s.bytes).OutOfRange? else q == Pushing(s, p.l) && Good(s))
        else b.decoded == a.decoded)
    && (if p.Popped? && q.Releasing? then
          && p.k < a.popped <= |a.accepted| && Good(a.accepted[p.k]) && Decode(a.accepted[p.k].bytes).value.DataMsg?
          && b.received == a.received[p.k := Decode(a.accepted[p.k].bytes).value]
        else b.received == a.received)
  }

  lemma ActPosts(t: Tid, packets: iset<seq<byte>>, p: Pc, a: Shared, q: Pc, b: Shared)
    requires Base(a) && Fine(t, p, a) && Act(t, packets, p, a, q, b)
    ensures Posts(t, p, a, q, b)
  {
    hide FirstFree, HolderOf, Accepted, LenOf, Decode, Apart, Slots.Acquired, Released;
  }

  lemma CarriesKept(a: Shared, b: Shared, l: Letter, o: Owner, c: Sight)
    requires Carries(a, l, o, c) && Same(a, b, l.at)
    ensures Carries(b, l, o, c)
  {
    hide Good, Decode;
  }

  /** A step leaves what the other threads rely on. */
  lemma FineKept(x: Tid, p: Pc, a: Shared, b: Shared)
    requires Fine(x, p, a) && (Entity(p).Some? ==> Same(a, b, Entity(p).value))
    requires a.accepted <= b.accepted && a.popped <= b.popped <= |b.accepted|
    ensures Fine(x, p, b)
  {
    hide Accepted, Good, Decode;
  }

  lemma LetterKept(t: Tid, p: Pc, a: Shared, q: Pc, b: Shared, l: Letter, k: nat, c: Sight)
    requires OthersSame(a, b, Touched(p, q)) && Passes(t, p, a, q, b)
    requires Carries(a, l, Queued(k), c) && (q.Popped? ==> k != a.popped) && (p == Idle ==> q.Popped? || q.Received?)
    ensures Carries(b, l, Queued(k), c)
  {
    hide Good, Decode;
    assert Touched(p, q) != Some(l.at);
    assert Same(a, b, l.at);
    CarriesKept(a, b, l, Queued(k), c);
  }

  lemma DeliveredKept(t: Tid, p: Pc, a: Shared, q: Pc, b: Shared)
    requires Mail(a) && Posts(t, p, a, q, b)
    ensures Delivered(b) && a.accepted <= b.accepted && a.popped <= b.popped
  {
    hide Good, Decode, Carries;
  }

  lemma LettersKept(t: Tid, p: Pc, a: Shared, q: Pc, b: Shared)
    requires Letters(a) && Posts(t, p, a, q, b) && OthersSame(a, b, Touched(p, q)) && Passes(t, p, a, q, b)
    requires p.Pushing? ==> Carries(b, p.l, Queued(|a.accepted|), p.s)
    requires p == Idle ==> q.Popped? || q.Received?
    ensures Letters(b)
  {
    hide Decode, Good, Carries, OthersSame, Passes, Touched;
    forall j | 0 <= j < |b.queue|
      ensures Carries(b, b.queue[j], Queued(b.popped + j), b.accepted[b.popped + j])
    {
      if !(p.Pushing? && j == |a.queue|) {
        var i := if q.Popped? then j + 1 else j;
        LetterKept(t, p, a, q, b, a.queue[i], a.popped + i, a.accepted[a.popped + i]);
      }
    }
  }

  lemma MailKept(t: Tid, packets: iset<seq<byte>>, p: Pc, a: Shared, q: Pc, b: Shared)
    requires Base(a) && Mail(a) && Fine(t, p, a) && Act(t, packets, p, a, q, b)
    ensures Mail(b) && a.accepted <= b.accepted && a.popped <= b.popped
  {
    ActKeeps(t, packets, p, a, q, b);
    ActPosts(t, packets, p, a, q, b);
    assert p == Idle ==> q.Popped? || q.Received?;
    if p.Pushing? {
      PushedCarries(t, packets, p, a, q, b);
    }
    hide Act, Base, Fine, Letters, Delivered, Posts, Passes, OthersSame, Carries;
    DeliveredKept(t, p, a, q, b);
    LettersKept(t, p, a, q, b);
  }

  lemma PushedCarries(t: Tid, packets: iset<seq<byte>>, p: Pc, a: Shared, q: Pc, b: Shared)
    requires p.Pushing? && Fine(t, p, a) && Act(t, packets, p, a, q, b)
    ensures Carries(b, p.l, Queued(|a.accepted|), p.s)
  {
    hide Good, Decode;
  }

  /** Another thread's entity is none that the step touches. */
  lemma NotTouched(t: Tid, p: Pc, a: Shared, q: Pc, b: Shared, x: Tid, y: Pc)
    requires OthersSame(a, b, Touched(p, q)) && Passes(t, p, a, q, b) && Fine(x, y, a) && x != t
    ensures Entity(y).Some? ==> Same(a, b, Entity(y).value)
  {
    hide Good, Decode, Accepted;
    if Entity(y).Some? {
      assert a.owner[Entity(y).value] == Thread(x);
      assert Touched(p, q) != Entity(y);
    }
  }

  lemma FineStep(s: State, r: State, t: Tid, w: set<Tid>, x: Tid)
    requires Inv(s) && t in s.pc && Step(s, r, t, w) && x in r.pc
    ensures Fine(x, r.pc[x], r.sh)
  {
    var p, a, q, b := s.pc[t], s.sh, r.pc[t], r.sh;
    ActKeeps(t, s.packets, p, a, q, b);
    MailKept(t, s.packets, p, a, q, b);
    assert b.popped <= |b.accepted|;
    hide Act, Base, Mail, Passes, OthersSame, Same, Touched, Accepted, Good, Decode, Carries, Holds;
    if x != t {
      assert Fine(x, s.pc[x], a);
      NotTouched(t, p, a, q, b, x, s.pc[x]);
      FineKept(x, s.pc[x], a, b);
    }
  }

  lemma BackedElsewhere(s: State, r: State, t: Tid, w: set<Tid>, i: nat)
    requires t in s.pc && t in r.pc && i < |s.sh.owner| && Backed(s, i) && Same(s.sh, r.sh, i)
    requires r.pc == Wake(s.pc, w)[t := r.pc[t]] && Posts(t, s.pc[t], s.sh, r.pc[t], r.sh)
    requires Touched(s.pc[t], r.pc[t]) != Some(i)
    requires r.pc[t].Popped? ==> s.sh.queue != [] && Touched(s.pc[t], r.pc[t]) == Some(s.sh.queue[0].at)
    ensures Backed(r, i)
  {
    hide Good, Decode;
  }

  lemma BackedHere(s: State, r: State, t: Tid, i: nat)
    requires t in s.pc && t in r.pc && i < |r.sh.owner| && Posts(t, s.pc[t], s.sh, r.pc[t], r.sh)
    requires Passes(t, s.pc[t], s.sh, r.pc[t], r.sh) && Touched(s.pc[t], r.pc[t]) == Some(i)
    requires |s.sh.accepted| == s.sh.popped + |s.sh.queue|
    ensures Backed(r, i)
  {
    hide Good, Decode;
  }

  lemma BackedStep(s: State, r: State, t: Tid, w: set<Tid>, i: nat)
    requires Inv(s) && t in s.pc && Step(s, r, t, w) && i < |r.sh.owner|
    ensures Backed(r, i)
  {
    var p, a, q, b := s.pc[t], s.sh, r.pc[t], r.sh;
    assert q.Popped? ==> p == Idle;
    ActKeeps(t, s.packets, p, a, q, b);
    ActPosts(t, s.packets, p, a, q, b);
    assert |a.accepted| == a.popped + |a.queue|;
    assert q.Popped? ==> a.queue != [] && Touched(p, q) == Some(a.queue[0].at);
    assert i < |a.owner| && (Touched(p, q) != Some(i) ==> Same(a, b, i));
    hide Act, Base, Mail, Fine, Passes, Posts, Touched, Same;
    if Touched(p, q) == Some(i) {
      BackedHere(s, r, t, i);
    } else {
      assert Backed(s, i);
      hide Backed;
      BackedElsewhere(s, r, t, w, i);
    }
  }

  lemma InvStep(s: State, r: State, t: Tid, w: set<Tid>)
    requires Inv(s) && t in s.pc && Step(s, r, t, w)
    ensures Inv(r) && |r.sh.slots| == |s.sh.slots|
  {
    assert Fine(t, s.pc[t], s.sh);
    ActKeeps(t, s.packets, s.pc[t], s.sh, r.pc[t], r.sh);
    MailKept(t, s.packets, s.pc[t], s.sh, r.pc[t], r.sh);
    assert |r.sh.slots| == |s.sh.slots|;
    hide Step, Base, Mail, Fine, Backed, Passes, Touched, OthersSame;
    forall x <- r.pc ensures Fine(x, r.pc[x], r.sh) {
      FineStep(s, r, t, w, x);
    }
    forall j | 0 <= j < |r.sh.owner| ensures Backed(r, j) {
      BackedStep(s, r, t, w, j);
    }
  }

  lemma InvInit(s: State, n: nat)
    requires Init(s, n)
    ensures Inv(s) && |s.sh.slots| == n
  {
  }

  lemma {:induction false} InvHolds(run: seq<State>, n: nat, i: nat)
    requires Run(run, n) && i < |run|
    ensures Inv(run[i]) && |run[i].sh.slots| == n
    decreases i
  {
    hide Inv, Step, Init;
    if i == 0 {
      InvInit(run[0], n);
    } else {
      InvHolds(run, n, i - 1);
      assert NextAt(run, i);
      var t, w :| t in run[i - 1].pc && Step(run[i - 1], run[i], t, w);
      InvStep(run[i - 1], run[i], t, w);
    }
  }

  // ---------------------------------------------------------------- counting

  ghost function OwnedBy(owner: seq<Owner>, o: Owner): set<nat> {
    set i: nat | i < |owner| && owner[i] == o
  }

  lemma OwnedPasses(owner: seq<Owner>, next: seq<Owner>, e: Option<nat>, o: Owner)
    requires |next| == |owner| && (e.Some? ==> e.value < |owner|)
    requires forall i | 0 <= i < |owner| && e != Some(i) :: next[i] == owner[i]
    ensures |OwnedBy(next, o)| == |OwnedBy(owner, o)|
      + (if e.Some? then One(next[e.value] == o) - One(owner[e.value] == o) else 0)
  {
    var x, y := OwnedBy(owner, o), OwnedBy(next, o);
    if e.Some? && next[e.value] == o && owner[e.value] != o {
      OneMore(x, y, e.value);
    } else if e.Some? && next[e.value] != o && owner[e.value] == o {
      OneMore(y, x, e.value);
    } else {
      assert x == y;
    }
  }

  lemma OneMore(x: set<nat>, y: set<nat>, e: nat)
    requires e !in x && e in y && forall i | i != e :: i in x <==> i in y
    ensures |y| == |x| + 1
  {
    assert y == x + {e};
  }

  /** How many of the packets decoded did not make a message. */
  ghost function Bad(decoded: seq<Sight>): nat {
    if decoded == [] then 0 else
    var n := |decoded| - 1;
    Bad(decoded[..n]) + One(!Good(decoded[n]))
  }

  lemma BadMore(decoded: seq<Sight>, s: Sight)
    ensures Bad(decoded + [s]) == Bad(decoded) + One(!Good(s))
  {
    assert (decoded + [s])[..|decoded|] == decoded;
  }

  lemma {:induction false} BadNone(decoded: seq<Sight>)
    ensures Bad(decoded) == 0 <==> forall s <- decoded :: Good(s)
  {
    hide Good;
    if decoded != [] {
      var n := |decoded| - 1;
      BadNone(decoded[..n]);
      assert decoded == decoded[..n] + [decoded[n]];
    }
  }

  ghost function PacketsOf(decoded: seq<Sight>): seq<seq<byte>> {
    seq(|decoded|, i requires 0 <= i < |decoded| => decoded[i].packet)
  }

  lemma PacketsMore(decoded: seq<Sight>, s: Sight)
    ensures PacketsOf(decoded + [s]) == PacketsOf(decoded) + [s.packet]
  {
  }

  /** The packet that a thread has yet to decode. */
  ghost function PacketOf(p: Pc): Option<seq<byte>> {
    if p.Received? || p.Asleep? || p.Awake? || p.Holding? || p.Decoding? then Some(p.b) else None
  }

  ghost function Holders(pc: map<Tid, Pc>): map<Tid, Option<seq<byte>>> {
    map t | t in pc :: PacketOf(pc[t])
  }

  lemma HoldersStep(s: State, r: State, t: Tid, w: set<Tid>)
    requires t in s.pc && Step(s, r, t, w)
    ensures Holders(r.pc) == Holders(s.pc)[t := PacketOf(r.pc[t])]
  {
    hide Act;
  }

  datatype Kind = Sleeps | Wakes | Signals | Other

  ghost function KindOf(p: Pc): Kind {
    if p.Asleep? then Sleeps else if p.Awake? then Wakes else if p.Signalling? then Kind.Signals else Other
  }

  ghost function Kinds(pc: map<Tid, Pc>): map<Tid, Kind> {
    map t | t in pc :: KindOf(pc[t])
  }

  ghost function Count(pc: map<Tid, Pc>, k: Kind): nat {
    Num(Kinds(pc), k)
  }

  lemma CountStep(s: State, r: State, t: Tid, w: set<Tid>, k: Kind)
    requires t in s.pc && Step(s, r, t, w)
    ensures Count(r.pc, k) == Count(s.pc, k) - One(KindOf(s.pc[t]) == k) + One(KindOf(r.pc[t]) == k)
                              + (if k == Wakes then |w| else 0) - (if k == Sleeps then |w| else 0)
  {
    hide Act;
    var v := Wake(s.pc, w);
    assert forall x <- w :: x in Sleepers(s.pc);
    NumShift(Kinds(s.pc), Kinds(v), w, Sleeps, Wakes, k);
    assert Kinds(r.pc) == Kinds(v)[t := KindOf(r.pc[t])];
    NumGo(Kinds(v), t, KindOf(r.pc[t]), k);
  }

  lemma SleepersCount(pc: map<Tid, Pc>)
    ensures Count(pc, Sleeps) == |Sleepers(pc)|
  {
    assert All(Kinds(pc), Sleeps) == Sleepers(pc);
  }

  /** Every decode that has thrown has cost an entity. */
  ghost predicate Accounted(s: State) {
    |OwnedBy(s.sh.owner, Lost)| == Bad(s.sh.decoded) && forall i | 0 <= i < |s.sh.decoded| :: Sees(s.sh.decoded[i])
  }

  /** Every packet that arrived has been decoded, or a thread has it in hand. */
  ghost predicate Matched(s: State) {
    PassedOn(s.sh.arrived, PacketsOf(s.sh.decoded), Holders(s.pc))
  }

  /** While a thread sleeps, every free entity has a signal to come or a thread awake. */
  ghost predicate NoLostWakeup(s: State) {
    Count(s.pc, Sleeps) > 0 ==> |OwnedBy(s.sh.owner, Free)| <= Count(s.pc, Kind.Signals) + Count(s.pc, Wakes)
  }

  ghost function Gain(p: Pc, q: Pc, k: Kind): int {
    One(KindOf(q) == k) - One(KindOf(p) == k)
  }

  ghost function Change(a: Shared, b: Shared, e: Option<nat>, o: Owner): int {
    if e.Some? && e.value < |a.owner| == |b.owner| then One(b.owner[e.value] == o) - One(a.owner[e.value] == o) else 0
  }

  lemma AcquireCounts(t: Tid, c: seq<byte>, a: Shared, q: Pc, b: Shared)
    requires Base(a) && Acquire(t, c, a, q, b)
    ensures q.Asleep? ==> b == a && FirstFree(a.slots) == |a.slots|
    ensures q.Asleep? || q.Holding?
    ensures q.b == c && b.arrived == a.arrived
  {
    hide FirstFree;
  }

  /** Where a thread goes from where it is. */
  ghost predicate Follows(p: Pc, q: Pc) {
    match p
    case Idle => q.Received? || q.Popped?
    case Received(_) => q.Asleep? || q.Holding?
    case Asleep(_) => q.Awake?
    case Awake(_) => q.Asleep? || q.Holding?
    case Holding(_, _) => q.Decoding?
    case Decoding(_, _) => q.Pushing? || q == Idle
    case Pushing(_, _) => q == Idle
    case Popped(_, _) => q.Releasing? || q.Dereferenced?
    case Releasing(_) => q == Signalling
    case Signalling => q == Idle
    case _ => false
  }

  lemma DeSerializeEnds(c: seq<byte>, l: Letter, a: Shared, q: Pc, b: Shared)
    requires Accepted(c) && l.at < |a.owner| && l.msg in a.heap && DeSerialize(c, l, a, q, b)
    ensures q == Idle || q.Pushing?
    ensures q == Idle ==> l.at < |b.owner| && b.owner[l.at] == Lost
  {
    hide Accepted, LenOf, Decode;
  }

  lemma PrepareEnds(c: seq<byte>, i: nat, a: Shared, q: Pc, b: Shared)
    requires i < |a.slots| && Prepare(c, i, a, q, b)
    ensures q.Decoding? && q.b == c
  {
  }

  lemma CopyEnds(l: Letter, k: nat, a: Shared, q: Pc, b: Shared)
    requires Copy(l, k, a, q, b)
    ensures q.Releasing? || q.Dereferenced?
  {
  }

  lemma FineDecoding(t: Tid, p: Pc, a: Shared)
    requires p.Decoding? && Fine(t, p, a)
    ensures Accepted(p.b) && p.l.at < |a.owner| && p.l.msg in a.heap
  {
  }

  lemma ActFollows(t: Tid, packets: iset<seq<byte>>, p: Pc, a: Shared, q: Pc, b: Shared)
    requires Base(a) && Fine(t, p, a) && Act(t, packets, p, a, q, b)
    ensures Follows(p, q) && (p == Signalling ==> b == a)
    ensures q.Received? ==> q.b in packets && Accepted(q.b)
    ensures q.Received? || p.Decoding? || PacketOf(q) == PacketOf(p)
  {
    hide Base, Fine, Accepted, Good, Decode, Released, Acquire, Prepare, DeSerialize, Copy;
    match p
    case Received(c) => AcquireCounts(t, c, a, q, b);
    case Awake(c) => AcquireCounts(t, c, a, q, b);
    case Holding(c, i) => PrepareEnds(c, i, a, q, b);
    case Decoding(c, l) => FineDecoding(t, p, a); DeSerializeEnds(c, l, a, q, b);
    case Popped(l, k) => CopyEnds(l, k, a, q, b);
    case _ =>
  }

  lemma ActEnds(t: Tid, packets: iset<seq<byte>>, p: Pc, a: Shared, q: Pc, b: Shared)
    requires Base(a) && Fine(t, p, a) && Act(t, packets, p, a, q, b)
    ensures p.Decoding? && q == Idle ==> p.l.at < |b.owner| && b.owner[p.l.at] == Lost
    ensures p.Releasing? ==> p.l.at < |b.owner| && b.owner[p.l.at] == Free
    ensures p.Pushing? ==> Good(p.s)
  {
    if p.Decoding? {
      DeSerializeEnds(p.b, p.l, a, q, b);
    }
    hide Base, FirstFree, Accepted, Good, Decode, Released, Slots.Acquired, Acquire, Prepare, Copy, DeSerialize;
  }

  lemma PassCounts(t: Tid, p: Pc, a: Shared, q: Pc, b: Shared)
    requires Passes(t, p, a, q, b) && Follows(p, q)
    requires p.Decoding? && q == Idle ==> p.l.at < |b.owner| && b.owner[p.l.at] == Lost
    requires p.Releasing? ==> p.l.at < |b.owner| && b.owner[p.l.at] == Free
    ensures Change(a, b, Touched(p, q), Lost) == One(p.Decoding? && q == Idle)
    ensures p != Signalling ==>
      Change(a, b, Touched(p, q), Free) <= Gain(p, q, Kind.Signals) + Gain(p, q, Wakes) || q.Asleep?
  {
  }

  lemma DecodedCounts(t: Tid, p: Pc, a: Shared, q: Pc, b: Shared)
    requires Posts(t, p, a, q, b)
    ensures Bad(b.decoded) - Bad(a.decoded) == One(p.Decoding? && q == Idle)
  {
    hide Decode, Sees;
    if p.Decoding? {
      BadMore(a.decoded, b.decoded[|a.decoded|]);
    }
  }

  lemma ActCounts(t: Tid, packets: iset<seq<byte>>, p: Pc, a: Shared, q: Pc, b: Shared)
    requires Base(a) && Mail(a) && Fine(t, p, a) && Act(t, packets, p, a, q, b)
    ensures Change(a, b, Touched(p, q), Lost) == Bad(b.decoded) - Bad(a.decoded)
    ensures p != Signalling ==>
      Change(a, b, Touched(p, q), Free) <= Gain(p, q, Kind.Signals) + Gain(p, q, Wakes) || q.Asleep?
    ensures p == Signalling ==> b == a && q == Idle
    ensures q.Asleep? ==> FirstFree(a.slots) == |a.slots| && b == a
  {
    ActKeeps(t, packets, p, a, q, b);
    ActFollows(t, packets, p, a, q, b);
    ActEnds(t, packets, p, a, q, b);
    ActPosts(t, packets, p, a, q, b);
    if q.Asleep? {
      assert p.Received? || p.Awake?;
      AcquireCounts(t, p.b, a, q, b);
    }
    hide Base, Mail, FirstFree, OthersSame, Fine, Act, Passes, Touched, Change, Gain, Posts, Bad, Good;
    PassCounts(t, p, a, q, b);
    DecodedCounts(t, p, a, q, b);
  }

  lemma NoneFree(a: Shared)
    requires Base(a) && FirstFree(a.slots) == |a.slots|
    ensures OwnedBy(a.owner, Free) == {}
  {
  }

  /** The owners change at the entity that is touched, and nowhere else. */
  lemma OwnersStep(t: Tid, packets: iset<seq<byte>>, p: Pc, a: Shared, q: Pc, b: Shared, o: Owner)
    requires Base(a) && Mail(a) && Fine(t, p, a) && Act(t, packets, p, a, q, b)
    ensures |OwnedBy(b.owner, o)| == |OwnedBy(a.owner, o)| + Change(a, b, Touched(p, q), o)
  {
    ActKeeps(t, packets, p, a, q, b);
    hide Act, Base, Mail, Fine, Touched, OwnedBy;
    OwnedPasses(a.owner, b.owner, Touched(p, q), o);
  }

  lemma AccountedStep(s: State, r: State, t: Tid, w: set<Tid>)
    requires Inv(s) && Accounted(s) && t in s.pc && Step(s, r, t, w)
    ensures Accounted(r)
  {
    var p, a, q, b := s.pc[t], s.sh, r.pc[t], r.sh;
    assert Fine(t, p, a);
    hide Base, Mail, Fine, Act, Backed, Change, Touched, Bad, OwnedBy, Posts, Sees;
    ActPosts(t, s.packets, p, a, q, b);
    SightsSeen(t, p, a, q, b);
    ActCounts(t, s.packets, p, a, q, b);
    OwnersStep(t, s.packets, p, a, q, b, Lost);
  }

  lemma SightsSeen(t: Tid, p: Pc, a: Shared, q: Pc, b: Shared)
    requires Posts(t, p, a, q, b) && forall i | 0 <= i < |a.decoded| :: Sees(a.decoded[i])
    ensures forall i | 0 <= i < |b.decoded| :: Sees(b.decoded[i])
  {
    hide Sees, Good, Decode;
  }

  lemma MatchedStep(s: State, r: State, t: Tid, w: set<Tid>)
    requires Inv(s) && Matched(s) && t in s.pc && Step(s, r, t, w)
    ensures Matched(r)
  {
    var p, a, q, b := s.pc[t], s.sh, r.pc[t], r.sh;
    assert Fine(t, p, a);
    ActFollows(t, s.packets, p, a, q, b);
    ActPosts(t, s.packets, p, a, q, b);
    HoldersStep(s, r, t, w);
    hide Inv, Fine, Step, PassedOn, HandsOn, PacketsOf;
    MatchedAct(t, p, a, q, b);
    PassedOnStep(a.arrived, PacketsOf(a.decoded), Holders(s.pc), t, PacketOf(q), b.arrived, PacketsOf(b.decoded));
  }

  /** What one act does to the packets that have arrived, and that are decoded. */
  lemma MatchedAct(t: Tid, p: Pc, a: Shared, q: Pc, b: Shared)
    requires Posts(t, p, a, q, b) && Follows(p, q) && (q.Received? || p.Decoding? || PacketOf(q) == PacketOf(p))
    ensures HandsOn(PacketOf(p), PacketOf(q), a.arrived, PacketsOf(a.decoded), b.arrived, PacketsOf(b.decoded))
  {
    hide Good, Decode, Sees;
    if p.Decoding? {
      PacketsMore(a.decoded, b.decoded[|a.decoded|]);
    }
  }

  lemma WakeupStep(s: State, r: State, t: Tid, w: set<Tid>)
    requires Inv(s) && NoLostWakeup(s) && t in s.pc && Step(s, r, t, w)
    ensures NoLostWakeup(r)
  {
    var p, a, q, b := s.pc[t], s.sh, r.pc[t], r.sh;
    assert Fine(t, p, a);
    SleepersCount(s.pc);
    CountStep(s, r, t, w, Sleeps);
    CountStep(s, r, t, w, Wakes);
    CountStep(s, r, t, w, Kind.Signals);
    hide Base, Mail, Fine, Act, Backed, Change, Touched, Bad, OwnedBy, Count, Sleepers, FirstFree;
    ActCounts(t, s.packets, p, a, q, b);
    OwnersStep(t, s.packets, p, a, q, b, Free);
    if q.Asleep? {
      NoneFree(a);
    }
  }

  lemma CountsInit(s: State, n: nat)
    requires Init(s, n)
    ensures Accounted(s) && Matched(s) && NoLostWakeup(s)
  {
    NumNone(Kinds(s.pc), Sleeps);
    assert PacketsOf(s.sh.decoded) == [];
    EmptyHands(s.sh.arrived, PacketsOf(s.sh.decoded), Holders(s.pc));
    assert OwnedBy(s.sh.owner, Lost) == {};
  }

  lemma {:induction false} CountsHold(run: seq<State>, n: nat, i: nat)
    requires Run(run, n) && i < |run|
    ensures Accounted(run[i]) && Matched(run[i]) && NoLostWakeup(run[i])
    decreases i
  {
    hide Init, Step, Inv, Accounted, Matched, NoLostWakeup;
    if i == 0 {
      CountsInit(run[0], n);
    } else {
      InvHolds(run, n, i - 1);
      CountsHold(run, n, i - 1);
      assert NextAt(run, i);
      var t, w :| t in run[i - 1].pc && Step(run[i - 1], run[i], t, w);
      AccountedStep(run[i - 1], run[i], t, w);
      MatchedStep(run[i - 1], run[i], t, w);
      WakeupStep(run[i - 1], run[i], t, w);
    }
  }

  // ---------------------------------------------------------------- theorems

  /** In every reachable state nothing has been deleted twice or used after deletion; every
      queued message is alive in an occupied entity of its own. */
  lemma QueuedMessagesAreSafe(run: seq<State>, n: nat, i: nat)
    requires Run(run, n) && i < |run|
    ensures var a := run[i].sh;
      && !a.failed && Apart(a.slots)
      && (forall l <- a.queue :: l.msg in a.heap && l.at < |a.slots| && a.slots[l.at] == Slot(Some(l.msg), true))
      && forall j, k :: 0 <= j < k < |a.queue| ==> a.queue[j].at != a.queue[k].at && a.queue[j].msg != a.queue[k].msg
  {
    InvHolds(run, n, i);
    var a := run[i].sh;
    hide Mail, Fine, Backed;
    forall j | 0 <= j < |a.queue| ensures Holds(a, a.queue[j], Queued(a.popped + j)) {
      LetterOwned(run[i], j);
    }
  }

  ghost predicate HasLetter(p: Pc) {
    p.Decoding? || p.Pushing? || p.Popped? || p.Releasing? || p.Dereferenced?
  }

  lemma Owns(s: State, t: Tid)
    requires Inv(s) && t in s.pc
    ensures var p := s.pc[t];
      && (Entity(p).Some? ==> Entity(p).value < |s.sh.owner| && s.sh.owner[Entity(p).value] == Thread(t))
      && (HasLetter(p) ==> Holds(s.sh, p.l, Thread(t)))
  {
    hide Base, Mail, Backed, Good, Decode, Accepted, LenOf;
    assert Fine(t, s.pc[t], s.sh);
  }

  lemma LetterOwned(s: State, j: nat)
    requires Inv(s) && j < |s.sh.queue|
    ensures Holds(s.sh, s.sh.queue[j], Queued(s.sh.popped + j))
  {
    hide Base, Fine, Backed, Good, Decode;
    assert Carries(s.sh, s.sh.queue[j], Queued(s.sh.popped + j), s.sh.accepted[s.sh.popped + j]);
  }

  /** No entity is handed out twice before its release: it has one thread or one queued
      message behind it, never two. */
  lemma OneHolderEach(run: seq<State>, n: nat, i: nat, t: Tid)
    requires Run(run, n) && i < |run| && t in run[i].pc && Entity(run[i].pc[t]).Some?
    ensures var s, e := run[i], Entity(run[i].pc[t]).value;
      && e < |s.sh.slots| && s.sh.slots[e].occupied
      && (forall x <- s.pc :: Entity(s.pc[x]) == Some(e) ==> x == t)
      && forall l <- s.sh.queue :: l.at != e
  {
    InvHolds(run, n, i);
    var s, e := run[i], Entity(run[i].pc[t]).value;
    Owns(s, t);
    hide Mail, Fine, Backed;
    forall x <- s.pc | Entity(s.pc[x]) == Some(e) ensures x == t {
      Owns(s, x);
    }
    forall j | 0 <= j < |s.sh.queue| ensures s.sh.queue[j].at != e {
      LetterOwned(s, j);
    }
  }

  lemma HeldElsewhere(a: Shared, l: Letter, o: Owner, e: nat)
    requires Base(a) && Holds(a, l, o) && e < |a.slots| && a.owner[e] != o
    ensures a.slots[e].held != Some(l.msg)
  {
  }

  /** What `Prepare` is about to delete is neither queued nor in any thread's hands. */
  lemma PrepareDeletesNothingInUse(run: seq<State>, n: nat, i: nat, t: Tid)
    requires Run(run, n) && i < |run| && t in run[i].pc && run[i].pc[t].Holding?
    ensures var s, e := run[i], run[i].pc[t].at;
      && e < |s.sh.slots|
      && (s.sh.slots[e].held.Some? ==> s.sh.slots[e].held.value in s.sh.heap)
      && (forall l <- s.sh.queue :: s.sh.slots[e].held != Some(l.msg))
      && forall x <- s.pc ::
           HasLetter(s.pc[x]) ==>
             s.sh.slots[e].held != Some(s.pc[x].l.msg)
  {
    InvHolds(run, n, i);
    var s, e := run[i], run[i].pc[t].at;
    Owns(s, t);
    assert Base(s.sh);
    forall x <- s.pc | HasLetter(s.pc[x])
      ensures s.sh.slots[e].held != Some(s.pc[x].l.msg)
    {
      Owns(s, x);
      hide Inv, Holds;
      HeldElsewhere(s.sh, s.pc[x].l, Thread(x), e);
    }
    forall j | 0 <= j < |s.sh.queue| ensures s.sh.slots[e].held != Some(s.sh.queue[j].msg) {
      LetterOwned(s, j);
      hide Inv, Holds;
      HeldElsewhere(s.sh, s.sh.queue[j], Queued(s.sh.popped + j), e);
    }
  }

  /** What is found agrees with the packet: it is the packet if that is as long as it says,
      and if the packet itself can be decoded, what lies behind makes no difference. */
  lemma SightOfPacket(s: Sight)
    requires Sees(s)
    ensures HeaderOk(s.packet) ==> s.bytes == s.packet
    ensures Decode(s.packet).Done? ==> Decode(s.bytes) == Decode(s.packet)
  {
    hide Decode, HasType, LenOf;
    assert s.packet + s.bytes[|s.packet|..] == s.bytes;
    if Decode(s.packet).Done? {
      DecodeExtends(s.packet, s.bytes[|s.packet|..]);
    }
  }

  /** For every packet let pass, the decoder may find zeros behind it. */
  lemma SightExists(b: seq<byte>) returns (s: Sight)
    requires Accepted(b)
    ensures s.packet == b && Sees(s)
  {
    s := Sight(b, b + seq(LenOf(b) - |b|, _ => 0));
    hide LenOf, BytesNat;
    assert s.bytes[..TYPE_LEN] == b[..TYPE_LEN];
  }

  /** Data messages are delivered as decoded and in order: whoever popped the k-th message and
      got it has what was decoded for the k-th packet accepted, however often entities are
      reused; and that is the content of the packet, if the packet has one. Nothing but data
      messages is ever delivered. */
  lemma DeliveredAsDecoded(run: seq<State>, n: nat, i: nat, k: nat)
    requires Run(run, n) && i < |run| && k in run[i].sh.received
    ensures k < run[i].sh.popped <= |run[i].sh.accepted| && Good(run[i].sh.accepted[k])
    ensures var s, m := run[i].sh.accepted[k], run[i].sh.received[k];
      && m == Decode(s.bytes).value && m.DataMsg?
      && (Decode(s.packet).Done? ==> m == Decode(s.packet).value)
  {
    InvHolds(run, n, i);
    hide Base, Letters, Fine, Backed, Decode, Sees;
    SightOfPacket(run[i].sh.accepted[k]);
  }

  lemma EncodingLen(m: Codec.Msg)
    requires Fits(m)
    ensures LenOf(Encode(m)) == |Encode(m)|
  {
    var x, y := NatBytes(TypeOf(m), TYPE_LEN), NatBytes(CalculateSerializedMsgLen(m), SIZE_LEN);
    Middle(x, y, StringsBytes(Strings(m)));
    ReadBack(CalculateSerializedMsgLen(m), SIZE_LEN);
    hide NatBytes, BytesNat, Pow256, StringsBytes, CalculateSerializedMsgLen;
  }

  /** Every encoding that fits the buffers passes the receiver's checks, and decodes. */
  lemma EncodingIsGood(m: Codec.Msg)
    requires |Encode(m)| <= 4096
    ensures HeaderOk(Encode(m)) && Decode(Encode(m)) == Done(Sized(m), |Encode(m)|)
  {
    hide Decode, Encode, LenOf, HasType, Pow256, CalculateSerializedMsgLen;
    WordSize();
    HeadLen(m);
    EncodingLen(m);
    RoundTrip(m, []);
    assert Encode(m) + [] == Encode(m);
  }

  /** From the sender's message to the receiving client: if the packet behind what a client
      got is the encoding of `m`, then `m` is a data message and the client got it, with its
      length filled in. */
  lemma DeliveredAsSent(run: seq<State>, n: nat, i: nat, k: nat, m: Codec.Msg)
    requires Run(run, n) && i < |run| && k in run[i].sh.received
    requires k < |run[i].sh.accepted| && run[i].sh.accepted[k].packet == Encode(m)
    ensures run[i].sh.received[k] == Sized(m) && m.DataMsg?
  {
    DeliveredAsDecoded(run, n, i, k);
    hide Decode, Encode, LenOf, HasType, CalculateSerializedMsgLen;
    EncodingIsGood(m);
  }

  /** No thread is at work or has a packet in hand, and the queue is empty. */
  ghost predicate AtRest(s: State) {
    s.sh.queue == [] && forall t <- s.pc :: s.pc[t] == Idle || s.pc[t] == Signalling
  }

  /** At rest, every packet that arrived has been decoded, and exactly one entity is occupied
      for every decode that has thrown; so all are free if and only if none has. */
  lemma EntitiesComeBack(run: seq<State>, n: nat, i: nat)
    requires Run(run, n) && i < |run| && AtRest(run[i])
    ensures var a := run[i].sh;
      && multiset(PacketsOf(a.decoded)) == multiset(a.arrived) && (forall s <- a.decoded :: Sees(s))
      && |set j: nat | j < |a.slots| && a.slots[j].occupied| == Bad(a.decoded)
      && ((forall j :: 0 <= j < |a.slots| ==> !a.slots[j].occupied) <==>
            forall s <- a.decoded :: Sees(s) && Decode(s.bytes).Done?)
  {
    InvHolds(run, n, i);
    CountsHold(run, n, i);
    var s, a := run[i], run[i].sh;
    forall j | 0 <= j < |a.slots| ensures a.slots[j].occupied <==> a.owner[j] == Lost {
      assert Backed(s, j);
    }
    EmptyHands(a.arrived, PacketsOf(a.decoded), Holders(s.pc));
    BadNone(a.decoded);
    OccupiedIs(a);
    hide Inv, Sees, Decode;
  }

  lemma PacketsIn(decoded: seq<Sight>, arrived: seq<seq<byte>>)
    requires multiset(PacketsOf(decoded)) == multiset(arrived)
    ensures forall s <- decoded :: s.packet in arrived
    ensures forall b <- arrived :: exists s <- decoded :: s.packet == b
  {
    forall s <- decoded ensures s.packet in arrived {
      var i :| 0 <= i < |decoded| && decoded[i] == s;
      assert PacketsOf(decoded)[i] in multiset(arrived);
    }
    forall b <- arrived ensures exists s <- decoded :: s.packet == b {
      assert b in multiset(PacketsOf(decoded));
      var i :| 0 <= i < |decoded| && PacketsOf(decoded)[i] == b;
      assert decoded[i] in decoded;
    }
  }

  /** So when all packets that arrived were as long as they said, all entities are free at
      rest if and only if all these packets can be decoded. */
  lemma EntitiesComeBackIff(run: seq<State>, n: nat, i: nat)
    requires Run(run, n) && i < |run| && AtRest(run[i])
    requires forall b <- run[i].sh.arrived :: HeaderOk(b)
    ensures (forall j :: 0 <= j < |run[i].sh.slots| ==> !run[i].sh.slots[j].occupied)
       <==> forall b <- run[i].sh.arrived :: HeaderOk(b) && Decode(b).Done?
  {
    var a := run[i].sh;
    EntitiesComeBack(run, n, i);
    PacketsIn(a.decoded, a.arrived);
    forall s <- a.decoded ensures s.bytes == s.packet {
      SightOfPacket(s);
    }
    hide Run, AtRest, Sees, HeaderOk, Decode, PacketsOf, Bad;
    forall b <- a.arrived ensures exists s <- a.decoded :: s.bytes == b {
      var s :| s in a.decoded && s.packet == b;
    }
  }

  lemma OccupiedIs(a: Shared)
    requires |a.owner| == |a.slots|
    requires forall j | 0 <= j < |a.slots| :: a.slots[j].occupied <==> a.owner[j] == Lost
    ensures var taken := set j: nat | j < |a.slots| && a.slots[j].occupied;
      && |taken| == |OwnedBy(a.owner, Lost)|
      && ((forall j :: 0 <= j < |a.slots| ==> !a.slots[j].occupied) <==> |taken| == 0)
  {
    var taken := set j: nat | j < |a.slots| && a.slots[j].occupied;
    assert taken == OwnedBy(a.owner, Lost);
    forall j | 0 <= j < |a.slots| ensures |taken| == 0 ==> !a.slots[j].occupied {
      assert a.slots[j].occupied ==> j in taken;
    }
    if forall j :: 0 <= j < |a.slots| ==> !a.slots[j].occupied {
      assert taken == {};
    }
  }

  lemma LostStep(s: State, r: State, t: Tid, w: set<Tid>, e: nat)
    requires Inv(s) && t in s.pc && Step(s, r, t, w) && e < |s.sh.owner| && s.sh.owner[e] == Lost
    ensures e < |r.sh.owner| && r.sh.owner[e] == Lost
  {
    ActKeeps(t, s.packets, s.pc[t], s.sh, r.pc[t], r.sh);
    hide Act, Base, Mail, Fine, Backed;
    assert Touched(s.pc[t], r.pc[t]) != Some(e);
    assert Same(s.sh, r.sh, e);
  }

  lemma LostIsOccupied(s: State, e: nat)
    requires Inv(s) && e < |s.sh.owner| && s.sh.owner[e] == Lost
    ensures e < |s.sh.slots| && |s.sh.owner| == |s.sh.slots| && s.sh.slots[e].occupied
  {
  }

  /** An entity into which decoding has thrown is occupied for good. */
  lemma {:induction false} LostForGood(run: seq<State>, n: nat, i: nat, j: nat, e: nat)
    requires Run(run, n) && i <= j < |run| && e < |run[i].sh.owner| && run[i].sh.owner[e] == Lost
    ensures e < |run[j].sh.slots| && |run[j].sh.owner| == |run[j].sh.slots|
    ensures run[j].sh.owner[e] == Lost && run[j].sh.slots[e].occupied
    decreases j
  {
    hide Inv, Step;
    if i < j {
      LostForGood(run, n, i, j - 1, e);
      InvHolds(run, n, j - 1);
      assert NextAt(run, j);
      var t, w :| t in run[j - 1].pc && Step(run[j - 1], run[j], t, w);
      LostStep(run[j - 1], run[j], t, w, e);
    }
    InvHolds(run, n, j);
    LostIsOccupied(run[j], e);
  }

  lemma NothingLeft(s: State, r: State, t: Tid, w: set<Tid>)
    requires Inv(s) && t in s.pc && Step(s, r, t, w) && |s.sh.slots| == 1 && s.sh.owner[0] == Lost
    ensures r.sh.accepted == s.sh.accepted
  {
    assert Fine(t, s.pc[t], s.sh);
    ActPosts(t, s.packets, s.pc[t], s.sh, r.pc[t], r.sh);
    hide Act, Base, Mail, Backed, Good, Decode, Sees;
  }

  /** A session has one entity, so the first decode that throws is the end: no message is ever
      accepted again. */
  lemma {:induction false} DeafForGood(run: seq<State>, i: nat, j: nat)
    requires Run(run, 1) && i <= j < |run| && |run[i].sh.owner| == 1 && run[i].sh.owner[0] == Lost
    ensures run[j].sh.accepted == run[i].sh.accepted
    decreases j
  {
    hide Inv, Step;
    if i < j {
      DeafForGood(run, i, j - 1);
      LostForGood(run, 1, i, j - 1, 0);
      InvHolds(run, 1, j - 1);
      assert NextAt(run, j);
      var t, w :| t in run[j - 1].pc && Step(run[j - 1], run[j], t, w);
      NothingLeft(run[j - 1], run[j], t, w);
    }
  }

  /** No wakeup is lost: with no signal to come and nobody awake, a thread sleeps only while
      every entity is taken. */
  lemma SleepOnlyWhenTaken(run: seq<State>, n: nat, i: nat, t: Tid)
    requires Run(run, n) && i < |run| && t in run[i].pc && run[i].pc[t].Asleep?
    requires forall x <- run[i].pc :: !run[i].pc[x].Signalling? && !run[i].pc[x].Awake?
    ensures forall j :: 0 <= j < |run[i].sh.slots| ==> run[i].sh.slots[j].occupied
  {
    InvHolds(run, n, i);
    CountsHold(run, n, i);
    var s := run[i];
    NumSome(Kinds(s.pc), Sleeps, t);
    NumNone(Kinds(s.pc), Kind.Signals);
    NumNone(Kinds(s.pc), Wakes);
    forall j | 0 <= j < |s.sh.slots| ensures s.sh.slots[j].occupied {
      assert j !in OwnedBy(s.sh.owner, Free);
    }
  }
}