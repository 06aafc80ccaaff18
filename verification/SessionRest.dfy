/** What a session has done when it comes to rest, and that it does: no message outlives its
    entity, every message decoded is queued and copied once, and all work ends. */
module SessionRest {
  import opened Bytes
  import opened Codec
  import opened Counting
  import opened Options
  import opened Session
  import opened Slots

  // ------------------------------------------------------- messages alive

  /** Every message alive is held by an entity. */
  ghost predicate HeapHeld(a: Shared) {
    forall x <- a.heap :: IsHeld(a.slots, x)
  }

  ghost predicate IsHeld(slots: seq<Slot<Addr>>, x: Addr) {
    exists j :: 0 <= j < |slots| && slots[j].held == Some(x)
  }

  lemma StillHeld(a: seq<Slot<Addr>>, b: seq<Slot<Addr>>, x: Addr)
    requires IsHeld(a, x) && |a| == |b| && forall j | 0 <= j < |a| :: b[j].held == a[j].held
    ensures IsHeld(b, x)
  {
    var j :| 0 <= j < |a| && a[j].held == Some(x);
    assert b[j].held == Some(x);
  }

  ghost predicate SameHeld(a: Shared, b: Shared) {
    && |b.slots| == |a.slots| && b.heap.Keys == a.heap.Keys
    && forall j | 0 <= j < |a.slots| :: b.slots[j].held == a.slots[j].held
  }

  lemma AcquireHolds(t: Tid, c: seq<byte>, a: Shared, q: Pc, b: Shared)
    requires |a.owner| == |a.slots| && Acquire(t, c, a, q, b)
    ensures SameHeld(a, b)
  {
    hide FirstFree;
  }

  lemma DeSerializeHolds(c: seq<byte>, l: Letter, a: Shared, q: Pc, b: Shared)
    requires Accepted(c) && l.at < |a.owner| && l.msg in a.heap && DeSerialize(c, l, a, q, b)
    ensures SameHeld(a, b)
  {
    hide Accepted, LenOf, Decode, Sees;
  }

  lemma ReleasedHolds(slots: seq<Slot<Addr>>, x: Addr)
    ensures |Released(slots, x)| == |slots| && forall j | 0 <= j < |slots| :: Released(slots, x)[j].held == slots[j].held
  {
    hide HolderOf;
  }

  /** Only `Prepare` creates or deletes a message. */
  lemma OthersHold(t: Tid, packets: iset<seq<byte>>, p: Pc, a: Shared, q: Pc, b: Shared)
    requires Fine(t, p, a) && Act(t, packets, p, a, q, b) && !p.Holding?
    ensures SameHeld(a, b)
  {
    hide Accepted, Good, Decode, Acquire, DeSerialize, Released;
    match p
    case Received(c) => AcquireHolds(t, c, a, q, b);
    case Awake(c) => AcquireHolds(t, c, a, q, b);
    case Decoding(c, l) => FineDecoding(t, p, a); DeSerializeHolds(c, l, a, q, b);
    case Releasing(l) => ReleasedHolds(a.slots, l.msg);
    case _ =>
  }

  lemma PrepareHolds(p: Pc, a: Shared, q: Pc, b: Shared)
    requires p.Holding? && p.at < |a.slots| && Prepare(p.b, p.at, a, q, b) && HeapHeld(a)
    ensures HeapHeld(b)
  {
    assert b.slots[p.at].held == Some(q.l.msg);
    forall x <- b.heap ensures IsHeld(b.slots, x) {
      if x != q.l.msg {
        var j :| 0 <= j < |a.slots| && a.slots[j].held == Some(x);
        assert b.slots[j].held == Some(x);
      }
    }
  }

  lemma HeapStep(s: State, r: State, t: Tid, w: set<Tid>)
    requires Inv(s) && HeapHeld(s.sh) && t in s.pc && Step(s, r, t, w)
    ensures HeapHeld(r.sh)
  {
    var p, a, q, b := s.pc[t], s.sh, r.pc[t], r.sh;
    assert Fine(t, p, a);
    if p.Holding? {
      assert Prepare(p.b, p.at, a, q, b);
      hide Inv, Act, Prepare, HeapHeld;
      PrepareHolds(p, a, q, b);
    } else {
      OthersHold(t, s.packets, p, a, q, b);
      hide Inv, Fine, Act, IsHeld;
      forall x <- b.heap ensures IsHeld(b.slots, x) {
        StillHeld(a.slots, b.slots, x);
      }
    }
  }

  lemma {:induction false} HeapHolds(run: seq<State>, n: nat, i: nat)
    requires Run(run, n) && i < |run|
    ensures HeapHeld(run[i].sh)
    decreases i
  {
    hide Inv, Step, IsHeld;
    if i > 0 {
      HeapHolds(run, n, i - 1);
      InvHolds(run, n, i - 1);
      assert NextAt(run, i);
      var t, w :| t in run[i - 1].pc && Step(run[i - 1], run[i], t, w);
      HeapStep(run[i - 1], run[i], t, w);
    }
  }

  /** The messages alive are exactly those that entities hold, so there are never more of them
      than entities, however many packets have been received. */
  lemma AliveIsHeld(run: seq<State>, n: nat, i: nat)
    requires Run(run, n) && i < |run|
    ensures |run[i].sh.heap| <= n == |run[i].sh.slots|
    ensures forall x :: x in run[i].sh.heap <==>
      exists j :: 0 <= j < |run[i].sh.slots| && run[i].sh.slots[j].held == Some(x)
  {
    HeapHolds(run, n, i);
    InvHolds(run, n, i);
    assert Base(run[i].sh);
    hide Run, Inv, HeapHeld;
    NoMoreThanHeld(run[i].sh);
  }

  lemma NoMoreThanHeld(a: Shared)
    requires HeapHeld(a) && Base(a)
    ensures |a.heap| <= |a.slots|
    ensures forall x :: x in a.heap <==> exists j :: 0 <= j < |a.slots| && a.slots[j].held == Some(x)
  {
    forall x ensures x in a.heap <==> exists j :: 0 <= j < |a.slots| && a.slots[j].held == Some(x) {
      assert x in a.heap ==> IsHeld(a.slots, x);
    }
    assert a.heap.Keys <= HeldBy(a.slots) by {
      forall x <- a.heap.Keys ensures x in HeldBy(a.slots) {
        assert IsHeld(a.slots, x);
        HeldByIs(a.slots, x);
      }
    }
    HeldByFew(a.slots);
    Fewer(a.heap.Keys, HeldBy(a.slots));
  }

  ghost function HeldBy(slots: seq<Slot<Addr>>): set<Addr> {
    if slots == [] then {} else
    var n := |slots| - 1;
    HeldBy(slots[..n]) + if slots[n].held.Some? then {slots[n].held.value} else {}
  }

  lemma {:induction false} HeldByIs(slots: seq<Slot<Addr>>, x: Addr)
    requires IsHeld(slots, x)
    ensures x in HeldBy(slots)
  {
    var j :| 0 <= j < |slots| && slots[j].held == Some(x);
    var n := |slots| - 1;
    if j < n {
      assert slots[..n][j].held == Some(x);
      HeldByIs(slots[..n], x);
    }
  }

  lemma {:induction false} HeldByFew(slots: seq<Slot<Addr>>)
    ensures |HeldBy(slots)| <= |slots|
  {
    if slots != [] {
      HeldByFew(slots[..|slots| - 1]);
    }
  }

  lemma {:induction false} Fewer<T>(x: set<T>, y: set<T>)
    requires x <= y
    ensures |x| <= |y|
  {
    if e :| e in x {
      Fewer(x - {e}, y - {e});
    }
  }

  // ------------------------------------------------------- messages passed on

  /** The sights that decoded to a message, in order. */
  ghost function GoodOnes(decoded: seq<Sight>): seq<Sight> {
    if decoded == [] then [] else
    var n := |decoded| - 1;
    GoodOnes(decoded[..n]) + if Good(decoded[n]) then [decoded[n]] else []
  }

  lemma GoodMore(decoded: seq<Sight>, s: Sight)
    ensures GoodOnes(decoded + [s]) == GoodOnes(decoded) + if Good(s) then [s] else []
  {
    assert (decoded + [s])[..|decoded|] == decoded;
  }

  /** What a thread has decoded and not yet queued. */
  ghost function ToPush(p: Pc): Option<Sight> {
    if p.Pushing? then Some(p.s) else None
  }

  /** The number of the message that a thread has taken off the queue and not yet copied. */
  ghost function ToCopy(p: Pc): Option<nat> {
    if p.Popped? || p.Dereferenced? then Some(p.k) else None
  }

  ghost function Pushers(pc: map<Tid, Pc>): map<Tid, Option<Sight>> {
    map t | t in pc :: ToPush(pc[t])
  }

  ghost predicate Copying(pc: map<Tid, Pc>, k: nat) {
    exists t :: t in pc && ToCopy(pc[t]) == Some(k)
  }

  /** Everything that has decoded to a message has been queued once, or is about to be. */
  ghost predicate AllQueued(s: State) {
    PassedOn(GoodOnes(s.sh.decoded), s.sh.accepted, Pushers(s.pc))
  }

  /** Every message taken off the queue has been copied out, or is about to be. */
  ghost predicate AllCopied(s: State) {
    forall k: nat | k < s.sh.popped :: k in s.sh.received || Copying(s.pc, k)
  }

  lemma ActForwards(t: Tid, p: Pc, a: Shared, q: Pc, b: Shared)
    requires Moves(t, p, a, q, b)
    ensures HandsOn(ToPush(p), ToPush(q), GoodOnes(a.decoded), a.accepted, GoodOnes(b.decoded), b.accepted)
    ensures forall k <- a.received :: k in b.received
    ensures b.popped == (if q.Popped? then a.popped + 1 else a.popped) && (q.Popped? ==> q.k == a.popped)
    ensures ToCopy(p).Some? ==> ToCopy(p) == ToCopy(q) || ToCopy(p).value in b.received
  {
    hide Decode, Sees;
    if p.Decoding? {
      GoodMore(a.decoded, b.decoded[|a.decoded|]);
    }
  }

  lemma CopyingStep(s: State, r: State, t: Tid, w: set<Tid>, k: nat)
    requires t in s.pc && Step(s, r, t, w) && Copying(s.pc, k)
    ensures Copying(r.pc, k) || ToCopy(s.pc[t]) == Some(k)
  {
    hide Act;
    var x :| x in s.pc && ToCopy(s.pc[x]) == Some(k);
    assert x != t ==> ToCopy(r.pc[x]) == Some(k);
  }

  lemma QueuedStep(s: State, r: State, t: Tid, w: set<Tid>)
    requires AllQueued(s) && t in s.pc && Step(s, r, t, w) && Moves(t, s.pc[t], s.sh, r.pc[t], r.sh)
    ensures AllQueued(r)
  {
    var p, a, q, b := s.pc[t], s.sh, r.pc[t], r.sh;
    PushersStep(s, r, t, w);
    assert Pushers(s.pc)[t] == ToPush(p);
    hide Step, PassedOn, HandsOn, GoodOnes, Moves, ToPush, Pushers;
    ActForwards(t, p, a, q, b);
    PassedOnStep(GoodOnes(a.decoded), a.accepted, Pushers(s.pc), t, ToPush(q), GoodOnes(b.decoded), b.accepted);
  }

  lemma CopiedStep(s: State, r: State, t: Tid, w: set<Tid>)
    requires AllCopied(s) && t in s.pc && Step(s, r, t, w) && Moves(t, s.pc[t], s.sh, r.pc[t], r.sh)
    ensures AllCopied(r)
  {
    var p, a, q, b := s.pc[t], s.sh, r.pc[t], r.sh;
    ActForwards(t, p, a, q, b);
    assert t in r.pc;
    hide HandsOn, GoodOnes, Moves;
    forall k: nat | k < b.popped ensures k in b.received || Copying(r.pc, k) {
      assert ToCopy(q) == Some(k) ==> Copying(r.pc, k);
      if k < a.popped && k !in a.received {
        CopyingStep(s, r, t, w, k);
      }
      hide Step, Copying;
    }
  }

  /** How a step moves the books, and the thread. */
  ghost predicate Moves(t: Tid, p: Pc, a: Shared, q: Pc, b: Shared) {
    Posts(t, p, a, q, b) && Follows(p, q) && (p.Popped? && q.Dereferenced? ==> q.k == p.k)
  }

  lemma StepMoves(s: State, r: State, t: Tid, w: set<Tid>)
    requires Inv(s) && t in s.pc && Step(s, r, t, w)
    ensures Moves(t, s.pc[t], s.sh, r.pc[t], r.sh)
  {
    assert Fine(t, s.pc[t], s.sh);
    hide Inv, Fine, Act;
    ActFollows(t, s.packets, s.pc[t], s.sh, r.pc[t], r.sh);
    ActPosts(t, s.packets, s.pc[t], s.sh, r.pc[t], r.sh);
    SameNumber(t, s.packets, s.pc[t], s.sh, r.pc[t], r.sh);
  }

  lemma SameNumber(t: Tid, packets: iset<seq<byte>>, p: Pc, a: Shared, q: Pc, b: Shared)
    requires Act(t, packets, p, a, q, b)
    ensures p.Popped? && q.Dereferenced? ==> q.k == p.k
  {
    hide Acquire, Prepare, DeSerialize, Released, Accepted;
  }

  lemma PushersStep(s: State, r: State, t: Tid, w: set<Tid>)
    requires t in s.pc && Step(s, r, t, w)
    ensures t in r.pc && Pushers(r.pc) == Pushers(s.pc)[t := ToPush(r.pc[t])]
  {
    hide Act;
  }

  lemma {:induction false} AllForwarded(run: seq<State>, n: nat, i: nat)
    requires Run(run, n) && i < |run|
    ensures AllQueued(run[i]) && AllCopied(run[i])
    decreases i
  {
    hide Inv, Step, AllQueued, AllCopied, Moves;
    if i == 0 {
      NothingForwarded(run[0], n);
    } else {
      AllForwarded(run, n, i - 1);
      InvHolds(run, n, i - 1);
      assert NextAt(run, i);
      var t, w :| t in run[i - 1].pc && Step(run[i - 1], run[i], t, w);
      StepMoves(run[i - 1], run[i], t, w);
      QueuedStep(run[i - 1], run[i], t, w);
      CopiedStep(run[i - 1], run[i], t, w);
    }
  }

  lemma NothingForwarded(s: State, n: nat)
    requires Init(s, n)
    ensures AllQueued(s) && AllCopied(s)
  {
    EmptyHands(GoodOnes(s.sh.decoded), s.sh.accepted, Pushers(s.pc));
  }

  /** At rest, clients have got a message for everything that the session has decoded to one,
      once each, in the order in which these were queued; and what was decoded was, packet by
      packet, what arrived. */
  lemma EverythingIsDelivered(run: seq<State>, n: nat, i: nat)
    requires Run(run, n) && i < |run| && AtRest(run[i])
    ensures var a := run[i].sh;
      && multiset(PacketsOf(a.decoded)) == multiset(a.arrived)
      && multiset(a.accepted) == multiset(GoodOnes(a.decoded))
      && (forall k: nat :: k in a.received <==> k < |a.accepted|)
      && forall k | 0 <= k < |a.accepted| :: Good(a.accepted[k]) && a.received[k] == Decode(a.accepted[k].bytes).value
  {
    InvHolds(run, n, i);
    AllForwarded(run, n, i);
    EntitiesComeBack(run, n, i);
    hide Run, AllQueued, AllCopied, Inv, Sees, Decode, Good, PacketsOf, GoodOnes, Bad;
    QueuedAll(run[i]);
    CopiedAll(run[i]);
  }

  lemma QueuedAll(s: State)
    requires AllQueued(s) && AtRest(s)
    ensures multiset(s.sh.accepted) == multiset(GoodOnes(s.sh.decoded))
  {
    hide PassedOn, GoodOnes;
    EmptyHands(GoodOnes(s.sh.decoded), s.sh.accepted, Pushers(s.pc));
  }

  lemma CopiedAll(s: State)
    requires Inv(s) && AllCopied(s) && AtRest(s)
    ensures forall k: nat :: k in s.sh.received <==> k < |s.sh.accepted|
    ensures forall k | 0 <= k < |s.sh.accepted| ::
      Good(s.sh.accepted[k]) && s.sh.received[k] == Decode(s.sh.accepted[k].bytes).value
  {
    assert Mail(s.sh) && forall k: nat :: !Copying(s.pc, k);
    hide Inv, Carries, Good, Decode;
  }

  // ------------------------------------------------------- coming to rest

  /** Neither between calls, nor asleep, nor at a null pointer. */
  ghost predicate Busy(p: Pc) {
    !p.Idle? && !p.Asleep? && !p.Dereferenced?
  }

  /** A busy thread can act, provided that there is an address for each entity. */
  lemma CanAct(t: Tid, packets: iset<seq<byte>>, p: Pc, a: Shared, room: set<Addr>) returns (q: Pc, b: Shared)
    requires Base(a) && HeapHeld(a) && Fine(t, p, a) && Busy(p) && |room| >= |a.slots|
    ensures Act(t, packets, p, a, q, b)
  {
    hide Accepted, Good, Decode, LenOf, FirstFree, Released, Sees, Apart, HeapHeld, Acquire, Prepare, DeSerialize;
    match p
    case Received(c) => q, b := CanAcquire(t, c, a);
    case Awake(c) => q, b := CanAcquire(t, c, a);
    case Holding(c, i) => q, b := CanPrepare(c, i, a, room);
    case Decoding(c, l) => q, b := CanDeSerialize(c, l, a);
    case Pushing(c, l) =>
      q := Idle;
      b := a.(queue := a.queue + [l], accepted := a.accepted + [c], owner := a.owner[l.at := Queued(|a.accepted|)]);
    case Popped(l, k) =>
      if a.heap[l.msg].DataMsg? {
        q, b := Releasing(l), a.(received := a.received[k := a.heap[l.msg]]);
      } else {
        q, b := Dereferenced(l, k), a.(nullUsed := true);
      }
    case Releasing(l) => q, b := Signalling, a.(slots := Released(a.slots, l.msg), owner := a.owner[l.at := Free]);
    case Signalling => q, b := Idle, a;
  }

  lemma CanAcquire(t: Tid, c: seq<byte>, a: Shared) returns (q: Pc, b: Shared)
    requires |a.owner| == |a.slots|
    ensures Acquire(t, c, a, q, b)
  {
    hide FirstFree;
    var i := FirstFree(a.slots);
    if i == |a.slots| {
      q, b := Asleep(c), a;
    } else {
      q, b := Holding(c, i), a.(slots := Slots.Acquired(a.slots), owner := a.owner[i := Thread(t)]);
    }
  }

  lemma CanPrepare(c: seq<byte>, i: nat, a: Shared, room: set<Addr>) returns (q: Pc, b: Shared)
    requires Base(a) && HeapHeld(a) && i < |a.slots| && |room| >= |a.slots|
    ensures Prepare(c, i, a, q, b)
  {
    var was := a.slots[i].held;
    var rest := if was.Some? then a.heap - {was.value} else a.heap;
    var x := FreeAddress(a, i, rest, room);
    q := Decoding(c, Letter(i, x));
    b := a.(slots := a.slots[i := a.slots[i].(held := Some(x))], heap := rest[x := DullMsg(0)]);
  }

  /** An entity's message gone, the others leave one of as many addresses free. */
  lemma FreeAddress(a: Shared, i: nat, rest: map<Addr, Msg>, room: set<Addr>) returns (x: Addr)
    requires HeapHeld(a) && i < |a.slots| && |room| >= |a.slots|
    requires rest == if a.slots[i].held.Some? then a.heap - {a.slots[i].held.value} else a.heap
    ensures x !in rest
  {
    var others := a.slots[i := a.slots[i].(held := None)];
    forall y <- rest.Keys ensures y in HeldBy(others) {
      assert IsHeld(a.slots, y);
      var j :| 0 <= j < |a.slots| && a.slots[j].held == Some(y);
      assert others[j].held == Some(y);
      HeldByIs(others, y);
    }
    HeldByFewer(others, i);
    Fewer(rest.Keys, HeldBy(others));
    if room <= rest.Keys {
      Fewer(room, rest.Keys);
      assert false;
    }
    x :| x in room && x !in rest;
  }

  lemma {:induction false} HeldByFewer(slots: seq<Slot<Addr>>, i: nat)
    requires i < |slots| && slots[i].held == None
    ensures |HeldBy(slots)| < |slots|
  {
    var n := |slots| - 1;
    if i < n {
      HeldByFewer(slots[..n], i);
    } else {
      HeldByFew(slots[..n]);
    }
  }

  lemma CanDeSerialize(c: seq<byte>, l: Letter, a: Shared) returns (q: Pc, b: Shared)
    requires Accepted(c) && l.at < |a.owner| && l.msg in a.heap
    ensures DeSerialize(c, l, a, q, b)
  {
    var s := SightExists(c);
    hide Accepted, LenOf, Decode;
    var wild := a.overrun || LenOf(c) != |c|;
    if Decode(s.bytes).Done? {
      q := Pushing(s, l);
      b := a.(heap := a.heap[l.msg := Decode(s.bytes).value], decoded := a.decoded + [s], overrun := wild);
    } else {
      q := Idle;
      b := a.(owner := a.owner[l.at := Lost], decoded := a.decoded + [s], overrun := wild);
      assert a.heap == a.heap[l.msg := b.heap[l.msg]];
    }
  }

  /** No deadlock: every busy thread can take a step. */
  lemma EveryBusyThreadCanStep(run: seq<State>, n: nat, i: nat, t: Tid, room: set<Addr>) returns (r: State, w: set<Tid>)
    requires Run(run, n) && i < |run| && t in run[i].pc && Busy(run[i].pc[t]) && |room| >= n
    ensures Step(run[i], r, t, w)
  {
    InvHolds(run, n, i);
    HeapHolds(run, n, i);
    var s := run[i];
    assert Fine(t, s.pc[t], s.sh);
    hide Run, Fine, HeapHeld, Mail;
    var q, b := CanAct(t, s.packets, s.pc[t], s.sh, room);
    w := if s.pc[t] == Signalling then Sleepers(s.pc) else {};
    hide Act;
    r := State(Wake(s.pc, w)[t := q], s.packets, b);
  }

  /** An idle thread can receive any packet that peers send and that is let pass, and take any
      message off the queue. */
  lemma AnyCall(s: State, t: Tid, c: seq<byte>) returns (r: State)
    requires t in s.pc && s.pc[t] == Idle && c in s.packets && Accepted(c) && |s.sh.owner| == |s.sh.slots|
    ensures Step(s, r, t, {}) && r.pc[t] == Received(c)
  {
    r := State(s.pc[t := Received(c)], s.packets, s.sh.(arrived := s.sh.arrived + [c]));
    hide Accepted;
    assert Wake(s.pc, {}) == s.pc;
  }

  lemma AnyPop(run: seq<State>, n: nat, i: nat, t: Tid) returns (r: State)
    requires Run(run, n) && i < |run| && t in run[i].pc && run[i].pc[t] == Idle && run[i].sh.queue != []
    ensures Step(run[i], r, t, {}) && r.pc[t].Popped?
  {
    InvHolds(run, n, i);
    LetterOwned(run[i], 0);
    hide Run, Inv;
    r := PopFirst(run[i], t);
  }

  lemma PopFirst(s: State, t: Tid) returns (r: State)
    requires t in s.pc && s.pc[t] == Idle && s.sh.queue != [] && s.sh.queue[0].at < |s.sh.owner| == |s.sh.slots|
    ensures Step(s, r, t, {}) && r.pc[t].Popped?
  {
    var a, l := s.sh, s.sh.queue[0];
    r := State(s.pc[t := Popped(l, a.popped)], s.packets,
               a.(queue := a.queue[1..], popped := a.popped + 1, owner := a.owner[l.at := Thread(t)]));
    assert Wake(s.pc, {}) == s.pc;
  }

  /** How many steps a client still has to make. */
  ghost function CopyLeft(p: Pc): nat {
    match p
    case Popped(_, _) => 3
    case Releasing(_) => 2
    case Signalling => 1
    case _ => 0
  }

  /** How many steps a receiver can still make before it sleeps or ends. */
  ghost function DecodeLeft(p: Pc): nat {
    match p
    case Received(_) => 4
    case Awake(_) => 4
    case Holding(_, _) => 3
    case Decoding(_, _) => 2
    case Pushing(_, _) => 1
    case _ => 0
  }

  /** One step of a client outweighs all the receivers its signal can wake. */
  ghost function Left(p: Pc, n: nat): nat {
    CopyLeft(p) * (4 * n + 1) + DecodeLeft(p)
  }

  ghost function Lefts(pc: map<Tid, Pc>, n: nat): map<Tid, nat> {
    map t | t in pc :: Left(pc[t], n)
  }

  ghost function Rank(pc: map<Tid, Pc>): nat {
    Total(Lefts(pc, |pc|))
  }

  lemma LeftFalls(p: Pc, q: Pc, n: nat)
    requires Busy(p) && Follows(p, q)
    ensures Left(q, n) < Left(p, n)
    ensures p == Signalling ==> Left(q, n) + 4 * n < Left(p, n)
  {
    assert CopyLeft(q) < CopyLeft(p) || (CopyLeft(q) == CopyLeft(p) == 0 && DecodeLeft(q) < DecodeLeft(p));
    assert CopyLeft(p) > 0 ==> DecodeLeft(q) == DecodeLeft(p) == 0;
    assert p == Signalling ==> CopyLeft(p) == 1 && CopyLeft(q) == 0;
    hide CopyLeft, DecodeLeft;
    if CopyLeft(q) < CopyLeft(p) {
      Multiples(CopyLeft(q), CopyLeft(p), 4 * n + 1);
    }
  }

  /** A step that is neither a new call nor a spurious wakeup. */
  ghost predicate Quiet(s: State, r: State) {
    exists t, w :: t in s.pc && Busy(s.pc[t]) && Step(s, r, t, w)
  }

  lemma QuietStep(s: State, r: State)
    requires Inv(s) && Quiet(s, r)
    ensures Rank(r.pc) < Rank(s.pc)
  {
    hide Act, Follows, Busy, Rank, Base, Mail, Backed;
    var t, w :| t in s.pc && Busy(s.pc[t]) && Step(s, r, t, w);
    assert Fine(t, s.pc[t], s.sh);
    hide Fine, Inv, Step;
    StepFollows(s, r, t, w);
    RankFalls(s, r, t, w);
  }

  lemma StepFollows(s: State, r: State, t: Tid, w: set<Tid>)
    requires Inv(s) && t in s.pc && Step(s, r, t, w)
    ensures Follows(s.pc[t], r.pc[t])
  {
    assert Fine(t, s.pc[t], s.sh);
    hide Fine, Inv, Act, Follows;
    ActFollows(t, s.packets, s.pc[t], s.sh, r.pc[t], r.sh);
  }

  lemma RankFalls(s: State, r: State, t: Tid, w: set<Tid>)
    requires t in s.pc && Step(s, r, t, w) && Busy(s.pc[t]) && Follows(s.pc[t], r.pc[t])
    ensures Rank(r.pc) < Rank(s.pc)
  {
    var n, c: nat := |s.pc|, if s.pc[t] == Signalling then 4 else 0;
    assert r.pc.Keys == s.pc.Keys by {
      hide Act;
    }
    SameSize(s.pc, r.pc);
    LeftFalls(s.pc[t], r.pc[t], n);
    hide Act, Left, Follows, Busy, Lefts;
    LeftsSize(s.pc, n);
    LeftsSize(r.pc, n);
    forall x <- s.pc | x != t ensures Left(r.pc[x], n) <= Left(s.pc[x], n) + c {
      OthersLeft(s, r, t, w, x, n);
    }
    hide Step;
    TotalFalls(Lefts(s.pc, n), Lefts(r.pc, n), t, c);
  }

  lemma LeftsSize(pc: map<Tid, Pc>, n: nat)
    ensures Lefts(pc, n).Keys == pc.Keys && |Lefts(pc, n)| == |pc|
    ensures forall t <- pc :: Lefts(pc, n)[t] == Left(pc[t], n)
  {
    hide Left;
    SameSize(pc, Lefts(pc, n));
  }

  lemma SameSize<X, Y>(pc: map<Tid, X>, r: map<Tid, Y>)
    requires r.Keys == pc.Keys
    ensures |r| == |pc|
  {
    assert |r| == |r.Keys| && |pc| == |pc.Keys|;
  }

  lemma OthersLeft(s: State, r: State, t: Tid, w: set<Tid>, x: Tid, n: nat)
    requires t in s.pc && Step(s, r, t, w) && x in s.pc && x != t
    ensures Left(r.pc[x], n) <= Left(s.pc[x], n) + if s.pc[t] == Signalling then 4 else 0
  {
    hide Act;
  }

  ghost predicate QuietAt(run: seq<State>, i: nat)
    requires 0 < i < |run|
  {
    Quiet(run[i - 1], run[i])
  }

  /** Without new calls and spurious wakeups no run goes on for ever. */
  lemma {:induction false} QuietRunsEnd(run: seq<State>, n: nat, i: nat, j: nat)
    requires Run(run, n) && i <= j < |run| && forall k | i < k <= j :: QuietAt(run, k)
    ensures j - i + Rank(run[j].pc) <= Rank(run[i].pc)
    decreases j
  {
    hide Run, Inv, Rank;
    if i < j {
      QuietRunsEnd(run, n, i, j - 1);
      assert QuietAt(run, j);
      InvHolds(run, n, j - 1);
      QuietStep(run[j - 1], run[j]);
    }
  }

  lemma OneQuietStep(run: seq<State>, n: nat, r: State)
    requires Run(run, n) && Quiet(run[|run| - 1], r)
    ensures Run(run + [r], n) && QuietAt(run + [r], |run|)
  {
    var next := run + [r];
    hide Quiet, Init, Step;
    forall i | 0 < i < |next| ensures NextAt(next, i) {
      if i < |run| {
        assert NextAt(run, i);
      } else {
        QuietIsNext(run[|run| - 1], r);
      }
    }
  }

  lemma QuietIsNext(s: State, r: State)
    requires Quiet(s, r)
    ensures Next(s, r)
  {
  }

  ghost predicate NobodyBusy(s: State) {
    forall t <- s.pc :: !Busy(s.pc[t])
  }

  /** Nobody is busy, and whoever waits for an entity waits because all are occupied. */
  ghost predicate Rests(s: State) {
    && NobodyBusy(s)
    && ((exists t <- s.pc :: s.pc[t].Asleep?) ==> forall j :: 0 <= j < |s.sh.slots| ==> s.sh.slots[j].occupied)
  }

  ghost predicate QuietFrom(run: seq<State>, i: nat)
    requires 0 < i
  {
    forall k | i <= k < |run| :: QuietAt(run, k)
  }

  /** From every reachable state quiet steps lead to rest. */
  lemma {:induction false} ComesToRest(run: seq<State>, n: nat, room: set<Addr>) returns (end: seq<State>)
    requires Run(run, n) && run != [] && |room| >= n
    ensures Run(end, n) && run <= end && QuietFrom(end, |run|) && Rests(end[|end| - 1])
    decreases Rank(run[|run| - 1].pc)
  {
    hide *;
    if NobodyBusy(run[|run| - 1]) {
      end := run;
      RestIsFine(run, n);
      AlreadyQuiet(run);
    } else {
      var r := QuietNext(run, n, room);
      OneQuietStep(run, n, r);
      InvHolds(run, n, |run| - 1);
      QuietStep(run[|run| - 1], r);
      end := ComesToRest(run + [r], n, room);
      QuietOnward(run, r, end);
    }
  }

  lemma RestIsFine(run: seq<State>, n: nat)
    requires Run(run, n) && run != [] && NobodyBusy(run[|run| - 1])
    ensures Rests(run[|run| - 1])
  {
    hide Run;
    var s := run[|run| - 1];
    if t :| t in s.pc && s.pc[t].Asleep? {
      SleepOnlyWhenTaken(run, n, |run| - 1, t);
    }
  }

  lemma AlreadyQuiet(run: seq<State>)
    requires run != []
    ensures QuietFrom(run, |run|)
  {
  }

  lemma QuietOnward(run: seq<State>, r: State, end: seq<State>)
    requires run != [] && run + [r] <= end && QuietAt(run + [r], |run|) && QuietFrom(end, |run| + 1)
    ensures run <= end && QuietFrom(end, |run|)
  {
    hide Quiet;
    assert end[|run| - 1] == (run + [r])[|run| - 1] && end[|run|] == (run + [r])[|run|];
    assert QuietAt(end, |run|);
  }

  lemma QuietNext(run: seq<State>, n: nat, room: set<Addr>) returns (r: State)
    requires Run(run, n) && run != [] && !NobodyBusy(run[|run| - 1]) && |room| >= n
    ensures Quiet(run[|run| - 1], r)
  {
    hide Step, Run;
    var s := run[|run| - 1];
    var t :| t in s.pc && Busy(s.pc[t]);
    var w;
    r, w := EveryBusyThreadCanStep(run, n, |run| - 1, t, room);
  }
}
