/** Three things that can go wrong in a session, and exactly which packets make them happen:
    a client uses a null pointer, the decoder is told of an end outside its buffer, and an
    entity is lost for good. */
module SessionRuns {
  import opened Bytes
  import opened Codec
  import opened Options
  import opened Session
  import opened Slots

  datatype Flaw = NullUse | Overrun | Loss

  ghost predicate Shows(f: Flaw, a: Shared) {
    match f
    case NullUse => a.nullUsed
    case Overrun => a.overrun
    case Loss => exists i :: 0 <= i < |a.owner| && a.owner[i] == Lost
  }

  /** What does it: decoding to a message that is no data message; an end that is not the end
      of the packet; and decoding to no message. */
  ghost predicate Does(f: Flaw, s: Sight) {
    match f
    case NullUse => Good(s) && !Decode(s.bytes).value.DataMsg?
    case Overrun => Sees(s) && |s.bytes| != |s.packet|
    case Loss => Sees(s) && Decode(s.bytes).OutOfRange?
  }

  /** A packet causes a flaw if what the decoder may find for it does it. */
  ghost predicate Causes(f: Flaw, b: seq<byte>) {
    exists s: Sight {:trigger Does(f, s)} :: s.packet == b && Does(f, s)
  }

  // ------------------------------------------------------------ what causes them

  /** The packet behind what a thread has in hand, decoded or not. */
  ghost function Behind(p: Pc): Option<seq<byte>> {
    if p.Pushing? then Some(p.s.packet) else PacketOf(p)
  }

  /** Every packet on its way is one that peers send. */
  ghost predicate Sourced(s: State) {
    && (forall t <- s.pc :: Behind(s.pc[t]).Some? ==> Behind(s.pc[t]).value in s.packets)
    && (forall k | 0 <= k < |s.sh.accepted| :: s.sh.accepted[k].packet in s.packets)
  }

  ghost predicate Explained(s: State, f: Flaw) {
    Shows(f, s.sh) ==> s.pc.Keys != {} && s.sh.slots != [] && exists b :: b in s.packets && Causes(f, b)
  }

  lemma SourcedStep(s: State, r: State, t: Tid, w: set<Tid>)
    requires Inv(s) && Sourced(s) && t in s.pc && Step(s, r, t, w)
    ensures Sourced(r)
  {
    var p, a, q, b := s.pc[t], s.sh, r.pc[t], r.sh;
    assert Fine(t, p, a);
    ActFollows(t, s.packets, p, a, q, b);
    ActPosts(t, s.packets, p, a, q, b);
    hide Act, Inv, Fine, Good, Decode, Accepted, Follows;
    forall x <- r.pc ensures Behind(r.pc[x]).Some? ==> Behind(r.pc[x]).value in r.packets {
      if x != t {
        assert Behind(r.pc[x]) == Behind(s.pc[x]);
      }
    }
  }

  /** A new flaw comes of what was found for the packet in the thread's hands, or of what is
      behind the message it copies. */
  lemma FlawCause(t: Tid, packets: iset<seq<byte>>, p: Pc, a: Shared, q: Pc, b: Shared, f: Flaw) returns (c: Sight)
    requires Base(a) && Mail(a) && Fine(t, p, a) && Act(t, packets, p, a, q, b) && Shows(f, b) && !Shows(f, a)
    ensures Does(f, c) && a.slots != []
    ensures (p.Decoding? && c.packet == p.b) || (p.Popped? && p.k < |a.accepted| && c == a.accepted[p.k])
  {
    if f == Loss {
      c := LossCause(t, packets, p, a, q, b);
      return;
    }
    hide Base, Mail, FirstFree, Released, Slots.Acquired, Accepted, Decode, LenOf;
    match f {
      case Overrun =>
        assert p.Decoding?;
        c := b.decoded[|a.decoded|];
      case NullUse =>
        assert p.Popped?;
        c := a.accepted[p.k];
    }
  }

  lemma LossCause(t: Tid, packets: iset<seq<byte>>, p: Pc, a: Shared, q: Pc, b: Shared) returns (c: Sight)
    requires Base(a) && Mail(a) && Fine(t, p, a) && Act(t, packets, p, a, q, b) && Shows(Loss, b) && !Shows(Loss, a)
    ensures p.Decoding? && c.packet == p.b && Does(Loss, c) && a.slots != []
  {
    ActKeeps(t, packets, p, a, q, b);
    ActFollows(t, packets, p, a, q, b);
    ActEnds(t, packets, p, a, q, b);
    ActPosts(t, packets, p, a, q, b);
    var i :| 0 <= i < |b.owner| && b.owner[i] == Lost;
    LossHere(t, p, a, q, b, i);
    c := b.decoded[|a.decoded|];
    hide Base, Mail, Fine, Act, Sees, Decode, Passes, OthersSame;
  }

  lemma LossHere(t: Tid, p: Pc, a: Shared, q: Pc, b: Shared, i: nat)
    requires OthersSame(a, b, Touched(p, q)) && Passes(t, p, a, q, b) && Follows(p, q)
    requires p.Releasing? ==> p.l.at < |b.owner| && b.owner[p.l.at] == Free
    requires i < |b.owner| && b.owner[i] == Lost && !Shows(Loss, a)
    ensures p.Decoding? && q == Idle && a.slots != []
  {
    assert Touched(p, q) == Some(i);
  }

  lemma ExplainedStep(s: State, r: State, t: Tid, w: set<Tid>, f: Flaw)
    requires Inv(s) && Sourced(s) && Explained(s, f) && t in s.pc && Step(s, r, t, w)
    ensures Explained(r, f)
  {
    var p, a, q, b := s.pc[t], s.sh, r.pc[t], r.sh;
    assert Fine(t, p, a);
    ActKeeps(t, s.packets, p, a, q, b);
    assert |b.slots| == |a.slots| && t in r.pc.Keys;
    hide Base, Mail, Fine, Does, Shows, Backed, Act;
    if Shows(f, b) && !Shows(f, a) {
      var c := FlawCause(t, s.packets, p, a, q, b, f);
      assert c.packet in s.packets && Causes(f, c.packet);
    }
  }

  lemma {:induction false} EveryFlawExplained(run: seq<State>, n: nat, i: nat, f: Flaw)
    requires Run(run, n) && i < |run|
    ensures Sourced(run[i]) && Explained(run[i], f) && run[i].packets == run[0].packets && run[i].pc.Keys == run[0].pc.Keys
    decreases i
  {
    hide Inv, Sourced, Explained;
    if i == 0 {
      StartsClean(run[0], n, f);
    } else {
      EveryFlawExplained(run, n, i - 1, f);
      InvHolds(run, n, i - 1);
      assert NextAt(run, i);
      var t, w :| t in run[i - 1].pc && Step(run[i - 1], run[i], t, w);
      SourcedStep(run[i - 1], run[i], t, w);
      ExplainedStep(run[i - 1], run[i], t, w, f);
      hide Act;
      assert run[i].pc.Keys == run[i - 1].pc.Keys;
    }
  }

  lemma StartsClean(s: State, n: nat, f: Flaw)
    requires Init(s, n)
    ensures Sourced(s) && Explained(s, f)
  {
  }

  // ------------------------------------------------------------ making them happen

  ghost predicate Leads(run: seq<State>, n: nat, s: State) {
    Run(run, n) && run[|run| - 1] == s
  }

  /** A run from `s0` in which only thread `t` acts goes on by one act. */
  lemma Do(run: seq<State>, n: nat, s0: State, t: Tid, p: Pc, a: Shared, q: Pc, b: Shared) returns (next: seq<State>)
    requires t in s0.pc && Leads(run, n, State(s0.pc[t := p], s0.packets, a)) && run[0] == s0
    requires Act(t, s0.packets, p, a, q, b) && p != Signalling
    ensures Leads(next, n, State(s0.pc[t := q], s0.packets, b)) && next[0] == s0
  {
    var s, r := State(s0.pc[t := p], s0.packets, a), State(s0.pc[t := q], s0.packets, b);
    next := run + [r];
    hide Act, Init;
    assert Wake(s.pc, {}) == s.pc;
    assert r.pc == s.pc[t := q];
    assert Step(s, r, t, {});
    forall i | 0 < i < |next| ensures NextAt(next, i) {
      if i < |run| {
        assert NextAt(run, i);
      }
    }
  }

  /** The shared state when the first packet is about to be decoded, into message `x`. */
  ghost function Before(a: Shared, t: Tid, c: seq<byte>, x: Addr): Shared
    requires a.slots != [] && a.owner != []
  {
    a.(arrived := [c], slots := a.slots[0 := Slot(Some(x), true)], owner := a.owner[0 := Thread(t)],
       heap := map[x := DullMsg(0)])
  }

  lemma DoHold(s0: State, n: nat, t: Tid, c: seq<byte>) returns (run: seq<State>)
    requires Init(s0, n) && n > 0 && t in s0.pc && c in s0.packets && Accepted(c)
    ensures var a := s0.sh; Leads(run, n, State(s0.pc[t := Holding(c, 0)], s0.packets,
      a.(arrived := [c], slots := a.slots[0 := Slot(None, true)], owner := a.owner[0 := Thread(t)])))
    ensures run[0] == s0
  {
    hide Leads, Accepted;
    var a := s0.sh;
    run := [s0];
    assert s0.pc[t := Idle] == s0.pc;
    assert Leads(run, n, State(s0.pc[t := Idle], s0.packets, a)) by { OneState(s0, n); }
    run := Do(run, n, s0, t, Idle, a, Received(c), a.(arrived := [c]));
    FirstFreeIs(a.slots, 0);
    run := Do(run, n, s0, t, Received(c), a.(arrived := [c]), Holding(c, 0),
      a.(arrived := [c], slots := a.slots[0 := Slot(None, true)], owner := a.owner[0 := Thread(t)]));
  }

  lemma OneState(s0: State, n: nat)
    requires Init(s0, n)
    ensures Leads([s0], n, s0)
  {
  }

  lemma DoPrepare(s0: State, n: nat, t: Tid, c: seq<byte>, x: Addr) returns (run: seq<State>)
    requires Init(s0, n) && n > 0 && t in s0.pc && c in s0.packets && Accepted(c)
    ensures Leads(run, n, State(s0.pc[t := Decoding(c, Letter(0, x))], s0.packets, Before(s0.sh, t, c, x))) && run[0] == s0
  {
    run := DoHold(s0, n, t, c);
    hide Leads, Accepted;
    var a := s0.sh;
    var h := a.(arrived := [c], slots := a.slots[0 := Slot(None, true)], owner := a.owner[0 := Thread(t)]);
    var b := Before(a, t, c, x);
    assert b.slots == h.slots[0 := Slot(Some(x), true)];
    run := Do(run, n, s0, t, Holding(c, 0), h, Decoding(c, Letter(0, x)), b);
  }

  lemma DoLoss(s0: State, n: nat, t: Tid, c: Sight, x: Addr) returns (run: seq<State>, s: State)
    requires Init(s0, n) && n > 0 && t in s0.pc && c.packet in s0.packets && Does(Loss, c)
    ensures Leads(run, n, s) && run[0] == s0 && Shows(Loss, s.sh) && AtRest(s)
  {
    run := DoPrepare(s0, n, t, c.packet, x);
    hide Leads, LenOf, Decode, Accepted;
    var a := Before(s0.sh, t, c.packet, x);
    var b := a.(owner := a.owner[0 := Lost], decoded := [c], overrun := LenOf(c.packet) != |c.packet|);
    run := Do(run, n, s0, t, Decoding(c.packet, Letter(0, x)), a, Idle, b);
    s := State(s0.pc[t := Idle], s0.packets, b);
    assert s.sh.owner[0] == Lost;
  }

  /** The shared state when the first packet has been decoded into message `x`. */
  ghost function Decoded(a: Shared, t: Tid, c: Sight, x: Addr): Shared
    requires a.slots != [] && a.owner != [] && Good(c)
  {
    Before(a, t, c.packet, x).(heap := map[x := Decode(c.bytes).value], decoded := [c],
                               overrun := LenOf(c.packet) != |c.packet|)
  }

  lemma DoDecode(s0: State, n: nat, t: Tid, c: Sight, x: Addr) returns (run: seq<State>)
    requires Init(s0, n) && n > 0 && t in s0.pc && c.packet in s0.packets && Good(c)
    ensures Leads(run, n, State(s0.pc[t := Pushing(c, Letter(0, x))], s0.packets, Decoded(s0.sh, t, c, x))) && run[0] == s0
  {
    run := DoPrepare(s0, n, t, c.packet, x);
    hide Leads, LenOf, Decode, Accepted;
    run := Do(run, n, s0, t, Decoding(c.packet, Letter(0, x)), Before(s0.sh, t, c.packet, x),
      Pushing(c, Letter(0, x)), Decoded(s0.sh, t, c, x));
  }

  lemma DoOverrun(s0: State, n: nat, t: Tid, c: Sight, x: Addr) returns (run: seq<State>, s: State)
    requires Init(s0, n) && n > 0 && t in s0.pc && c.packet in s0.packets && Does(Overrun, c)
    ensures Leads(run, n, s) && run[0] == s0 && Shows(Overrun, s.sh)
  {
    hide Leads, LenOf, Decode, Accepted;
    if Decode(c.bytes).Done? {
      run := DoDecode(s0, n, t, c, x);
      s := State(s0.pc[t := Pushing(c, Letter(0, x))], s0.packets, Decoded(s0.sh, t, c, x));
    } else {
      run := DoPrepare(s0, n, t, c.packet, x);
      var a := Before(s0.sh, t, c.packet, x);
      var b := a.(owner := a.owner[0 := Lost], decoded := [c], overrun := true);
      run := Do(run, n, s0, t, Decoding(c.packet, Letter(0, x)), a, Idle, b);
      s := State(s0.pc[t := Idle], s0.packets, b);
    }
  }

  /** The shared state when that message has been queued. */
  ghost function Pushed(a: Shared, t: Tid, c: Sight, x: Addr): Shared
    requires a.slots != [] && a.owner != [] && Good(c)
  {
    Decoded(a, t, c, x).(queue := [Letter(0, x)], accepted := [c], owner := a.owner[0 := Queued(0)])
  }

  lemma DoPush(s0: State, n: nat, t: Tid, c: Sight, x: Addr) returns (run: seq<State>)
    requires Init(s0, n) && n > 0 && t in s0.pc && c.packet in s0.packets && Good(c)
    ensures Leads(run, n, State(s0.pc[t := Idle], s0.packets, Pushed(s0.sh, t, c, x))) && run[0] == s0
  {
    run := DoDecode(s0, n, t, c, x);
    hide Leads, LenOf, Decode, Accepted, Sees;
    run := Do(run, n, s0, t, Pushing(c, Letter(0, x)), Decoded(s0.sh, t, c, x), Idle, Pushed(s0.sh, t, c, x));
  }

  /** The shared state when that message has been taken off the queue again. */
  ghost function Taken(a: Shared, t: Tid, c: Sight, x: Addr): Shared
    requires a.slots != [] && a.owner != [] && Good(c)
  {
    Pushed(a, t, c, x).(queue := [], popped := 1, owner := a.owner[0 := Thread(t)])
  }

  lemma DoPop(s0: State, n: nat, t: Tid, c: Sight, x: Addr) returns (run: seq<State>)
    requires Init(s0, n) && n > 0 && t in s0.pc && c.packet in s0.packets && Good(c)
    ensures Leads(run, n, State(s0.pc[t := Popped(Letter(0, x), 0)], s0.packets, Taken(s0.sh, t, c, x))) && run[0] == s0
  {
    run := DoPush(s0, n, t, c, x);
    hide Leads, LenOf, Decode, Accepted, Good;
    run := Do(run, n, s0, t, Idle, Pushed(s0.sh, t, c, x), Popped(Letter(0, x), 0), Taken(s0.sh, t, c, x));
  }

  lemma DoNullUse(s0: State, n: nat, t: Tid, c: Sight, x: Addr) returns (run: seq<State>, s: State)
    requires Init(s0, n) && n > 0 && t in s0.pc && c.packet in s0.packets && Does(NullUse, c)
    ensures Leads(run, n, s) && run[0] == s0 && Shows(NullUse, s.sh)
  {
    run := DoPop(s0, n, t, c, x);
    hide Leads, LenOf, Decode, Accepted, Sees;
    var a, l := Taken(s0.sh, t, c, x), Letter(0, x);
    assert |a.owner| == |a.slots| && l.msg in a.heap && a.heap[l.msg] == Decode(c.bytes).value;
    hide Taken, Pushed, Decoded, Before, Init;
    run := Do(run, n, s0, t, Popped(l, 0), a, Dereferenced(l, 0), a.(nullUsed := true));
    s := State(s0.pc[t := Dereferenced(l, 0)], s0.packets, a.(nullUsed := true));
  }

  /** A flaw never shows, in any run of a session with at least one thread and one entity, if
      and only if peers send no packet that causes it. Nulls are never used exactly when what
      may be found for a packet never decodes to anything but a data message; the decoder
      never gets an end outside its buffer exactly when every packet let pass is as long as it
      says; and no entity is ever lost exactly when what may be found always decodes. */
  lemma NeverIff(f: Flaw, s0: State, n: nat)
    requires Init(s0, n)
    ensures (forall run, s :: Leads(run, n, s) && run[0] == s0 ==> !Shows(f, s.sh))
      <==> (n == 0 || s0.pc.Keys == {} || forall c | c in s0.packets :: !Causes(f, c))
  {
    hide Does, Shows, Act;
    if n == 0 || s0.pc.Keys == {} || forall c | c in s0.packets :: !Causes(f, c) {
      forall run, s | Leads(run, n, s) && run[0] == s0 ensures !Shows(f, s.sh) {
        EveryFlawExplained(run, n, |run| - 1, f);
        InvHolds(run, n, |run| - 1);
      }
    } else {
      var b :| b in s0.packets && Causes(f, b);
      var c: Sight :| c.packet == b && Does(f, c);
      var t :| t in s0.pc.Keys;
      var x: Addr :| true;
      var run, s;
      match f {
        case NullUse => run, s := DoNullUse(s0, n, t, c, x);
        case Overrun => run, s := DoOverrun(s0, n, t, c, x);
        case Loss => run, s := DoLoss(s0, n, t, c, x);
      }
      assert Leads(run, n, s) && run[0] == s0;
    }
  }

  // ------------------------------------------------------------ such packets exist

  /** A packet with type `k`, length field `n`, and `rest` behind. */
  function Packet(k: nat, n: nat, rest: seq<byte>): (b: seq<byte>)
    ensures |b| == TYPE_LEN + SIZE_LEN + |rest|
  {
    NatBytes(k, TYPE_LEN) + NatBytes(n, SIZE_LEN) + rest
  }

  lemma PacketReads(k: nat, n: nat, rest: seq<byte>)
    requires k < 5 && n < 0x1_0000_0000_0000_0000
    ensures var b := Packet(k, n, rest); BytesNat(b[..TYPE_LEN]) == k && LenOf(b) == n && HasType(b)
  {
    WordSize();
    var x, y, b := NatBytes(k, TYPE_LEN), NatBytes(n, SIZE_LEN), Packet(k, n, rest);
    ReadBack(k, TYPE_LEN);
    ReadBack(n, SIZE_LEN);
    hide NatBytes, BytesNat, Pow256;
    assert b[..TYPE_LEN] == x && b[TYPE_LEN..TYPE_LEN + SIZE_LEN] == y;
  }

  lemma PacketPasses(k: nat, n: nat, rest: seq<byte>)
    requires k < 5 && n < FAR && |rest| <= 100
    ensures var b := Packet(k, n, rest);
      && (Accepted(b) <==> n % 0x1_0000_0000 == |b|)
      && (HeaderOk(b) <==> n == |b|) && LenOf(b) == n && HasType(b)
  {
    PacketReads(k, n, rest);
    hide LenOf, HasType, Packet;
  }

  lemma PacketDecodes(k: nat, n: nat, rest: seq<byte>)
    requires k < 5 && n < 0x1_0000_0000_0000_0000
    ensures var b := Packet(k, n, rest);
      HasType(b) && if k < 2 then Decode(b) == Done(Make(k, n, []), 12) else |rest| < SIZE_LEN ==> Decode(b) == OutOfRange
  {
    PacketReads(k, n, rest);
    var b := Packet(k, n, rest);
    hide BytesNat, Packet, Pow256, Make, StringsLen;
    if k >= 2 && |rest| < SIZE_LEN {
      assert ReadStr(b, 12) == OutOfRange;
    }
  }

  /** The decoder is told of a wrong end by exactly the packets let pass whose length is not
      what they say. */
  lemma OverrunIff(b: seq<byte>)
    ensures Causes(Overrun, b) <==> Accepted(b) && LenOf(b) != |b|
  {
    hide LenOf, HasType, Decode;
    if Accepted(b) && LenOf(b) != |b| {
      var s := SightExists(b);
      assert Does(Overrun, s);
    }
  }

  /** A packet that is as long as it says loses an entity exactly if it cannot be decoded, and
      makes a client use a null pointer exactly if it is no data message. */
  lemma CausesIff(b: seq<byte>)
    requires HeaderOk(b)
    ensures !Causes(Overrun, b)
    ensures Causes(Loss, b) <==> Decode(b) == OutOfRange
    ensures Causes(NullUse, b) <==> Decode(b).Done? && !Decode(b).value.DataMsg?
  {
    OverrunIff(b);
    SeesItself(b);
    forall s: Sight | s.packet == b && Sees(s) ensures s == Sight(b, b) {
      SightOfPacket(s);
    }
    hide Sees, HeaderOk, Decode;
    assert Does(Loss, Sight(b, b)) <==> Decode(b) == OutOfRange;
    assert Does(NullUse, Sight(b, b)) <==> Decode(b).Done? && !Decode(b).value.DataMsg?;
  }

  lemma SeesItself(b: seq<byte>)
    requires HeaderOk(b)
    ensures Sees(Sight(b, b))
  {
    hide LenOf, HasType;
  }

  /** A packet let pass that can be decoded loses no entity, whatever length it says, and makes
      a client use a null pointer exactly if it is no data message. */
  lemma CausesIfDecodes(b: seq<byte>)
    requires Accepted(b) && Decode(b).Done?
    ensures !Causes(Loss, b)
    ensures Causes(NullUse, b) <==> !Decode(b).value.DataMsg?
  {
    var z := SightExists(b);
    forall s: Sight | s.packet == b && Sees(s) ensures Decode(s.bytes) == Decode(b) {
      SightOfPacket(s);
    }
    hide Sees, Accepted, Decode;
    assert Does(NullUse, z) <==> !Decode(b).value.DataMsg?;
  }

  /** Twelve bytes that say "registration" and nothing more: let pass, and then decoding throws. */
  lemma BareRegistration()
    ensures Causes(Loss, Packet(2, 12, [])) && |Packet(2, 12, [])| == 12
  {
    PacketPasses(2, 12, []);
    PacketDecodes(2, 12, []);
    CausesIff(Packet(2, 12, []));
  }

  /** The encoding of a message without fields: let pass, decoded, queued, and not a data message. */
  lemma DullEncoding()
    ensures Causes(NullUse, Encode(DullMsg(0))) && |Encode(DullMsg(0))| == 12
  {
    EncodingIsGood(DullMsg(0));
    CausesIff(Encode(DullMsg(0)));
  }

  /** Twelve bytes that claim to be 2^32 + 12: the comparison, narrowed to 32 bits, lets them
      pass, they are decoded, and again to no data message. */
  lemma NarrowedLength()
    ensures var b := Packet(0, 0x1_0000_000C, []); Causes(Overrun, b) && Causes(NullUse, b) && !Causes(Loss, b)
  {
    hide Packet, Accepted, Decode, HasType, LenOf, HeaderOk, Causes;
    var n := 0x1_0000_000C;
    var b := Packet(0, n, []);
    PacketPasses(0, n, []);
    PacketDecodes(0, n, []);
    OverrunIff(b);
    CausesIfDecodes(b);
  }

  lemma LongNameFails(b: seq<byte>, n: nat)
    requires HasType(b) && 2 <= BytesNat(b[..TYPE_LEN]) && 20 <= |b| < n < Pow256(SIZE_LEN) && b[12..20] == NatBytes(n, SIZE_LEN)
    ensures Decode(b) == OutOfRange
  {
    ReadBack(n, SIZE_LEN);
    hide BytesNat, NatBytes, Pow256;
    assert ReadStr(b, 12) == OutOfRange;
  }

  lemma LongNameSeen(s: Sight, k: nat, m: nat, n: nat)
    requires Sees(s) && s.packet == Packet(k, m, NatBytes(n, SIZE_LEN)) && LenOf(s.packet) < n
    requires 2 <= k < 5 && m < 0x1_0000_0000_0000_0000 && n < 0x1_0000_0000_0000_0000
    ensures Decode(s.bytes) == OutOfRange
  {
    PacketReads(k, m, NatBytes(n, SIZE_LEN));
    WordSize();
    hide BytesNat, NatBytes, Pow256, Accepted, LenOf, Decode;
    assert s.bytes[..TYPE_LEN] == s.packet[..TYPE_LEN] && s.bytes[12..20] == s.packet[12..20] == NatBytes(n, SIZE_LEN);
    LongNameFails(s.bytes, n);
  }

  /** An overlong registration whose first name is longer still: an entity is lost, whatever
      lies behind the buffer. */
  lemma OverlongRegistration(s: Sight)
    requires s.packet == Packet(2, 0x1_0000_0014, NatBytes(0x2_0000_0000, SIZE_LEN))
    ensures Accepted(s.packet) && !HeaderOk(s.packet) && Causes(Loss, s.packet)
    ensures Sees(s) ==> Does(Loss, s)
  {
    hide NatBytes, Packet, Accepted, HeaderOk, LenOf, HasType, Sees, Decode, Does, Causes;
    var m, n := 0x1_0000_0014, 0x2_0000_0000;
    PacketPasses(2, m, NatBytes(n, SIZE_LEN));
    var z := SightExists(s.packet);
    LongNameSeen(z, 2, m, n);
    LossHappens(z);
    if Sees(s) {
      LongNameSeen(s, 2, m, n);
      LossHappens(s);
    }
  }

  lemma LossHappens(s: Sight)
    requires Sees(s) && Decode(s.bytes) == OutOfRange
    ensures Does(Loss, s) && Causes(Loss, s.packet)
  {
    hide Sees, Decode;
    assert Does(Loss, s);
  }

  lemma PacketOfStrings(k: nat, n: nat, ss: seq<Str>)
    requires k < 5 && n < 0x1_0000_0000_0000_0000 && |ss| == if k < 2 then 0 else 3
    ensures var b := Packet(k, n, StringsBytes(ss)); HasType(b) && Decode(b) == Done(Make(k, n, ss), |b|)
  {
    hide NatBytes, StringsBytes, StringsLen, Decode, HasType, Make;
    WordSize();
    WireBack(k, n, ss, []);
    assert Wire(k, n, ss) + [] == Packet(k, n, StringsBytes(ss));
  }

  function Nothing(): (ss: seq<Str>)
    ensures |ss| == 3
  {
    [[], [], []]
  }

  lemma NothingLen()
    ensures |StringsBytes(Nothing())| == 24
  {
    var s := Nothing();
    assert s[1..] == [[], []] && s[1..][1..] == [[]];
  }

  /** An overlong data message without content: decoded to a data message, whatever lies
      behind it. The wrong end is all that it causes. */
  lemma OverlongData()
    ensures var b := Packet(4, 0x1_0000_0024, StringsBytes(Nothing()));
      && |b| == 36 && Accepted(b) && !HeaderOk(b) && Decode(b) == Done(DataMsg(0x1_0000_0024, [], [], []), 36)
      && Causes(Overrun, b) && !Causes(Loss, b) && !Causes(NullUse, b)
  {
    NothingLen();
    hide StringsBytes, StringsLen, Nothing, Packet, Make, Accepted, HeaderOk, LenOf, HasType, Decode, Causes;
    var n := 0x1_0000_0024;
    var x := StringsBytes(Nothing());
    PacketPasses(4, n, x);
    PacketOfStrings(4, n, Nothing());
    assert Make(4, n, Nothing()) == DataMsg(n, [], [], []) by { NothingMade(n); }
    OverrunIff(Packet(4, n, x));
    CausesIfDecodes(Packet(4, n, x));
  }

  lemma NothingMade(n: nat)
    ensures Make(4, n, Nothing()) == DataMsg(n, [], [], [])
  {
  }

  /** A packet may be longer than its message: the last byte here is never looked at. */
  lemma TrailingByte()
    ensures var b := Packet(0, 13, [7]); HeaderOk(b) && Decode(b) == Done(DullMsg(13), 12) && |b| == 13
  {
    hide Packet, HeaderOk, Decode, HasType;
    PacketPasses(0, 13, [7]);
    PacketDecodes(0, 13, [7]);
  }

  /** What the receiver lets pass is as long as it says exactly if its length field is a
      32-bit number. */
  lemma PassesIff(b: seq<byte>)
    requires Accepted(b)
    ensures HeaderOk(b) <==> LenOf(b) < 0x1_0000_0000
  {
    hide LenOf, HasType;
  }
}
