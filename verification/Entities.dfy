/** The entities that encode and decode messages in place, and the two arrays of them. */
module Entities {
  import opened Bytes
  import opened Codec
  import opened Options
  import opened Slots

  function Zeros(n: nat): seq<byte> {
    seq(n, _ => 0)
  }

  // -------------------------------------------------------------- serializing

  class SerializeEntity {
    const buf: array<byte>
    var position: nat
    var bufEnd: nat
    var isOccupied: bool

    constructor ()
      ensures buf.Length == BUF_LEN && fresh(buf) && !isOccupied
    {
      buf := new byte[BUF_LEN](_ => 0);
      position, bufEnd, isOccupied := 0, 0, false;
    }

    /** Since `Prepare`, `done` has been written, and nothing after it. */
    ghost predicate Holds(done: seq<byte>)
      reads this, buf
    {
      && buf.Length == bufEnd == BUF_LEN && position == |done| <= BUF_LEN
      && buf[..] == done + Zeros(BUF_LEN - |done|)
    }

    method Prepare()
      requires buf.Length == BUF_LEN
      modifies buf, `position, `bufEnd
      ensures Holds([])
    {
      forall k | 0 <= k < BUF_LEN {
        buf[k] := 0;
      }
      position, bufEnd := 0, BUF_LEN;
    }

    method Copy(s: seq<byte>, ghost done: seq<byte>)
      requires Holds(done) && |done| + |s| <= BUF_LEN
      modifies buf, `position
      ensures Holds(done + s)
    {
      forall k | 0 <= k < |s| {
        buf[position + k] := s[k];
      }
      position := position + |s|;
    }

    method PutNat(n: nat, w: nat, ghost done: seq<byte>) returns (ok: bool)
      requires Holds(done)
      modifies buf, `position
      ensures ok <==> |done| + w <= BUF_LEN
      ensures Holds(if ok then done + NatBytes(n, w) else done)
    {
      if position + w > bufEnd {
        return false;
      }
      Copy(NatBytes(n, w), done);
      return true;
    }

    /** Length and bytes are checked together, so a string is written whole or not at all. */
    method PutStr(s: Str, ghost done: seq<byte>) returns (ok: bool)
      requires Holds(done)
      modifies buf, `position
      ensures ok <==> |done| + SIZE_LEN + |s| <= BUF_LEN
      ensures Holds(if ok then done + StrBytes(s) else done)
    {
      hide NatBytes, Pow256;
      if position + SIZE_LEN + |s| > bufEnd {
        return false;
      }
      var length := NatBytes(|s|, SIZE_LEN);
      Copy(length, done);
      Copy(s, done + length);
      assert done + length + s == done + (length + s);
      return true;
    }

    method PutStrs(x: Str, y: Str, z: Str, ghost done: seq<byte>) returns (ok: bool)
      requires Holds(done)
      modifies buf, `position
      ensures ok <==> |done| + StringsLen([x, y, z]) <= BUF_LEN
      ensures ok ==> Holds(done + StringsBytes([x, y, z]))
    {
      hide StrBytes, Holds;
      ThreeStrings(x, y, z, done);
      ok := PutStr(x, done);
      if !ok { return; }
      ok := PutStr(y, done + StrBytes(x));
      if !ok { return; }
      ok := PutStr(z, done + StrBytes(x) + StrBytes(y));
    }

    /** The message's own `Serialize`: its length is computed first and goes out with it. */
    method SerializeMsg(m: Msg) returns (ok: bool, sized: Msg)
      requires Holds([])
      modifies buf, `position
      ensures sized == Sized(m)
      ensures ok <==> CalculateSerializedMsgLen(m) <= BUF_LEN
      ensures ok ==> Holds(Encode(m))
    {
      hide NatBytes, Pow256, StrBytes, Holds;
      sized := Sized(m);
      ok := PutNat(TypeOf(m), TYPE_LEN, []);
      ghost var head := [] + NatBytes(TypeOf(m), TYPE_LEN);
      if !ok { return; }
      ok := PutNat(sized.msgLen, SIZE_LEN, head);
      head := head + NatBytes(sized.msgLen, SIZE_LEN);
      if !ok { return; }
      match m
      case DullMsg(_) =>
        assert Encode(m) == head;
      case QuitMsg(_) =>
        assert Encode(m) == head;
      case RegMsg(_, name, ip, port) =>
        ok := PutStrs(name, ip, port, head);
        assert Encode(m) == head + StringsBytes(Strings(m));
      case DeRegMsg(_, name, ip, port) =>
        ok := PutStrs(name, ip, port, head);
        assert Encode(m) == head + StringsBytes(Strings(m));
      case DataMsg(_, ip, name, content) =>
        ok := PutStrs(ip, name, content, head);
        assert Encode(m) == head + StringsBytes(Strings(m));
    }

    /** Throws (`None`) exactly when the message does not fit. Otherwise the length it
        reports is the message's own, so the check every sender makes never fails. */
    method Serialize(m: Msg) returns (dataLen: Option<nat>, sized: Msg)
      requires buf.Length == BUF_LEN
      modifies buf, `position, `bufEnd
      ensures sized == Sized(m)
      ensures dataLen == if |Encode(m)| > 4096 then None else Some(sized.msgLen)
      ensures dataLen.Some? ==> dataLen.value == |Encode(m)| && buf[..] == Encode(m) + Zeros(4096 - |Encode(m)|)
    {
      Prepare();
      hide Encode;
      var ok;
      ok, sized := SerializeMsg(m);
      dataLen := if ok then Some(position) else None;
    }
  }

  lemma ThreeStrings(x: Str, y: Str, z: Str, p: seq<byte>)
    ensures p + StringsBytes([x, y, z]) == p + StrBytes(x) + StrBytes(y) + StrBytes(z)
    ensures StringsLen([x, y, z]) == 3 * SIZE_LEN + |x| + |y| + |z|
    ensures |StrBytes(x)| == SIZE_LEN + |x| && |StrBytes(y)| == SIZE_LEN + |y| && |StrBytes(z)| == SIZE_LEN + |z|
  {
    ThreeOnWire(x, y, z);
    hide StrBytes;
    StrBytesLen(x);
    StrBytesLen(y);
    StrBytesLen(z);
  }

  // ------------------------------------------------------------ deserializing

  /** A message object; `deleted` records that its memory has been given back. */
  class MsgObject {
    var value: Msg
    ghost var deleted: bool

    constructor (k: nat)
      requires k < 5
      ensures value == Blank(k) && !deleted
    {
      value, deleted := Blank(k), false;
    }
  }

  /** What `xtyCreateMsgFunArray[k]` makes. */
  function Blank(k: nat): (m: Msg)
    requires k < 5
    ensures TypeOf(m) == k
  {
    Make(k, 0, if k < 2 then [] else [[], [], []])
  }

  function SetString(m: Msg, i: nat, s: Str): (r: Msg)
    requires TypeOf(m) >= 2 && i < 3
    ensures TypeOf(r) == TypeOf(m) && r.msgLen == m.msgLen && Strings(r) == Strings(m)[i := s]
  {
    Make(TypeOf(m), m.msgLen, Strings(m)[i := s])
  }

  class DeSerializeEntity {
    var held: MsgObject?
    var source: seq<byte>   // the bytes from the start of the buffer to its end
    var position: nat
    var isOccupied: bool

    constructor ()
      ensures held == null && !isOccupied
    {
      held, source, position, isOccupied := null, [], 0, false;
    }

    method GetNat(w: nat) returns (r: Outcome<nat>)
      modifies `position
      ensures r == ReadNat(source, old(position), w)
      ensures position == if r.Done? then r.next else old(position)
    {
      if position + w > |source| {
        return OutOfRange;
      }
      position := position + w;
      return Done(BytesNat(source[position - w..position]), position);
    }

    method GetStr() returns (r: Outcome<Str>)
      modifies `position
      ensures r == ReadStr(source, old(position))
      ensures r.Done? ==> position == r.next
    {
      hide BytesNat, Pow256;
      ghost var start := position;
      var length := GetNat(SIZE_LEN);
      if length.OutOfRange? || position + length.value > |source| {
        return OutOfRange;
      }
      Bounded(source, start);
      position := position + length.value;
      return Done(source[position - length.value..position], position);
    }

    /** Deletes the message of the last use, and creates one of the type the buffer starts with. */
    method Prepare(b: seq<byte>)
      requires HasType(b)
      modifies `held, `source, `position, held
      ensures old(held) != null ==> old(held).deleted && old(held).value == old(held.value)
      ensures held != null && fresh(held) && !held.deleted && held.value == Blank(BytesNat(b[..TYPE_LEN]))
      ensures source == b && position == 0
    {
      if held != null {
        held.deleted := true;
        held := null;
      }
      source, position := b, 0;
      held := new MsgObject(BytesNat(b[..TYPE_LEN]));
    }

    method GetStrs() returns (ok: bool)
      requires held != null && TypeOf(held.value) >= 2
      modifies `position, held`value
      ensures var r := ReadStrs(source, old(position), 3);
        && ok == r.Done?
        && (ok ==> position == r.next && held.value == Make(old(TypeOf(held.value)), old(held.value.msgLen), r.value))
    {
      hide Make, StringsLen, ReadStr;
      ghost var m, i := held.value, position;
      ThreeReads(source, i);
      var x := GetStr();
      if x.OutOfRange? { return false; }
      held.value := SetString(held.value, 0, x.value);
      var y := GetStr();
      if y.OutOfRange? { return false; }
      held.value := SetString(held.value, 1, y.value);
      var z := GetStr();
      if z.OutOfRange? { return false; }
      held.value := SetString(held.value, 2, z.value);
      MakeOf(held.value);
      assert Strings(m)[0 := x.value][1 := y.value][2 := z.value] == [x.value, y.value, z.value];
      return true;
    }

    /** The message's own `DeSerialize`, on the message that `Prepare` has made. */
    method FillIn() returns (ok: bool)
      requires held != null && HasType(source) && position == 0 && held.value == Blank(BytesNat(source[..TYPE_LEN]))
      modifies `position, held`value
      ensures ok == Decode(source).Done?
      ensures ok ==> held.value == Decode(source).value && position == Decode(source).next
    {
      var kind := GetNat(TYPE_LEN);
      var length := GetNat(SIZE_LEN);
      assert ReadStrs(source, position, 0) == Done([], position);
      hide ReadStrs, BytesNat;
      if length.OutOfRange? { return false; }
      var k := TypeOf(held.value);
      held.value := held.value.(msgLen := length.value);
      if k >= 2 {
        ok := GetStrs();
      } else {
        ok := true;
      }
    }

    /** Throws (returns null) exactly when decoding runs past the end; either way the message
        of the last use is gone and the entity holds a new one, filled in as far as it went. */
    method DeSerialize(b: seq<byte>) returns (r: MsgObject?)
      requires HasType(b)
      modifies `held, `source, `position, held
      ensures old(held) != null ==> old(held).deleted && old(held).value == old(held.value)
      ensures held != null && fresh(held) && !held.deleted
      ensures r == if Decode(b).Done? then held else null
      ensures r != null ==> r.value == Decode(b).value && position == Decode(b).next
    {
      Prepare(b);
      hide Decode;
      var ok := FillIn();
      r := if ok then held else null;
    }
  }

  /** Three strings, one after the other. */
  ghost function ReadThree(b: seq<byte>, i: nat): Outcome<seq<Str>> {
    var x := ReadStr(b, i);
    if x.OutOfRange? then OutOfRange else
    var y := ReadStr(b, x.next);
    if y.OutOfRange? then OutOfRange else
    var z := ReadStr(b, y.next);
    if z.OutOfRange? then OutOfRange else Done([x.value, y.value, z.value], z.next)
  }

  lemma ThreeReads(b: seq<byte>, i: nat)
    ensures ReadStrs(b, i, 3) == ReadThree(b, i)
  {
    hide ReadStr, StringsLen;
    var x := ReadStr(b, i);
    if x.Done? {
      var y := ReadStr(b, x.next);
      assert y.OutOfRange? ==> ReadStrs(b, x.next, 2) == OutOfRange;
      if y.Done? {
        var z := ReadStr(b, y.next);
        assert ReadStrs(b, y.next, 1) == if z.OutOfRange? then OutOfRange else Done([z.value] + [], z.next);
        if z.Done? {
          var none: seq<Str> := [];
          assert ReadStrs(b, y.next, 1) == Done([z.value] + none, z.next) && [z.value] + none == [z.value];
          assert ReadStrs(b, x.next, 2) == Done([y.value] + [z.value], z.next);
          assert [x.value] + ([y.value] + [z.value]) == [x.value, y.value, z.value];
        }
      }
    }
  }

  // ------------------------------------------------------------------- arrays

  class MsgDeSerializer {
    const entities: seq<DeSerializeEntity>

    ghost function SlotOf(e: DeSerializeEntity): Slot<MsgObject>
      reads e
    {
      Slot(if e.held == null then None else Some(e.held), e.isOccupied)
    }

    ghost function Slots(): (s: seq<Slot<MsgObject>>)
      reads entities
    {
      seq(|entities|, i requires 0 <= i < |entities| reads entities => SlotOf(entities[i]))
    }

    ghost function Messages(): set<MsgObject>
      reads entities
    {
      set e | e in entities && e.held != null :: e.held
    }

    ghost predicate Valid()
      reads entities, Messages()
    {
      && (forall i, j :: 0 <= i < j < |entities| ==> entities[i] != entities[j])
      && Apart(Slots())
      && forall m <- Messages() :: !m.deleted
    }

    constructor (n: nat)
      ensures Valid() && fresh(entities) && Slots() == seq(n, _ => Slot(None, false)) && Messages() == {}
    {
      var all: seq<DeSerializeEntity> := [];
      for i := 0 to n
        invariant |all| == i && fresh(all)
        invariant forall j :: 0 <= j < i ==> all[j].held == null && !all[j].isOccupied
        invariant forall j, k :: 0 <= j < k < i ==> all[j] != all[k]
      {
        var e := new DeSerializeEntity();
        all := all + [e];
      }
      entities := all;
    }

    method SearchAvailableEntity() returns (i: nat)
      ensures i == FirstFree(Slots())
    {
      i := 0;
      while i < |entities|
        invariant i <= |entities| && forall j :: 0 <= j < i ==> entities[j].isOccupied
      {
        if !entities[i].isOccupied { break; }
        i := i + 1;
      }
      FirstFreeIs(Slots(), i);
    }

    /** One turn of the loop, under the lock; on `None` the caller waits and turns again. */
    method AcquireEntity() returns (i: Option<nat>)
      requires Valid()
      modifies entities`isOccupied
      ensures Valid()
      ensures var s := old(Slots());
        if FirstFree(s) == |s| then i == None && Slots() == s
        else i == Some(FirstFree(s)) && Slots() == Acquired(s)
    {
      var k := SearchAvailableEntity();
      if k == |entities| {
        return None;
      }
      entities[k].isOccupied := true;
      assert Slots() == Acquired(old(Slots()));
      ApartKept(old(Slots()));
      return Some(k);
    }

    method ReleaseEntity(m: MsgObject)
      requires Valid()
      modifies entities`isOccupied
      ensures Valid() && Slots() == Released(old(Slots()), m) && Messages() == old(Messages())
    {
      var i := 0;
      while i < |entities|
        invariant i <= |entities| && Slots() == old(Slots())
        invariant forall j :: 0 <= j < i ==> entities[j].held != m
      {
        if entities[i].held == m { break; }
        i := i + 1;
      }
      HolderIs(Slots(), m, i);
      if i < |entities| {
        entities[i].isOccupied := false;
      }
      assert Slots() == Released(old(Slots()), m);
      ApartKept(old(Slots()));
    }

    /** Decoding into an occupied entity deletes what that entity held, and nothing else. */
    method DecodeInto(k: nat, b: seq<byte>) returns (r: MsgObject?)
      requires Valid() && HasType(b) && k < |entities| && entities[k].isOccupied
      modifies entities[k], entities[k].held
      ensures Valid()
      ensures var m := entities[k].held;
        && m != null && fresh(m) && Slots() == old(Slots())[k := Slot(Some(m), true)]
        && (if Decode(b).Done? then r == m && m.value == Decode(b).value else r == null)
      ensures forall m <- old(Messages()) ::
        m.value == old(m.value) && (m.deleted <==> old(entities[k].held) == m)
    {
      hide Decode, HasType;
      ghost var s, m := Slots(), entities[k].held;
      r := entities[k].DeSerialize(b);
      forall j | 0 <= j < |entities| && j != k ensures SlotOf(entities[j]) == s[j] {
        assert entities[j] != entities[k];
      }
      assert Slots() == s[k := Slot(Some(entities[k].held), true)];
      ApartFresh(s, k, entities[k].held);
      forall j | 0 <= j < |entities| && j != k && entities[j].held != null ensures entities[j].held != m {
        assert s[j].held != s[k].held;
      }
    }

    /** Takes the first free entity and decodes into it. The message that entity held before
        is the only one deleted, so whatever an occupied entity holds stays as it was. */
    method DeSerialize(b: seq<byte>) returns (r: Decoded)
      requires Valid() && HasType(b)
      modifies entities, Messages()
      ensures Valid()
      ensures var s, i := old(Slots()), FirstFree(old(Slots()));
        if i == |s| then r == WouldWait && Slots() == s
        else
          var m := entities[i].held;
          && m != null && fresh(m) && Slots() == s[i := Slot(Some(m), true)]
          && (if Decode(b).Done? then r == Returned(m) && m.value == Decode(b).value else r == Threw)
      ensures fresh(Messages() - old(Messages()))
      ensures forall m <- old(Messages()) ::
        && m.value == old(m.value)
        && (m.deleted <==> exists i :: 0 <= i < |entities| && i == FirstFree(old(Slots())) && old(entities[i].held) == m)
    {
      hide Decode, HasType, FirstFree;
      var k := AcquireEntity();
      if k == None {
        return WouldWait;
      }
      assert Slots()[k.value].occupied;
      ghost var was := Slots();
      var m := DecodeInto(k.value, b);
      forall e <- entities ensures e.held == old(e.held) || e == entities[k.value] {
        var j :| 0 <= j < |entities| && entities[j] == e;
        assert SlotOf(e) == Slots()[j] && j != k.value ==> Slots()[j] == was[j];
      }
      r := if m == null then Threw else Returned(m);
    }
  }

  /** How a call to the deserializer ends: it waits for an entity, throws, or returns a message. */
  datatype Decoded = WouldWait | Threw | Returned(msg: MsgObject)
}
