/** The message codec: a length-prefixed binary printer and its parser. */
module Codec {
  import opened Bytes

  const TYPE_LEN: nat := 4   // sizeof(xtyMsgType)
  const SIZE_LEN: nat := 8   // sizeof(size_t)
  const BUF_LEN: nat := 4096 // XTY_SERIALIZE_BUF_LEN

  /** Strings are shorter than the address space. */
  type Str = s: seq<byte> | |s| < Pow256(8) witness []

  datatype Msg =
    | DullMsg(msgLen: nat)
    | QuitMsg(msgLen: nat)
    | RegMsg(msgLen: nat, processName: Str, processIP: Str, processPort: Str)
    | DeRegMsg(msgLen: nat, processName: Str, processIP: Str, processPort: Str)
    | DataMsg(msgLen: nat, toProcessIP: Str, toProcessName: Str, content: Str)

  datatype Outcome<+T> = Done(value: T, next: nat) | OutOfRange

  function TypeOf(m: Msg): (k: nat)
    ensures k < 5
  {
    match m
    case DullMsg(_) => 0
    case QuitMsg(_) => 1
    case RegMsg(_, _, _, _) => 2
    case DeRegMsg(_, _, _, _) => 3
    case DataMsg(_, _, _, _) => 4
  }

  /** The strings of a message in the order they go over the wire. */
  function Strings(m: Msg): (s: seq<Str>)
    ensures |s| == if TypeOf(m) < 2 then 0 else 3
  {
    match m
    case DullMsg(_) => []
    case QuitMsg(_) => []
    case RegMsg(_, name, ip, port) => [name, ip, port]
    case DeRegMsg(_, name, ip, port) => [name, ip, port]
    case DataMsg(_, ip, name, content) => [ip, name, content]
  }

  /** The message that `xtyCreateMsgFunArray[k]` creates, with its fields filled in. */
  function Make(k: nat, len: nat, s: seq<Str>): Msg
    requires k < 5 && |s| == if k < 2 then 0 else 3
  {
    if k == 0 then DullMsg(len)
    else if k == 1 then QuitMsg(len)
    else if k == 2 then RegMsg(len, s[0], s[1], s[2])
    else if k == 3 then DeRegMsg(len, s[0], s[1], s[2])
    else DataMsg(len, s[0], s[1], s[2])
  }

  lemma MakeOf(m: Msg)
    ensures Make(TypeOf(m), m.msgLen, Strings(m)) == m
  {
  }

  function StringsLen(s: seq<Str>): nat {
    if s == [] then 0 else SIZE_LEN + |s[0]| + StringsLen(s[1..])
  }

  function CalculateSerializedMsgLen(m: Msg): nat {
    TYPE_LEN + SIZE_LEN + StringsLen(Strings(m))
  }

  function Sized(m: Msg): Msg {
    m.(msgLen := CalculateSerializedMsgLen(m))
  }

  // ----------------------------------------------------------- specification

  function StrBytes(s: Str): seq<byte> {
    NatBytes(|s|, SIZE_LEN) + s
  }

  function StringsBytes(s: seq<Str>): (r: seq<byte>)
    ensures |r| == StringsLen(s)
  {
    if s == [] then [] else StrBytes(s[0]) + StringsBytes(s[1..])
  }

  /** A message of type `k` on the wire, with any number in its length field. */
  function Wire(k: nat, len: nat, s: seq<Str>): (r: seq<byte>)
    ensures |r| == TYPE_LEN + SIZE_LEN + StringsLen(s)
  {
    NatBytes(k, TYPE_LEN) + NatBytes(len, SIZE_LEN) + StringsBytes(s)
  }

  /** All that `Serialize` writes; the stored length is computed first. */
  function Encode(m: Msg): (r: seq<byte>)
    ensures |r| == CalculateSerializedMsgLen(m)
  {
    Wire(TypeOf(m), CalculateSerializedMsgLen(m), Strings(m))
  }

  ghost function ReadNat(b: seq<byte>, i: nat, w: nat): Outcome<nat> {
    if i + w > |b| then OutOfRange else Done(BytesNat(b[i..i + w]), i + w)
  }

  ghost function ReadStr(b: seq<byte>, i: nat): Outcome<Str> {
    var n := ReadNat(b, i, SIZE_LEN);
    if n.OutOfRange? || n.next + n.value > |b| then OutOfRange
    else Bounded(b, i); Done(b[n.next..n.next + n.value], n.next + n.value)
  }

  lemma Bounded(b: seq<byte>, i: nat)
    requires ReadNat(b, i, SIZE_LEN).Done?
    ensures ReadNat(b, i, SIZE_LEN).value < Pow256(8)
  {
    WriteBack(b[i..i + SIZE_LEN]);
  }

  ghost function ReadStrs(b: seq<byte>, i: nat, n: nat): (r: Outcome<seq<Str>>)
    ensures r.Done? ==> |r.value| == n && r.next == i + StringsLen(r.value) && (i <= |b| ==> r.next <= |b|)
    decreases n
  {
    if n == 0 then Done([], i) else
    var s := ReadStr(b, i);
    if s.OutOfRange? then OutOfRange else
    var t := ReadStrs(b, s.next, n - 1);
    if t.OutOfRange? then OutOfRange else Done([s.value] + t.value, t.next)
  }

  ghost predicate HasType(b: seq<byte>) {
    |b| >= TYPE_LEN && BytesNat(b[..TYPE_LEN]) < 5
  }

  /** What `DeSerialize` makes of a buffer for a message of type `k`. */
  ghost function DecodeAs(k: nat, b: seq<byte>): Outcome<Msg>
    requires k < 5
  {
    var kind := ReadNat(b, 0, TYPE_LEN);
    if kind.OutOfRange? then OutOfRange else
    var len := ReadNat(b, TYPE_LEN, SIZE_LEN);
    if len.OutOfRange? then OutOfRange else
    var s := ReadStrs(b, len.next, if k < 2 then 0 else 3);
    if s.OutOfRange? then OutOfRange else Done(Make(k, len.value, s.value), s.next)
  }

  /** What `Prepare` and `DeSerialize` make of a buffer that starts with a known type. */
  ghost function Decode(b: seq<byte>): Outcome<Msg>
    requires HasType(b)
  {
    DecodeAs(BytesNat(b[..TYPE_LEN]), b)
  }

  // ------------------------------------------------------------- round trips

  lemma Middle(p: seq<byte>, s: seq<byte>, q: seq<byte>)
    ensures (p + s + q)[|p|..|p| + |s|] == s
  {
  }

  lemma Rebracket(p: seq<byte>, s: seq<byte>, t: seq<byte>, q: seq<byte>)
    ensures p + (s + t) + q == p + s + (t + q) == (p + s) + t + q
  {
  }

  lemma ReadStrBack(p: seq<byte>, s: Str, q: seq<byte>)
    ensures ReadStr(p + StrBytes(s) + q, |p|) == Done(s, |p| + SIZE_LEN + |s|)
  {
    hide NatBytes, BytesNat, Pow256;
    var b, x := p + StrBytes(s) + q, NatBytes(|s|, SIZE_LEN);
    Rebracket(p, x, s, q);
    Middle(p, x, s + q);
    Middle(p + x, s, q);
    ReadBack(|s|, SIZE_LEN);
  }

  lemma {:induction false} ReadStrsBack(p: seq<byte>, s: seq<Str>, q: seq<byte>)
    ensures ReadStrs(p + StringsBytes(s) + q, |p|, |s|) == Done(s, |p| + StringsLen(s))
    decreases |s|
  {
    hide StrBytes, ReadStr;
    if s != [] {
      var x, y := StrBytes(s[0]), StringsBytes(s[1..]);
      Rebracket(p, x, y, q);
      ReadStrBack(p, s[0], y + q);
      ReadStrsBack(p + x, s[1..], q);
      StrBytesLen(s[0]);
      assert [s[0]] + s[1..] == s;
    }
  }

  lemma StrBytesLen(s: Str)
    ensures |StrBytes(s)| == SIZE_LEN + |s|
  {
  }

  ghost predicate Fits(m: Msg) {
    CalculateSerializedMsgLen(m) < Pow256(SIZE_LEN)
  }

  lemma HeadLen(m: Msg)
    ensures CalculateSerializedMsgLen(m) >= TYPE_LEN + SIZE_LEN
  {
  }

  lemma WordSize()
    ensures Pow256(SIZE_LEN) == 0x1_0000_0000_0000_0000
  {
    assert Pow256(4) == 0x1_0000_0000;
  }

  lemma WireBack(k: nat, len: nat, s: seq<Str>, extra: seq<byte>)
    requires k < 5 && len < Pow256(SIZE_LEN) && |s| == if k < 2 then 0 else 3
    ensures var b := Wire(k, len, s) + extra; HasType(b) && Decode(b) == Done(Make(k, len, s), |Wire(k, len, s)|)
  {
    var b, x, y := Wire(k, len, s) + extra, NatBytes(k, TYPE_LEN), NatBytes(len, SIZE_LEN);
    assert b == (x + y) + StringsBytes(s) + extra;
    assert b[..TYPE_LEN] == x && b[TYPE_LEN..TYPE_LEN + SIZE_LEN] == y;
    ReadBack(k, TYPE_LEN);
    ReadBack(len, SIZE_LEN);
    ReadStrsBack(x + y, s, extra);
    hide Wire, NatBytes, BytesNat, StringsBytes, StringsLen, ReadStrs, Make, Pow256;
  }

  /** Decoding an encoding, whatever follows it, gives the message back and stops at its end. */
  lemma RoundTrip(m: Msg, extra: seq<byte>)
    requires Fits(m)
    ensures HasType(Encode(m) + extra)
    ensures Decode(Encode(m) + extra) == Done(Sized(m), CalculateSerializedMsgLen(m))
  {
    hide Decode, HasType, Wire, Pow256;
    WireBack(TypeOf(m), CalculateSerializedMsgLen(m), Strings(m), extra);
    MakeOf(Sized(m));
  }

  /** Encodings are uniquely decodable, and none is a proper prefix of another. */
  lemma PrefixFree(m: Msg, n: Msg, x: seq<byte>, y: seq<byte>)
    requires Fits(m) && Fits(n) && Encode(m) + x == Encode(n) + y
    ensures Sized(m) == Sized(n) && x == y
  {
    RoundTrip(m, x);
    RoundTrip(n, y);
    assert x == (Encode(m) + x)[|Encode(m)|..] && y == (Encode(n) + y)[|Encode(n)|..];
  }

  lemma Within(p: seq<byte>, q: seq<byte>, i: nat, j: nat)
    requires i <= j <= |p|
    ensures (p + q)[i..j] == p[i..j]
  {
  }

  lemma ReadStrExtends(p: seq<byte>, q: seq<byte>, i: nat)
    requires ReadStr(p, i).Done?
    ensures ReadStr(p + q, i) == ReadStr(p, i)
  {
    hide BytesNat, Pow256;
    var r := ReadStr(p, i);
    Within(p, q, i, i + SIZE_LEN);
    Within(p, q, i + SIZE_LEN, r.next);
  }

  lemma {:induction false} ReadStrsExtends(p: seq<byte>, q: seq<byte>, i: nat, n: nat)
    requires ReadStrs(p, i, n).Done?
    ensures ReadStrs(p + q, i, n) == ReadStrs(p, i, n)
    decreases n
  {
    hide ReadStr, StringsLen;
    if n > 0 {
      ReadStrExtends(p, q, i);
      ReadStrsExtends(p, q, ReadStr(p, i).next, n - 1);
    }
  }

  /** A successful decode depends on nothing after the point where it stops. */
  lemma DecodeExtends(p: seq<byte>, q: seq<byte>)
    requires HasType(p) && Decode(p).Done?
    ensures HasType(p + q) && Decode(p + q) == Decode(p)
  {
    hide ReadStrs, StringsLen, Make, BytesNat;
    Within(p, q, 0, TYPE_LEN);
    Within(p, q, TYPE_LEN, TYPE_LEN + SIZE_LEN);
    var k := BytesNat(p[..TYPE_LEN]);
    assert p[0..TYPE_LEN] == p[..TYPE_LEN] && (p + q)[0..TYPE_LEN] == (p + q)[..TYPE_LEN];
    ReadStrsExtends(p, q, TYPE_LEN + SIZE_LEN, if k < 2 then 0 else 3);
  }

  /** A decode stops inside its buffer, right behind as many bytes as the message needs. */
  lemma DecodeStops(b: seq<byte>)
    requires HasType(b) && Decode(b).Done?
    ensures Decode(b).next == CalculateSerializedMsgLen(Decode(b).value) <= |b|
  {
    hide StringsLen, BytesNat;
    var k, n := BytesNat(b[..TYPE_LEN]), ReadNat(b, TYPE_LEN, SIZE_LEN);
    OfMake(k, n.value, ReadStrs(b, n.next, if k < 2 then 0 else 3).value);
  }

  /** Every cut encoding is refused, even one too short to hold its own type. */
  lemma Truncated(m: Msg, k: nat)
    requires Fits(m) && k < CalculateSerializedMsgLen(m)
    ensures DecodeAs(TypeOf(m), Encode(m)[..k]) == OutOfRange
    ensures k >= TYPE_LEN ==> HasType(Encode(m)[..k]) && Decode(Encode(m)[..k]) == OutOfRange
  {
    hide CalculateSerializedMsgLen, Pow256;
    if k >= TYPE_LEN {
      TruncatedLater(m, k);
    }
  }

  /** Nothing that a decode uses to its last byte can be cut. */
  lemma CutShort(b: seq<byte>, k: nat)
    requires HasType(b) && k < |b| && HasType(b[..k]) && Decode(b).Done? && Decode(b).next == |b|
    ensures Decode(b[..k]) == OutOfRange
  {
    hide Decode, HasType, CalculateSerializedMsgLen;
    if Decode(b[..k]).Done? {
      DecodeExtends(b[..k], b[k..]);
      assert b[..k] + b[k..] == b;
      DecodeStops(b[..k]);
    }
  }

  lemma TruncatedLater(m: Msg, k: nat)
    requires Fits(m) && TYPE_LEN <= k < CalculateSerializedMsgLen(m)
    ensures HasType(Encode(m)[..k]) && Decode(Encode(m)[..k]) == OutOfRange
    ensures DecodeAs(TypeOf(m), Encode(m)[..k]) == OutOfRange
  {
    EncodeType(m, k);
    hide DecodeAs, Encode, BytesNat, HasType, Pow256, CalculateSerializedMsgLen;
    assert Encode(m) + [] == Encode(m);
    RoundTrip(m, []);
    CutShort(Encode(m), k);
  }

  lemma EncodeType(m: Msg, k: nat)
    requires TYPE_LEN <= k <= CalculateSerializedMsgLen(m)
    ensures HasType(Encode(m)[..k]) && BytesNat(Encode(m)[..k][..TYPE_LEN]) == TypeOf(m)
  {
    ReadBack(TypeOf(m), TYPE_LEN);
    assert Encode(m)[..k][..TYPE_LEN] == NatBytes(TypeOf(m), TYPE_LEN);
  }

  lemma Joined(b: seq<byte>, i: nat, j: nat, k: nat)
    requires i <= j <= k <= |b|
    ensures b[i..j] + b[j..k] == b[i..k]
  {
  }

  lemma StrRead(b: seq<byte>, i: nat)
    requires ReadStr(b, i).Done?
    ensures StrBytes(ReadStr(b, i).value) == b[i..ReadStr(b, i).next]
  {
    hide BytesNat, Pow256, NatBytes;
    WriteBack(b[i..i + SIZE_LEN]);
    Joined(b, i, i + SIZE_LEN, ReadStr(b, i).next);
  }

  lemma {:induction false} StrsRead(b: seq<byte>, i: nat, n: nat)
    requires i <= |b| && ReadStrs(b, i, n).Done?
    ensures StringsBytes(ReadStrs(b, i, n).value) == b[i..ReadStrs(b, i, n).next]
    decreases n
  {
    hide ReadStr, StrBytes, StringsLen;
    if n > 0 {
      var s := ReadStr(b, i);
      StrRead(b, i);
      ReadStrEnd(b, i);
      var t := ReadStrs(b, s.next, n - 1);
      StrsRead(b, s.next, n - 1);
      Joined(b, i, s.next, t.next);
      assert ([s.value] + t.value)[1..] == t.value;
    }
  }

  lemma ReadStrEnd(b: seq<byte>, i: nat)
    requires ReadStr(b, i).Done?
    ensures i <= ReadStr(b, i).next <= |b|
  {
  }

  lemma OfMake(k: nat, len: nat, s: seq<Str>)
    requires k < 5 && |s| == if k < 2 then 0 else 3
    ensures TypeOf(Make(k, len, s)) == k && Make(k, len, s).msgLen == len && Strings(Make(k, len, s)) == s
  {
  }

  lemma DecodedIsWire(b: seq<byte>)
    requires HasType(b) && Decode(b).Done?
    ensures var m, i := Decode(b).value, Decode(b).next;
      m.msgLen < Pow256(SIZE_LEN) && i <= |b| && b[..i] == Wire(TypeOf(m), m.msgLen, Strings(m))
  {
    hide ReadStrs, StringsLen, StringsBytes, BytesNat, NatBytes, Pow256, Make, Strings, TypeOf;
    var k, len, i := BytesNat(b[..TYPE_LEN]), ReadNat(b, TYPE_LEN, SIZE_LEN).value, TYPE_LEN + SIZE_LEN;
    var d, s := Decode(b), ReadStrs(b, i, if k < 2 then 0 else 3);
    OfMake(k, len, s.value);
    DecodeStops(b);
    WriteBack(b[..TYPE_LEN]);
    WriteBack(b[TYPE_LEN..i]);
    StrsRead(b, i, if k < 2 then 0 else 3);
    Joined(b, 0, TYPE_LEN, i);
    Joined(b, 0, i, d.next);
    assert b[0..TYPE_LEN] == b[..TYPE_LEN] && b[0..d.next] == b[..d.next];
  }

  lemma WireIsDecoded(b: seq<byte>, m: Msg, i: nat)
    requires m.msgLen < Pow256(SIZE_LEN) && i <= |b| && b[..i] == Wire(TypeOf(m), m.msgLen, Strings(m))
    ensures HasType(b) && Decode(b) == Done(m, i)
  {
    hide Decode, HasType, Wire, Pow256;
    WireBack(TypeOf(m), m.msgLen, Strings(m), b[i..]);
    assert b[..i] + b[i..] == b;
    MakeOf(m);
  }

  /** Decoding gives `m` and stops at `i` if and only if the first `i` bytes are `m` on the
      wire, with whatever number `m` has for its length. */
  lemma DecodesIff(b: seq<byte>, m: Msg, i: nat)
    requires HasType(b)
    ensures Decode(b) == Done(m, i)
       <==> m.msgLen < Pow256(SIZE_LEN) && i <= |b| && b[..i] == Wire(TypeOf(m), m.msgLen, Strings(m))
  {
    hide Decode, HasType, Wire, Pow256;
    if Decode(b) == Done(m, i) {
      DecodedIsWire(b);
    } else if m.msgLen < Pow256(SIZE_LEN) && i <= |b| && b[..i] == Wire(TypeOf(m), m.msgLen, Strings(m)) {
      WireIsDecoded(b, m, i);
    }
  }

  /** What was read is exactly an encoding if and only if the length it carries is its own. */
  lemma DecodedIsEncoding(b: seq<byte>)
    requires |b| < Pow256(SIZE_LEN) && HasType(b) && Decode(b).Done?
    ensures var d := Decode(b); d.next <= |b| && (b[..d.next] == Encode(d.value) <==> d.value.msgLen == d.next)
  {
    hide Decode, HasType, StringsLen, StringsBytes, NatBytes, Pow256, Strings, TypeOf, CalculateSerializedMsgLen;
    var d := Decode(b);
    DecodeStops(b);
    DecodedIsWire(b);
    if b[..d.next] == Encode(d.value) {
      SameLength(NatBytes(TypeOf(d.value), TYPE_LEN), d.value.msgLen, StringsBytes(Strings(d.value)), d.next);
    }
  }

  // ------------------------------------------------------------ byte by byte

  /** The type field, byte by byte. */
  lemma TypeOnWire(m: Msg)
    ensures Encode(m)[..4] ==
      match m
      case DullMsg(_) => [0, 0, 0, 0]
      case QuitMsg(_) => [1, 0, 0, 0]
      case RegMsg(_, _, _, _) => [2, 0, 0, 0]
      case DeRegMsg(_, _, _, _) => [3, 0, 0, 0]
      case DataMsg(_, _, _, _) => [4, 0, 0, 0]
  {
    var k := TypeOf(m);
    SmallNumber(k);
    assert Encode(m)[..4] == NatBytes(k, 4);
  }

  lemma SmallNumber(k: nat)
    requires k < 256
    ensures NatBytes(k, 4) == [k as byte, 0, 0, 0]
  {
    assert NatBytes(k, 4) == [k as byte] + NatBytes(0, 3);
    assert NatBytes(0, 3) == [0] + NatBytes(0, 2) && NatBytes(0, 2) == [0] + NatBytes(0, 1);
  }

  /** What stands behind the type: the whole length in eight bytes, and then the fields in
      their order, each behind its own length in eight bytes. */
  lemma FieldsOnWire(m: Msg)
    ensures Encode(m)[4..] ==
      match m
      case DullMsg(_) => NatBytes(12, 8)
      case QuitMsg(_) => NatBytes(12, 8)
      case RegMsg(_, name, ip, port) =>
        NatBytes(36 + |name| + |ip| + |port|, 8)
        + (NatBytes(|name|, 8) + name) + (NatBytes(|ip|, 8) + ip) + (NatBytes(|port|, 8) + port)
      case DeRegMsg(_, name, ip, port) =>
        NatBytes(36 + |name| + |ip| + |port|, 8)
        + (NatBytes(|name|, 8) + name) + (NatBytes(|ip|, 8) + ip) + (NatBytes(|port|, 8) + port)
      case DataMsg(_, ip, name, content) =>
        NatBytes(36 + |ip| + |name| + |content|, 8)
        + (NatBytes(|ip|, 8) + ip) + (NatBytes(|name|, 8) + name) + (NatBytes(|content|, 8) + content)
  {
    hide NatBytes, Wire, StringsBytes, StringsLen, Pow256;
    match m
    case DullMsg(_) => NoFields(0);
    case QuitMsg(_) => NoFields(1);
    case RegMsg(_, name, ip, port) => ThreeFields(2, name, ip, port);
    case DeRegMsg(_, name, ip, port) => ThreeFields(3, name, ip, port);
    case DataMsg(_, ip, name, content) => ThreeFields(4, ip, name, content);
  }

  lemma NoFields(k: nat)
    ensures StringsLen([]) == 0 && Wire(k, 12, [])[4..] == NatBytes(12, 8)
  {
    hide NatBytes;
    Behind(NatBytes(k, 4), NatBytes(12, 8), []);
    assert NatBytes(12, 8) + [] == NatBytes(12, 8);
  }

  lemma ThreeFields(k: nat, a: Str, b: Str, c: Str)
    ensures StringsLen([a, b, c]) == 24 + |a| + |b| + |c|
    ensures Wire(k, 36 + |a| + |b| + |c|, [a, b, c])[4..] ==
      NatBytes(36 + |a| + |b| + |c|, 8) + (NatBytes(|a|, 8) + a) + (NatBytes(|b|, 8) + b) + (NatBytes(|c|, 8) + c)
  {
    var y := NatBytes(36 + |a| + |b| + |c|, 8);
    hide NatBytes, StringsBytes, Pow256;
    ThreeOnWire(a, b, c);
    Behind(NatBytes(k, 4), y, StringsBytes([a, b, c]));
    Rightwards(y, StrBytes(a), StrBytes(b), StrBytes(c));
  }

  lemma Behind(x: seq<byte>, y: seq<byte>, z: seq<byte>)
    requires |x| == 4
    ensures (x + y + z)[4..] == y + z
  {
  }

  lemma Rightwards(y: seq<byte>, a: seq<byte>, b: seq<byte>, c: seq<byte>)
    ensures y + (a + b + c) == y + a + b + c
  {
  }

  lemma ThreeOnWire(x: Str, y: Str, z: Str)
    ensures StringsBytes([x, y, z]) == StrBytes(x) + StrBytes(y) + StrBytes(z)
    ensures StringsLen([x, y, z]) == 24 + |x| + |y| + |z|
  {
    hide StrBytes;
    assert [x, y, z][1..] == [y, z] && [y, z][1..] == [z] && [z][1..] == [];
    assert StringsBytes([z]) == StrBytes(z);
    assert StringsBytes([y, z]) == StrBytes(y) + StrBytes(z);
  }

  lemma SameLength(x: seq<byte>, m: nat, y: seq<byte>, n: nat)
    requires m < Pow256(SIZE_LEN) && n < Pow256(SIZE_LEN)
    requires x + NatBytes(m, SIZE_LEN) + y == x + NatBytes(n, SIZE_LEN) + y
    ensures m == n
  {
    Middle(x, NatBytes(m, SIZE_LEN), y);
    Middle(x, NatBytes(n, SIZE_LEN), y);
    ReadBack(m, SIZE_LEN);
    ReadBack(n, SIZE_LEN);
  }
}
