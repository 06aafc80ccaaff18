/** Whole histories of the receiving array: any packets decoded and any messages released. */
module EntityRuns {
  import opened Bytes
  import opened Codec
  import opened Entities
  import opened Options
  import opened Slots

  /** A packet to decode, or the release of the message that call number `call` returned. */
  datatype Op = Receive(b: seq<byte>) | Release(call: nat)

  /** The entities after the first `n` calls. A message goes by the number of the call that
      made it. */
  ghost function After(ops: seq<Op>, size: nat, n: nat): (a: seq<Slot<nat>>)
    requires n <= |ops|
    ensures |a| == size
  {
    if n == 0 then seq(size, _ => Slot(None, false)) else
    var a := After(ops, size, n - 1);
    match ops[n - 1]
    case Receive(_) => if FirstFree(a) == size then a else a[FirstFree(a) := Slot(Some(n - 1), true)]
    case Release(k) => Released(a, k)
  }

  /** How call number `k` ends; a release gives nothing back. */
  ghost predicate Answers(ops: seq<Op>, size: nat, k: nat, r: Option<Decoded>)
    requires k < |ops|
  {
    if ops[k].Release? then r == None else
    r.Some? && HasType(ops[k].b) &&
    if FirstFree(After(ops, size, k)) == size then r.value == WouldWait
    else if Decode(ops[k].b).Done? then r.value.Returned? else r.value == Threw
  }

  /** Call `k` has returned a message, and by call `n` it has not been released. */
  ghost predicate Outstanding(ops: seq<Op>, size: nat, n: nat, k: nat)
    requires n <= |ops|
  {
    && k < n && ops[k].Receive? && HasType(ops[k].b) && Decode(ops[k].b).Done?
    && FirstFree(After(ops, size, k)) < size
    && forall j | k < j < n :: ops[j] != Release(k)
  }

  /** Packets have a type, and only what is outstanding is released. */
  ghost predicate Legal(ops: seq<Op>, size: nat) {
    forall n | 0 <= n < |ops| :: LegalAt(ops, size, n)
  }

  ghost predicate LegalAt(ops: seq<Op>, size: nat, n: nat)
    requires n < |ops|
  {
    match ops[n]
    case Receive(b) => HasType(b)
    case Release(k) => Outstanding(ops, size, n, k)
  }

  /** What is outstanding lies in an occupied entity. */
  lemma {:induction false} OutstandingIsHeld(ops: seq<Op>, size: nat, n: nat, k: nat) returns (i: nat)
    requires n <= |ops| && Outstanding(ops, size, n, k)
    ensures i < size && After(ops, size, n)[i] == Slot(Some(k), true)
  {
    hide FirstFree, HolderOf, Decode, HasType;
    if n == k + 1 {
      i := FirstFree(After(ops, size, k));
    } else {
      i := OutstandingIsHeld(ops, size, n - 1, k);
    }
  }

  /** The entities hold the messages that go by those numbers. */
  ghost predicate Matches(s: seq<Slot<MsgObject>>, a: seq<Slot<nat>>, made: seq<MsgObject?>) {
    |s| == |a| && forall i | 0 <= i < |a| :: MatchesAt(s[i], a[i], made)
  }

  ghost predicate MatchesAt(x: Slot<MsgObject>, y: Slot<nat>, made: seq<MsgObject?>) {
    && x.occupied == y.occupied
    && match y.held
       case None => x.held == None
       case Some(k) => k < |made| && made[k] != null && x.held == Some(made[k])
  }

  /** No two calls have made the same message. */
  ghost predicate Distinct(made: seq<MsgObject?>) {
    forall i, j | 0 <= i < j < |made| :: made[i] == null || made[i] != made[j]
  }

  lemma SameFirstFree(s: seq<Slot<MsgObject>>, a: seq<Slot<nat>>, made: seq<MsgObject?>)
    requires Matches(s, a, made)
    ensures FirstFree(s) == FirstFree(a)
  {
    hide FirstFree;
    var i := FirstFree(a);
    assert forall j | 0 <= j < |a| :: MatchesAt(s[j], a[j], made);
    FirstFreeIs(s, i);
  }

  lemma MatchesMade(s: seq<Slot<MsgObject>>, a: seq<Slot<nat>>, made: seq<MsgObject?>, m: MsgObject)
    requires Matches(s, a, made) && FirstFree(a) < |a|
    ensures Matches(s[FirstFree(a) := Slot(Some(m), true)], a[FirstFree(a) := Slot(Some(|made|), true)], made + [m])
  {
    hide FirstFree;
    forall i | 0 <= i < |a| && i != FirstFree(a) ensures MatchesAt(s[i], a[i], made + [m]) {
      assert MatchesAt(s[i], a[i], made);
    }
  }

  lemma MatchesNone(s: seq<Slot<MsgObject>>, a: seq<Slot<nat>>, made: seq<MsgObject?>)
    requires Matches(s, a, made)
    ensures Matches(s, a, made + [null])
  {
    forall i | 0 <= i < |a| ensures MatchesAt(s[i], a[i], made + [null]) {
      assert MatchesAt(s[i], a[i], made);
    }
  }

  lemma MatchesReleased(s: seq<Slot<MsgObject>>, a: seq<Slot<nat>>, made: seq<MsgObject?>, k: nat, m: MsgObject)
    requires Matches(s, a, made) && Distinct(made) && k < |made| && made[k] == m
    ensures Matches(Released(s, m), Released(a, k), made)
  {
    hide HolderOf;
    var i := HolderOf(a, k);
    assert forall j | 0 <= j < |a| :: MatchesAt(s[j], a[j], made);
    forall j | 0 <= j < |a| ensures s[j].held == Some(m) <==> a[j].held == Some(k) {
    }
    HolderIs(s, m, i);
  }

  /** Every message in an occupied entity is what was decoded for it. */
  ghost predicate KeepValues(a: seq<Slot<nat>>, made: seq<MsgObject?>, ops: seq<Op>)
    reads made
  {
    forall i | 0 <= i < |a| :: KeepsValue(a[i], made, ops)
  }

  ghost predicate KeepsValue(y: Slot<nat>, made: seq<MsgObject?>, ops: seq<Op>)
    reads made
  {
    y.occupied && y.held.Some? ==>
      y.held.value < |made| && made[y.held.value] != null && Worth(ops, y.held.value, made[y.held.value].value)
  }

  /** Decoding the packet of call `k` gives `v`, if it gives anything. */
  ghost predicate Worth(ops: seq<Op>, k: nat, v: Msg) {
    && k < |ops| && ops[k].Receive? && HasType(ops[k].b)
    && (Decode(ops[k].b).Done? ==> v == Decode(ops[k].b).value)
  }

  /** All calls so far have been answered as they should, with the messages they made. */
  ghost predicate Answered(ops: seq<Op>, size: nat, made: seq<MsgObject?>, answers: seq<Option<Decoded>>) {
    && |made| == |answers| <= |ops| && Distinct(made)
    && (forall k | 0 <= k < |answers| :: Answers(ops, size, k, answers[k]))
    && forall k | 0 <= k < |answers| && answers[k].Some? && answers[k].value.Returned? :: answers[k].value.msg == made[k]
  }

  /** And they have left the entities as `After` says. */
  ghost predicate Tracks(s: seq<Slot<MsgObject>>, ops: seq<Op>, size: nat, made: seq<MsgObject?>, answers: seq<Option<Decoded>>) {
    Answered(ops, size, made, answers) && Matches(s, After(ops, size, |answers|), made)
  }

  lemma OneMoreAnswer(ops: seq<Op>, size: nat, made: seq<MsgObject?>, answers: seq<Option<Decoded>>, m: MsgObject?,
                      r: Option<Decoded>)
    requires Answered(ops, size, made, answers) && |answers| < |ops| && Answers(ops, size, |answers|, r)
    requires (m == null || m !in made) && (r.Some? && r.value.Returned? ==> r.value.msg == m)
    ensures Answered(ops, size, made + [m], answers + [r])
  {
    hide Answers;
  }

  lemma TracksWait(s: seq<Slot<MsgObject>>, ops: seq<Op>, size: nat, made: seq<MsgObject?>, answers: seq<Option<Decoded>>)
    requires Tracks(s, ops, size, made, answers) && |answers| < |ops| && FirstFree(s) == |s|
    requires ops[|answers|].Receive? && HasType(ops[|answers|].b)
    ensures After(ops, size, |answers| + 1) == After(ops, size, |answers|)
    ensures Tracks(s, ops, size, made + [null], answers + [Some(WouldWait)])
  {
    var a := After(ops, size, |answers|);
    hide FirstFree, HasType, Decode, Answered;
    assert |s| == size;
    SameFirstFree(s, a, made);
    MatchesNone(s, a, made);
    hide Matches;
    OneMoreAnswer(ops, size, made, answers, null, Some(WouldWait));
  }

  lemma TracksMade(s: seq<Slot<MsgObject>>, ops: seq<Op>, size: nat, made: seq<MsgObject?>, answers: seq<Option<Decoded>>,
                   m: MsgObject, r: Decoded)
    requires Tracks(s, ops, size, made, answers) && |answers| < |ops| && FirstFree(s) < |s| && m !in made
    requires ops[|answers|].Receive? && HasType(ops[|answers|].b)
    requires r == if Decode(ops[|answers|].b).Done? then Returned(m) else Threw
    ensures After(ops, size, |answers| + 1) == After(ops, size, |answers|)[FirstFree(s) := Slot(Some(|answers|), true)]
    ensures Tracks(s[FirstFree(s) := Slot(Some(m), true)], ops, size, made + [m], answers + [Some(r)])
  {
    var a := After(ops, size, |answers|);
    hide FirstFree, HasType, Decode, Answered;
    assert |s| == size;
    SameFirstFree(s, a, made);
    MatchesMade(s, a, made, m);
    hide Matches;
    OneMoreAnswer(ops, size, made, answers, m, Some(r));
    assert |made| == |answers| by { SameCount(ops, size, made, answers); }
  }

  lemma SameCount(ops: seq<Op>, size: nat, made: seq<MsgObject?>, answers: seq<Option<Decoded>>)
    requires Answered(ops, size, made, answers)
    ensures |made| == |answers| && Distinct(made)
  {
  }

  lemma TracksReleased(s: seq<Slot<MsgObject>>, ops: seq<Op>, size: nat, made: seq<MsgObject?>, answers: seq<Option<Decoded>>,
                       k: nat, m: MsgObject)
    requires Tracks(s, ops, size, made, answers) && |answers| < |ops| && ops[|answers|] == Release(k)
    requires k < |made| && made[k] == m
    ensures After(ops, size, |answers| + 1) == Released(After(ops, size, |answers|), k)
    ensures Tracks(Released(s, m), ops, size, made + [null], answers + [None])
  {
    var a := After(ops, size, |answers|);
    SameCount(ops, size, made, answers);
    assert After(ops, size, |answers| + 1) == Released(a, k);
    hide HasType, Decode, Answered, Released, Distinct, After, Matches;
    MatchesReleased(s, a, made, k, m);
    MatchesNone(Released(s, m), Released(a, k), made);
    OneMoreAnswer(ops, size, made, answers, null, None);
  }

  lemma OutstandingIsAnswered(s: seq<Slot<MsgObject>>, ops: seq<Op>, size: nat, made: seq<MsgObject?>,
                              answers: seq<Option<Decoded>>, k: nat) returns (i: nat)
    requires Tracks(s, ops, size, made, answers) && Outstanding(ops, size, |answers|, k)
    ensures |made| == |answers| && made[k] != null && answers[k] == Some(Returned(made[k]))
    ensures i < |s| == size && After(ops, size, |answers|)[i] == Slot(Some(k), true) && s[i].held == Some(made[k])
  {
    hide FirstFree, HasType, Decode, After;
    i := OutstandingIsHeld(ops, size, |answers|, k);
    assert Answers(ops, size, k, answers[k]);
    assert MatchesAt(s[i], After(ops, size, |answers|)[i], made);
  }

  lemma MadeIsMessage(d: MsgDeSerializer, ops: seq<Op>, size: nat, made: seq<MsgObject?>, answers: seq<Option<Decoded>>)
    requires Tracks(d.Slots(), ops, size, made, answers)
    ensures var a := After(ops, size, |answers|);
      && |made| == |answers| && |a| == |d.entities|
      && forall i | 0 <= i < |a| && a[i].held.Some? ::
           a[i].held.value < |made| && made[a[i].held.value] != null && made[a[i].held.value] in d.Messages()
  {
    var a := After(ops, size, |answers|);
    hide After, Answers;
    forall i | 0 <= i < |a| && a[i].held.Some?
      ensures a[i].held.value < |made| && made[a[i].held.value] != null && made[a[i].held.value] in d.Messages()
    {
      assert MatchesAt(d.Slots()[i], a[i], made) && d.SlotOf(d.entities[i]) == d.Slots()[i];
    }
  }

  method DoReceive(d: MsgDeSerializer, ops: seq<Op>, size: nat, ghost made: seq<MsgObject?>, answers: seq<Option<Decoded>>)
    returns (r: Decoded, ghost m: MsgObject?)
    requires d.Valid() && Tracks(d.Slots(), ops, size, made, answers) && KeepValues(After(ops, size, |answers|), made, ops)
    requires |answers| < |ops| && ops[|answers|].Receive? && HasType(ops[|answers|].b)
    modifies d.entities, d.Messages()
    ensures d.Valid() && fresh(d.Messages() - old(d.Messages()))
    ensures Tracks(d.Slots(), ops, size, made + [m], answers + [Some(r)])
    ensures KeepValues(After(ops, size, |answers| + 1), made + [m], ops)
  {
    hide FirstFree, Decode, HasType, Tracks, After, MsgDeSerializer.Valid;
    ghost var n, s, a := |answers|, d.Slots(), After(ops, size, |answers|);
    MadeIsMessage(d, ops, size, made, answers);
    ValuesKept(a, made, ops);
    r := d.DeSerialize(ops[|answers|].b);
    if r == WouldWait {
      m := null;
      TracksWait(s, ops, size, made, answers);
    } else {
      m := d.entities[FirstFree(s)].held;
      TracksMade(s, ops, size, made, answers, m, r);
    }
    hide Worth;
    ghost var b := After(ops, size, n + 1);
    forall i | 0 <= i < |b| ensures KeepsValue(b[i], made + [m], ops) {
    }
  }

  lemma ValuesKept(a: seq<Slot<nat>>, made: seq<MsgObject?>, ops: seq<Op>)
    requires KeepValues(a, made, ops)
    ensures forall i | 0 <= i < |a| && a[i].occupied && a[i].held.Some? ::
      a[i].held.value < |made| && made[a[i].held.value] != null && Worth(ops, a[i].held.value, made[a[i].held.value].value)
  {
    hide Worth;
    forall i | 0 <= i < |a| && a[i].occupied && a[i].held.Some?
      ensures a[i].held.value < |made| && made[a[i].held.value] != null
      ensures Worth(ops, a[i].held.value, made[a[i].held.value].value)
    {
      assert KeepsValue(a[i], made, ops);
    }
  }

  method DoRelease(d: MsgDeSerializer, ops: seq<Op>, size: nat, ghost made: seq<MsgObject?>, answers: seq<Option<Decoded>>)
    requires d.Valid() && Tracks(d.Slots(), ops, size, made, answers) && KeepValues(After(ops, size, |answers|), made, ops)
    requires |answers| < |ops| && ops[|answers|].Release? && Outstanding(ops, size, |answers|, ops[|answers|].call)
    modifies d.entities
    ensures d.Valid() && d.Messages() == old(d.Messages())
    ensures Tracks(d.Slots(), ops, size, made + [null], answers + [None])
    ensures KeepValues(After(ops, size, |answers| + 1), made + [null], ops)
  {
    hide FirstFree, HolderOf, Tracks, Outstanding, Worth, After, MsgDeSerializer.Valid;
    ghost var n, s, a, k := |answers|, d.Slots(), After(ops, size, |answers|), ops[|answers|].call;
    MadeIsMessage(d, ops, size, made, answers);
    ValuesKept(a, made, ops);
    ghost var at := OutstandingIsAnswered(s, ops, size, made, answers, k);
    TracksReleased(s, ops, size, made, answers, k, made[k]);
    d.ReleaseEntity(answers[ops[|answers|].call].value.msg);
    ghost var b := After(ops, size, n + 1);
    forall i | 0 <= i < |b| ensures KeepsValue(b[i], made + [null], ops) {
    }
  }

  /** Every sequence of decodes and releases on a new array, in which only what is outstanding
      is released, takes and frees entities as `After` says. What is outstanding at its end is
      alive and has the value decoded for it. */
  method RunAll(ops: seq<Op>, size: nat) returns (d: MsgDeSerializer, answers: seq<Option<Decoded>>)
    requires Legal(ops, size)
    ensures fresh(d) && d.Valid() && |answers| == |ops| && |d.Slots()| == size
    ensures forall k | 0 <= k < |ops| :: Answers(ops, size, k, answers[k])
    ensures forall i | 0 <= i < size :: d.Slots()[i].occupied == After(ops, size, |ops|)[i].occupied
    ensures forall k: nat | Outstanding(ops, size, |ops|, k) ::
      && answers[k].Some? && answers[k].value.Returned?
      && !answers[k].value.msg.deleted && answers[k].value.msg.value == Decode(ops[k].b).value
  {
    hide FirstFree, Decode, HasType, Tracks, KeepValues, Outstanding, MsgDeSerializer.Valid;
    d := new MsgDeSerializer(size);
    answers := [];
    ghost var made: seq<MsgObject?> := [];
    NothingYet(ops, size);
    while |answers| < |ops|
      invariant fresh(d) && fresh(d.entities) && fresh(d.Messages()) && d.Valid() && |answers| <= |ops|
      invariant Tracks(d.Slots(), ops, size, made, answers) && KeepValues(After(ops, size, |answers|), made, ops)
    {
      assert LegalAt(ops, size, |answers|);
      if ops[|answers|].Receive? {
        var r;
        ghost var m;
        r, m := DoReceive(d, ops, size, made, answers);
        answers, made := answers + [Some(r)], made + [m];
      } else {
        DoRelease(d, ops, size, made, answers);
        answers, made := answers + [None], made + [null];
      }
    }
    AllDone(d, ops, size, made, answers);
  }

  lemma NothingYet(ops: seq<Op>, size: nat)
    ensures Tracks(seq(size, _ => Slot(None, false)), ops, size, [], [])
    ensures KeepValues(After(ops, size, 0), [], ops)
  {
  }

  lemma AllDone(d: MsgDeSerializer, ops: seq<Op>, size: nat, made: seq<MsgObject?>, answers: seq<Option<Decoded>>)
    requires d.Valid() && Tracks(d.Slots(), ops, size, made, answers) && KeepValues(After(ops, size, |answers|), made, ops)
    requires |answers| == |ops|
    ensures |d.Slots()| == size && forall k | 0 <= k < |ops| :: Answers(ops, size, k, answers[k])
    ensures forall i | 0 <= i < size :: d.Slots()[i].occupied == After(ops, size, |ops|)[i].occupied
    ensures forall k: nat | Outstanding(ops, size, |ops|, k) ::
      && answers[k].Some? && answers[k].value.Returned?
      && !answers[k].value.msg.deleted && answers[k].value.msg.value == Decode(ops[k].b).value
  {
    hide FirstFree, Decode, HasType, After, Answers;
    var a := After(ops, size, |ops|);
    forall i | 0 <= i < size ensures d.Slots()[i].occupied == a[i].occupied {
      assert MatchesAt(d.Slots()[i], a[i], made);
    }
    forall k: nat | Outstanding(ops, size, |ops|, k)
      ensures answers[k].Some? && answers[k].value.Returned?
      ensures !answers[k].value.msg.deleted && answers[k].value.msg.value == Decode(ops[k].b).value
    {
      OneDone(d, ops, size, made, answers, k);
    }
  }

  lemma OneDone(d: MsgDeSerializer, ops: seq<Op>, size: nat, made: seq<MsgObject?>, answers: seq<Option<Decoded>>, k: nat)
    requires d.Valid() && Tracks(d.Slots(), ops, size, made, answers) && KeepValues(After(ops, size, |answers|), made, ops)
    requires |answers| == |ops| && Outstanding(ops, size, |ops|, k)
    ensures answers[k].Some? && answers[k].value.Returned?
    ensures !answers[k].value.msg.deleted && answers[k].value.msg.value == Decode(ops[k].b).value
  {
    hide FirstFree, Decode, HasType, After, Answers;
    var a := After(ops, size, |ops|);
    MadeIsMessage(d, ops, size, made, answers);
    var i := OutstandingIsAnswered(d.Slots(), ops, size, made, answers, k);
    assert KeepsValue(a[i], made, ops);
  }
}
