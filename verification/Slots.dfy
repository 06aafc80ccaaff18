/** The array of entities as its lock shows it: what each entity holds, and whether it is taken. */
module Slots {
  import opened Options

  datatype Slot<+T> = Slot(held: Option<T>, occupied: bool)

  /** The first entity that is free; the length of the array if there is none. */
  ghost function FirstFree<T>(s: seq<Slot<T>>): (i: nat)
    ensures i <= |s| && (i < |s| ==> !s[i].occupied) && forall j | 0 <= j < i :: s[j].occupied
  {
    if s == [] || !s[0].occupied then 0 else 1 + FirstFree(s[1..])
  }

  /** The first entity that holds `x`; the length of the array if there is none. */
  ghost function HolderOf<T>(s: seq<Slot<T>>, x: T): (i: nat)
    ensures i <= |s| && (i < |s| ==> s[i].held == Some(x)) && forall j | 0 <= j < i :: s[j].held != Some(x)
  {
    if s == [] || s[0].held == Some(x) then 0 else 1 + HolderOf(s[1..], x)
  }

  ghost function Acquired<T>(s: seq<Slot<T>>): seq<Slot<T>>
    requires FirstFree(s) < |s|
  {
    var i := FirstFree(s);
    s[i := s[i].(occupied := true)]
  }

  ghost function Released<T>(s: seq<Slot<T>>, x: T): seq<Slot<T>> {
    var i := HolderOf(s, x);
    if i < |s| then s[i := s[i].(occupied := false)] else s
  }

  lemma FirstFreeIs<T>(s: seq<Slot<T>>, i: nat)
    requires i <= |s| && (i < |s| ==> !s[i].occupied) && forall j | 0 <= j < i :: s[j].occupied
    ensures FirstFree(s) == i
  {
  }

  lemma HolderIs<T>(s: seq<Slot<T>>, x: T, i: nat)
    requires i <= |s| && (i < |s| ==> s[i].held == Some(x)) && forall j | 0 <= j < i :: s[j].held != Some(x)
    ensures HolderOf(s, x) == i
  {
  }

  /** No two entities hold the same thing. */
  ghost predicate Apart<T>(s: seq<Slot<T>>) {
    forall i, j :: 0 <= i < j < |s| && s[i].held.Some? ==> s[i].held != s[j].held
  }

  lemma ApartKept<T>(s: seq<Slot<T>>)
    requires Apart(s)
    ensures FirstFree(s) < |s| ==> Apart(Acquired(s))
    ensures forall x :: Apart(Released(s, x))
  {
  }

  lemma ApartFresh<T>(s: seq<Slot<T>>, i: nat, x: T)
    requires Apart(s) && i < |s| && forall j :: 0 <= j < |s| ==> s[j].held != Some(x)
    ensures Apart(s[i := Slot(Some(x), true)])
  {
  }

  /** Releasing what was just acquired and filled gives the array back as it was, but for
      what the entity holds. */
  lemma ReleaseUndoesAcquire<T>(s: seq<Slot<T>>, x: T)
    requires FirstFree(s) < |s| && forall i :: 0 <= i < |s| ==> s[i].held != Some(x)
    ensures var i := FirstFree(s);
      Released(Acquired(s)[i := Slot(Some(x), true)], x) == s[i := Slot(Some(x), false)]
  {
    hide HolderOf, FirstFree;
    var i := FirstFree(s);
    HolderIs(Acquired(s)[i := Slot(Some(x), true)], x, i);
  }
}
