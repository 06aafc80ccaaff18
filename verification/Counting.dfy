/** Counting threads by what they are doing. */
module Counting {
  import opened Options

  ghost function All<T(!new), K>(m: map<T, K>, k: K): set<T> {
    set t | t in m && m[t] == k
  }

  ghost function Num<T(!new), K>(m: map<T, K>, k: K): nat {
    |All(m, k)|
  }

  ghost function One(b: bool): nat {
    if b then 1 else 0
  }

  lemma NumGo<T(!new), K>(m: map<T, K>, t: T, j: K, k: K)
    requires t in m
    ensures Num(m[t := j], k) + One(m[t] == k) == Num(m, k) + One(j == k)
  {
    var r := m[t := j];
    if m[t] == k && j != k {
      assert All(m, k) == All(r, k) + {t} && t !in All(r, k);
    } else if m[t] != k && j == k {
      assert All(r, k) == All(m, k) + {t} && t !in All(m, k);
    } else {
      assert All(r, k) == All(m, k);
    }
  }

  /** All threads of `w` change from kind `i` to kind `j`. */
  lemma NumShift<T(!new), K>(m: map<T, K>, r: map<T, K>, w: set<T>, i: K, j: K, k: K)
    requires r.Keys == m.Keys && i != j
    requires forall t <- w :: t in m && m[t] == i && r[t] == j
    requires forall t | t in m && t !in w :: r[t] == m[t]
    ensures Num(r, k) == Num(m, k) + (if k == j then |w| else 0) - (if k == i then |w| else 0)
  {
    if k == j {
      assert All(r, k) == All(m, k) + w && All(m, k) !! w;
    } else if k == i {
      assert All(m, k) == All(r, k) + w && All(r, k) !! w;
    } else {
      assert All(r, k) == All(m, k);
    }
  }

  lemma NumNone<T(!new), K>(m: map<T, K>, k: K)
    requires forall t <- m :: m[t] != k
    ensures Num(m, k) == 0
  {
    assert All(m, k) == {};
  }

  lemma NumSome<T(!new), K>(m: map<T, K>, k: K, t: T)
    requires t in m && m[t] == k
    ensures Num(m, k) > 0
  {
    assert t in All(m, k);
  }

  // ---------------------------------------------------------------- passing on

  /** How often `x` is in a sequence. */
  ghost function Times<X>(s: seq<X>, x: X): nat {
    multiset(s)[x]
  }

  lemma TimesMore<X>(s: seq<X>, y: X, x: X)
    ensures Times(s + [y], x) == Times(s, x) + One(y == x)
  {
  }

  /** Everything that has gone in has come out once, or is in the hands of one thread. */
  ghost predicate PassedOn<T(!new), X(!new)>(ins: seq<X>, outs: seq<X>, hands: map<T, Option<X>>) {
    forall x :: Times(ins, x) == Times(outs, x) + Num(hands, Some(x))
  }

  /** Thread `t`, with `p` in its hands, goes on with `q`. */
  ghost predicate HandsOn<X>(p: Option<X>, q: Option<X>, ins: seq<X>, outs: seq<X>, ins1: seq<X>, outs1: seq<X>) {
    && (p.Some? && q.Some? ==> p == q)
    && ins1 == (if p == None && q.Some? then ins + [q.value] else ins)
    && outs1 == (if p.Some? && q == None then outs + [p.value] else outs)
  }

  lemma PassedOnStep<T(!new), X(!new)>(ins: seq<X>, outs: seq<X>, hands: map<T, Option<X>>, t: T, q: Option<X>,
                                       ins1: seq<X>, outs1: seq<X>)
    requires PassedOn(ins, outs, hands) && t in hands && HandsOn(hands[t], q, ins, outs, ins1, outs1)
    ensures PassedOn(ins1, outs1, hands[t := q])
  {
    hide Times, Num;
    var p := hands[t];
    forall x ensures Times(ins1, x) == Times(outs1, x) + Num(hands[t := q], Some(x)) {
      assert Times(ins, x) == Times(outs, x) + Num(hands, Some(x));
      NumGo(hands, t, q, Some(x));
      if q.Some? { TimesMore(ins, q.value, x); }
      if p.Some? { TimesMore(outs, p.value, x); }
    }
  }

  lemma EmptyHands<T(!new), X(!new)>(ins: seq<X>, outs: seq<X>, hands: map<T, Option<X>>)
    requires forall t <- hands :: hands[t] == None
    ensures PassedOn(ins, outs, hands) <==> multiset(ins) == multiset(outs)
    ensures PassedOn(ins, outs, hands) ==> |ins| == |outs|
  {
    forall x: X ensures Num(hands, Some(x)) == 0 {
      NumNone(hands, Some(x));
    }
    if PassedOn(ins, outs, hands) {
      forall x ensures multiset(ins)[x] == multiset(outs)[x] {
        assert Times(ins, x) == Times(outs, x) + Num(hands, Some(x));
      }
      assert multiset(ins) == multiset(outs);
      assert |ins| == |multiset(ins)| && |outs| == |multiset(outs)|;
    }
  }

  // --------------------------------------------------------------- weighing

  /** The sum of all values of a map. */
  ghost function Total<T(!new)>(m: map<T, nat>): nat {
    if m == map[] then 0 else
    var t :| t in m;
    m[t] + Total(m - {t})
  }

  lemma {:induction false} TotalWithout<T(!new)>(m: map<T, nat>, t: T)
    requires t in m
    ensures Total(m) == m[t] + Total(m - {t})
    decreases |m|
  {
    var u :| u in m && Total(m) == m[u] + Total(m - {u});
    if u != t {
      TotalWithout(m - {u}, t);
      TotalWithout(m - {t}, u);
      assert m - {u} - {t} == m - {t} - {u};
    }
  }

  lemma TotalGo<T(!new)>(m: map<T, nat>, t: T, v: nat)
    requires t in m
    ensures Total(m[t := v]) + m[t] == Total(m) + v
  {
    TotalWithout(m, t);
    TotalWithout(m[t := v], t);
    assert m[t := v] - {t} == m - {t};
  }

  /** Values that grow by at most `c` each. */
  lemma {:induction false} TotalGrows<T(!new)>(m: map<T, nat>, r: map<T, nat>, c: nat)
    requires r.Keys == m.Keys && forall t <- m :: r[t] <= m[t] + c
    ensures Total(r) <= Total(m) + c * |m|
    decreases |m|
  {
    if m == map[] {
      assert r == map[];
    } else {
      var t :| t in m;
      TotalWithout(m, t);
      TotalWithout(r, t);
      hide Total;
      assert (m - {t}).Keys == m.Keys - {t} && |m - {t}| == |m| - 1;
      TotalGrows(m - {t}, r - {t}, c);
      OneTimeMore(c, |m| - 1);
    }
  }

  /** One value falls by more than all the others together can grow. */
  lemma TotalFalls<T(!new)>(m: map<T, nat>, r: map<T, nat>, t: T, c: nat)
    requires r.Keys == m.Keys && t in m && forall x <- m :: x != t ==> r[x] <= m[x] + c
    requires r[t] + c * |m| < m[t]
    ensures Total(r) < Total(m)
  {
    var v := m[t := r[t]];
    TotalGo(m, t, r[t]);
    assert v.Keys == m.Keys;
    assert |v| == |m| by { assert |v| == |v.Keys| && |m| == |m.Keys|; }
    hide Total;
    TotalGrows(v, r, c);
  }

  lemma Multiples(x: nat, y: nat, c: nat)
    requires x < y
    ensures x * c + c <= y * c
  {
    var k := y - x - 1;
    assert y * c == (x + 1 + k) * c == x * c + c + k * c;
  }

  lemma OneTimeMore(c: nat, n: nat)
    ensures c * (n + 1) == c * n + c
  {
  }
}
