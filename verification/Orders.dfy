/** Orders of n things, as sequences in which each of their numbers occurs once. */
module Orders {

  ghost function Range(n: nat): seq<nat> {
    seq(n, i => i)
  }

  ghost predicate IsOrder(order: seq<nat>, n: nat) {
    multiset(order) == multiset(Range(n))
  }

  lemma {:induction false} RangeOnce(n: nat, k: nat)
    ensures multiset(Range(n))[k] == if k < n then 1 else 0
  {
    if n > 0 {
      RangeOnce(n - 1, k);
      assert Range(n) == Range(n - 1) + [n - 1];
    }
  }

  /** An order has n places, with different numbers below n. */
  lemma OrderFacts(order: seq<nat>, n: nat)
    requires IsOrder(order, n)
    ensures |order| == n && (forall i | 0 <= i < n :: order[i] < n)
    ensures forall i, j | 0 <= i < j < n :: order[i] != order[j]
  {
    assert |order| == |multiset(order)| == |multiset(Range(n))| == |Range(n)|;
    forall i | 0 <= i < n ensures order[i] < n {
      RangeOnce(n, order[i]);
      assert order[i] in multiset(order);
    }
    forall i, j | 0 <= i < j < n ensures order[i] != order[j] {
      if order[i] == order[j] {
        Twice(order, i, j);
        RangeOnce(n, order[i]);
      }
    }
  }

  lemma Twice(s: seq<nat>, i: nat, j: nat)
    requires i < j < |s| && s[i] == s[j]
    ensures multiset(s)[s[i]] >= 2
  {
    assert s == s[..j] + [s[j]] + s[j + 1..];
    assert s[i] == s[..j][i];
    assert s[i] in multiset(s[..j]);
  }

  /** The things at the places of a sequence. */
  ghost function Pick<T>(s: seq<T>, places: seq<nat>): seq<T>
    requires forall i | 0 <= i < |places| :: places[i] < |s|
  {
    seq(|places|, i requires 0 <= i < |places| => s[places[i]])
  }

  ghost predicate Below(places: seq<nat>, n: nat) {
    forall i | 0 <= i < |places| :: places[i] < n
  }

  ghost function Without<T>(s: seq<T>, j: nat): seq<T>
    requires j < |s|
  {
    s[..j] + s[j + 1..]
  }

  lemma TakenOut<T>(s: seq<T>, j: nat)
    requires j < |s|
    ensures multiset(s) == multiset(Without(s, j)) + multiset{s[j]}
  {
    assert s == s[..j] + [s[j]] + s[j + 1..];
  }

  lemma PickTakenOut<T>(s: seq<T>, b: seq<nat>, j: nat)
    requires Below(b, |s|) && j < |b|
    ensures Below(Without(b, j), |s|)
    ensures multiset(Pick(s, b)) == multiset(Pick(s, Without(b, j))) + multiset{s[b[j]]}
  {
    assert Pick(s, Without(b, j)) == Without(Pick(s, b), j);
    TakenOut(Pick(s, b), j);
  }

  lemma SameRest<T>(a: multiset<T>, b: multiset<T>, x: T)
    requires a + multiset{x} == b + multiset{x}
    ensures a == b
  {
    assert a == (a + multiset{x}) - multiset{x} == (b + multiset{x}) - multiset{x} == b;
  }

  /** Rearranging the places rearranges the things. */
  lemma {:induction false} PickSame<T>(s: seq<T>, a: seq<nat>, b: seq<nat>)
    requires Below(a, |s|) && Below(b, |s|) && multiset(a) == multiset(b)
    ensures multiset(Pick(s, a)) == multiset(Pick(s, b))
    decreases |a|
  {
    if a == [] {
      assert |b| == |multiset(b)| == 0;
    } else {
      assert a[0] in multiset(b);
      var j :| 0 <= j < |b| && b[j] == a[0];
      TakenOut(a, 0);
      TakenOut(b, j);
      PickTakenOut(s, a, 0);
      PickTakenOut(s, b, j);
      SameRest(multiset(Without(a, 0)), multiset(Without(b, j)), a[0]);
      PickSame(s, Without(a, 0), Without(b, j));
    }
  }

  lemma PickOrder<T>(s: seq<T>, order: seq<nat>)
    requires IsOrder(order, |s|)
    ensures Below(order, |s|) && multiset(Pick(s, order)) == multiset(s)
  {
    OrderFacts(order, |s|);
    PickSame(s, order, Range(|s|));
    assert Pick(s, Range(|s|)) == s;
  }

  /** An order of an order. */
  lemma ComposedOrder(a: seq<nat>, b: seq<nat>, n: nat)
    requires IsOrder(a, n) && IsOrder(b, n)
    ensures |a| == n && Below(b, n) && IsOrder(Pick(a, b), n)
  {
    OrderFacts(a, n);
    PickOrder(a, b);
  }

  ghost function Inserted<T>(s: seq<T>, p: nat, x: T): seq<T>
    requires p <= |s|
  {
    s[..p] + [x] + s[p..]
  }

  lemma InsertedOrder(order: seq<nat>, n: nat, p: nat)
    requires IsOrder(order, n) && p <= |order|
    ensures IsOrder(Inserted(order, p, n), n + 1)
  {
    assert order == order[..p] + order[p..];
    assert Range(n + 1) == Range(n) + [n];
  }

  lemma PickInserted<T>(s: seq<T>, places: seq<nat>, n: nat, p: nat)
    requires Below(places, n) && n < |s| && p <= |places|
    ensures Below(Inserted(places, p, n), n + 1)
    ensures Pick(s, Inserted(places, p, n)) == Inserted(Pick(s, places), p, s[n])
  {}

  lemma PickConcat<T>(s: seq<T>, a: seq<nat>, b: seq<nat>)
    requires Below(a, |s|) && Below(b, |s|)
    ensures Below(a + b, |s|) && Pick(s, a + b) == Pick(s, a) + Pick(s, b)
  {}

  ghost function Exchanged<T>(s: seq<T>, a: nat, b: nat): seq<T>
    requires a < |s| && b < |s|
  {
    s[a := s[b]][b := s[a]]
  }

  lemma PickExchanged<T>(s: seq<T>, p: seq<nat>, a: nat, b: nat)
    requires Below(p, |s|) && a < |p| && b < |p|
    ensures Below(Exchanged(p, a, b), |s|)
    ensures Pick(s, Exchanged(p, a, b)) == Exchanged(Pick(s, p), a, b)
    ensures multiset(Exchanged(p, a, b)) == multiset(p)
  {}

  /** A new place at the end of either part of an order. */
  lemma EitherPart(a: seq<nat>, b: seq<nat>, n: nat)
    requires IsOrder(a + b, n)
    ensures IsOrder((a + [n]) + b, n + 1) && IsOrder(a + (b + [n]), n + 1)
  {
    assert Range(n + 1) == Range(n) + [n];
    assert multiset(a + b) == multiset(a) + multiset(b);
    assert multiset((a + [n]) + b) == multiset(a) + multiset{n} + multiset(b);
    assert multiset(a + (b + [n])) == multiset(a) + (multiset(b) + multiset{n});
  }
}
