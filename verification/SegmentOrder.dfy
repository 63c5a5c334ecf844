/**
 The segments of one recording and the order in which a viewer's Init sorts their readers
 (cyber/record/record_viewer.cc): by begin and end time of the file headers, which are the
 times of the first and the last message.  The sort is not stable, so segments with the same
 header times may come in any order.
 */
module SegmentOrder {
  import opened Orders
  import opened RecordStream

  function Concat(ss: seq<seq<Msg>>): seq<Msg> {
    if ss == [] then [] else Concat(ss[..|ss| - 1]) + ss[|ss| - 1]
  }

  ghost predicate AllBefore(x: seq<Msg>, y: seq<Msg>) {
    forall a, b | a in x && b in y :: a.time <= b.time
  }

  /** Each segment is in time order, and each comes before the later ones. */
  ghost predicate InTime(ss: seq<seq<Msg>>) {
    && (forall i | 0 <= i < |ss| :: Sorted(ss[i]))
    && forall i, j | 0 <= i < j < |ss| :: AllBefore(ss[i], ss[j])
  }

  lemma {:induction false} ConcatMembers(ss: seq<seq<Msg>>, m: Msg)
    ensures m in Concat(ss) <==> exists i :: 0 <= i < |ss| && m in ss[i]
  {
    if ss != [] {
      var n := |ss| - 1;
      ConcatMembers(ss[..n], m);
      assert forall i | 0 <= i < n :: ss[..n][i] == ss[i];
      assert m in Concat(ss) <==> m in Concat(ss[..n]) || m in ss[n];
    }
  }

  lemma SortedJoin(a: seq<Msg>, b: seq<Msg>)
    ensures Sorted(a + b) <==> Sorted(a) && Sorted(b) && AllBefore(a, b)
  {
    var c := a + b;
    assert forall i | 0 <= i < |a| :: c[i] == a[i];
    assert forall i | 0 <= i < |b| :: c[|a| + i] == b[i];
  }

  lemma AllBeforeConcat(ss: seq<seq<Msg>>, y: seq<Msg>)
    ensures AllBefore(Concat(ss), y) <==> forall i | 0 <= i < |ss| :: AllBefore(ss[i], y)
  {
    forall m ensures m in Concat(ss) <==> exists i :: 0 <= i < |ss| && m in ss[i] {
      ConcatMembers(ss, m);
    }
  }

  lemma InTimeLast(ss: seq<seq<Msg>>)
    requires ss != []
    ensures var ss', last := ss[..|ss| - 1], ss[|ss| - 1];
            InTime(ss) <==> InTime(ss') && Sorted(last) && forall i | 0 <= i < |ss'| :: AllBefore(ss'[i], last)
  {
    var n := |ss| - 1;
    assert forall i | 0 <= i < n :: ss[..n][i] == ss[i];
  }

  /** The segments together are in time order just if they are so one by one. */
  lemma {:induction false} ConcatSortedIff(ss: seq<seq<Msg>>)
    ensures Sorted(Concat(ss)) <==> InTime(ss)
  {
    if ss != [] {
      var n := |ss| - 1;
      ConcatSortedIff(ss[..n]);
      InTimeLast(ss);
      SortedJoin(Concat(ss[..n]), ss[n]);
      AllBeforeConcat(ss[..n], ss[n]);
    }
  }

  // ----- how often a message occurs -----

  lemma {:induction false} ConcatCounts(ss: seq<seq<Msg>>, m: Msg)
    ensures multiset(Concat(ss))[m] == Occurs(ss, m)
  {
    if ss != [] { ConcatCounts(ss[..|ss| - 1], m); }
  }

  lemma {:induction false} OccursWithout(ss: seq<seq<Msg>>, j: nat, m: Msg)
    requires j < |ss|
    ensures Occurs(ss, m) == Occurs(Without(ss, j), m) + multiset(ss[j])[m]
  {
    var n := |ss| - 1;
    if j < n {
      OccursWithout(ss[..n], j, m);
      assert Without(ss, j)[..n - 1] == Without(ss[..n], j);
    } else {
      assert Without(ss, j) == ss[..n];
    }
  }

  lemma {:induction false} OccursSame(a: seq<seq<Msg>>, b: seq<seq<Msg>>, m: Msg)
    requires multiset(a) == multiset(b)
    ensures Occurs(a, m) == Occurs(b, m)
    decreases |a|
  {
    if a == [] {
      assert |b| == |multiset(b)| == 0;
    } else {
      assert a[0] in multiset(b);
      var j :| 0 <= j < |b| && b[j] == a[0];
      OccursWithout(a, 0, m);
      OccursWithout(b, j, m);
      TakenOut(a, 0);
      TakenOut(b, j);
      SameRest(multiset(Without(a, 0)), multiset(Without(b, j)), a[0]);
      OccursSame(Without(a, 0), Without(b, j), m);
    }
  }

  /** In whatever order the segments come, they hold the same messages. */
  lemma OrderCounts(order: seq<nat>, ss: seq<seq<Msg>>, m: Msg)
    requires IsOrder(order, |ss|)
    ensures Below(order, |ss|) && multiset(Concat(Pick(ss, order)))[m] == multiset(Concat(ss))[m]
  {
    PickOrder(ss, order);
    OccursSame(Pick(ss, order), ss, m);
    ConcatCounts(Pick(ss, order), m);
    ConcatCounts(ss, m);
  }

  // ----- sorting by header times -----

  /** The comparison of Init on the headers of files in time order. */
  predicate NotAfter(x: seq<Msg>, y: seq<Msg>) {
    FirstTime(x) < FirstTime(y) || (FirstTime(x) == FirstTime(y) && LastTime(x) <= LastTime(y))
  }

  ghost predicate HeaderSorted(ss: seq<seq<Msg>>) {
    forall i, j | 0 <= i < j < |ss| :: NotAfter(ss[i], ss[j])
  }

  /** An order that the sort may produce. */
  ghost predicate Outcome(order: seq<nat>, ss: seq<seq<Msg>>) {
    IsOrder(order, |ss|) && Below(order, |ss|) && HeaderSorted(Pick(ss, order))
  }

  /** Segments that follow each other are not after each other by header times either, and
      the other way round only when all their times are the same. */
  lemma InTimeNotAfter(x: seq<Msg>, y: seq<Msg>)
    requires Sorted(x) && Sorted(y) && AllBefore(x, y) && x != [] && y != []
    ensures NotAfter(x, y)
    ensures NotAfter(y, x) ==> AllBefore(y, x) && FirstTime(x) == LastTime(x) == FirstTime(y) == LastTime(y)
  {
    assert x[0] in x && x[|x| - 1] in x && y[0] in y && y[|y| - 1] in y;
    if NotAfter(y, x) {
      forall a, b | a in x && b in y ensures b.time <= a.time {
        assert FirstTime(x) <= a.time && b.time <= LastTime(y);
      }
    }
  }

  /** Whatever the sort does, the segments in its order are in time order. */
  lemma OutcomeInTime(order: seq<nat>, ss: seq<seq<Msg>>)
    requires Outcome(order, ss) && InTime(ss)
    ensures InTime(Pick(ss, order))
  {
    OrderFacts(order, |ss|);
    var p := Pick(ss, order);
    forall i, j | 0 <= i < j < |p| ensures AllBefore(p[i], p[j]) {
      if order[j] < order[i] && p[i] != [] && p[j] != [] {
        InTimeNotAfter(p[j], p[i]);
      }
    }
  }

  // ----- the segments that hold something -----

  function NonEmpty(ss: seq<seq<Msg>>): seq<seq<Msg>> {
    if ss == [] then []
    else if ss[|ss| - 1] == [] then NonEmpty(ss[..|ss| - 1])
    else NonEmpty(ss[..|ss| - 1]) + [ss[|ss| - 1]]
  }

  lemma {:induction false} ConcatNonEmpty(ss: seq<seq<Msg>>)
    ensures Concat(NonEmpty(ss)) == Concat(ss)
  {
    if ss != [] {
      var n := |ss| - 1;
      ConcatNonEmpty(ss[..n]);
      var r := NonEmpty(ss[..n]);
      if ss[n] != [] { assert (r + [ss[n]])[..|r|] == r; }
    }
  }

  lemma {:induction false} NonEmptyMultiset(ss: seq<seq<Msg>>)
    ensures multiset(NonEmpty(ss)) == multiset(ss)[[] := 0]
  {
    if ss != [] {
      var n := |ss| - 1;
      NonEmptyMultiset(ss[..n]);
      assert ss == ss[..n] + [ss[n]];
    }
  }

  lemma {:induction false} NonEmptyMember(ss: seq<seq<Msg>>, x: seq<Msg>)
    ensures x in NonEmpty(ss) <==> x in ss && x != []
  {
    if ss != [] {
      var n := |ss| - 1;
      NonEmptyMember(ss[..n], x);
      assert ss == ss[..n] + [ss[n]];
    }
  }

  /** The segments with messages are sorted, whatever lies between them. */
  ghost predicate SortedApart(ss: seq<seq<Msg>>) {
    forall i, j | 0 <= i < j < |ss| && ss[i] != [] && ss[j] != [] :: NotAfter(ss[i], ss[j])
  }

  lemma InTimeSortedApart(ss: seq<seq<Msg>>)
    requires InTime(ss)
    ensures SortedApart(ss)
  {
    forall i, j | 0 <= i < j < |ss| && ss[i] != [] && ss[j] != [] ensures NotAfter(ss[i], ss[j]) {
      InTimeNotAfter(ss[i], ss[j]);
    }
  }

  lemma {:induction false} NonEmptySorted(ss: seq<seq<Msg>>)
    requires SortedApart(ss)
    ensures HeaderSorted(NonEmpty(ss))
  {
    if ss != [] {
      var n := |ss| - 1;
      var ss', r := ss[..n], NonEmpty(ss[..n]);
      assert forall i | 0 <= i < n :: ss'[i] == ss[i];
      NonEmptySorted(ss');
      forall i | 0 <= i < |r| && ss[n] != [] ensures NotAfter(r[i], ss[n]) {
        NonEmptyMember(ss', r[i]);
        var k :| 0 <= k < n && ss'[k] == r[i];
        assert ss[k] == r[i];
      }
    }
  }

  /** Different segments with messages have different header times. */
  ghost predicate NoTies(ss: seq<seq<Msg>>) {
    forall x, y | x in ss && y in ss && x != [] && y != [] ::
      FirstTime(x) == FirstTime(y) && LastTime(x) == LastTime(y) ==> x == y
  }

  lemma SameFirst(a: seq<seq<Msg>>, b: seq<seq<Msg>>)
    requires HeaderSorted(a) && HeaderSorted(b) && multiset(a) == multiset(b) && NoTies(a) && [] !in a && a != []
    ensures b != [] && a[0] == b[0]
  {
    assert a[0] in multiset(a) && a[0] in b;
    assert b[0] in multiset(b) && b[0] in a;
    assert NotAfter(a[0], b[0]) && NotAfter(b[0], a[0]);
  }

  lemma SameTails(a: seq<seq<Msg>>, b: seq<seq<Msg>>)
    requires multiset(a) == multiset(b) && a != [] && b != [] && a[0] == b[0]
    ensures multiset(a[1..]) == multiset(b[1..])
  {
    TakenOut(a, 0);
    TakenOut(b, 0);
    assert Without(a, 0) == a[1..] && Without(b, 0) == b[1..];
    SameRest(multiset(a[1..]), multiset(b[1..]), a[0]);
  }

  /** Without ties, sorting leaves only one order. */
  lemma {:induction false} SortedOnce(a: seq<seq<Msg>>, b: seq<seq<Msg>>)
    requires HeaderSorted(a) && HeaderSorted(b) && multiset(a) == multiset(b) && NoTies(a) && [] !in a
    ensures a == b
  {
    if a == [] {
      assert |b| == |multiset(b)| == 0;
    } else {
      SameFirst(a, b);
      SameTails(a, b);
      SortedOnce(a[1..], b[1..]);
    }
  }

  /** Without ties, every outcome of the sort lists the segments with messages in the order in
      which they were recorded. */
  lemma OrderRecovered(order: seq<nat>, ss: seq<seq<Msg>>)
    requires Outcome(order, ss) && InTime(ss) && NoTies(ss)
    ensures NonEmpty(Pick(ss, order)) == NonEmpty(ss) && Concat(Pick(ss, order)) == Concat(ss)
  {
    var p := Pick(ss, order);
    PickOrder(ss, order);
    NonEmptyMultiset(p);
    NonEmptyMultiset(ss);
    NonEmptySorted(p);
    InTimeSortedApart(ss);
    NonEmptySorted(ss);
    forall x ensures x in NonEmpty(ss) <==> x in ss && x != [] {
      NonEmptyMember(ss, x);
    }
    SortedOnce(NonEmpty(ss), NonEmpty(p));
    ConcatNonEmpty(p);
    ConcatNonEmpty(ss);
  }

  // ----- with ties -----

  /** The places of the segments without messages (or of those with) below n, in order. */
  ghost function Places(ss: seq<seq<Msg>>, n: nat, empty: bool): seq<nat>
    requires n <= |ss|
  {
    if n == 0 then []
    else if (ss[n - 1] == []) == empty then Places(ss, n - 1, empty) + [n - 1]
    else Places(ss, n - 1, empty)
  }

  lemma {:induction false} PlacesFacts(ss: seq<seq<Msg>>, n: nat, empty: bool)
    requires n <= |ss|
    ensures forall k | 0 <= k < |Places(ss, n, empty)| ::
              Places(ss, n, empty)[k] < n && (ss[Places(ss, n, empty)[k]] == []) == empty
    ensures forall k, l | 0 <= k < l < |Places(ss, n, empty)| :: Places(ss, n, empty)[k] < Places(ss, n, empty)[l]
  {
    if n > 0 { PlacesFacts(ss, n - 1, empty); }
  }

  lemma {:induction false} PlacesHave(ss: seq<seq<Msg>>, n: nat, i: nat)
    requires i < n <= |ss|
    ensures i in Places(ss, n, ss[i] == [])
  {
    if i < n - 1 { PlacesHave(ss, n - 1, i); }
  }

  lemma {:induction false} PlacesAll(ss: seq<seq<Msg>>, n: nat)
    requires n <= |ss|
    ensures IsOrder(Places(ss, n, true) + Places(ss, n, false), n)
  {
    if n > 0 {
      PlacesAll(ss, n - 1);
      var e, p := Places(ss, n - 1, true), Places(ss, n - 1, false);
      EitherPart(e, p, n - 1);
      if ss[n - 1] == [] {
        assert Places(ss, n, true) == e + [n - 1] && Places(ss, n, false) == p;
      } else {
        assert Places(ss, n, true) == e && Places(ss, n, false) == p + [n - 1];
      }
    }
  }

  lemma {:induction false} NonEmptyPlaces(ss: seq<seq<Msg>>, n: nat)
    requires n <= |ss|
    ensures Below(Places(ss, n, false), |ss|) && Pick(ss, Places(ss, n, false)) == NonEmpty(ss[..n])
  {
    PlacesFacts(ss, n, false);
    if n > 0 {
      NonEmptyPlaces(ss, n - 1);
      assert ss[..n][..n - 1] == ss[..n - 1];
    }
  }

  lemma {:induction false} NonEmptyAll(a: seq<seq<Msg>>, b: seq<seq<Msg>>)
    requires (forall i | 0 <= i < |a| :: a[i] == []) && forall i | 0 <= i < |b| :: b[i] != []
    ensures NonEmpty(a + b) == b
    decreases |a| + |b|
  {
    if b != [] {
      var n := |b| - 1;
      NonEmptyAll(a, b[..n]);
      assert (a + b)[..|a + b| - 1] == a + b[..n] && b == b[..n] + [b[n]];
    } else if a != [] {
      var n := |a| - 1;
      NonEmptyAll(a[..n], b);
      assert (a + b)[..n] == a[..n] + b;
    }
  }

  lemma EmptyFirst(a: seq<seq<Msg>>, b: seq<seq<Msg>>)
    requires (forall i | 0 <= i < |a| :: a[i] == []) && HeaderSorted(b)
    ensures HeaderSorted(a + b)
  {}

  /** Sorting looks at the header times only. */
  lemma SameTimesSorted(x: seq<seq<Msg>>, y: seq<seq<Msg>>)
    requires |x| == |y| && HeaderSorted(x)
    requires forall k | 0 <= k < |x| :: FirstTime(x[k]) == FirstTime(y[k]) && LastTime(x[k]) == LastTime(y[k])
    ensures HeaderSorted(y)
  {
    forall k, l | 0 <= k < l < |y| ensures NotAfter(y[k], y[l]) {
      assert NotAfter(x[k], x[l]);
    }
  }

  /** The places of the segments without messages, then the others with two exchanged. */
  ghost function ExchangedPlaces(ss: seq<seq<Msg>>, a: nat, b: nat): seq<nat>
    requires a < |Places(ss, |ss|, false)| && b < |Places(ss, |ss|, false)|
  {
    Places(ss, |ss|, true) + Exchanged(Places(ss, |ss|, false), a, b)
  }

  lemma ExchangedOrder(ss: seq<seq<Msg>>, a: nat, b: nat)
    requires a < |Places(ss, |ss|, false)| && b < |Places(ss, |ss|, false)|
    ensures IsOrder(ExchangedPlaces(ss, a, b), |ss|)
  {
    var e, p := Places(ss, |ss|, true), Places(ss, |ss|, false);
    PlacesAll(ss, |ss|);
    NonEmptyPlaces(ss, |ss|);
    PickExchanged(ss, p, a, b);
    assert multiset(e + Exchanged(p, a, b)) == multiset(e) + multiset(p) == multiset(e + p);
  }

  lemma ExchangedPick(ss: seq<seq<Msg>>, a: nat, b: nat) returns (empty: seq<seq<Msg>>)
    requires a < |Places(ss, |ss|, false)| && b < |Places(ss, |ss|, false)|
    ensures a < |NonEmpty(ss)| && b < |NonEmpty(ss)| && Below(ExchangedPlaces(ss, a, b), |ss|)
    ensures Pick(ss, ExchangedPlaces(ss, a, b)) == empty + Exchanged(NonEmpty(ss), a, b)
    ensures forall i | 0 <= i < |empty| :: empty[i] == []
  {
    var e, p := Places(ss, |ss|, true), Places(ss, |ss|, false);
    PlacesFacts(ss, |ss|, true);
    NonEmptyPlaces(ss, |ss|);
    assert ss[..|ss|] == ss;
    PickExchanged(ss, p, a, b);
    PickConcat(ss, e, Exchanged(p, a, b));
    empty := Pick(ss, e);
  }

  lemma ExchangedSorted(ss: seq<seq<Msg>>, a: nat, b: nat)
    requires InTime(ss) && a < |NonEmpty(ss)| && b < |NonEmpty(ss)|
    requires var x := NonEmpty(ss); FirstTime(x[a]) == FirstTime(x[b]) && LastTime(x[a]) == LastTime(x[b])
    ensures HeaderSorted(Exchanged(NonEmpty(ss), a, b))
  {
    InTimeSortedApart(ss);
    NonEmptySorted(ss);
    SameTimesSorted(NonEmpty(ss), Exchanged(NonEmpty(ss), a, b));
  }

  lemma ExchangedOutcome(ss: seq<seq<Msg>>, a: nat, b: nat) returns (order: seq<nat>)
    requires InTime(ss) && a < |NonEmpty(ss)| && b < |NonEmpty(ss)|
    requires var x := NonEmpty(ss); FirstTime(x[a]) == FirstTime(x[b]) && LastTime(x[a]) == LastTime(x[b])
    ensures Outcome(order, ss) && NonEmpty(Pick(ss, order)) == Exchanged(NonEmpty(ss), a, b)
  {
    NonEmptyPlaces(ss, |ss|);
    assert ss[..|ss|] == ss;
    order := ExchangedPlaces(ss, a, b);
    ExchangedOrder(ss, a, b);
    var empty := ExchangedPick(ss, a, b);
    ExchangedSorted(ss, a, b);
    EmptyFirst(empty, Exchanged(NonEmpty(ss), a, b));
    ExchangedNonEmpty(ss, a, b);
    NonEmptyAll(empty, Exchanged(NonEmpty(ss), a, b));
  }

  lemma ExchangedNonEmpty(ss: seq<seq<Msg>>, a: nat, b: nat)
    requires a < |NonEmpty(ss)| && b < |NonEmpty(ss)|
    ensures forall i | 0 <= i < |NonEmpty(ss)| :: Exchanged(NonEmpty(ss), a, b)[i] != []
  {
    forall i | 0 <= i < |NonEmpty(ss)| ensures NonEmpty(ss)[i] != [] {
      NonEmptyMember(ss, NonEmpty(ss)[i]);
    }
  }

  /** Two different segments with the same header times can change places. */
  lemma TiedOutcome(ss: seq<seq<Msg>>, x: seq<Msg>, y: seq<Msg>) returns (order: seq<nat>)
    requires InTime(ss) && x in ss && y in ss && x != [] && y != [] && x != y
    requires FirstTime(x) == FirstTime(y) && LastTime(x) == LastTime(y)
    ensures Outcome(order, ss) && NonEmpty(Pick(ss, order)) != NonEmpty(ss)
  {
    NonEmptyMember(ss, x);
    NonEmptyMember(ss, y);
    var q := NonEmpty(ss);
    var i :| 0 <= i < |q| && q[i] == x;
    var j :| 0 <= j < |q| && q[j] == y;
    order := ExchangedOutcome(ss, i, j);
    assert Exchanged(q, i, j)[i] == y;
  }

  /** Every outcome of the sort lists the segments with messages in the order recorded if and
      only if different ones have different header times. */
  lemma OrderRecoveredIff(ss: seq<seq<Msg>>)
    requires InTime(ss)
    ensures NoTies(ss) <==> forall order | Outcome(order, ss) :: NonEmpty(Pick(ss, order)) == NonEmpty(ss)
  {
    if NoTies(ss) {
      forall order | Outcome(order, ss) ensures NonEmpty(Pick(ss, order)) == NonEmpty(ss) {
        OrderRecovered(order, ss);
      }
    } else {
      var x, y :| x in ss && y in ss && x != [] && y != [] && x != y
                  && FirstTime(x) == FirstTime(y) && LastTime(x) == LastTime(y);
      var order := TiedOutcome(ss, x, y);
      assert Outcome(order, ss);
    }
  }

  lemma ConcatTwo(x: seq<Msg>, y: seq<Msg>)
    ensures Concat([x, y]) == x + y
  {
    assert [x, y][..1] == [x] && [x][..0] == [];
    assert Concat([x]) == Concat([]) + x == x;
  }

  lemma SwappedOrder()
    ensures IsOrder([1, 0], 2)
  {
    assert Range(2) == [0, 1];
    assert multiset([1, 0]) == multiset([0, 1]);
  }

  lemma TiedInTime(a: Msg, b: Msg)
    requires a.time == b.time && a != b
    ensures InTime([[a], [b]]) && !NoTies([[a], [b]])
  {
    var x, y := [a], [b];
    assert x in [x, y] && y in [x, y] && x[0] != y[0];
    assert FirstTime(x) == FirstTime(y) == LastTime(x) == LastTime(y);
  }

  lemma TiedSwapped(x: seq<Msg>, y: seq<Msg>)
    requires NotAfter(x, y) && NotAfter(y, x)
    ensures Outcome([1, 0], [x, y]) && Pick([x, y], [1, 0]) == [y, x]
  {
    SwappedOrder();
    assert Pick([x, y], [1, 0]) == [y, x];
  }

  /** Two one-message segments of the same time: the sort may put the later one first. */
  lemma TiedMessages(a: Msg, b: Msg)
    requires a.time == b.time && a != b
    ensures var ss := [[a], [b]];
            && InTime(ss) && !NoTies(ss) && Outcome([1, 0], ss)
            && Concat(ss) == [a, b] && Concat(Pick(ss, [1, 0])) == [b, a]
  {
    TiedInTime(a, b);
    TiedSwapped([a], [b]);
    ConcatTwo([a], [b]);
    ConcatTwo([b], [a]);
  }
}
