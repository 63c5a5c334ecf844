/**
 UNIX and GPS time (cyber/common/time_conversion.h) for any well-formed table of leap
 seconds, newest first.  The cast to int32_t in the way back is modelled.
 */
module LeapSeconds {

  const UNIX_GPS_DIFF: int := 315964800
  const ONE_MILLION: int := 1_000_000
  const ONE_BILLION: int := 1_000_000_000
  const INT32_LIMIT: int := 0x8000_0000

  /** From UNIX time `start` on there are `leap` leap seconds. */
  datatype Row = Row(start: int, leap: int)

  const LEAP_SECONDS: seq<Row> :=
    [Row(1483228800, 18), Row(1435708800, 17), Row(1341100800, 16), Row(1230768000, 15), Row(1136073600, 14)]

  /** Rows go back in time, one leap second each, not beyond the GPS epoch, and fit in
      int32_t. */
  ghost predicate WellFormed(t: seq<Row>) {
    && t != []
    && (forall i | 0 <= i < |t| :: UNIX_GPS_DIFF <= t[i].start < INT32_LIMIT && 0 <= t[i].leap < INT32_LIMIT)
    && forall i, j | 0 <= i < j < |t| :: t[j].start < t[i].start && t[i].leap == t[j].leap + (j - i)
  }

  lemma TableWellFormed()
    ensures WellFormed(LEAP_SECONDS)
  {}

  function Oldest(t: seq<Row>): Row
    requires t != []
  {
    t[|t| - 1]
  }

  /** The conversion to int32_t. */
  function Int32(x: int): int {
    (x + INT32_LIMIT) % (2 * INT32_LIMIT) - INT32_LIMIT
  }

  // ----- the specification: search from row i on -----

  function UnixToGps(t: seq<Row>, u: int, i: nat): int
    decreases |t| - i
  {
    if i >= |t| then 0
    else if u >= t[i].start then u - (UNIX_GPS_DIFF - t[i].leap)
    else UnixToGps(t, u, i + 1)
  }

  /** The UNIX time of GPS time g by row i. */
  function By(t: seq<Row>, g: int, i: nat): int
    requires i < |t|
  {
    g + (UNIX_GPS_DIFF - t[i].leap)
  }

  function GpsToUnix(t: seq<Row>, g: int, i: nat): int
    decreases |t| - i
  {
    if i >= |t| then 0
    else if Int32(By(t, g, i)) >= t[i].start then By(t, g, i)
    else GpsToUnix(t, g, i + 1)
  }

  // ----- the code -----

  /** Row k is the newest that has started at UNIX time u. */
  ghost predicate Applies(t: seq<Row>, u: int, k: nat) {
    k < |t| && u >= t[k].start && forall j | 0 <= j < k :: u < t[j].start
  }

  /** Row k is the newest whose start is not after GPS time g, counted by that row and cast
      to int32_t. */
  ghost predicate CastApplies(t: seq<Row>, g: int, k: nat) {
    k < |t| && Int32(By(t, g, k)) >= t[k].start && forall j | 0 <= j < k :: Int32(By(t, g, j)) < t[j].start
  }

  method UnixToGpsSeconds(t: seq<Row>, u: int) returns (g: int)
    ensures forall k: nat | Applies(t, u, k) :: g == u - (UNIX_GPS_DIFF - t[k].leap)
    ensures (forall k | 0 <= k < |t| :: u < t[k].start) ==> g == 0
    ensures g == UnixToGps(t, u, 0)
  {
    for i := 0 to |t|
      invariant UnixToGps(t, u, 0) == UnixToGps(t, u, i)
      invariant forall j | 0 <= j < i :: u < t[j].start
    {
      if u >= t[i].start {
        return u - (UNIX_GPS_DIFF - t[i].leap);
      }
    }
    return 0;
  }

  method GpsToUnixSeconds(t: seq<Row>, g: int) returns (u: int)
    ensures forall k: nat | CastApplies(t, g, k) :: u == By(t, g, k)
    ensures (forall k | 0 <= k < |t| :: Int32(By(t, g, k)) < t[k].start) ==> u == 0
    ensures u == GpsToUnix(t, g, 0)
  {
    for i := 0 to |t|
      invariant GpsToUnix(t, g, 0) == GpsToUnix(t, g, i)
      invariant forall j | 0 <= j < i :: Int32(By(t, g, j)) < t[j].start
    {
      var result := g + (UNIX_GPS_DIFF - t[i].leap);
      if Int32(result) >= t[i].start {
        return result;
      }
    }
    return 0;
  }

  /** Division and remainder of C++, which truncate toward zero. */
  function Quot(a: int, b: int): int
    requires b > 0
  {
    if a >= 0 then a / b else -(-a / b)
  }

  function Rem(a: int, b: int): int
    requires b > 0
  {
    a - Quot(a, b) * b
  }

  /** UnixToGpsMicroseconds and UnixToGpsNanoseconds, for the number of units in a second. */
  function UnixToGpsUnits(t: seq<Row>, x: int, unit: int): int
    requires unit > 0
  {
    UnixToGps(t, Quot(x, unit), 0) * unit + Rem(x, unit)
  }

  function GpsToUnixUnits(t: seq<Row>, x: int, unit: int): int
    requires unit > 0
  {
    GpsToUnix(t, Quot(x, unit), 0) * unit + Rem(x, unit)
  }

  // ----- which row applies -----

  lemma {:induction false} FindRow(t: seq<Row>, u: int, i: nat) returns (k: nat)
    requires WellFormed(t) && u >= Oldest(t).start && i < |t|
    requires forall j | 0 <= j < i :: u < t[j].start
    ensures Applies(t, u, k) && UnixToGps(t, u, i) == u - (UNIX_GPS_DIFF - t[k].leap)
    decreases |t| - i
  {
    if u >= t[i].start {
      k := i;
    } else {
      k := FindRow(t, u, i + 1);
    }
  }

  /** GPS times from the start of the table up to the last UNIX time that int32_t holds. */
  ghost predicate InTable(t: seq<Row>, g: int)
    requires t != []
  {
    By(t, g, |t| - 1) >= Oldest(t).start && By(t, g, 0) < INT32_LIMIT
  }

  /** Row k is the newest whose start is not after GPS time g, counted by that row. */
  ghost predicate GpsApplies(t: seq<Row>, g: int, k: nat) {
    k < |t| && By(t, g, k) >= t[k].start && forall j | 0 <= j < k :: By(t, g, j) < t[j].start
  }

  /** As long as no newer row applies, the cast changes nothing. */
  lemma NoWrap(t: seq<Row>, g: int, i: nat)
    requires WellFormed(t) && InTable(t, g) && i < |t|
    requires i > 0 ==> By(t, g, i - 1) < t[i - 1].start
    ensures Int32(By(t, g, i)) == By(t, g, i)
  {
    assert i > 0 ==> By(t, g, i) == By(t, g, i - 1) + 1;
    assert By(t, g, i) == By(t, g, |t| - 1) - (|t| - 1 - i);
    assert t[i].leap == t[|t| - 1].leap + (|t| - 1 - i);
    CastSmall(By(t, g, i));
  }

  lemma CastSmall(x: int)
    requires -INT32_LIMIT <= x < INT32_LIMIT
    ensures Int32(x) == x
  {}

  /** The cast gives the number of its range that differs by a multiple of 2^32. */
  lemma CastIs(x: int)
    ensures -0x8000_0000 <= Int32(x) < 0x8000_0000 && (x - Int32(x)) % 0x1_0000_0000 == 0
  {
    var y := x + INT32_LIMIT;
    assert y == (y / 0x1_0000_0000) * 0x1_0000_0000 + y % 0x1_0000_0000;
    assert x - Int32(x) == (y / 0x1_0000_0000) * 0x1_0000_0000;
  }

  /** Quotients are truncated toward zero, so the remainder has the sign of the dividend. */
  lemma Truncates(a: int, b: int)
    requires b > 0
    ensures a == Quot(a, b) * b + Rem(a, b) && -b < Rem(a, b) < b
    ensures (a >= 0 ==> Rem(a, b) >= 0) && (a <= 0 ==> Rem(a, b) <= 0)
  {
    if a >= 0 {
      assert a == (a / b) * b + a % b;
    } else {
      assert -a == (-a / b) * b + -a % b;
      assert Quot(a, b) * b == -((-a / b) * b);
    }
  }

  lemma {:induction false} FindGpsRow(t: seq<Row>, g: int, i: nat) returns (k: nat)
    requires WellFormed(t) && InTable(t, g) && i < |t|
    requires forall j | 0 <= j < i :: By(t, g, j) < t[j].start
    ensures GpsApplies(t, g, k) && GpsToUnix(t, g, i) == By(t, g, k)
    decreases |t| - i
  {
    NoWrap(t, g, i);
    if By(t, g, i) >= t[i].start {
      k := i;
    } else {
      k := FindGpsRow(t, g, i + 1);
    }
  }

  /** Only one row applies. */
  lemma OneGpsRow(t: seq<Row>, g: int, k: nat, k': nat)
    requires GpsApplies(t, g, k) && GpsApplies(t, g, k')
    ensures k == k'
  {}

  // ----- UNIX to GPS and back -----

  /** The way there and back gives the same UNIX time if and only if int32_t holds it, or it
      has wrapped around far enough to look like a time after the newest leap second. */
  lemma RoundTripIff(t: seq<Row>, u: int)
    requires WellFormed(t) && u >= Oldest(t).start
    ensures GpsToUnix(t, UnixToGps(t, u, 0), 0) == u <==> u < INT32_LIMIT || Int32(u) >= t[0].start
  {
    var k := FindRow(t, u, 0);
    var g := UnixToGps(t, u, 0);
    assert By(t, g, k) == u;
    if u < INT32_LIMIT {
      assert forall j | 0 <= j < k :: By(t, g, j) == u - (k - j) < t[j].start;
      assert By(t, g, |t| - 1) >= Oldest(t).start by {
        assert By(t, g, |t| - 1) == u + (|t| - 1 - k);
      }
      var k' := FindGpsRow(t, g, 0);
      OneGpsRow(t, g, k, k');
    } else {
      assert k == 0;
      if Int32(u) < t[0].start { NotBack(t, g, 1); }
    }
  }

  lemma {:induction false} NotBack(t: seq<Row>, g: int, i: nat)
    requires WellFormed(t) && 0 < i && By(t, g, 0) > 0
    ensures GpsToUnix(t, g, i) != By(t, g, 0)
    decreases |t| - i
  {
    if i < |t| {
      assert By(t, g, i) == By(t, g, 0) + i;
      NotBack(t, g, i + 1);
    }
  }

  /** The first second that int32_t does not hold comes back as 0. */
  lemma LostAfter2038()
    ensures GpsToUnix(LEAP_SECONDS, UnixToGps(LEAP_SECONDS, INT32_LIMIT, 0), 0) == 0
  {
    var t := LEAP_SECONDS;
    var g := UnixToGps(t, INT32_LIMIT, 0);
    forall i | 0 <= i < |t| ensures Int32(By(t, g, i)) < t[i].start {
      assert By(t, g, i) == INT32_LIMIT + i;
    }
    NoRow(t, g, 0);
  }

  lemma {:induction false} NoRow(t: seq<Row>, g: int, i: nat)
    requires forall k | 0 <= k < |t| :: Int32(By(t, g, k)) < t[k].start
    ensures GpsToUnix(t, g, i) == 0
    decreases |t| - i
  {
    if i < |t| { NoRow(t, g, i + 1); }
  }

  /** The same in micro- and nanoseconds. */
  lemma UnitsRoundTripIff(t: seq<Row>, x: int, unit: int)
    requires WellFormed(t) && unit > 0 && 0 <= x && Oldest(t).start <= Quot(x, unit)
    ensures GpsToUnixUnits(t, UnixToGpsUnits(t, x, unit), unit) == x <==>
            Quot(x, unit) < INT32_LIMIT || Int32(Quot(x, unit)) >= t[0].start
  {
    var u := Quot(x, unit);
    var g := UnixToGps(t, u, 0);
    var k := FindRow(t, u, 0);
    RemBound(x, unit);
    QuotRem(g, Rem(x, unit), unit);
    RoundTripIff(t, u);
    Multiples(GpsToUnix(t, g, 0), u, unit);
    Multiples(u, GpsToUnix(t, g, 0), unit);
  }

  lemma RemBound(x: int, unit: int)
    requires unit > 0 && x >= 0
    ensures 0 <= Rem(x, unit) < unit
  {
    assert x == (x / unit) * unit + x % unit;
  }

  lemma QuotRem(q: int, r: int, unit: int)
    requires q >= 0 && unit > 0
    ensures 0 <= r < unit ==> Quot(q * unit + r, unit) == q && Rem(q * unit + r, unit) == r
  {
    if 0 <= r < unit {
      var x := q * unit + r;
      assert x >= 0;
      DivUnique(x / unit, x % unit, q, r, unit);
    }
  }

  lemma DivUnique(q: int, r: int, q': int, r': int, unit: int)
    requires unit > 0 && q * unit + r == q' * unit + r' && 0 <= r < unit && 0 <= r' < unit
    ensures q == q'
  {
    Multiples(q, q', unit);
    Multiples(q', q, unit);
  }

  lemma {:induction false} Multiples(a: int, b: int, unit: int)
    requires unit > 0
    ensures a < b ==> a * unit + unit <= b * unit
    decreases b - a
  {
    if a + 1 < b {
      Multiples(a, b - 1, unit);
      assert b * unit == (b - 1) * unit + unit;
    } else if a + 1 == b {
      assert b * unit == a * unit + unit;
    }
  }

  /** A later UNIX time is a later GPS time. */
  lemma UnixToGpsIncreasing(t: seq<Row>, u: int, v: int)
    requires WellFormed(t) && Oldest(t).start <= u < v
    ensures UnixToGps(t, u, 0) < UnixToGps(t, v, 0)
  {
    var k := FindRow(t, u, 0);
    var l := FindRow(t, v, 0);
    assert l <= k;
  }

  /** The same in micro- and nanoseconds. */
  lemma UnitsIncreasing(t: seq<Row>, x: int, y: int, unit: int)
    requires WellFormed(t) && unit > 0 && x < y && Oldest(t).start <= Quot(x, unit)
    ensures UnixToGpsUnits(t, x, unit) < UnixToGpsUnits(t, y, unit)
  {
    var u, v := Quot(x, unit), Quot(y, unit);
    assert x >= 0;
    RemBound(x, unit);
    RemBound(y, unit);
    Multiples(v, u, unit);
    if u < v {
      UnixToGpsIncreasing(t, u, v);
      Multiples(UnixToGps(t, u, 0), UnixToGps(t, v, 0), unit);
    }
  }

  // ----- GPS to UNIX and back -----

  /** The inserted second before row j starts. */
  ghost predicate IsLeapSecond(t: seq<Row>, g: int) {
    exists j :: 0 <= j < |t| - 1 && By(t, g, j) == t[j].start - 1
  }

  /** In whole seconds a later GPS time is never an earlier UNIX time. */
  lemma GpsToUnixMonotone(t: seq<Row>, g: int, h: int)
    requires WellFormed(t) && InTable(t, g) && InTable(t, h) && g <= h
    ensures GpsToUnix(t, g, 0) <= GpsToUnix(t, h, 0)
  {
    var k := FindGpsRow(t, g, 0);
    var l := FindGpsRow(t, h, 0);
    assert l <= k;
    if l < k {
      assert By(t, g, k) == By(t, g, l) + (k - l);
      assert By(t, g, k - 1) < t[k - 1].start <= t[l].start;
    }
  }

  /** In whole seconds the way back and forth fails exactly at the inserted leap seconds, and
      then by one. */
  lemma ReverseRoundTripIff(t: seq<Row>, g: int)
    requires WellFormed(t) && InTable(t, g)
    ensures UnixToGps(t, GpsToUnix(t, g, 0), 0) == (if IsLeapSecond(t, g) then g + 1 else g)
  {
    var k := FindGpsRow(t, g, 0);
    var u := By(t, g, k);
    var l := FindRow(t, u, 0);
    if k > 0 {
      assert By(t, g, k) == By(t, g, k - 1) + 1;
    }
    if IsLeapSecond(t, g) {
      var j :| 0 <= j < |t| - 1 && By(t, g, j) == t[j].start - 1;
      assert By(t, g, j + 1) == t[j].start;
      assert forall i | 0 <= i < j :: By(t, g, i) == By(t, g, j) - (j - i) < t[i].start;
      OneGpsRow(t, g, k, j + 1);
      assert l == j;
    } else {
      assert k > 0 ==> u < t[k - 1].start;
      assert l == k;
    }
  }

  /** In finer units the UNIX time goes back: exactly at the end of an inserted leap second,
      whose readings are those of the second after it. */
  lemma UnitsGoBackIff(t: seq<Row>, x: int, unit: int)
    requires WellFormed(t) && unit > 1 && x >= 0
    requires InTable(t, Quot(x, unit)) && InTable(t, Quot(x + 1, unit))
    ensures GpsToUnixUnits(t, x + 1, unit) < GpsToUnixUnits(t, x, unit) <==>
            IsLeapSecond(t, Quot(x, unit)) && Rem(x, unit) == unit - 1
  {
    var g, r := Quot(x, unit), Rem(x, unit);
    RemBound(x, unit);
    if r < unit - 1 {
      QuotRem(g, r + 1, unit);
    } else {
      assert (g + 1) * unit + 0 == x + 1;
      QuotRem(g + 1, 0, unit);
      NextSecond(t, g);
      NextUnits(GpsToUnix(t, g, 0), IsLeapSecond(t, g), unit);
    }
  }

  lemma NextUnits(u: int, leap: bool, unit: int)
    requires unit > 1
    ensures (u + if leap then 0 else 1) * unit < u * unit + (unit - 1) <==> leap
  {
    assert (u + 1) * unit == u * unit + unit;
  }

  /** From one second to the next the UNIX time stays at a leap second and else advances. */
  lemma NextSecond(t: seq<Row>, g: int)
    requires WellFormed(t) && InTable(t, g) && InTable(t, g + 1)
    ensures GpsToUnix(t, g + 1, 0) == GpsToUnix(t, g, 0) + if IsLeapSecond(t, g) then 0 else 1
  {
    var k := FindGpsRow(t, g, 0);
    var l := FindGpsRow(t, g + 1, 0);
    assert forall j | 0 <= j < |t| :: By(t, g + 1, j) == By(t, g, j) + 1;
    if IsLeapSecond(t, g) {
      var j :| 0 <= j < |t| - 1 && By(t, g, j) == t[j].start - 1;
      assert By(t, g, j + 1) == t[j].start;
      assert forall i | 0 <= i < j :: By(t, g, i) == By(t, g, j) - (j - i) && t[j].start < t[i].start;
      OneGpsRow(t, g, k, j + 1);
      OneGpsRow(t, g + 1, l, j);
    } else {
      OneGpsRow(t, g + 1, l, k);
    }
  }
}
