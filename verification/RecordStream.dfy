/**
 What a record file contains and what a window-by-window sweep reads from it: the
 specification side of cyber/record/record_reader.cc and cyber/record/record_viewer.cc.
 */
module RecordStream {

  /** 1 second; a window is closed, so it spans one nanosecond more. */
  const STEP_NS: nat := 1_000_000_000

  datatype Msg = Msg(time: nat, channel: string, content: string)

  datatype Section =
    | ChannelSection
    | HeaderSection(begin: nat, end: nat)
    | BodySection(msgs: seq<Msg>)
    | IndexSection

  /** The messages of a file from section p on, in file order: the chunk bodies up to the
      index. */
  function Stream(f: seq<Section>, p: nat): seq<Msg>
    decreases |f| - p
  {
    if p >= |f| || f[p].IndexSection? then []
    else if f[p].BodySection? then f[p].msgs + Stream(f, p + 1)
    else Stream(f, p + 1)
  }

  /** From section p on, every chunk header is followed by its non-empty body and bounds
      its times. */
  ghost predicate Accurate(f: seq<Section>, p: nat)
    decreases |f| - p
  {
    p >= |f| || f[p].IndexSection? || (HeaderOk(f, p) && Accurate(f, p + 1))
  }

  ghost predicate HeaderOk(f: seq<Section>, p: nat)
    requires p < |f|
  {
    f[p].HeaderSection? ==>
      && p + 1 < |f| && f[p + 1].BodySection? && f[p + 1].msgs != []
      && Bounded(f[p + 1].msgs, f[p].begin, f[p].end)
  }

  ghost predicate Bounded(s: seq<Msg>, lo: nat, hi: nat) {
    forall i | 0 <= i < |s| :: lo <= s[i].time <= hi
  }

  ghost predicate AllBelow(s: seq<Msg>, lo: nat) {
    forall i | 0 <= i < |s| :: s[i].time < lo
  }

  lemma Assoc(a: seq<Msg>, b: seq<Msg>, c: seq<Msg>)
    ensures (a + b) + c == a + (b + c)
  {}

  /** Moving a position past the first part of what lies ahead. */
  lemma SplitAhead(source: seq<Msg>, ahead: nat, msgs: seq<Msg>, tail: seq<Msg>)
    requires ahead <= |source| && source[ahead..] == msgs + tail
    ensures ahead + |msgs| <= |source| && source[ahead + |msgs|..] == tail
    ensures source[ahead..ahead + |msgs|] == msgs
    ensures forall k | ahead <= k < ahead + |msgs| :: source[k] == msgs[k - ahead]
  {
    var rest := source[ahead..];
    assert source[ahead + |msgs|..] == rest[|msgs|..];
    assert source[ahead..ahead + |msgs|] == rest[..|msgs|];
    assert forall k | ahead <= k < ahead + |msgs| :: source[k] == rest[k - ahead];
  }

  /** The sections from p on hold exactly the messages from `ahead` on. */
  ghost predicate Ahead(f: seq<Section>, p: nat, source: seq<Msg>, ahead: nat) {
    && p <= |f| && ahead <= |source|
    && Accurate(f, p) && source[ahead..] == Stream(f, p)
  }

  lemma PassBody(f: seq<Section>, p: nat, source: seq<Msg>, ahead: nat, ahead': nat)
    requires Ahead(f, p, source, ahead) && p < |f| && f[p].BodySection? && ahead' == ahead + |f[p].msgs|
    ensures Ahead(f, p + 1, source, ahead') && source[ahead..ahead'] == f[p].msgs
    ensures forall k | ahead <= k < ahead' :: source[k] == f[p].msgs[k - ahead]
  {
    SplitAhead(source, ahead, f[p].msgs, Stream(f, p + 1));
  }

  /** A chunk header comes with its body, and the next message is in that body. */
  lemma PassHeader(f: seq<Section>, p: nat, source: seq<Msg>, ahead: nat)
    requires Ahead(f, p, source, ahead) && p < |f| && f[p].HeaderSection?
    ensures Ahead(f, p + 1, source, ahead) && p + 1 < |f| && f[p + 1].BodySection?
    ensures Bounded(f[p + 1].msgs, f[p].begin, f[p].end)
    ensures ahead < |source| && f[p].begin <= source[ahead].time
  {
    assert Accurate(f, p + 1) && Stream(f, p) == Stream(f, p + 1);
    SplitAhead(source, ahead, f[p + 1].msgs, Stream(f, p + 2));
  }

  // ----- one window -----

  datatype Window = Window(taken: seq<Msg>, rest: seq<Msg>)

  /** Read one window: drop what is too old, take what fits, stop at the first message that
      is too new. */
  function Read(s: seq<Msg>, lo: nat, hi: nat): Window {
    if s == [] then Window([], [])
    else if s[0].time > hi then Window([], s)
    else
      var w := Read(s[1..], lo, hi);
      if s[0].time < lo then w else Window([s[0]] + w.taken, w.rest)
  }

  /** Old messages at the front do not matter. */
  lemma {:induction false} ReadSkips(s: seq<Msg>, d: nat, lo: nat, hi: nat)
    requires d <= |s| && AllBelow(s[..d], lo) && lo <= hi + 1
    ensures Read(s, lo, hi) == Read(s[d..], lo, hi)
    decreases d
  {
    if d == 0 {
      assert s[0..] == s;
    } else {
      assert s[..d][0] == s[0];
      assert s[1..][..d - 1] == s[..d][1..];
      ReadSkips(s[1..], d - 1, lo, hi);
      assert s[1..][d - 1..] == s[d..];
    }
  }

  /** The next message of the window, after some old ones. */
  lemma ReadNext(s: seq<Msg>, d: nat, lo: nat, hi: nat)
    requires d < |s| && AllBelow(s[..d], lo) && lo <= s[d].time <= hi
    ensures Read(s, lo, hi) == Window([s[d]] + Read(s[d + 1..], lo, hi).taken, Read(s[d + 1..], lo, hi).rest)
  {
    ReadSkips(s, d, lo, hi);
    assert s[d..][1..] == s[d + 1..];
  }

  lemma BelowMore(s: seq<Msg>, d: nat, lo: nat)
    requires 0 < d <= |s| && s[0].time < lo && AllBelow(s[1..][..d - 1], lo)
    ensures AllBelow(s[..d], lo)
  {
    assert s[..d] == [s[0]] + s[1..][..d - 1];
  }

  /** What is left is a suffix, and what was passed over is not newer than the window. */
  lemma {:induction false} ReadSuffix(s: seq<Msg>, lo: nat, hi: nat)
    requires lo <= hi + 1
    ensures var w := Read(s, lo, hi);
            && |w.rest| <= |s| && w.rest == s[|s| - |w.rest|..]
            && AllBelow(s[..|s| - |w.rest|], hi + 1)
            && (w.taken == [] ==> AllBelow(s[..|s| - |w.rest|], lo))
            && Bounded(w.taken, lo, hi)
            && (w.rest != [] ==> w.rest[0].time > hi)
  {
    if s != [] && s[0].time <= hi {
      ReadSuffix(s[1..], lo, hi);
      var w := Read(s, lo, hi);
      var d := |s| - |w.rest|;
      assert w.rest == s[1..][d - 1..] == s[d..];
      BelowMore(s, d, hi + 1);
      if w.taken == [] { BelowMore(s, d, lo); }
    }
  }

  // ----- the sweep -----

  function WindowEnd(lo: nat, end: nat): nat {
    if lo + STEP_NS > end then end else lo + STEP_NS
  }

  /** Everything a sweep in windows from lo to end reads from s. */
  function Sweep(s: seq<Msg>, lo: nat, end: nat): seq<Msg>
    decreases end + 1 - lo
  {
    if lo > end then [] else
    var hi := WindowEnd(lo, end);
    var w := Read(s, lo, hi);
    w.taken + Sweep(w.rest, hi + 1, end)
  }

  lemma SweepSkips(s: seq<Msg>, d: nat, lo: nat, end: nat)
    requires d <= |s| && AllBelow(s[..d], lo)
    ensures Sweep(s, lo, end) == Sweep(s[d..], lo, end)
  {
    if lo <= end { ReadSkips(s, d, lo, WindowEnd(lo, end)); }
  }

  /** A sweep over old messages only reads nothing. */
  lemma {:induction false} SweepNothing(s: seq<Msg>, lo: nat, end: nat)
    requires AllBelow(s, lo)
    ensures Sweep(s, lo, end) == []
    decreases end + 1 - lo
  {
    if lo <= end {
      var hi := WindowEnd(lo, end);
      assert s[..|s|] == s;
      ReadSkips(s, |s|, lo, hi);
      assert s[|s|..] == [];
      SweepNothing([], hi + 1, end);
    }
  }

  /** One message found in the window, behind some old ones. */
  lemma SweepStep(source: seq<Msg>, n: nat, n': nat, lo: nat, end: nat)
    requires lo <= end && n < n' <= |source|
    requires forall k | n <= k < n' - 1 :: source[k].time < lo
    requires lo <= source[n' - 1].time <= WindowEnd(lo, end)
    ensures Sweep(source[n..], lo, end) == [source[n' - 1]] + Sweep(source[n'..], lo, end)
  {
    var s, d := source[n..], n' - 1 - n;
    assert s[d] == source[n' - 1] && s[d + 1..] == source[n'..];
    SweepNext(s, d, lo, end);
  }

  lemma SweepNext(s: seq<Msg>, d: nat, lo: nat, end: nat)
    requires lo <= end && d < |s| && AllBelow(s[..d], lo) && lo <= s[d].time <= WindowEnd(lo, end)
    ensures Sweep(s, lo, end) == [s[d]] + Sweep(s[d + 1..], lo, end)
  {
    ReadNext(s, d, lo, WindowEnd(lo, end));
    SweepCons(s, s[d + 1..], s[d], Read(s[d + 1..], lo, WindowEnd(lo, end)), lo, end);
  }

  lemma SweepCons(s: seq<Msg>, s': seq<Msg>, m: Msg, w: Window, lo: nat, end: nat)
    requires lo <= end && Read(s', lo, WindowEnd(lo, end)) == w
    requires Read(s, lo, WindowEnd(lo, end)) == Window([m] + w.taken, w.rest)
    ensures Sweep(s, lo, end) == [m] + Sweep(s', lo, end)
  {
    Assoc([m], w.taken, Sweep(w.rest, WindowEnd(lo, end) + 1, end));
  }

  lemma SweepNewer(s: seq<Msg>, lo: nat, end: nat)
    requires lo <= end && s != [] && s[0].time > WindowEnd(lo, end)
    ensures Sweep(s, lo, end) == Sweep(s, WindowEnd(lo, end) + 1, end)
  {
    assert Read(s, lo, WindowEnd(lo, end)) == Window([], s);
  }

  lemma SweepNone(s: seq<Msg>, lo: nat, end: nat)
    requires lo <= end && (s == [] || s[0].time > WindowEnd(lo, end) || AllBelow(s, lo))
    ensures Sweep(s, lo, end) == Sweep(s, WindowEnd(lo, end) + 1, end)
  {
    if s != [] && s[0].time > WindowEnd(lo, end) {
      SweepNewer(s, lo, end);
    } else {
      SweepNothing(s, lo, end);
      SweepNothing(s, WindowEnd(lo, end) + 1, end);
    }
  }

  /** No further message in the window: the sweep goes on with the next window. */
  lemma SweepStop(source: seq<Msg>, n: nat, n': nat, lo: nat, end: nat)
    requires lo <= end && n <= n' <= |source|
    requires forall k | n <= k < n' :: source[k].time < lo
    requires n' == |source| || source[n'].time > WindowEnd(lo, end)
             || forall k | n' <= k < |source| :: source[k].time < lo
    ensures Sweep(source[n..], lo, end) == Sweep(source[n'..], WindowEnd(lo, end) + 1, end)
  {
    assert source[n..][n' - n..] == source[n'..];
    SweepSkips(source[n..], n' - n, lo, end);
    SweepNone(source[n'..], lo, end);
  }

  // ----- stable merging by time -----

  /** The messages with a given time, in order. */
  function At(s: seq<Msg>, t: nat): seq<Msg> {
    InRange(s, t, t, {})
  }

  /** The messages with a given time of several streams, stream by stream. */
  function AtAll(ss: seq<seq<Msg>>, t: nat): seq<Msg> {
    if ss == [] then [] else AtAll(ss[..|ss| - 1], t) + At(ss[|ss| - 1], t)
  }

  ghost predicate Sorted(s: seq<Msg>) {
    forall i, j | 0 <= i < j < |s| :: s[i].time <= s[j].time
  }

  /** The stable merge of several streams: sorted by time, and at each time the messages of
      the streams in stream order, each stream in its own order, nothing else. */
  ghost predicate StableMerge(out: seq<Msg>, ss: seq<seq<Msg>>) {
    Sorted(out) && forall t :: At(out, t) == AtAll(ss, t)
  }

  /** These two conditions leave only one sequence. */
  lemma {:induction false} StableMergeUnique(a: seq<Msg>, b: seq<Msg>)
    requires Sorted(a) && Sorted(b) && forall t :: At(a, t) == At(b, t)
    ensures a == b
  {
    assert b == [] || At(b, b[0].time) != [];
    assert a == [] || At(a, a[0].time) != [];
    if a != [] {
      assert b != [];
      FirstAt(a, b[0].time);
      FirstAt(b, a[0].time);
      assert a[0].time == b[0].time;
      assert a[0] == At(a, a[0].time)[0] == At(b, b[0].time)[0] == b[0];
      forall t ensures At(a[1..], t) == At(b[1..], t) {
        assert At(a, t) == At(b, t);
        if a[0].time == t { SameTail([a[0]], At(a[1..], t), At(b[1..], t)); }
      }
      StableMergeUnique(a[1..], b[1..]);
    }
  }

  lemma SameTail(a: seq<Msg>, b: seq<Msg>, c: seq<Msg>)
    requires a + b == a + c
    ensures b == c
  {
    assert b == (a + b)[|a|..] == (a + c)[|a|..] == c;
  }

  lemma FirstAt(a: seq<Msg>, t: nat)
    requires Sorted(a) && a != []
    ensures At(a, t) != [] ==> a[0].time <= t
  {
    if t < a[0].time { InRangeNone(a, t, t, {}); }
  }

  /** multimap::emplace: behind everything that is not later. */
  function Insert(buf: seq<Msg>, m: Msg): seq<Msg> {
    if buf == [] || m.time < buf[0].time then [m] + buf else [buf[0]] + Insert(buf[1..], m)
  }

  lemma SortedCons(x: Msg, r: seq<Msg>)
    requires Sorted(r) && forall y | y in r :: x.time <= y.time
    ensures Sorted([x] + r)
  {}

  lemma {:induction false} InsertSorted(buf: seq<Msg>, m: Msg)
    requires Sorted(buf)
    ensures Sorted(Insert(buf, m)) && |Insert(buf, m)| == |buf| + 1
    ensures forall x :: x in Insert(buf, m) <==> x == m || x in buf
  {
    if buf == [] || m.time < buf[0].time {
      SortedCons(m, buf);
    } else {
      InsertSorted(buf[1..], m);
      assert forall x :: x in buf <==> x == buf[0] || x in buf[1..];
      SortedCons(buf[0], Insert(buf[1..], m));
    }
  }

  lemma {:induction false} InsertAt(buf: seq<Msg>, m: Msg, t: nat)
    requires Sorted(buf)
    ensures At(Insert(buf, m), t) == At(buf, t) + (if m.time == t then [m] else [])
  {
    if buf == [] || m.time < buf[0].time {
      assert ([m] + buf)[1..] == buf;
      if m.time == t { InRangeNone(buf, t, t, {}); }
    } else {
      InsertAt(buf[1..], m, t);
      var r := Insert(buf[1..], m);
      assert ([buf[0]] + r)[1..] == r;
    }
  }

  /** One more message of stream i, when the later streams have none at its time. */
  lemma {:induction false} AtAllExtend(ss: seq<seq<Msg>>, i: nat, m: Msg, t: nat)
    requires i < |ss|
    requires forall j | i < j < |ss| :: At(ss[j], m.time) == []
    ensures AtAll(ss[i := ss[i] + [m]], t) == AtAll(ss, t) + (if m.time == t then [m] else [])
    decreases |ss|
  {
    var ss' := ss[i := ss[i] + [m]];
    var n := |ss| - 1;
    InRangeConcat(ss[i], [m], t, t, {});
    if i < n {
      AtAllExtend(ss[..n], i, m, t);
      assert ss'[..n] == ss[..n][i := ss[..n][i] + [m]];
    } else {
      assert ss'[..n] == ss[..n];
    }
  }

  // ----- the messages a reader of the range wants -----

  /** The channels asked for; none means all. */
  predicate Wanted(m: Msg, channels: set<string>) {
    channels == {} || m.channel in channels
  }

  /** The messages of the wanted channels, in order. */
  function Select(s: seq<Msg>, ch: set<string>): seq<Msg> {
    if s == [] then []
    else if Wanted(s[0], ch) then [s[0]] + Select(s[1..], ch)
    else Select(s[1..], ch)
  }

  /** The wanted messages with lo <= time <= hi, in order. */
  function InRange(s: seq<Msg>, lo: nat, hi: nat, ch: set<string>): seq<Msg> {
    if s == [] then []
    else if lo <= s[0].time <= hi && Wanted(s[0], ch) then [s[0]] + InRange(s[1..], lo, hi, ch)
    else InRange(s[1..], lo, hi, ch)
  }

  lemma {:induction false} InRangeConcat(a: seq<Msg>, b: seq<Msg>, lo: nat, hi: nat, ch: set<string>)
    ensures InRange(a + b, lo, hi, ch) == InRange(a, lo, hi, ch) + InRange(b, lo, hi, ch)
  {
    if a == [] {
      assert a + b == b;
    } else {
      InRangeConcat(a[1..], b, lo, hi, ch);
      var c, x, y := a + b, InRange(a[1..], lo, hi, ch), InRange(b, lo, hi, ch);
      assert c[0] == a[0] && c[1..] == a[1..] + b;
      Assoc([a[0]], x, y);
    }
  }

  lemma {:induction false} SelectConcat(a: seq<Msg>, b: seq<Msg>, ch: set<string>)
    ensures Select(a + b, ch) == Select(a, ch) + Select(b, ch)
  {
    if a == [] {
      assert a + b == b;
    } else {
      SelectConcat(a[1..], b, ch);
      var c := a + b;
      assert c[0] == a[0] && c[1..] == a[1..] + b;
      Assoc([a[0]], Select(a[1..], ch), Select(b, ch));
    }
  }

  lemma {:induction false} InRangeNone(s: seq<Msg>, lo: nat, hi: nat, ch: set<string>)
    requires forall i | 0 <= i < |s| :: !(lo <= s[i].time <= hi && Wanted(s[i], ch))
    ensures InRange(s, lo, hi, ch) == []
  {
    if s != [] { InRangeNone(s[1..], lo, hi, ch); }
  }

  lemma {:induction false} InRangeSome(s: seq<Msg>, q: nat, lo: nat, hi: nat, ch: set<string>)
    requires q < |s| && lo <= s[q].time <= hi && Wanted(s[q], ch)
    ensures InRange(s, lo, hi, ch) != []
  {
    if q > 0 { InRangeSome(s[1..], q - 1, lo, hi, ch); }
  }

  /** A range that nothing lies outside of. */
  lemma {:induction false} InRangeWider(s: seq<Msg>, lo: nat, hi: nat, lo': nat, hi': nat, ch: set<string>)
    requires forall i | 0 <= i < |s| :: lo <= s[i].time <= hi <==> lo' <= s[i].time <= hi'
    ensures InRange(s, lo, hi, ch) == InRange(s, lo', hi', ch)
  {
    if s != [] {
      assert lo <= s[0].time <= hi <==> lo' <= s[0].time <= hi';
      InRangeWider(s[1..], lo, hi, lo', hi', ch);
    }
  }

  /** Selecting channels and picking a time commute. */
  lemma {:induction false} SelectAt(s: seq<Msg>, t: nat, ch: set<string>)
    ensures At(Select(s, ch), t) == InRange(s, t, t, ch) == Select(At(s, t), ch)
  {
    if s != [] {
      SelectAt(s[1..], t, ch);
      var rest, more := Select(s[1..], ch), At(s[1..], t);
      if Wanted(s[0], ch) { assert ([s[0]] + rest)[1..] == rest; }
      assert ([s[0]] + more)[1..] == more;
    }
  }

  lemma CountFirst(s: seq<Msg>, m: Msg)
    requires s != []
    ensures multiset(s)[m] == (if s[0] == m then 1 else 0) + multiset(s[1..])[m]
  {
    assert s == [s[0]] + s[1..];
  }

  lemma CountCons(x: Msg, s: seq<Msg>, m: Msg)
    ensures multiset([x] + s)[m] == (if x == m then 1 else 0) + multiset(s)[m]
  {}

  /** Selecting keeps a message, as often as it is there, if all channels are asked for or
      its own is, and drops every other. */
  lemma {:induction false} SelectCounts(s: seq<Msg>, ch: set<string>, m: Msg)
    ensures multiset(Select(s, ch))[m] == if ch == {} || m.channel in ch then multiset(s)[m] else 0
  {
    if s != [] {
      SelectCounts(s[1..], ch, m);
      CountFirst(s, m);
      CountCons(s[0], Select(s[1..], ch), m);
    }
  }

  /** The same for the closed range of times. */
  lemma {:induction false} InRangeCounts(s: seq<Msg>, lo: nat, hi: nat, ch: set<string>, m: Msg)
    ensures AsAsked(multiset(InRange(s, lo, hi, ch))[m], multiset(s)[m], m, lo, hi, ch)
  {
    if s != [] {
      InRangeCounts(s[1..], lo, hi, ch, m);
      CountFirst(s, m);
      CountCons(s[0], InRange(s[1..], lo, hi, ch), m);
    }
  }

  /** A message of which n are shown and `all` are there is shown as asked: every time if it
      lies in the closed range and all channels are asked for or its own is, and else never. */
  ghost predicate AsAsked(n: nat, all: nat, m: Msg, from: nat, to: nat, ch: set<string>) {
    n == if from <= m.time <= to && (ch == {} || m.channel in ch) then all else 0
  }

  /** How often m occurs in all streams together. */
  function Occurs(ss: seq<seq<Msg>>, m: Msg): nat {
    if ss == [] then 0 else Occurs(ss[..|ss| - 1], m) + multiset(ss[|ss| - 1])[m]
  }

  lemma {:induction false} AtAllCounts(ss: seq<seq<Msg>>, m: Msg)
    ensures multiset(AtAll(ss, m.time))[m] == Occurs(ss, m)
  {
    if ss != [] {
      AtAllCounts(ss[..|ss| - 1], m);
      InRangeCounts(ss[|ss| - 1], m.time, m.time, {}, m);
    }
  }

  /** A merge has every message of its streams, as often as they have it together. */
  lemma MergeCounts(out: seq<Msg>, ss: seq<seq<Msg>>, m: Msg)
    requires StableMerge(out, ss)
    ensures multiset(out)[m] == Occurs(ss, m)
  {
    AtAllCounts(ss, m);
    InRangeCounts(out, m.time, m.time, {}, m);
  }

  lemma {:induction false} ReadCounts(s: seq<Msg>, lo: nat, hi: nat, m: Msg)
    ensures var w := Read(s, lo, hi); multiset(w.taken)[m] + multiset(w.rest)[m] <= multiset(s)[m]
  {
    if s != [] && s[0].time <= hi {
      ReadCounts(s[1..], lo, hi, m);
      CountFirst(s, m);
      CountCons(s[0], Read(s[1..], lo, hi).taken, m);
    }
  }

  lemma CountConcat(a: seq<Msg>, b: seq<Msg>, m: Msg)
    ensures multiset(a + b)[m] == multiset(a)[m] + multiset(b)[m]
  {}

  /** A sweep reads nothing twice and nothing that is not there. */
  lemma {:induction false} SweepCounts(s: seq<Msg>, lo: nat, end: nat, m: Msg)
    ensures multiset(Sweep(s, lo, end))[m] <= multiset(s)[m]
    decreases end + 1 - lo
  {
    if lo <= end {
      var hi := WindowEnd(lo, end);
      var w := Read(s, lo, hi);
      ReadCounts(s, lo, hi, m);
      SweepCounts(w.rest, hi + 1, end, m);
      CountConcat(w.taken, Sweep(w.rest, hi + 1, end), m);
    }
  }

  // ----- when the sweep reads everything in range -----

  /** No wanted message of the window comes after a message newer than the window. */
  ghost predicate Cut(s: seq<Msg>, lo: nat, hi: nat, ch: set<string>) {
    forall p, q | 0 <= p < q < |s| && s[p].time > hi :: !(lo <= s[q].time <= hi && Wanted(s[q], ch))
  }

  /** The wanted messages may be out of order within a window of the sweep, but not across
      windows. */
  ghost predicate WindowOrdered(s: seq<Msg>, lo: nat, end: nat, ch: set<string>)
    decreases end + 1 - lo
  {
    lo > end || (Cut(s, lo, WindowEnd(lo, end), ch) && WindowOrdered(s, WindowEnd(lo, end) + 1, end, ch))
  }

  lemma CutTail(s: seq<Msg>, lo: nat, hi: nat, ch: set<string>)
    requires s != [] && s[0].time <= hi
    ensures Cut(s, lo, hi, ch) <==> Cut(s[1..], lo, hi, ch)
  {
    if Cut(s, lo, hi, ch) {
      forall p, q | 0 <= p < q < |s[1..]| && s[1..][p].time > hi
        ensures !(lo <= s[1..][q].time <= hi && Wanted(s[1..][q], ch))
      {
        assert s[1..][p] == s[p + 1] && s[1..][q] == s[q + 1];
      }
    }
    if Cut(s[1..], lo, hi, ch) {
      forall p, q | 0 <= p < q < |s| && s[p].time > hi ensures !(lo <= s[q].time <= hi && Wanted(s[q], ch)) {
        assert s[1..][p - 1] == s[p] && s[1..][q - 1] == s[q];
      }
    }
  }

  /** A window that is not cut off is read completely. */
  lemma {:induction false} ReadComplete(s: seq<Msg>, lo: nat, hi: nat, ch: set<string>)
    requires Cut(s, lo, hi, ch)
    ensures Select(Read(s, lo, hi).taken, ch) == InRange(s, lo, hi, ch)
  {
    if s == [] {
    } else if s[0].time > hi {
      InRangeNone(s, lo, hi, ch);
    } else {
      CutTail(s, lo, hi, ch);
      ReadComplete(s[1..], lo, hi, ch);
      var t := Read(s[1..], lo, hi).taken;
      assert ([s[0]] + t)[1..] == t;
    }
  }

  /** Splitting a range that is not cut off. */
  lemma {:induction false} InRangeSplit(s: seq<Msg>, lo: nat, hi: nat, end: nat, ch: set<string>)
    requires lo <= hi <= end && Cut(s, lo, hi, ch)
    ensures InRange(s, lo, end, ch) == InRange(s, lo, hi, ch) + InRange(s, hi + 1, end, ch)
  {
    if s == [] {
    } else if s[0].time > hi {
      InRangeNone(s, lo, hi, ch);
      InRangeLater(s, lo, hi, end, ch);
    } else {
      CutTail(s, lo, hi, ch);
      InRangeSplit(s[1..], lo, hi, end, ch);
      Assoc([s[0]], InRange(s[1..], lo, hi, ch), InRange(s[1..], hi + 1, end, ch));
    }
  }

  lemma {:induction false} InRangeLater(s: seq<Msg>, lo: nat, hi: nat, end: nat, ch: set<string>)
    requires lo <= hi <= end && forall i | 0 <= i < |s| :: !(lo <= s[i].time <= hi && Wanted(s[i], ch))
    ensures InRange(s, lo, end, ch) == InRange(s, hi + 1, end, ch)
  {
    if s != [] { InRangeLater(s[1..], lo, hi, end, ch); }
  }

  lemma RestInRange(s: seq<Msg>, d: nat, lo: nat, end: nat, ch: set<string>)
    requires d <= |s| && AllBelow(s[..d], lo)
    ensures InRange(s[d..], lo, end, ch) == InRange(s, lo, end, ch)
  {
    InRangeNone(s[..d], lo, end, ch);
    InRangeConcat(s[..d], s[d..], lo, end, ch);
    assert s[..d] + s[d..] == s;
  }

  lemma {:induction false} WindowOrderedSkips(s: seq<Msg>, d: nat, lo: nat, end: nat, ch: set<string>)
    requires d <= |s| && AllBelow(s[..d], lo)
    ensures WindowOrdered(s, lo, end, ch) <==> WindowOrdered(s[d..], lo, end, ch)
    decreases end + 1 - lo
  {
    if lo <= end {
      CutSkips(s, d, lo, WindowEnd(lo, end), ch);
      WindowOrderedSkips(s, d, WindowEnd(lo, end) + 1, end, ch);
    }
  }

  lemma CutSkips(s: seq<Msg>, d: nat, lo: nat, hi: nat, ch: set<string>)
    requires d <= |s| && AllBelow(s[..d], lo) && lo <= hi
    ensures Cut(s, lo, hi, ch) <==> Cut(s[d..], lo, hi, ch)
  {
    var r := s[d..];
    assert forall i | 0 <= i < d :: s[..d][i] == s[i];
    assert forall i | 0 <= i < |r| :: r[i] == s[d + i];
    if Cut(r, lo, hi, ch) {
      forall p, q | 0 <= p < q < |s| && s[p].time > hi ensures !(lo <= s[q].time <= hi && Wanted(s[q], ch)) {
        assert s[p] == r[p - d] && s[q] == r[q - d];
      }
    }
  }

  /** Order across the remaining windows can be judged on what is left to read. */
  lemma RestOrdered(s: seq<Msg>, lo: nat, hi: nat, end: nat, w: Window, ch: set<string>)
    requires lo <= hi + 1 && w == Read(s, lo, hi)
    ensures WindowOrdered(w.rest, hi + 1, end, ch) <==> WindowOrdered(s, hi + 1, end, ch)
  {
    ReadSuffix(s, lo, hi);
    WindowOrderedSkips(s, |s| - |w.rest|, hi + 1, end, ch);
  }

  /** What is left to read has everything newer than the window. */
  lemma RestNewer(s: seq<Msg>, lo: nat, hi: nat, w: Window, x: nat, y: nat, ch: set<string>)
    requires lo <= hi + 1 && w == Read(s, lo, hi) && hi < x
    ensures InRange(w.rest, x, y, ch) == InRange(s, x, y, ch)
  {
    ReadSuffix(s, lo, hi);
    RestInRange(s, |s| - |w.rest|, x, y, ch);
  }

  /** If the wanted messages are ordered across the windows of the sweep, it reads exactly
      those in range, in file order. */
  lemma {:induction false} SweepComplete(s: seq<Msg>, lo: nat, end: nat, ch: set<string>)
    requires WindowOrdered(s, lo, end, ch)
    ensures Select(Sweep(s, lo, end), ch) == InRange(s, lo, end, ch)
    decreases end + 1 - lo
  {
    if lo > end {
      InRangeNone(s, lo, end, ch);
    } else {
      var lo', w := WindowEnd(lo, end) + 1, Read(s, lo, WindowEnd(lo, end));
      NextOrdered(s, lo, end, w, ch);
      SweepComplete(w.rest, lo', end, ch);
      FirstWindowComplete(s, lo, end, w, Sweep(w.rest, lo', end), ch);
      SweepUnfolds(s, lo, end);
    }
  }

  lemma SweepUnfolds(s: seq<Msg>, lo: nat, end: nat)
    requires lo <= end
    ensures var w := Read(s, lo, WindowEnd(lo, end));
            Sweep(s, lo, end) == w.taken + Sweep(w.rest, WindowEnd(lo, end) + 1, end)
  {}

  lemma NextOrdered(s: seq<Msg>, lo: nat, end: nat, w: Window, ch: set<string>)
    requires lo <= end && w == Read(s, lo, WindowEnd(lo, end)) && WindowOrdered(s, lo, end, ch)
    ensures Cut(s, lo, WindowEnd(lo, end), ch) && WindowOrdered(w.rest, WindowEnd(lo, end) + 1, end, ch)
  {
    RestOrdered(s, lo, WindowEnd(lo, end), end, w, ch);
  }

  lemma FirstWindowComplete(s: seq<Msg>, lo: nat, end: nat, w: Window, more: seq<Msg>, ch: set<string>)
    requires lo <= end && w == Read(s, lo, WindowEnd(lo, end)) && Cut(s, lo, WindowEnd(lo, end), ch)
    requires Select(more, ch) == InRange(w.rest, WindowEnd(lo, end) + 1, end, ch)
    ensures Select(w.taken + more, ch) == InRange(s, lo, end, ch)
  {
    var hi := WindowEnd(lo, end);
    RestNewer(s, lo, hi, w, hi + 1, end, ch);
    ReadComplete(s, lo, hi, ch);
    SelectConcat(w.taken, more, ch);
    InRangeSplit(s, lo, hi, end, ch);
  }

  lemma {:induction false} SweepBounded(s: seq<Msg>, lo: nat, end: nat)
    ensures Bounded(Sweep(s, lo, end), lo, end)
    decreases end + 1 - lo
  {
    if lo <= end {
      var hi := WindowEnd(lo, end);
      ReadSuffix(s, lo, hi);
      SweepBounded(Read(s, lo, hi).rest, hi + 1, end);
    }
  }

  /** How many wanted messages s has at time t. */
  function Count(s: seq<Msg>, t: nat, ch: set<string>): nat {
    |InRange(s, t, t, ch)|
  }

  lemma {:induction false} ReadCount(s: seq<Msg>, lo: nat, hi: nat, t: nat, ch: set<string>)
    requires lo <= t <= hi
    ensures Count(Read(s, lo, hi).taken, t, ch) <= Count(s, t, ch)
  {
    if s != [] && s[0].time <= hi {
      ReadCount(s[1..], lo, hi, t, ch);
      var r := Read(s[1..], lo, hi).taken;
      assert ([s[0]] + r)[1..] == r;
    }
  }

  /** A window that is cut off loses a wanted message. */
  lemma {:induction false} ReadLoses(s: seq<Msg>, lo: nat, hi: nat, ch: set<string>) returns (t: nat)
    requires !Cut(s, lo, hi, ch)
    ensures lo <= t <= hi && Count(Read(s, lo, hi).taken, t, ch) < Count(s, t, ch)
  {
    if s[0].time > hi {
      var p, q :| 0 <= p < q < |s| && s[p].time > hi && lo <= s[q].time <= hi && Wanted(s[q], ch);
      t := s[q].time;
      InRangeSome(s, q, t, t, ch);
    } else {
      CutTail(s, lo, hi, ch);
      t := ReadLoses(s[1..], lo, hi, ch);
      var r := Read(s[1..], lo, hi).taken;
      assert ([s[0]] + r)[1..] == r;
    }
  }

  /** A sweep has the messages of a time from the window of that time. */
  lemma SweepAt(s: seq<Msg>, lo: nat, end: nat, t: nat, ch: set<string>)
    requires lo <= t <= end
    ensures var hi := WindowEnd(lo, end);
            var w := Read(s, lo, hi);
            Count(Sweep(s, lo, end), t, ch)
              == if t <= hi then Count(w.taken, t, ch) else Count(Sweep(w.rest, hi + 1, end), t, ch)
  {
    var hi := WindowEnd(lo, end);
    var w := Read(s, lo, hi);
    var more := Sweep(w.rest, hi + 1, end);
    InRangeConcat(w.taken, more, t, t, ch);
    ReadSuffix(s, lo, hi);
    SweepBounded(w.rest, hi + 1, end);
    if t <= hi { InRangeNone(more, t, t, ch); } else { InRangeNone(w.taken, t, t, ch); }
  }

  lemma {:induction false} SweepCount(s: seq<Msg>, lo: nat, end: nat, t: nat, ch: set<string>)
    requires lo <= t <= end
    ensures Count(Sweep(s, lo, end), t, ch) <= Count(s, t, ch)
    decreases end + 1 - lo
  {
    var hi := WindowEnd(lo, end);
    var w := Read(s, lo, hi);
    SweepAt(s, lo, end, t, ch);
    if t <= hi {
      ReadCount(s, lo, hi, t, ch);
    } else {
      SweepCount(w.rest, hi + 1, end, t, ch);
      RestNewer(s, lo, hi, w, t, t, ch);
    }
  }

  /** If they are not ordered across windows, the sweep loses one. */
  lemma {:induction false} SweepLoses(s: seq<Msg>, lo: nat, end: nat, ch: set<string>) returns (t: nat)
    requires !WindowOrdered(s, lo, end, ch)
    ensures lo <= t <= end && Count(Sweep(s, lo, end), t, ch) < Count(s, t, ch)
    decreases end + 1 - lo
  {
    var hi := WindowEnd(lo, end);
    var w := Read(s, lo, hi);
    if Cut(s, lo, hi, ch) {
      RestOrdered(s, lo, hi, end, w, ch);
      t := SweepLoses(w.rest, hi + 1, end, ch);
      RestNewer(s, lo, hi, w, t, t, ch);
      SweepAt(s, lo, end, t, ch);
    } else {
      t := ReadLoses(s, lo, hi, ch);
      SweepAt(s, lo, end, t, ch);
    }
  }

  /** The sweep reads exactly the wanted messages in range, in file order, if and only if
      they are ordered across the windows of the sweep. */
  lemma SweepCompleteIff(s: seq<Msg>, lo: nat, end: nat, ch: set<string>)
    ensures Select(Sweep(s, lo, end), ch) == InRange(s, lo, end, ch) <==> WindowOrdered(s, lo, end, ch)
  {
    if WindowOrdered(s, lo, end, ch) {
      SweepComplete(s, lo, end, ch);
    } else {
      var t := SweepLoses(s, lo, end, ch);
      SelectAt(Sweep(s, lo, end), t, ch);
      InRangeTwice(s, lo, end, t, ch);
    }
  }

  lemma {:induction false} InRangeTwice(s: seq<Msg>, lo: nat, hi: nat, t: nat, ch: set<string>)
    requires lo <= t <= hi
    ensures At(InRange(s, lo, hi, ch), t) == InRange(s, t, t, ch)
  {
    if s != [] {
      InRangeTwice(s[1..], lo, hi, t, ch);
      var r := InRange(s[1..], lo, hi, ch);
      assert ([s[0]] + r)[1..] == r;
    }
  }

  /** A file in time order is ordered across windows, whatever the range. */
  lemma {:induction false} InOrderIsWindowOrdered(s: seq<Msg>, lo: nat, end: nat, ch: set<string>)
    requires Sorted(s)
    ensures WindowOrdered(s, lo, end, ch)
    decreases end + 1 - lo
  {
    if lo <= end { InOrderIsWindowOrdered(s, WindowEnd(lo, end) + 1, end, ch); }
  }

  /** Two messages in reverse order more than a window apart: the sweep loses one.  Less
      than a window apart, it does not. */
  lemma ReversedFile(a: Msg, b: Msg)
    requires a.time > b.time
    ensures WindowOrdered([a, b], b.time, a.time, {}) <==> a.time <= b.time + STEP_NS
  {
    var s, lo, end := [a, b], b.time, a.time;
    var hi := WindowEnd(lo, end);
    if a.time > b.time + STEP_NS {
      assert s[0].time > hi && lo <= s[1].time <= hi;
    }
  }

  /** The times of the first and the last message: what the header of a file in time order
      has, 0 if there are none. */
  function FirstTime(s: seq<Msg>): nat {
    if s == [] then 0 else s[0].time
  }

  function LastTime(s: seq<Msg>): nat {
    if s == [] then 0 else s[|s| - 1].time
  }

  // ----- the begin time of a segment or a chunk -----

  /** How segments and chunks keep their begin time; 0 stands for "not set". */
  function BeginTime(msgs: seq<Msg>): nat {
    if msgs == [] then 0
    else
      var b, t := BeginTime(msgs[..|msgs| - 1]), msgs[|msgs| - 1].time;
      if b == 0 || b > t then t else b
  }

  ghost predicate IsMinTime(msgs: seq<Msg>, b: nat) {
    && (forall i | 0 <= i < |msgs| :: b <= msgs[i].time)
    && exists i :: 0 <= i < |msgs| && msgs[i].time == b
  }

  /** The begin time is the earliest time in the segment if and only if no message has time
      0, or the last one has. */
  lemma {:induction false} BeginTimeIsMinIff(msgs: seq<Msg>)
    requires msgs != []
    ensures IsMinTime(msgs, BeginTime(msgs)) <==>
            (forall i | 0 <= i < |msgs| :: msgs[i].time > 0) || msgs[|msgs| - 1].time == 0
  {
    var n := |msgs| - 1;
    var init, last := msgs[..n], msgs[n];
    assert forall i | 0 <= i < n :: init[i] == msgs[i];
    if n == 0 {
      assert BeginTime(msgs) == last.time && msgs[0] == last;
    } else if last.time == 0 {
      assert BeginTime(msgs) == 0 && msgs[n].time == 0;
    } else {
      BeginTimeIsMinIff(init);
      if forall i | 0 <= i < |msgs| :: msgs[i].time > 0 {
        var i :| 0 <= i < |init| && init[i].time == BeginTime(init);
        assert msgs[i].time == BeginTime(init) && msgs[n].time == last.time;
      } else {
        BeginTimeAfterZero(msgs);
      }
    }
  }

  /** Only a last message with time 0 leaves the begin time unset. */
  lemma {:induction false} BeginTimeAfterZero(msgs: seq<Msg>)
    requires msgs != []
    ensures BeginTime(msgs) == 0 <==> msgs[|msgs| - 1].time == 0
  {
    if |msgs| > 1 { BeginTimeAfterZero(msgs[..|msgs| - 1]); }
  }

  /** From message i on, no message has time 0. */
  ghost predicate PositiveFrom(msgs: seq<Msg>, i: nat) {
    forall j | i <= j < |msgs| :: msgs[j].time > 0
  }

  lemma PositiveBefore(msgs: seq<Msg>, i: nat)
    requires i < |msgs| - 1 && PositiveFrom(msgs, i)
    ensures PositiveFrom(msgs[..|msgs| - 1], i) && msgs[|msgs| - 2].time > 0
  {}

  lemma PositiveMore(msgs: seq<Msg>, i: nat)
    requires msgs != [] && PositiveFrom(msgs[..|msgs| - 1], i) && msgs[|msgs| - 1].time > 0
    ensures PositiveFrom(msgs, i)
  {
    var n := |msgs| - 1;
    assert forall j | i <= j < n :: msgs[j] == msgs[..n][j];
  }

  /** For any times: the begin time is that of a message since the last one of time 0. */
  lemma {:induction false} BeginTimeFrom(msgs: seq<Msg>) returns (at: nat)
    requires msgs != [] && msgs[|msgs| - 1].time > 0
    ensures at < |msgs| && PositiveFrom(msgs, at) && msgs[at].time == BeginTime(msgs)
  {
    var n := |msgs| - 1;
    at := n;
    if n > 0 && BeginTime(msgs) != msgs[n].time {
      BeginTimeAfterZero(msgs[..n]);
      at := BeginTimeFrom(msgs[..n]);
      PositiveMore(msgs, at);
    }
  }

  /** And none of those is earlier. */
  lemma {:induction false} BeginTimeSince(msgs: seq<Msg>, i: nat)
    requires i < |msgs| && PositiveFrom(msgs, i)
    ensures BeginTime(msgs) <= msgs[i].time
  {
    if i < |msgs| - 1 {
      PositiveBefore(msgs, i);
      BeginTimeAfterZero(msgs[..|msgs| - 1]);
      BeginTimeSince(msgs[..|msgs| - 1], i);
    }
  }

  /** The last message comes more than the interval, if there is one, after another one of the
      messages, with none of time 0 from that one on. */
  ghost predicate Late(interval: nat, msgs: seq<Msg>) {
    interval > 0 &&
    exists i :: 0 <= i < |msgs| && PositiveFrom(msgs, i) && msgs[|msgs| - 1].time > msgs[i].time + interval
  }

  lemma LateIff(interval: nat, msgs: seq<Msg>)
    requires msgs != []
    ensures Late(interval, msgs) <==> interval > 0 && msgs[|msgs| - 1].time - BeginTime(msgs) > interval
  {
    if msgs[|msgs| - 1].time > 0 {
      var at := BeginTimeFrom(msgs);
      forall i | 0 <= i < |msgs| && PositiveFrom(msgs, i) ensures BeginTime(msgs) <= msgs[i].time {
        BeginTimeSince(msgs, i);
      }
    }
  }

  /** All contents, one after another. */
  function Joined(msgs: seq<Msg>): string {
    if msgs == [] then [] else Joined(msgs[..|msgs| - 1]) + msgs[|msgs| - 1].content
  }

  /** The contents together are longer than the limit, if there is one. */
  ghost predicate Large(limit: nat, msgs: seq<Msg>) {
    limit > 0 && |Joined(msgs)| > limit
  }

  /** Times 5, 0 and 7: the 0 in between is taken for "not set", and 7 becomes the begin. */
  lemma ZeroForgotten(a: Msg, b: Msg, c: Msg)
    requires a.time == 5 && b.time == 0 && c.time == 7
    ensures BeginTime([a, b, c]) == 7
  {
    assert [a, b, c][..2] == [a, b] && [a, b][..1] == [a] && [a][..0] == [];
    assert BeginTime([a]) == 5;
    assert BeginTime([a, b]) == 0;
  }
}
