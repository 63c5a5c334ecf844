/**
 The windowed merge of cyber/record/record_viewer.cc over any number of readers.  The
 multimap is a sequence kept in its order.
 */
module RecordViewer {
  import opened Orders
  import opened RecordStream
  import opened RecordReader

  const BUFFER_MIN_SIZE: nat := 128

  // ----- the merge -----

  /** What was taken from the buffer, followed by what is in it, is the stable merge of what
      has been read from the readers. */
  ghost predicate Merged(taken: seq<Msg>, buffer: seq<Msg>, done: seq<seq<Msg>>) {
    StableMerge(taken + buffer, done)
  }

  /** Inserting into the buffer is inserting into the whole, if nothing taken is later. */
  lemma {:induction false} InsertBehind(taken: seq<Msg>, buffer: seq<Msg>, m: Msg)
    requires AllBelow(taken, m.time)
    ensures Insert(taken + buffer, m) == taken + Insert(buffer, m)
  {
    if taken == [] {
      assert taken + buffer == buffer;
    } else {
      assert taken[0].time < m.time;
      InsertBehind(taken[1..], buffer, m);
      assert (taken + buffer)[1..] == taken[1..] + buffer;
      assert [taken[0]] + (taken[1..] + Insert(buffer, m)) == taken + Insert(buffer, m);
    }
  }

  /** One more message of reader i enters the merge. */
  lemma MergeOne(taken: seq<Msg>, buffer: seq<Msg>, done: seq<seq<Msg>>, i: nat, m: Msg)
    requires Merged(taken, buffer, done) && AllBelow(taken, m.time) && i < |done|
    requires forall j | i < j < |done| :: AllBelow(done[j], m.time)
    ensures Merged(taken, Insert(buffer, m), done[i := done[i] + [m]])
  {
    var all := taken + buffer;
    InsertBehind(taken, buffer, m);
    InsertSorted(all, m);
    forall j | i < j < |done| ensures At(done[j], m.time) == [] {
      InRangeNone(done[j], m.time, m.time, {});
    }
    forall t ensures At(Insert(all, m), t) == AtAll(done[i := done[i] + [m]], t) {
      InsertAt(all, m, t);
      AtAllExtend(done, i, m, t);
      assert At(all, t) == AtAll(done, t);
    }
  }

  lemma InsertBelow(buffer: seq<Msg>, m: Msg, hi: nat)
    requires Sorted(buffer) && AllBelow(buffer, hi) && m.time < hi
    ensures AllBelow(Insert(buffer, m), hi)
  {
    InsertSorted(buffer, m);
    forall k | 0 <= k < |Insert(buffer, m)| ensures Insert(buffer, m)[k].time < hi {
      assert Insert(buffer, m)[k] in Insert(buffer, m);
    }
  }

  lemma SortedParts(a: seq<Msg>, b: seq<Msg>)
    requires Sorted(a + b)
    ensures Sorted(a) && Sorted(b)
  {
    assert a == (a + b)[..|a|] && b == (a + b)[|a|..];
  }

  /** A reader at message n of its file has delivered d, all before time c, and windows from
      c on will deliver the rest of its plan. */
  ghost predicate Progress(source: seq<Msg>, n: nat, d: seq<Msg>, finished: bool, plan: seq<Msg>, c: nat, end: nat) {
    && n <= |source| && AllBelow(d, c)
    && plan == d + if finished then [] else Sweep(source[n..], c, end)
  }

  /** One pass of a window over reader i: what was taken from the buffer and read from each
      reader before it. */
  datatype Pass = Pass(i: nat, source: seq<Msg>, plan: seq<Msg>, lo: nat, end: nat, taken: seq<Msg>,
                       done: seq<seq<Msg>>)
  {
    function Hi(): nat { WindowEnd(lo, end) }

    ghost predicate Starts() {
      && i < |done| && lo <= end && AllBelow(taken, lo)
      && forall j | i < j < |done| :: AllBelow(done[j], lo)
    }

    /** d is what the reader has delivered so far; the windows from c on will deliver the
        rest. */
    ghost predicate Reading(n: nat, d: seq<Msg>, buffer: seq<Msg>, c: nat)
      requires Starts()
    {
      && n <= |source| && plan == d + Sweep(source[n..], c, end) && AllBelow(d, Hi() + 1)
      && Merged(taken, buffer, done[i := d]) && AllBelow(buffer, Hi() + 1)
    }

    lemma NextMessage(n: nat, n': nat, d: seq<Msg>, buffer: seq<Msg>, m: Msg)
      requires Starts() && Reading(n, d, buffer, lo) && Found(source, n, n', true, m, lo, Hi())
      ensures Reading(n', d + [m], Insert(buffer, m), lo)
    {
      SweepStep(source, n, n', lo, end);
      assert d + ([m] + Sweep(source[n'..], lo, end)) == (d + [m]) + Sweep(source[n'..], lo, end);
      MergeOne(taken, buffer, done[i := d], i, m);
      assert done[i := d][i := d + [m]] == done[i := d + [m]];
      SortedParts(taken, buffer);
      InsertBelow(buffer, m, Hi() + 1);
    }

    /** One round of the loop over the reader. */
    lemma Round(n: nat, n': nat, ok: bool, m: Msg, d: seq<Msg>, buffer: seq<Msg>)
      requires Starts() && Reading(n, d, buffer, lo) && Found(source, n, n', ok, m, lo, Hi())
      ensures ok ==> Reading(n', d + [m], Insert(buffer, m), lo)
      ensures !ok ==> Reading(n', d, buffer, Hi() + 1)
    {
      if ok {
        NextMessage(n, n', d, buffer, m);
      } else {
        SweepStop(source, n, n', lo, end);
      }
    }
  }

  /** The loop of FillBuffer over one reader: reads its messages of one window. */
  method ReadReader(r: RecordReader, lo: nat, hi: nat, buffer: seq<Msg>, ghost p: Pass)
    returns (buffer': seq<Msg>, ghost d: seq<Msg>)
    requires r.BoundsOk() && p.Starts() && p.source == r.source && lo == p.lo && hi == p.Hi()
    requires r.Valid() && Progress(r.source, r.next, p.done[p.i], false, p.plan, lo, p.end)
    requires Merged(p.taken, buffer, p.done) && AllBelow(buffer, hi + 1)
    modifies r
    ensures r.Valid() && Progress(r.source, r.next, d, false, p.plan, hi + 1, p.end)
    ensures Merged(p.taken, buffer', p.done[p.i := d]) && AllBelow(buffer', hi + 1)
  {
    buffer', d := buffer, p.done[p.i];
    assert p.done[p.i := d] == p.done;
    var more := true;
    while more
      modifies r
      invariant r.Valid() && p.Reading(r.next, d, buffer', if more then lo else hi + 1)
      decreases |r.source| - r.next, more
    {
      ghost var n := r.next;
      var m;
      more, m := r.ReadMessage(lo, hi);
      p.Round(n, r.next, more, m, d, buffer');
      if more {
        buffer', d := Insert(buffer', m), d + [m];
      }
    }
  }

  /** What the sweeps read from all files. */
  ghost function Plans(sources: seq<seq<Msg>>, begin: nat, end: nat): seq<seq<Msg>> {
    seq(|sources|, i requires 0 <= i < |sources| => Sweep(sources[i], begin, end))
  }

  ghost function Selected(ss: seq<seq<Msg>>, ch: set<string>): seq<seq<Msg>> {
    seq(|ss|, i requires 0 <= i < |ss| => Select(ss[i], ch))
  }

  /** What was asked for from all files. */
  ghost function Ranges(sources: seq<seq<Msg>>, from: nat, to: nat, ch: set<string>): seq<seq<Msg>> {
    seq(|sources|, i requires 0 <= i < |sources| => InRange(sources[i], from, to, ch))
  }

  /** The clamped range [begin, end] leaves out nothing of [from, to]. */
  ghost predicate SameRange(s: seq<Msg>, begin: nat, end: nat, from: nat, to: nat) {
    forall k | 0 <= k < |s| :: begin <= s[k].time <= end <==> from <= s[k].time <= to
  }

  lemma {:induction false} SelectSorted(s: seq<Msg>, ch: set<string>)
    requires Sorted(s)
    ensures Sorted(Select(s, ch)) && forall x :: x in Select(s, ch) ==> x in s
  {
    if s != [] {
      SelectSorted(s[1..], ch);
      var r := Select(s[1..], ch);
      forall i | 0 <= i < |r| ensures s[0].time <= r[i].time {
        assert r[i] in s[1..];
      }
      assert forall x :: x in s <==> x == s[0] || x in s[1..];
    }
  }

  lemma {:induction false} SelectAtAll(ss: seq<seq<Msg>>, t: nat, ch: set<string>)
    ensures Select(AtAll(ss, t), ch) == AtAll(Selected(ss, ch), t)
  {
    if ss != [] {
      var n := |ss| - 1;
      SelectAtAll(ss[..n], t, ch);
      assert Selected(ss, ch)[..n] == Selected(ss[..n], ch);
      SelectConcat(AtAll(ss[..n], t), At(ss[n], t), ch);
      SelectAt(ss[n], t, ch);
    }
  }

  /** Selecting channels from a stable merge merges the selections. */
  lemma MergeSelected(out: seq<Msg>, ss: seq<seq<Msg>>, ch: set<string>)
    requires StableMerge(out, ss)
    ensures StableMerge(Select(out, ch), Selected(ss, ch))
  {
    SelectSorted(out, ch);
    forall t ensures At(Select(out, ch), t) == AtAll(Selected(ss, ch), t) {
      SelectAt(out, t, ch);
      SelectAtAll(ss, t, ch);
      assert At(out, t) == AtAll(ss, t);
    }
  }

  function Sum(a: seq<nat>): nat {
    if a == [] then 0 else Sum(a[..|a| - 1]) + a[|a| - 1]
  }

  lemma {:induction false} SumFewer(a: seq<nat>, b: seq<nat>, k: nat)
    requires |a| == |b| && forall i | 0 <= i < |a| :: a[i] <= b[i]
    ensures Sum(a) <= Sum(b) && (k < |a| && a[k] < b[k] ==> Sum(a) < Sum(b))
  {
    if a != [] {
      var n := |a| - 1;
      assert forall i | 0 <= i < n :: a[..n][i] == a[i] && b[..n][i] == b[i];
      SumFewer(a[..n], b[..n], k);
    }
  }

  ghost function Sizes(ss: seq<seq<Msg>>, t: nat): seq<nat> {
    seq(|ss|, i requires 0 <= i < |ss| => |At(ss[i], t)|)
  }

  lemma {:induction false} AtAllSize(ss: seq<seq<Msg>>, t: nat)
    ensures |AtAll(ss, t)| == Sum(Sizes(ss, t))
  {
    if ss != [] {
      var n := |ss| - 1;
      AtAllSize(ss[..n], t);
      assert Sizes(ss, t)[..n] == Sizes(ss[..n], t);
    }
  }

  /** If no stream has more messages at t, there are not more in all; if stream k has fewer,
      there are fewer. */
  lemma AtAllFewer(xs: seq<seq<Msg>>, ys: seq<seq<Msg>>, t: nat, k: nat)
    requires |xs| == |ys| && forall i | 0 <= i < |xs| :: |At(xs[i], t)| <= |At(ys[i], t)|
    ensures |AtAll(xs, t)| <= |AtAll(ys, t)|
    ensures k < |xs| && |At(xs[k], t)| < |At(ys[k], t)| ==> |AtAll(xs, t)| < |AtAll(ys, t)|
  {
    AtAllSize(xs, t);
    AtAllSize(ys, t);
    SumFewer(Sizes(xs, t), Sizes(ys, t), k);
  }

  /** Files in order across windows are shown completely. */
  lemma OrderedComplete(sources: seq<seq<Msg>>, begin: nat, end: nat, from: nat, to: nat, ch: set<string>)
    requires forall i | 0 <= i < |sources| :: SameRange(sources[i], begin, end, from, to)
    requires forall i | 0 <= i < |sources| :: WindowOrdered(sources[i], begin, end, ch)
    ensures Selected(Plans(sources, begin, end), ch) == Ranges(sources, from, to, ch)
  {
    forall i | 0 <= i < |sources|
      ensures Select(Sweep(sources[i], begin, end), ch) == InRange(sources[i], from, to, ch)
    {
      assert SameRange(sources[i], begin, end, from, to);
      SweepComplete(sources[i], begin, end, ch);
      InRangeWider(sources[i], begin, end, from, to, ch);
    }
  }

  /** A file out of order across windows is not. */
  lemma UnorderedLoses(sources: seq<seq<Msg>>, i: nat, begin: nat, end: nat, from: nat, to: nat, ch: set<string>)
    returns (t: nat)
    requires from <= begin && end <= to && i < |sources| && !WindowOrdered(sources[i], begin, end, ch)
    ensures |AtAll(Selected(Plans(sources, begin, end), ch), t)| < |AtAll(Ranges(sources, from, to, ch), t)|
  {
    t := SweepLoses(sources[i], begin, end, ch);
    var xs, ys := Selected(Plans(sources, begin, end), ch), Ranges(sources, from, to, ch);
    forall j | 0 <= j < |sources|
      ensures |At(xs[j], t)| == Count(Sweep(sources[j], begin, end), t, ch)
      ensures Count(Sweep(sources[j], begin, end), t, ch) <= Count(sources[j], t, ch) == |At(ys[j], t)|
    {
      SelectAt(Sweep(sources[j], begin, end), t, ch);
      SweepCount(sources[j], begin, end, t, ch);
      InRangeTwice(sources[j], from, to, t, ch);
    }
    assert |At(xs[i], t)| < |At(ys[i], t)|;
    AtAllFewer(xs, ys, t, i);
  }

  /** The selection from the merged sweeps is the stable merge of all that was asked for if
      and only if the wanted messages of every file are ordered across windows. */
  lemma ShownIff(merged: seq<Msg>, sources: seq<seq<Msg>>, begin: nat, end: nat, from: nat, to: nat, ch: set<string>)
    requires StableMerge(merged, Plans(sources, begin, end)) && from <= begin && end <= to
    requires forall i | 0 <= i < |sources| :: SameRange(sources[i], begin, end, from, to)
    ensures StableMerge(Select(merged, ch), Ranges(sources, from, to, ch)) <==>
            forall i | 0 <= i < |sources| :: WindowOrdered(sources[i], begin, end, ch)
  {
    MergeSelected(merged, Plans(sources, begin, end), ch);
    if i: nat :| i < |sources| && !WindowOrdered(sources[i], begin, end, ch) {
      var t := UnorderedLoses(sources, i, begin, end, from, to, ch);
      assert At(Select(merged, ch), t) != AtAll(Ranges(sources, from, to, ch), t);
    } else {
      OrderedComplete(sources, begin, end, from, to, ch);
    }
  }

  /** In particular, files in time order are shown completely. */
  lemma InOrderShown(merged: seq<Msg>, sources: seq<seq<Msg>>, begin: nat, end: nat, from: nat, to: nat,
                     ch: set<string>)
    requires StableMerge(merged, Plans(sources, begin, end)) && from <= begin && end <= to
    requires forall i | 0 <= i < |sources| :: SameRange(sources[i], begin, end, from, to) && Sorted(sources[i])
    ensures StableMerge(Select(merged, ch), Ranges(sources, from, to, ch))
  {
    forall i | 0 <= i < |sources| ensures WindowOrdered(sources[i], begin, end, ch) {
      InOrderIsWindowOrdered(sources[i], begin, end, ch);
    }
    ShownIff(merged, sources, begin, end, from, to, ch);
  }

  lemma {:induction false} AtAllEmpty(ss: seq<seq<Msg>>, t: nat)
    requires forall i | 0 <= i < |ss| :: ss[i] == []
    ensures AtAll(ss, t) == []
  {
    if ss != [] { AtAllEmpty(ss[..|ss| - 1], t); }
  }

  /** The comparison of Init: not after, by begin and then end time of the headers. */
  predicate NotAfter(a: RecordReader, b: RecordReader) {
    a.begin < b.begin || (a.begin == b.begin && a.end <= b.end)
  }

  ghost predicate HeaderSorted(readers: seq<RecordReader>) {
    forall i, j | 0 <= i < j < |readers| :: NotAfter(readers[i], readers[j])
  }

  /** Everything before p comes before r, and everything from p on after it. */
  ghost predicate Fits(readers: seq<RecordReader>, r: RecordReader, p: nat) {
    && p <= |readers|
    && (forall k | 0 <= k < p :: NotAfter(readers[k], r))
    && forall k | p <= k < |readers| :: NotAfter(r, readers[k])
  }

  lemma InsertedSorted(readers: seq<RecordReader>, r: RecordReader, p: nat)
    requires HeaderSorted(readers) && Fits(readers, r, p)
    ensures HeaderSorted(Inserted(readers, p, r))
  {
    var s := Inserted(readers, p, r);
    forall i, j | 0 <= i < j < |s| ensures NotAfter(s[i], s[j]) {
      assert s[i] == if i < p then readers[i] else if i == p then r else readers[i - 1];
      assert s[j] == if j < p then readers[j] else if j == p then r else readers[j - 1];
    }
  }

  /** Where the next reader goes. */
  method FindPlace(readers: seq<RecordReader>, r: RecordReader) returns (p: nat)
    requires HeaderSorted(readers)
    ensures Fits(readers, r, p)
  {
    p := |readers|;
    while p > 0 && !NotAfter(readers[p - 1], r)
      invariant 0 <= p <= |readers| && forall k | p <= k < |readers| :: NotAfter(r, readers[k])
    {
      p := p - 1;
    }
  }

  /** The sorting of the readers in Init.  Only the contract counts: like std::sort, it does
      not say in which order readers with equal header times come out. */
  method SortReaders(readers: seq<RecordReader>) returns (sorted: seq<RecordReader>, ghost order: seq<nat>)
    ensures IsOrder(order, |readers|) && Below(order, |readers|) && sorted == Pick(readers, order)
    ensures HeaderSorted(sorted)
  {
    sorted, order := [], [];
    for i := 0 to |readers|
      invariant IsOrder(order, i) && Below(order, i) && sorted == Pick(readers, order) && HeaderSorted(sorted)
    {
      var p := FindPlace(sorted, readers[i]);
      InsertedSorted(sorted, readers[i], p);
      InsertedOrder(order, i, p);
      PickInserted(readers, order, i, p);
      sorted, order := sorted[..p] + [readers[i]] + sorted[p..], Inserted(order, p, i);
    }
  }

  const UINT64_MAX: nat := 0xFFFF_FFFF_FFFF_FFFF

  /** Clamps the range asked for to the times of the readable files. */
  method UpdateTime(readers: seq<RecordReader>, from: nat, to: nat) returns (begin: nat, end: nat)
    ensures from <= begin && end <= to
    ensures forall r | r in readers && r.isValid :: (begin == from || begin <= r.begin) && (end == to || r.end <= end)
    ensures begin < UINT64_MAX ==> exists r :: r in readers && r.isValid && r.begin <= begin
    ensures end > 0 ==> exists r :: r in readers && r.isValid && end <= r.end
  {
    var minBegin: nat, maxEnd: nat := UINT64_MAX, 0;
    for i := 0 to |readers|
      invariant forall r | r in readers[..i] && r.isValid :: minBegin <= r.begin && r.end <= maxEnd
      invariant minBegin < UINT64_MAX ==> exists r :: r in readers && r.isValid && r.begin == minBegin
      invariant maxEnd > 0 ==> exists r :: r in readers && r.isValid && r.end == maxEnd
    {
      var r := readers[i];
      if r.isValid {
        if minBegin > r.begin {
          minBegin := r.begin;
        }
        if maxEnd < r.end {
          maxEnd := r.end;
        }
      }
      assert readers[..i + 1] == readers[..i] + [r];
    }
    begin := if from < minBegin then minBegin else from;
    end := if to > maxEnd then maxEnd else to;
  }

  /** Where all readers stand: for each its file, the first message not passed over yet,
      what it has delivered since Reset, and whether it has finished. */
  datatype Track = Track(sources: seq<seq<Msg>>, begin: nat, end: nat,
                         nexts: seq<nat>, done: seq<seq<Msg>>, finished: seq<bool>)
  {
    ghost predicate Ok() {
      |sources| == |nexts| == |done| == |finished|
    }

    /** What the sweep is to read from reader i. */
    ghost function Plan(i: nat): seq<Msg>
      requires i < |sources|
    {
      Sweep(sources[i], begin, end)
    }

    ghost predicate ReaderAt(i: nat, c: nat)
      requires Ok() && i < |sources|
    {
      Progress(sources[i], nexts[i], done[i], finished[i], Plan(i), c, end)
    }

    ghost predicate ReadersAt(from: nat, to: nat, c: nat)
      requires Ok() && to <= |sources|
    {
      forall i | from <= i < to :: ReaderAt(i, c)
    }

    ghost function Set(i: nat, n: nat, d: seq<Msg>, f: bool): Track
      requires Ok() && i < |sources|
    {
      this.(nexts := nexts[i := n], done := done[i := d], finished := finished[i := f])
    }

    /** What happens to reader i does not concern the others. */
    lemma Others(i: nat, n: nat, d: seq<Msg>, f: bool, from: nat, to: nat, c: nat)
      requires Ok() && i < |sources| && to <= |sources| && !(from <= i < to) && ReadersAt(from, to, c)
      ensures Set(i, n, d, f).Ok() && Set(i, n, d, f).ReadersAt(from, to, c)
    {
      forall j | from <= j < to ensures Set(i, n, d, f).ReaderAt(j, c) {
        assert ReaderAt(j, c);
      }
    }

    /** A reader whose file ends before lo has delivered its plan. */
    lemma Finished(i: nat, n: nat, lo: nat, b: nat, e: nat)
      requires Ok() && i < |sources| && ReaderAt(i, lo) && Bounded(sources[i], b, e) && e < lo && n <= |sources[i]|
      ensures Set(i, n, done[i], true).ReaderAt(i, lo)
    {
      if !finished[i] { SweepNothing(sources[i][nexts[i]..], lo, end); }
    }

    lemma AtStart()
      requires Ok()
      requires forall i | 0 <= i < |sources| :: nexts[i] == 0 && done[i] == [] && !finished[i]
      ensures ReadersAt(0, |sources|, begin) && Merged([], [], done)
    {
      forall i | 0 <= i < |sources| ensures ReaderAt(i, begin) {
        assert sources[i][0..] == sources[i];
      }
      assert forall t :: At([], t) == [];
      forall t ensures AtAll(done, t) == [] {
        AtAllEmpty(done, t);
      }
    }

    /** After the last window every reader has delivered its plan. */
    lemma AllDelivered(c: nat)
      requires Ok() && ReadersAt(0, |sources|, c) && c > end
      ensures done == Plans(sources, begin, end)
    {
      forall i | 0 <= i < |sources| ensures done[i] == Plans(sources, begin, end)[i] {
        assert ReaderAt(i, c);
      }
    }

    /** One reader moved from the readers at c to those at c'. */
    lemma Moved(i: nat, n: nat, d: seq<Msg>, f: bool, c: nat, c': nat)
      requires Ok() && i < |sources| && ReadersAt(0, i, c') && ReadersAt(i, |sources|, c)
      requires Set(i, n, d, f).Ok() && Set(i, n, d, f).ReaderAt(i, c')
      ensures Set(i, n, d, f).ReadersAt(0, i + 1, c') && Set(i, n, d, f).ReadersAt(i + 1, |sources|, c)
    {
      Others(i, n, d, f, 0, i, c');
      Others(i, n, d, f, i + 1, |sources|, c);
    }
  }

  // ----- how often a message is shown -----

  lemma {:induction false} OccursSelected(ss: seq<seq<Msg>>, ch: set<string>, m: Msg)
    ensures Occurs(Selected(ss, ch), m) == if ch == {} || m.channel in ch then Occurs(ss, m) else 0
  {
    if ss != [] {
      var n := |ss| - 1;
      OccursSelected(ss[..n], ch, m);
      assert Selected(ss, ch)[..n] == Selected(ss[..n], ch);
      SelectCounts(ss[n], ch, m);
    }
  }

  lemma {:induction false} OccursRanges(ss: seq<seq<Msg>>, from: nat, to: nat, ch: set<string>, m: Msg)
    ensures AsAsked(Occurs(Ranges(ss, from, to, ch), m), Occurs(ss, m), m, from, to, ch)
  {
    if ss != [] {
      var n := |ss| - 1;
      OccursRanges(ss[..n], from, to, ch, m);
      assert Ranges(ss, from, to, ch)[..n] == Ranges(ss[..n], from, to, ch);
      InRangeCounts(ss[n], from, to, ch, m);
    }
  }

  lemma {:induction false} OccursPlans(ss: seq<seq<Msg>>, begin: nat, end: nat, m: Msg)
    ensures Occurs(Plans(ss, begin, end), m) <= if begin <= m.time <= end then Occurs(ss, m) else 0
  {
    if ss != [] {
      var n := |ss| - 1;
      OccursPlans(ss[..n], begin, end, m);
      assert Plans(ss, begin, end)[..n] == Plans(ss[..n], begin, end);
      SweepCounts(ss[n], begin, end, m);
      SweepBounded(ss[n], begin, end);
    }
  }

  /** A message shown is one asked for, and is not shown more often than the files have it. */
  ghost predicate ShownAsAsked(out: seq<Msg>, sources: seq<seq<Msg>>, from: nat, to: nat, ch: set<string>, m: Msg) {
    m in out ==>
      from <= m.time <= to && (ch == {} || m.channel in ch) && multiset(out)[m] <= Occurs(sources, m)
  }

  lemma ShownCounts(out: seq<Msg>, sources: seq<seq<Msg>>, begin: nat, end: nat, from: nat, to: nat, ch: set<string>)
    requires StableMerge(out, Selected(Plans(sources, begin, end), ch)) && from <= begin && end <= to
    ensures forall m :: ShownAsAsked(out, sources, from, to, ch, m)
  {
    forall m ensures ShownAsAsked(out, sources, from, to, ch, m) {
      MergeCounts(out, Selected(Plans(sources, begin, end), ch), m);
      OccursSelected(Plans(sources, begin, end), ch, m);
      OccursPlans(sources, begin, end, m);
    }
  }

  /** A complete view shows every message as often as all files together have it. */
  lemma RangesCounts(out: seq<Msg>, sources: seq<seq<Msg>>, from: nat, to: nat, ch: set<string>)
    ensures StableMerge(out, Ranges(sources, from, to, ch)) ==>
              forall m :: AsAsked(multiset(out)[m], Occurs(sources, m), m, from, to, ch)
  {
    forall m | StableMerge(out, Ranges(sources, from, to, ch))
      ensures AsAsked(multiset(out)[m], Occurs(sources, m), m, from, to, ch)
    {
      MergeCounts(out, Ranges(sources, from, to, ch), m);
      OccursRanges(sources, from, to, ch, m);
    }
  }

  ghost predicate OfOthers(m: Msg, channels: set<string>) {
    channels != {} && m.channel !in channels
  }

  /** What Update takes: messages of channels that were not asked for, and then, if it finds
      one, a message of a channel that was. */
  ghost predicate Passes(taken: seq<Msg>, channels: set<string>, find: bool, message: Msg) {
    && (find ==> taken != [] && message == taken[|taken| - 1] && (channels == {} || message.channel in channels))
    && forall k | 0 <= k < |taken| - (if find then 1 else 0) :: OfOthers(taken[k], channels)
  }

  lemma PassesMore(taken: seq<Msg>, m: Msg, channels: set<string>, find: bool, message: Msg)
    requires Passes(taken, channels, false, m) && find == (channels == {} || m.channel in channels)
    requires find ==> message == m
    ensures Passes(taken + [m], channels, find, message)
  {}

  class RecordViewer {
    const readers: seq<RecordReader>
    const channels: set<string>
    const begin: nat
    const end: nat
    ghost const from: nat  // the range asked for
    ghost const to: nat
    ghost const order: seq<nat>  // how Init has sorted the readers given
    var finished: seq<bool>
    var curr: nat
    var buffer: seq<Msg>
    ghost var taken: seq<Msg>  // what has been removed from the buffer since Reset
    ghost var track: Track

    ghost predicate ReadersOk() {
      && (forall i, j | 0 <= i < j < |readers| :: readers[i] != readers[j])
      && forall i | 0 <= i < |readers| :: readers[i].FileOk() && readers[i].BoundsOk()
    }

    ghost function Sources(): seq<seq<Msg>> {
      seq(|readers|, i requires 0 <= i < |readers| => readers[i].source)
    }

    /** The clamped range leaves out nothing that was asked for. */
    ghost predicate RangeOk() {
      && from <= begin && end <= to
      && forall i | 0 <= i < |readers| :: SameRange(readers[i].source, begin, end, from, to)
    }

    ghost predicate Shape()
      reads this`finished, this`track
    {
      && track.Ok() && track.finished == finished && track.begin == begin && track.end == end
      && |track.sources| == |readers| && forall i | 0 <= i < |readers| :: track.sources[i] == readers[i].source
    }

    ghost predicate Synced()
      requires Shape()
      reads this`finished, this`track, readers
    {
      forall i | 0 <= i < |readers| :: readers[i].Valid() && readers[i].next == track.nexts[i]
    }

    ghost predicate BufferOk(c: nat, c': nat)
      requires Shape()
      reads this`finished, this`track, this`buffer, this`taken
    {
      Merged(taken, buffer, track.done) && AllBelow(taken, c) && AllBelow(buffer, c')
    }

    /** All windows before time c have been read, and no others. */
    ghost predicate ValidAt(c: nat)
      reads this`finished, this`track, this`buffer, this`taken, readers
    {
      Shape() && Synced() && track.ReadersAt(0, |readers|, c) && BufferOk(c, c)
    }

    /** Between windows. */
    ghost predicate Valid()
      reads this, readers
    {
      ValidAt(curr)
    }

    constructor (given: seq<RecordReader>, from: nat, to: nat, channels: set<string>)
      requires forall i, j | 0 <= i < j < |given| :: given[i] != given[j]
      requires forall i | 0 <= i < |given| :: given[i].FileOk() && given[i].BoundsOk()
      ensures ReadersOk() && RangeOk()
      ensures IsOrder(order, |given|) && Below(order, |given|) && readers == Pick(given, order) && HeaderSorted(readers)
      ensures this.channels == channels && this.from == from && this.to == to
    {
      var sorted; ghost var o;
      sorted, o := SortReaders(given);
      OrderFacts(o, |given|);
      var b, e := UpdateTime(sorted, from, to);
      readers, order, this.channels, this.from, this.to, begin, end := sorted, o, channels, from, to, b, e;
      finished, curr, buffer := seq(|sorted|, _ => false), b, [];
      forall i | 0 <= i < |sorted| ensures SameRange(sorted[i].source, b, e, from, to) {
        assert sorted[i] in sorted && sorted[i].BoundsOk();
      }
    }

    method ResetReaders()
      requires ReadersOk()
      modifies readers
      ensures forall i | 0 <= i < |readers| :: readers[i].Valid() && readers[i].next == 0
    {
      for i := 0 to |readers|
        invariant forall j | 0 <= j < i :: readers[j].Valid() && readers[j].next == 0
      {
        readers[i].Reset();
      }
    }

    /** Back to the beginning. */
    method Reset()
      requires ReadersOk()
      modifies this`buffer, this`taken, this`track, this`finished, this`curr, readers
      ensures Valid() && Shown() == [] && buffer == [] && curr == begin
    {
      ResetReaders();
      finished := seq(|readers|, _ => false);
      curr, buffer, taken := begin, [], [];
      track := Track(Sources(), begin, end, seq(|readers|, _ => 0), seq(|readers|, _ => []), finished);
      track.AtStart();
    }

    /** Reader i finishes when its file ends before the window. */
    method Finish(i: nat, lo: nat)
      requires ReadersOk() && i < |readers| && Shape() && Synced() && track.ReaderAt(i, lo)
      modifies this`finished, this`track, readers[i]
      ensures Shape() && Synced() && track.ReaderAt(i, lo)
      ensures track == old(track).Set(i, track.nexts[i], old(track).done[i], track.finished[i])
    {
      var r := readers[i];
      if !finished[i] && r.end < lo {
        track.Finished(i, 0, lo, r.begin, r.end);
        r.Reset();
        finished := finished[i := true];
        track := track.Set(i, 0, track.done[i], true);
      } else {
        assert track == track.Set(i, track.nexts[i], track.done[i], track.finished[i]);
      }
    }

    /** The first loop of FillBuffer. */
    method FinishReaders(lo: nat)
      requires ReadersOk() && ValidAt(lo)
      modifies this`finished, this`track, readers
      ensures ValidAt(lo)
    {
      for i := 0 to |readers|
        invariant Shape() && Synced() && track.done == old(track.done)
        invariant track.ReadersAt(0, i, lo) && track.ReadersAt(i, |readers|, lo)
      {
        ghost var t := track;
        assert t.ReaderAt(i, lo);
        Finish(i, lo);
        t.Moved(i, track.nexts[i], track.done[i], track.finished[i], lo, lo);
      }
    }

    /** Reader i delivers its messages of the window. */
    method Deliver(i: nat, lo: nat, hi: nat)
      requires ReadersOk() && i < |readers| && Shape() && Synced() && lo <= end && hi == WindowEnd(lo, end)
      requires track.ReadersAt(i, |readers|, lo) && BufferOk(lo, hi + 1)
      modifies this`buffer, this`track, readers[i]
      ensures Shape() && Synced() && track.ReaderAt(i, hi + 1) && BufferOk(lo, hi + 1)
      ensures track == old(track).Set(i, track.nexts[i], track.done[i], track.finished[i])
    {
      assert forall j | i <= j < |readers| :: track.ReaderAt(j, lo) && AllBelow(track.done[j], lo);
      if !finished[i] {
        var r := readers[i];
        ghost var d;
        buffer, d := ReadReader(r, lo, hi, buffer, Pass(i, r.source, track.Plan(i), lo, end, taken, track.done));
        track := track.Set(i, r.next, d, false);
      } else {
        assert track == track.Set(i, track.nexts[i], track.done[i], track.finished[i]);
      }
    }

    /** The window is done. */
    lemma WindowDone(lo: nat, hi: nat)
      requires Shape() && Synced() && track.ReadersAt(0, |readers|, hi + 1) && BufferOk(lo, hi + 1) && lo <= hi + 1
      ensures ValidAt(hi + 1)
    {}

    /** The second loop of FillBuffer, and on to the next window: the interval of ReadMessage
        is closed. */
    method ReadWindow(lo: nat, hi: nat)
      requires ReadersOk() && ValidAt(lo) && lo <= end && hi == WindowEnd(lo, end)
      modifies this`buffer, this`track, readers
      ensures ValidAt(hi + 1)
    {
      for i := 0 to |readers|
        invariant Shape() && Synced() && BufferOk(lo, hi + 1)
        invariant track.ReadersAt(0, i, hi + 1) && track.ReadersAt(i, |readers|, lo)
      {
        ghost var t := track;
        Deliver(i, lo, hi);
        t.Moved(i, track.nexts[i], track.done[i], track.finished[i], lo, hi + 1);
      }
      WindowDone(lo, hi);
    }

    /** One round of FillBuffer. */
    method FillWindow()
      requires ReadersOk() && Valid() && curr <= end
      modifies this`buffer, this`track, this`finished, this`curr, readers
      ensures Valid() && curr > old(curr)
    {
      var lo := curr;
      var hi := if lo + STEP_NS > end then end else lo + STEP_NS;
      FinishReaders(lo);
      ReadWindow(lo, hi);
      StartAt(hi + 1);
    }

    /** The next window starts at c. */
    method StartAt(c: nat)
      requires ValidAt(c)
      modifies this`curr
      ensures Valid() && curr == c
    {
      curr := c;
    }

    /** Reads windows until the buffer holds enough or the range is exhausted. */
    method FillBuffer() returns (ok: bool)
      requires ReadersOk() && Valid()
      modifies this`buffer, this`track, this`finished, this`curr, readers
      ensures Valid() && ok == (buffer != []) && curr >= old(curr)
      ensures |buffer| >= BUFFER_MIN_SIZE || curr > end
      ensures if curr == old(curr) then buffer == old(buffer) else old(curr) <= end
    {
      while curr <= end && |buffer| < BUFFER_MIN_SIZE
        invariant Valid() && curr >= old(curr)
        invariant if curr == old(curr) then buffer == old(buffer) else old(curr) <= end
        decreases end + 1 - curr
      {
        FillWindow();
      }
      ok := buffer != [];
    }

    /** The messages handed out since Reset. */
    ghost function Shown(): seq<Msg>
      reads this`taken
    {
      Select(taken, channels)
    }

    /** Removes the first message of the buffer. */
    method Take()
      requires ReadersOk() && Valid() && buffer != []
      modifies this`buffer, this`taken
      ensures Valid() && buffer == old(buffer)[1..] && taken == old(taken) + [old(buffer)[0]]
      ensures var m := old(buffer)[0];
              Shown() == old(Shown()) + if channels == {} || m.channel in channels then [m] else []
    {
      SelectConcat(taken, [buffer[0]], channels);
      assert taken + buffer == (taken + [buffer[0]]) + buffer[1..];
      taken := taken + [buffer[0]];
      buffer := buffer[1..];
    }

    /** Takes messages from the buffer until one is wanted.  It fails only when everything
        has been taken. */
    method Update() returns (find: bool, message: Msg)
      requires ReadersOk() && Valid()
      modifies this`buffer, this`taken, this`track, this`finished, this`curr, readers
      ensures Valid() && Shown() == old(Shown()) + if find then [message] else []
      ensures old(taken) <= taken && Passes(taken[|old(taken)|..], channels, find, message)
      ensures !find ==> buffer == [] && curr > end
      ensures if curr == old(curr) then |buffer| <= |old(buffer)| else old(curr) <= end && old(curr) < curr
      ensures find && curr == old(curr) ==> |buffer| < |old(buffer)|
    {
      find, message := false, Msg(0, "", "");
      while !find
        invariant Valid() && Shown() == old(Shown()) + if find then [message] else []
        invariant old(taken) <= taken && Passes(taken[|old(taken)|..], channels, find, message)
        invariant if curr == old(curr) then |buffer| <= |old(buffer)| else old(curr) <= end && old(curr) < curr
        invariant find && curr == old(curr) ==> |buffer| < |old(buffer)|
        decreases !find, end + 1 - curr, |buffer|
      {
        if buffer == [] {
          var ok := FillBuffer();
          if !ok {
            break;
          }
        }
        if channels == {} || buffer[0].channel in channels {
          message, find := buffer[0], true;
        }
        ghost var was, m := taken, buffer[0];
        Take();
        PassesMore(was[|old(taken)|..], m, channels, find, message);
        assert taken[|old(taken)|..] == was[|old(taken)|..] + [m];
      }
    }
  
    /** begin() followed by ++ until the end. */
    method ShowAll() returns (out: seq<Msg>)
      requires ReadersOk()
      modifies this`buffer, this`taken, this`track, this`finished, this`curr, readers
      ensures Valid() && out == Shown() && buffer == [] && curr > end
    {
      Reset();
      out := [];
      if begin <= end {
        var find, message := Update();
        while find
          invariant Valid() && Shown() == out + if find then [message] else []
          invariant !find ==> buffer == [] && curr > end
          decreases if curr <= end then end + 1 - curr else 0, |buffer|, find
        {
          out := out + [message];
          find, message := Update();
        }
      }
    }

    /** Shows the stable merge, by time, of the wanted messages that the sweep reads from
        each reader.  These are all the wanted messages of the range asked for if and only
        if no file is out of order across windows. */
    method Iterate() returns (out: seq<Msg>)
      requires ReadersOk() && RangeOk()
      modifies this`buffer, this`taken, this`track, this`finished, this`curr, readers
      ensures StableMerge(out, Selected(Plans(Sources(), begin, end), channels))
      ensures StableMerge(out, Ranges(Sources(), from, to, channels)) <==>
              forall i | 0 <= i < |readers| :: WindowOrdered(Sources()[i], begin, end, channels)
      ensures forall m :: ShownAsAsked(out, Sources(), from, to, channels, m)
      ensures (forall i | 0 <= i < |readers| :: WindowOrdered(Sources()[i], begin, end, channels)) ==>
                forall m :: AsAsked(multiset(out)[m], Occurs(Sources(), m), m, from, to, channels)
    {
      out := ShowAll();
      track.AllDelivered(curr);
      assert track.sources == Sources() && taken + buffer == taken;
      MergeSelected(taken, Plans(Sources(), begin, end), channels);
      ShownIff(taken, Sources(), begin, end, from, to, channels);
      ShownCounts(out, Sources(), begin, end, from, to, channels);
      RangesCounts(out, Sources(), from, to, channels);
    }
  }
}
