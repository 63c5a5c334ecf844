/**
 Writing one record file (cyber/record/file/record_file_writer.{h,cc}) as a step system: one
 thread writes messages into the active chunk and swaps it with the flush chunk, a second
 thread writes the flush chunk to the file.  The flush thread holds the flush mutex from the
 moment it finds a chunk until it has cleared it, so a swap waits for that; it does not wait
 for the flush thread to start.  File operations succeed.
 */
module RecordFile {
  import opened Orders
  import opened RecordStream

  /** A chunk with its header times; `order` are the places of its messages among all
      messages written (history). */
  datatype Chunk = Chunk(begin: nat, end: nat, rawSize: nat, msgs: seq<Msg>, order: seq<nat>)

  const EMPTY_CHUNK := Chunk(0, 0, 0, [], [])

  function Add(c: Chunk, m: Msg, n: nat): Chunk {
    var begin := if c.begin == 0 || c.begin > m.time then m.time else c.begin;
    var end := if c.end < m.time then m.time else c.end;
    Chunk(begin, end, c.rawSize + |m.content|, c.msgs + [m], c.order + [n])
  }

  datatype Writer =
    | Ready
    | Added(m: Msg)  // message added, about to decide whether to flush
    | MustSwap
    | Closing        // waiting for the flush chunk to be empty
    | LastSwap
    | LastWait
    | Closed

  datatype Flusher =
    | Waiting
    | Writing        // holds the flush mutex, in_writing_ is set
    | Written        // chunk in the file, about to clear it

  /** `begin` and `end` are the times in the file header.  History: `written` lists all
      messages in the order written, `fileOrder` the places in it of the messages in the
      file, and `overtaken` tells whether some swap found the flush chunk not yet empty. */
  datatype State = State(
    chunkInterval: nat, chunkRawSize: nat,
    sections: seq<Section>, begin: nat, end: nat, active: Chunk, flush: Chunk,
    writer: Writer, flusher: Flusher,
    written: seq<Msg>, fileOrder: seq<nat>, overtaken: bool)

  datatype Action =
    | WriteMessage(m: Msg) | Decide | Swap | WriteChannel
    | Close | CloseCheck | CloseSwap | Finish
    | FlushBegin | FlushWrite | FlushClear

  /** The chunk is to be flushed after m was added to it. */
  predicate NeedFlush(s: State, m: Msg) {
    || (s.chunkInterval > 0 && m.time - s.active.begin > s.chunkInterval)
    || (!s.flusher.Writing? && s.chunkRawSize > 0 && s.active.rawSize > s.chunkRawSize)
  }

  predicate Enabled(s: State, a: Action) {
    match a
    case WriteMessage(_) => s.writer.Ready?
    case Decide => s.writer.Added?
    case Swap => s.writer.MustSwap? && s.flusher.Waiting?
    case WriteChannel => s.writer.Ready?
    case Close => s.writer.Ready?
    case CloseCheck => s.writer.Closing? && s.flusher.Waiting? && s.flush.msgs == []
    case CloseSwap => s.writer.LastSwap? && s.flusher.Waiting?
    case Finish => s.writer.LastWait? && s.flusher.Waiting? && s.flush.msgs == []
    case FlushBegin => s.flusher.Waiting? && s.flush.msgs != [] && !s.writer.Closed?
    case FlushWrite => s.flusher.Writing?
    case FlushClear => s.flusher.Written?
  }

  function AddMessage(s: State, m: Msg): State {
    s.(active := Add(s.active, m, |s.written|), written := s.written + [m], writer := Added(m))
  }

  function SwapChunks(s: State): State {
    s.(active := s.flush, flush := s.active, overtaken := s.overtaken || s.flush.msgs != [])
  }

  /** WriteChunk: header and body together; the file header takes its begin time from the
      first chunk that has one and its end time from the last. */
  function WriteChunk(s: State): State {
    s.(sections := s.sections + [HeaderSection(s.flush.begin, s.flush.end), BodySection(s.flush.msgs)],
       begin := if s.begin == 0 then s.flush.begin else s.begin, end := s.flush.end,
       fileOrder := s.fileOrder + s.flush.order, flusher := Written)
  }

  function Apply(s: State, a: Action): State
    requires Enabled(s, a)
  {
    match a
    case WriteMessage(m) => AddMessage(s, m)
    case Decide => s.(writer := if NeedFlush(s, s.writer.m) then MustSwap else Ready)
    case Swap => SwapChunks(s).(writer := Ready)
    case WriteChannel => s.(sections := s.sections + [ChannelSection])
    case Close => s.(writer := Closing)
    case CloseCheck => s.(writer := LastSwap)
    case CloseSwap => SwapChunks(s).(writer := LastWait)
    case Finish => s.(sections := s.sections + [IndexSection], writer := Closed)
    case FlushBegin => s.(flusher := Writing)
    case FlushWrite => WriteChunk(s)
    case FlushClear => s.(flush := EMPTY_CHUNK, flusher := Waiting)
  }

  ghost predicate Init(s: State) {
    && s.sections == [] && s.begin == 0 && s.end == 0
    && s.active == EMPTY_CHUNK && s.flush == EMPTY_CHUNK && s.writer == Ready && s.flusher == Waiting
    && s.written == [] && s.fileOrder == [] && !s.overtaken
  }

  ghost predicate Step(s: State, s': State) {
    exists a :: Enabled(s, a) && s' == Apply(s, a)
  }

  ghost predicate StepAt(run: seq<State>, i: nat) {
    i + 1 < |run| && Step(run[i], run[i + 1])
  }

  ghost predicate Run(run: seq<State>) {
    run != [] && Init(run[0]) && forall i | 0 <= i < |run| - 1 :: StepAt(run, i)
  }

  // ----- appending to a file -----

  ghost predicate NoIndex(f: seq<Section>) {
    forall i | 0 <= i < |f| :: !f[i].IndexSection?
  }

  lemma {:induction false} StreamShift(f: seq<Section>, g: seq<Section>, q: nat)
    ensures Stream(f + g, |f| + q) == Stream(g, q)
    decreases |g| - q
  {
    if q < |g| {
      assert (f + g)[|f| + q] == g[q];
      StreamShift(f, g, q + 1);
    }
  }

  /** The messages of a file that was extended. */
  lemma {:induction false} StreamAppend(f: seq<Section>, g: seq<Section>, p: nat)
    requires NoIndex(f) && p <= |f|
    ensures Stream(f + g, p) == Stream(f, p) + Stream(g, 0)
    decreases |f| - p
  {
    if p == |f| {
      StreamShift(f, g, 0);
    } else {
      assert (f + g)[p] == f[p];
      StreamAppend(f, g, p + 1);
      if f[p].BodySection? { Assoc(f[p].msgs, Stream(f, p + 1), Stream(g, 0)); }
    }
  }

  lemma {:induction false} AccurateShift(f: seq<Section>, g: seq<Section>, q: nat)
    requires Accurate(g, q)
    ensures Accurate(f + g, |f| + q)
    decreases |g| - q
  {
    if q < |g| && !g[q].IndexSection? {
      assert (f + g)[|f| + q] == g[q];
      assert g[q].HeaderSection? ==> (f + g)[|f| + q + 1] == g[q + 1];
      AccurateShift(f, g, q + 1);
    }
  }

  lemma {:induction false} AccurateAppend(f: seq<Section>, g: seq<Section>, p: nat)
    requires NoIndex(f) && p <= |f| && Accurate(f, p) && Accurate(g, 0)
    ensures Accurate(f + g, p)
    decreases |f| - p
  {
    if p == |f| {
      AccurateShift(f, g, 0);
    } else {
      assert (f + g)[p] == f[p];
      assert f[p].HeaderSection? ==> (f + g)[p + 1] == f[p + 1];
      AccurateAppend(f, g, p + 1);
    }
  }

  lemma ChunkStream(b: nat, e: nat, msgs: seq<Msg>)
    ensures Stream([HeaderSection(b, e), BodySection(msgs)], 0) == msgs
    ensures msgs != [] && Bounded(msgs, b, e) ==> Accurate([HeaderSection(b, e), BodySection(msgs)], 0)
  {
    var g := [HeaderSection(b, e), BodySection(msgs)];
    assert Stream(g, 2) == [] && Stream(g, 1) == msgs + [] == msgs;
    assert Accurate(g, 2) && Accurate(g, 1);
  }

  // ----- the invariant -----

  function EndTime(msgs: seq<Msg>): nat {
    if msgs == [] then 0
    else
      var e, t := EndTime(msgs[..|msgs| - 1]), msgs[|msgs| - 1].time;
      if e < t then t else e
  }

  lemma {:induction false} EndTimeBounds(msgs: seq<Msg>, i: nat)
    requires i < |msgs|
    ensures msgs[i].time <= EndTime(msgs)
  {
    if i < |msgs| - 1 { EndTimeBounds(msgs[..|msgs| - 1], i); }
  }

  ghost predicate AllPositive(msgs: seq<Msg>) {
    forall i | 0 <= i < |msgs| :: msgs[i].time > 0
  }

  /** These are the messages at those places. */
  ghost predicate Picks(msgs: seq<Msg>, order: seq<nat>, written: seq<Msg>) {
    |msgs| == |order| && forall i | 0 <= i < |order| :: order[i] < |written| && msgs[i] == written[order[i]]
  }

  ghost predicate ChunkOk(c: Chunk, written: seq<Msg>) {
    c.begin == BeginTime(c.msgs) && c.end == EndTime(c.msgs) && Picks(c.msgs, c.order, written)
  }

  /** The flush chunk, as long as it is not in the file. */
  ghost function Pending(s: State): seq<nat> {
    if s.flusher.Written? then [] else s.flush.order
  }

  /** All messages written, in the order in which the file will have them. */
  ghost function Order(s: State): seq<nat> {
    (s.fileOrder + Pending(s)) + s.active.order
  }

  /** Some later message comes before an earlier one. */
  ghost predicate Inverted(q: seq<nat>) {
    exists i, j :: 0 <= i < j < |q| && q[i] > q[j]
  }

  /** Nothing is lost or duplicated, and the order is kept exactly as long as no swap found
      an unflushed chunk. */
  ghost predicate Ordered(order: seq<nat>, n: nat, overtaken: bool) {
    && IsOrder(order, n)
    && if overtaken then Inverted(order) else order == Range(n)
  }

  ghost predicate OrderOk(s: State) {
    Ordered(Order(s), |s.written|, s.overtaken)
  }

  ghost predicate WriterOk(s: State) {
    && (s.writer.Added? || s.writer.MustSwap? ==>
          s.written != [] && s.active.order != [] && s.active.order[|s.active.order| - 1] == |s.written| - 1)
    && (s.writer.LastSwap? ==> s.flush.msgs == [])
    && (s.writer.LastWait? ==> s.active.msgs == [])
    && (s.writer.Closed? ==> s.active.msgs == [] && s.flush.msgs == [] && s.flusher.Waiting?)
    && (!s.flusher.Waiting? ==> s.flush.msgs != [])
  }

  ghost predicate FileOk(s: State) {
    && (!s.writer.Closed? ==> NoIndex(s.sections))
    && Picks(Stream(s.sections, 0), s.fileOrder, s.written)
    && (AllPositive(s.written) ==> Accurate(s.sections, 0))
  }

  ghost predicate Inv(s: State) {
    && ChunkOk(s.active, s.written) && ChunkOk(s.flush, s.written)
    && OrderOk(s) && WriterOk(s) && FileOk(s)
  }

  // ----- every step keeps it -----

  lemma InvertedMore(q: seq<nat>, r: seq<nat>)
    requires Inverted(q) && |q| <= |r| && r[..|q|] == q
    ensures Inverted(r)
  {
    var i, j :| 0 <= i < j < |q| && q[i] > q[j];
    assert r[i] == r[..|q|][i] && r[j] == r[..|q|][j];
  }

  lemma OrderedMore(order: seq<nat>, n: nat, overtaken: bool)
    requires Ordered(order, n, overtaken)
    ensures Ordered(order + [n], n + 1, overtaken)
  {
    assert Range(n + 1) == Range(n) + [n];
    if overtaken { InvertedMore(order, order + [n]); }
  }

  lemma AssocPlaces(f: seq<nat>, a: seq<nat>, n: nat)
    ensures f + (a + [n]) == (f + a) + [n]
  {}

  lemma AddChunkOk(c: Chunk, m: Msg, written: seq<Msg>)
    requires ChunkOk(c, written)
    ensures ChunkOk(Add(c, m, |written|), written + [m])
  {
    assert (c.msgs + [m])[..|c.msgs|] == c.msgs;
  }

  lemma PicksMore(msgs: seq<Msg>, order: seq<nat>, written: seq<Msg>, m: Msg)
    requires Picks(msgs, order, written)
    ensures Picks(msgs, order, written + [m])
  {}

  lemma AddedOrder(s: State, m: Msg)
    ensures Order(AddMessage(s, m)) == Order(s) + [|s.written|]
  {
    AssocPlaces(s.fileOrder + Pending(s), s.active.order, |s.written|);
  }

  lemma WriteMessageOrder(s: State, m: Msg)
    requires OrderOk(s)
    ensures OrderOk(AddMessage(s, m))
  {
    AddedOrder(s, m);
    OrderedMore(Order(s), |s.written|, s.overtaken);
  }

  lemma WriteMessageFile(s: State, m: Msg)
    requires FileOk(s) && s.writer.Ready?
    ensures FileOk(AddMessage(s, m))
  {
    var s' := AddMessage(s, m);
    PicksMore(Stream(s.sections, 0), s.fileOrder, s.written, m);
    assert AllPositive(s'.written) ==> AllPositive(s.written) by {
      assert forall i | 0 <= i < |s.written| :: s.written[i] == s'.written[i];
    }
  }

  lemma WriteMessageInv(s: State, m: Msg)
    requires Inv(s) && s.writer.Ready?
    ensures Inv(AddMessage(s, m))
  {
    AddChunkOk(s.active, m, s.written);
    PicksMore(s.flush.msgs, s.flush.order, s.written, m);
    WriteMessageFile(s, m);
    WriteMessageOrder(s, m);
  }

  /** An overtaking swap puts the newest message before an older one. */
  lemma SwapOrder(f: seq<nat>, p: seq<nat>, a: seq<nat>, n: nat)
    requires n > 0 && a != [] && p != [] && a[|a| - 1] == n - 1 && multiset((f + p) + a) == multiset(Range(n))
    ensures multiset((f + a) + p) == multiset(Range(n)) && Inverted((f + a) + p)
  {
    var q := (f + a) + p;
    assert multiset(q) == multiset((f + p) + a) == multiset(f) + multiset(p) + multiset(a);
    var i, j := |f| + |a| - 1, |f| + |a|;
    assert q[i] == a[|a| - 1] && q[j] == p[0];
    RangeOnce(n, n - 1);
    assert a[|a| - 1] in multiset(a) && p[0] in multiset(p);
    assert p[0] in multiset(Range(n)) && p[0] in Range(n);
  }

  lemma SwapOrderOk(s: State)
    requires OrderOk(s) && s.flusher.Waiting? && |s.flush.msgs| == |s.flush.order|
    requires s.flush.msgs != [] ==>
               s.written != [] && s.active.order != [] && s.active.order[|s.active.order| - 1] == |s.written| - 1
    ensures OrderOk(SwapChunks(s))
  {
    if s.flush.msgs != [] {
      SwapOrder(s.fileOrder, s.flush.order, s.active.order, |s.written|);
    } else {
      assert s.fileOrder + s.flush.order == s.fileOrder;
      assert Order(SwapChunks(s)) == Order(s);
    }
  }

  /** A step that does not touch the chunks, the file or the history. */
  lemma SameOrder(s: State, s': State)
    requires OrderOk(s) && Order(s') == Order(s) && |s'.written| == |s.written| && s'.overtaken == s.overtaken
    ensures OrderOk(s')
  {}

  lemma SwapInv(s: State, a: Action)
    requires Inv(s) && Enabled(s, a) && (a.Swap? || a.CloseSwap?)
    ensures Inv(Apply(s, a))
  {
    var s1, s' := SwapChunks(s), Apply(s, a);
    SwapOrderOk(s);
    assert s' == s1.(writer := s'.writer);
    SameOrder(s1, s');
    assert WriterOk(s');
    assert FileOk(s');
  }

  lemma ChunkBounds(c: Chunk, written: seq<Msg>)
    requires ChunkOk(c, written) && AllPositive(written) && c.msgs != []
    ensures Bounded(c.msgs, c.begin, c.end)
  {
    BeginTimeIsMinIff(c.msgs);
    forall i | 0 <= i < |c.msgs| ensures c.begin <= c.msgs[i].time <= c.end {
      EndTimeBounds(c.msgs, i);
    }
  }

  lemma FlushWriteStream(f: seq<Section>, order: seq<nat>, c: Chunk, written: seq<Msg>)
    requires NoIndex(f) && Picks(Stream(f, 0), order, written) && ChunkOk(c, written)
    ensures Picks(Stream(f + [HeaderSection(c.begin, c.end), BodySection(c.msgs)], 0), order + c.order, written)
  {
    StreamAppend(f, [HeaderSection(c.begin, c.end), BodySection(c.msgs)], 0);
    ChunkStream(c.begin, c.end, c.msgs);
    PicksBoth(Stream(f, 0), order, c.msgs, c.order, written);
  }

  lemma FlushWriteAccurate(f: seq<Section>, c: Chunk, written: seq<Msg>)
    requires NoIndex(f) && Accurate(f, 0) && ChunkOk(c, written) && c.msgs != [] && AllPositive(written)
    ensures Accurate(f + [HeaderSection(c.begin, c.end), BodySection(c.msgs)], 0)
  {
    ChunkBounds(c, written);
    ChunkStream(c.begin, c.end, c.msgs);
    AccurateAppend(f, [HeaderSection(c.begin, c.end), BodySection(c.msgs)], 0);
  }

  lemma FlushWriteFile(s: State)
    requires FileOk(s) && ChunkOk(s.flush, s.written) && s.flush.msgs != [] && !s.writer.Closed?
    ensures FileOk(WriteChunk(s))
  {
    FlushWriteStream(s.sections, s.fileOrder, s.flush, s.written);
    if AllPositive(s.written) { FlushWriteAccurate(s.sections, s.flush, s.written); }
  }

  lemma PicksBoth(a: seq<Msg>, x: seq<nat>, b: seq<Msg>, y: seq<nat>, written: seq<Msg>)
    requires Picks(a, x, written) && Picks(b, y, written)
    ensures Picks(a + b, x + y, written)
  {}

  lemma FlushWriteInv(s: State)
    requires Inv(s) && s.flusher.Writing?
    ensures Inv(WriteChunk(s))
  {
    var s' := WriteChunk(s);
    FlushWriteFile(s);
    assert (s.fileOrder + s.flush.order) + [] == s.fileOrder + s.flush.order;
    SameOrder(s, s');
  }

  lemma FlushClearInv(s: State)
    requires Inv(s) && s.flusher.Written?
    ensures Inv(Apply(s, FlushClear))
  {
    SameOrder(s, Apply(s, FlushClear));
  }

  lemma AppendFile(s: State, g: seq<Section>)
    requires FileOk(s) && !s.writer.Closed? && (g == [IndexSection] || g == [ChannelSection])
    ensures Picks(Stream(s.sections + g, 0), s.fileOrder, s.written)
    ensures AllPositive(s.written) ==> Accurate(s.sections + g, 0)
  {
    assert Accurate(g, 1) && Stream(g, 1) == [];
    assert Accurate(g, 0) && Stream(g, 0) == [];
    StreamAppend(s.sections, g, 0);
    if AllPositive(s.written) { AccurateAppend(s.sections, g, 0); }
  }

  lemma AppendInv(s: State, a: Action)
    requires Inv(s) && Enabled(s, a) && (a.WriteChannel? || a.Finish?)
    ensures Inv(Apply(s, a))
  {
    AppendFile(s, if a.Finish? then [IndexSection] else [ChannelSection]);
    SameOrder(s, Apply(s, a));
  }

  /** Only the place of one of the threads changes. */
  lemma PlaceInv(s: State, s': State)
    requires Inv(s) && s' == s.(writer := s'.writer, flusher := s'.flusher)
    requires WriterOk(s') && (s'.writer.Closed? <==> s.writer.Closed?) && (s'.flusher.Written? <==> s.flusher.Written?)
    ensures Inv(s')
  {
    SameOrder(s, s');
  }

  lemma PlaceStep(s: State, a: Action)
    requires Inv(s) && Enabled(s, a) && (a.Decide? || a.Close? || a.CloseCheck? || a.FlushBegin?)
    ensures Inv(Apply(s, a))
  {
    assert WriterOk(Apply(s, a));
    PlaceInv(s, Apply(s, a));
  }

  lemma StepInv(s: State, s': State)
    requires Inv(s) && Step(s, s')
    ensures Inv(s')
  {
    var a :| Enabled(s, a) && s' == Apply(s, a);
    match a {
      case WriteMessage(m) => WriteMessageInv(s, m);
      case Swap => SwapInv(s, a);
      case CloseSwap => SwapInv(s, a);
      case FlushWrite => FlushWriteInv(s);
      case FlushClear => FlushClearInv(s);
      case WriteChannel => AppendInv(s, a);
      case Finish => AppendInv(s, a);
      case _ => PlaceStep(s, a);
    }
  }

  lemma StepKeeps(s: State, s': State)
    ensures Inv(s) && Step(s, s') ==> Inv(s')
  {
    if Inv(s) && Step(s, s') { StepInv(s, s'); }
  }

  lemma {:induction false} RunInv(run: seq<State>, i: nat)
    requires Run(run) && i < |run|
    ensures Inv(run[i])
  {
    if i > 0 {
      RunInv(run, i - 1);
      assert StepAt(run, i - 1);
      StepKeeps(run[i - 1], run[i]);
    }
  }

  // ----- main results -----

  /** A closed file holds every message written exactly once, whatever the two threads did:
      `fileOrder` is a permutation and the k-th message of the file is the one at its k-th
      place.  They are in the order written if and only if no swap found an unflushed chunk. */
  lemma ClosedFileHoldsAll(run: seq<State>, i: nat)
    requires Run(run) && i < |run| && run[i].writer.Closed?
    ensures var s := run[i];
            && IsOrder(s.fileOrder, |s.written|)
            && Picks(Stream(s.sections, 0), s.fileOrder, s.written)
            && (s.fileOrder == Range(|s.written|) <==> !s.overtaken)
            && (!s.overtaken ==> Stream(s.sections, 0) == s.written)
  {
    RunInv(run, i);
    var s := run[i];
    assert s.flush.order == [] && s.active.order == [];
    assert Order(s) == s.fileOrder;
    if !s.overtaken { InOrderPicks(Stream(s.sections, 0), s.fileOrder, s.written); }
  }

  lemma InOrderPicks(msgs: seq<Msg>, order: seq<nat>, written: seq<Msg>)
    requires Picks(msgs, order, written) && order == Range(|written|)
    ensures msgs == written
  {}

  /** With positive times every chunk header is followed by its body and bounds its times. */
  lemma ClosedFileAccurate(run: seq<State>, i: nat)
    requires Run(run) && i < |run| && AllPositive(run[i].written)
    ensures Accurate(run[i].sections, 0)
  {
    RunInv(run, i);
  }

  /** A chunk header bounds the times of its chunk if and only if no message has time 0 or
      the last one has. */
  lemma ChunkAccurateIff(msgs: seq<Msg>)
    requires msgs != []
    ensures Bounded(msgs, BeginTime(msgs), EndTime(msgs)) <==> AllPositive(msgs) || msgs[|msgs| - 1].time == 0
  {
    BeginTimeIsMinIff(msgs);
    BeginTimeTaken(msgs);
    forall i | 0 <= i < |msgs| ensures msgs[i].time <= EndTime(msgs) {
      EndTimeBounds(msgs, i);
    }
  }

  lemma {:induction false} BeginTimeTaken(msgs: seq<Msg>)
    requires msgs != []
    ensures exists i :: 0 <= i < |msgs| && msgs[i].time == BeginTime(msgs)
  {
    var n := |msgs| - 1;
    if n > 0 && BeginTime(msgs) != msgs[n].time {
      BeginTimeTaken(msgs[..n]);
      var i :| 0 <= i < n && msgs[..n][i].time == BeginTime(msgs[..n]);
      assert msgs[i].time == BeginTime(msgs);
    } else {
      assert msgs[n].time == BeginTime(msgs);
    }
  }

  // ----- the times in the file header -----

  /** The begin time of the first chunk that has one. */
  function FirstBegin(f: seq<Section>): nat {
    if f == [] then 0
    else
      var b := FirstBegin(f[..|f| - 1]);
      if b == 0 && f[|f| - 1].HeaderSection? then f[|f| - 1].begin else b
  }

  /** The end time of the last chunk. */
  function LastEnd(f: seq<Section>): nat {
    if f == [] then 0
    else if f[|f| - 1].HeaderSection? then f[|f| - 1].end
    else LastEnd(f[..|f| - 1])
  }

  lemma HeaderAppend(f: seq<Section>, x: Section)
    ensures FirstBegin(f + [x]) == if FirstBegin(f) == 0 && x.HeaderSection? then x.begin else FirstBegin(f)
    ensures LastEnd(f + [x]) == if x.HeaderSection? then x.end else LastEnd(f)
  {
    assert (f + [x])[..|f|] == f;
  }

  /** The file header has the begin time of the first chunk and the end time of the last, in
      every run. */
  lemma {:induction false} HeaderIsFirstAndLast(run: seq<State>, i: nat)
    requires Run(run) && i < |run|
    ensures run[i].begin == FirstBegin(run[i].sections) && run[i].end == LastEnd(run[i].sections)
  {
    if i > 0 {
      HeaderIsFirstAndLast(run, i - 1);
      assert StepAt(run, i - 1);
      HeaderStep(run[i - 1], run[i]);
    }
  }

  lemma HeaderStep(s: State, s': State)
    requires Step(s, s') && s.begin == FirstBegin(s.sections) && s.end == LastEnd(s.sections)
    ensures s'.begin == FirstBegin(s'.sections) && s'.end == LastEnd(s'.sections)
  {
    var a :| Enabled(s, a) && s' == Apply(s, a);
    match a {
      case WriteChannel => HeaderAppend(s.sections, ChannelSection);
      case Finish => HeaderAppend(s.sections, IndexSection);
      case FlushWrite =>
        var h, b := HeaderSection(s.flush.begin, s.flush.end), BodySection(s.flush.msgs);
        HeaderAppend(s.sections, h);
        HeaderAppend(s.sections + [h], b);
        assert s'.sections == (s.sections + [h]) + [b];
      case _ =>
    }
  }

  /** The file header covers the first and the last message of the file. */
  ghost predicate HeaderCovers(s: State) {
    var msgs := Stream(s.sections, 0);
    if msgs == [] then s.begin == 0 else 0 < s.begin <= msgs[0].time && msgs[|msgs| - 1].time <= s.end
  }

  lemma {:induction false} CoversFirstAndLast(run: seq<State>, i: nat)
    requires Run(run) && i < |run| && AllPositive(run[i].written)
    ensures HeaderCovers(run[i])
  {
    if i > 0 {
      var s, s' := run[i - 1], run[i];
      assert StepAt(run, i - 1);
      WrittenGrows(s, s');
      CoversFirstAndLast(run, i - 1);
      RunInv(run, i - 1);
      CoversStep(s, s');
    }
  }

  lemma WrittenGrows(s: State, s': State)
    requires Step(s, s')
    ensures s.written <= s'.written && (AllPositive(s'.written) ==> AllPositive(s.written))
  {}

  lemma CoversStep(s: State, s': State)
    requires Step(s, s') && HeaderCovers(s) && AllPositive(s.written)
    requires !s.writer.Closed? ==> NoIndex(s.sections)
    requires ChunkOk(s.flush, s.written) && WriterOk(s)
    ensures HeaderCovers(s')
  {
    var a :| Enabled(s, a) && s' == Apply(s, a);
    match a {
      case WriteChannel => AppendStream(s.sections, ChannelSection);
      case Finish => AppendStream(s.sections, IndexSection);
      case FlushWrite => CoversWrite(s);
      case _ =>
    }
  }

  lemma AppendStream(f: seq<Section>, x: Section)
    requires NoIndex(f) && (x.ChannelSection? || x.IndexSection?)
    ensures Stream(f + [x], 0) == Stream(f, 0)
  {
    StreamAppend(f, [x], 0);
    assert Stream([x], 1) == [] == Stream([x], 0);
  }

  lemma CoversWrite(s: State)
    requires NoIndex(s.sections) && ChunkOk(s.flush, s.written) && s.flush.msgs != []
    requires AllPositive(s.written) && HeaderCovers(s)
    ensures HeaderCovers(WriteChunk(s))
  {
    var c := s.flush;
    var n := |c.msgs| - 1;
    StreamAppend(s.sections, [HeaderSection(c.begin, c.end), BodySection(c.msgs)], 0);
    ChunkStream(c.begin, c.end, c.msgs);
    ChunkBounds(c, s.written);
    assert c.msgs[n] == s.written[c.order[n]];
    BeginTimeAfterZero(c.msgs);
  }

  // ----- when the file header bounds all times -----

  /** Section k is in place: a chunk header comes with its body and has its begin and end
      time, a body comes with its header, and the index is last. */
  ghost predicate InPlace(f: seq<Section>, k: nat)
    requires k < |f|
  {
    match f[k]
    case ChannelSection => true
    case HeaderSection(b, e) =>
      && k + 1 < |f| && f[k + 1].BodySection? && f[k + 1].msgs != []
      && b == BeginTime(f[k + 1].msgs) && e == EndTime(f[k + 1].msgs)
    case BodySection(_) => k > 0 && f[k - 1].HeaderSection?
    case IndexSection => k == |f| - 1
  }

  ghost predicate AllInPlace(f: seq<Section>) {
    forall k | 0 <= k < |f| :: InPlace(f, k)
  }

  lemma AppendInPlace(f: seq<Section>, g: seq<Section>)
    requires NoIndex(f) && AllInPlace(f) && AllInPlace(g)
    ensures AllInPlace(f + g)
  {
    var h := f + g;
    forall k | 0 <= k < |h| ensures InPlace(h, k) {
      if k < |f| { assert InPlace(f, k) && h[k] == f[k]; } else { assert InPlace(g, k - |f|) && h[k] == g[k - |f|]; }
    }
  }

  lemma InPlaceStep(s: State, s': State)
    requires Step(s, s') && AllInPlace(s.sections) && (!s.writer.Closed? ==> NoIndex(s.sections))
    requires ChunkOk(s.flush, s.written) && WriterOk(s)
    ensures AllInPlace(s'.sections)
  {
    var a :| Enabled(s, a) && s' == Apply(s, a);
    match a {
      case WriteChannel => AppendInPlace(s.sections, [ChannelSection]);
      case Finish => AppendInPlace(s.sections, [IndexSection]);
      case FlushWrite =>
        AppendInPlace(s.sections, [HeaderSection(s.flush.begin, s.flush.end), BodySection(s.flush.msgs)]);
      case _ =>
    }
  }

  lemma {:induction false} SectionsInPlace(run: seq<State>, i: nat)
    requires Run(run) && i < |run|
    ensures AllInPlace(run[i].sections)
  {
    if i > 0 {
      SectionsInPlace(run, i - 1);
      RunInv(run, i - 1);
      assert StepAt(run, i - 1);
      InPlaceStep(run[i - 1], run[i]);
    }
  }

  /** The messages of the file are those of its bodies. */
  lemma {:induction false} StreamMembers(f: seq<Section>, p: nat, m: Msg)
    requires AllInPlace(f) && p <= |f|
    ensures m in Stream(f, p) <==> exists k :: p <= k < |f| && f[k].BodySection? && m in f[k].msgs
    decreases |f| - p
  {
    if p < |f| {
      assert InPlace(f, p);
      StreamMembers(f, p + 1, m);
    }
  }

  lemma {:induction false} EndTimeTaken(msgs: seq<Msg>)
    requires msgs != []
    ensures exists i :: 0 <= i < |msgs| && msgs[i].time == EndTime(msgs)
  {
    var n := |msgs| - 1;
    if n > 0 && EndTime(msgs) != msgs[n].time {
      EndTimeTaken(msgs[..n]);
      var i :| 0 <= i < n && msgs[..n][i].time == EndTime(msgs[..n]);
      assert msgs[i].time == EndTime(msgs);
    } else {
      assert msgs[n].time == EndTime(msgs);
    }
  }

  ghost predicate CoversChunks(f: seq<Section>, begin: nat, end: nat) {
    forall k | 0 <= k < |f| && f[k].HeaderSection? :: begin <= f[k].begin && f[k].end <= end
  }

  /** The times of a chunk header are times of messages in the file. */
  lemma ChunkTimesTaken(f: seq<Section>, k: nat, begin: nat, end: nat)
    requires AllInPlace(f) && k < |f| && f[k].HeaderSection? && Bounded(Stream(f, 0), begin, end)
    ensures begin <= f[k].begin && f[k].end <= end
  {
    assert InPlace(f, k);
    var msgs := f[k + 1].msgs;
    BeginTimeTaken(msgs);
    EndTimeTaken(msgs);
    forall m | m in msgs ensures begin <= m.time <= end {
      StreamMembers(f, 0, m);
      assert f[k + 1].BodySection? && m in Stream(f, 0);
    }
  }

  lemma CoveredChunks(f: seq<Section>, begin: nat, end: nat)
    requires AllInPlace(f) && AllPositive(Stream(f, 0)) && CoversChunks(f, begin, end)
    ensures Bounded(Stream(f, 0), begin, end)
  {
    forall i | 0 <= i < |Stream(f, 0)| ensures begin <= Stream(f, 0)[i].time <= end {
      var m := Stream(f, 0)[i];
      StreamMembers(f, 0, m);
      var k :| 0 <= k < |f| && f[k].BodySection? && m in f[k].msgs;
      assert InPlace(f, k) && InPlace(f, k - 1);
      BodyPositive(f, k);
      ChunkAccurateIff(f[k].msgs);
    }
  }

  lemma BodyPositive(f: seq<Section>, k: nat)
    requires AllInPlace(f) && AllPositive(Stream(f, 0)) && k < |f| && f[k].BodySection?
    ensures AllPositive(f[k].msgs)
  {
    forall m | m in f[k].msgs ensures m.time > 0 {
      StreamMembers(f, 0, m);
      assert m in Stream(f, 0);
    }
  }

  /** The file header bounds the times of all messages in the file if and only if no chunk
      begins before the first one does or ends after the last one does. */
  lemma HeaderBoundsIff(run: seq<State>, i: nat)
    requires Run(run) && i < |run| && AllPositive(run[i].written)
    ensures Bounded(Stream(run[i].sections, 0), run[i].begin, run[i].end) <==>
            CoversChunks(run[i].sections, FirstBegin(run[i].sections), LastEnd(run[i].sections))
  {
    var s := run[i];
    HeaderIsFirstAndLast(run, i);
    SectionsInPlace(run, i);
    if Bounded(Stream(s.sections, 0), s.begin, s.end) {
      forall k | 0 <= k < |s.sections| && s.sections[k].HeaderSection?
        ensures s.begin <= s.sections[k].begin && s.sections[k].end <= s.end
      {
        ChunkTimesTaken(s.sections, k, s.begin, s.end);
      }
    }
    if CoversChunks(s.sections, s.begin, s.end) {
      RunInv(run, i);
      CoveredChunks(s.sections, s.begin, s.end);
    }
  }

  lemma {:induction false} FirstBeginFrom(f: seq<Section>) returns (k: nat)
    requires FirstBegin(f) != 0
    ensures k < |f| && f[k].HeaderSection? && f[k].begin == FirstBegin(f)
  {
    var n := |f| - 1;
    if FirstBegin(f[..n]) != 0 { k := FirstBeginFrom(f[..n]); } else { k := n; }
  }

  lemma {:induction false} LastEndFrom(f: seq<Section>) returns (k: nat)
    requires LastEnd(f) != 0
    ensures k < |f| && f[k].HeaderSection? && f[k].end == LastEnd(f)
  {
    var n := |f| - 1;
    if f[n].HeaderSection? { k := n; } else { k := LastEndFrom(f[..n]); }
  }

  /** The times in a file header are times of messages in the file. */
  lemma HeaderTimesTaken(f: seq<Section>, lo: nat, hi: nat)
    requires AllInPlace(f) && Bounded(Stream(f, 0), lo, hi)
    ensures FirstBegin(f) == 0 || lo <= FirstBegin(f)
    ensures LastEnd(f) <= hi || LastEnd(f) == 0
  {
    if FirstBegin(f) != 0 {
      var k := FirstBeginFrom(f);
      ChunkTimesTaken(f, k, lo, hi);
    }
    if LastEnd(f) != 0 {
      var k := LastEndFrom(f);
      ChunkTimesTaken(f, k, lo, hi);
    }
  }

  /** Messages written in time order, with positive times and a flush thread that keeps up,
      make a file that is as readers expect it: the messages in order, accurate chunk headers
      and a file header with the first and the last time. */
  lemma WellRecorded(run: seq<State>, i: nat)
    requires Run(run) && i < |run| && run[i].writer.Closed? && !run[i].overtaken
    requires AllPositive(run[i].written) && Sorted(run[i].written)
    ensures Accurate(run[i].sections, 0) && Stream(run[i].sections, 0) == run[i].written
    ensures run[i].begin == FirstTime(run[i].written) && run[i].end == LastTime(run[i].written)
    ensures Bounded(run[i].written, run[i].begin, run[i].end)
  {
    var s := run[i];
    ClosedFileHoldsAll(run, i);
    ClosedFileAccurate(run, i);
    CoversFirstAndLast(run, i);
    HeaderIsFirstAndLast(run, i);
    SectionsInPlace(run, i);
    if s.written == [] {
      NoTimesWithoutMessages(s.sections);
    } else {
      HeaderTimesTaken(s.sections, s.written[0].time, s.written[|s.written| - 1].time);
    }
  }

  lemma NoTimesWithoutMessages(f: seq<Section>)
    requires AllInPlace(f) && Stream(f, 0) == []
    ensures FirstBegin(f) == 0 && LastEnd(f) == 0
  {
    HeaderTimesTaken(f, 1, 0);
    if FirstBegin(f) != 0 {
      var k := FirstBeginFrom(f);
      ChunkTimesTaken(f, k, FirstBegin(f) + 1, 0);
    }
  }

  // ----- a file out of time order -----

  ghost predicate Does(s: State, a: Action, s': State) {
    Enabled(s, a) && s' == Apply(s, a)
  }

  ghost predicate Path(path: seq<State>) {
    path != [] && forall i | 0 <= i < |path| - 1 :: StepAt(path, i)
  }

  lemma Longer(path: seq<State>, a: Action, s': State) returns (path': seq<State>)
    requires Path(path) && Does(path[|path| - 1], a, s')
    ensures Path(path') && path'[0] == path[0] && path'[|path'| - 1] == s'
  {
    path' := path + [s'];
    forall i | 0 <= i < |path'| - 1 ensures StepAt(path', i) {
      if i < |path| - 1 { assert StepAt(path, i); }
    }
  }

  /** Two messages further apart than the chunk interval fill a chunk, which is swapped. */
  lemma FillAndSwap(p0: seq<State>, m: Msg, m': Msg) returns (path: seq<State>)
    requires Path(p0) && var s := p0[|p0| - 1];
               && s.active == EMPTY_CHUNK && s.writer == Ready && s.flusher == Waiting
               && s.chunkRawSize == 0 && 0 < s.chunkInterval && 0 < m.time && m.time + s.chunkInterval < m'.time
    ensures Path(path) && path[0] == p0[0]
    ensures var s, s' := p0[|p0| - 1], path[|path| - 1];
            && s'.active == s.flush && s'.flush.msgs != [] && s'.flush.order == [|s.written|, |s.written| + 1]
            && s'.flush.begin == m.time && s'.flush.end == m'.time
            && s'.written == s.written + [m, m'] && s'.overtaken == (s.overtaken || s.flush.msgs != [])
            && s' == s.(active := s'.active, flush := s'.flush, written := s'.written, overtaken := s'.overtaken)
  {
    var s1 := AddMessage(p0[|p0| - 1], m);
    path := Longer(p0, WriteMessage(m), s1);
    var s2 := s1.(writer := Ready);
    path := Longer(path, Decide, s2);
    var s3 := AddMessage(s2, m');
    path := Longer(path, WriteMessage(m'), s3);
    path := Longer(path, Decide, s3.(writer := MustSwap));
    path := Longer(path, Swap, SwapChunks(s3).(writer := Ready));
  }

  /** The flush thread writes the waiting chunk. */
  lemma FlushIt(p0: seq<State>) returns (path: seq<State>)
    requires Path(p0) && p0[|p0| - 1].flusher.Waiting? && p0[|p0| - 1].flush.msgs != [] && !p0[|p0| - 1].writer.Closed?
    ensures Path(path) && path[0] == p0[0]
    ensures path[|path| - 1] == WriteChunk(p0[|p0| - 1]).(flush := EMPTY_CHUNK, flusher := Waiting)
  {
    var s := p0[|p0| - 1];
    path := Longer(p0, FlushBegin, s.(flusher := Writing));
    path := Longer(path, FlushWrite, WriteChunk(s));
    path := Longer(path, FlushClear, WriteChunk(s).(flush := EMPTY_CHUNK, flusher := Waiting));
  }

  /** Closing the file with messages in the active chunk only. */
  lemma CloseIt(p0: seq<State>) returns (path: seq<State>)
    requires Path(p0) && var s := p0[|p0| - 1];
               s.active.msgs != [] && s.flush == EMPTY_CHUNK && s.writer == Ready && s.flusher == Waiting
    ensures Path(path) && path[0] == p0[0]
    ensures var s, s' := p0[|p0| - 1], path[|path| - 1];
            && s'.writer == Closed && s'.written == s.written && s'.overtaken == s.overtaken
            && s'.begin == (if s.begin == 0 then s.active.begin else s.begin) && s'.end == s.active.end
            && s'.fileOrder == s.fileOrder + s.active.order
  {
    var s := p0[|p0| - 1];
    path := Longer(p0, Close, s.(writer := Closing));
    path := Longer(path, CloseCheck, s.(writer := LastSwap));
    path := Longer(path, CloseSwap, SwapChunks(s).(writer := LastWait));
    path := FlushIt(path);
    var s' := path[|path| - 1];
    path := Longer(path, Finish, s'.(sections := s'.sections + [IndexSection], writer := Closed));
  }

  // ----- when a chunk is flushed -----

  ghost predicate SizesOk(s: State) {
    && s.active.rawSize == |Joined(s.active.msgs)| && s.flush.rawSize == |Joined(s.flush.msgs)|
    && (s.writer.Added? ==> s.active.msgs != [] && s.active.msgs[|s.active.msgs| - 1] == s.writer.m)
  }

  lemma JoinedMore(msgs: seq<Msg>, m: Msg)
    ensures |Joined(msgs + [m])| == |Joined(msgs)| + |m.content|
  {
    assert (msgs + [m])[..|msgs|] == msgs;
  }

  lemma {:induction false} SizesInRun(run: seq<State>, i: nat)
    requires Run(run) && i < |run|
    ensures SizesOk(run[i])
  {
    if i > 0 {
      SizesInRun(run, i - 1);
      assert StepAt(run, i - 1);
      var a :| Enabled(run[i - 1], a) && run[i] == Apply(run[i - 1], a);
      SizesStep(run[i - 1], a);
    }
  }

  lemma SizesStep(s: State, a: Action)
    requires SizesOk(s) && Enabled(s, a)
    ensures SizesOk(Apply(s, a))
  {
    if a.WriteMessage? { JoinedMore(s.active.msgs, a.m); }
  }

  /** After each message the writer decides to flush the chunk if and only if that message comes
      more than the chunk interval after another one of the chunk, or the contents are longer
      than the limit and no chunk is being written at that moment. */
  lemma FlushDecided(run: seq<State>, i: nat)
    requires Run(run) && i + 1 < |run| && run[i].writer.Added? && run[i + 1].writer != run[i].writer
    ensures run[i + 1].writer.MustSwap? <==>
            || Late(run[i].chunkInterval, run[i].active.msgs)
            || (Large(run[i].chunkRawSize, run[i].active.msgs) && !run[i].flusher.Writing?)
    ensures run[i + 1] == run[i].(writer := run[i + 1].writer)
    ensures run[i + 1].writer.MustSwap? || run[i + 1].writer.Ready?
  {
    ActiveBegin(run, i);
    SizesInRun(run, i);
    NeedFlushIff(run[i]);
    assert StepAt(run, i);
    DecideOnly(run[i], run[i + 1]);
  }

  lemma ActiveBegin(run: seq<State>, i: nat)
    requires Run(run) && i < |run|
    ensures run[i].active.begin == BeginTime(run[i].active.msgs)
  {
    RunInv(run, i);
  }

  lemma NeedFlushIff(s: State)
    requires SizesOk(s) && s.writer.Added? && s.active.begin == BeginTime(s.active.msgs)
    ensures NeedFlush(s, s.writer.m) <==>
            || Late(s.chunkInterval, s.active.msgs)
            || (Large(s.chunkRawSize, s.active.msgs) && !s.flusher.Writing?)
  {
    LateIff(s.chunkInterval, s.active.msgs);
  }

  lemma DecideOnly(s: State, s': State)
    requires Step(s, s') && s.writer.Added? && s'.writer != s.writer
    ensures s' == s.(writer := if NeedFlush(s, s.writer.m) then MustSwap else Ready)
  {}

  // ----- closing -----

  /** What the two threads do next when no more messages come. */
  function NextAction(s: State): Action {
    match s.flusher
    case Writing => FlushWrite
    case Written => FlushClear
    case Waiting =>
      match s.writer
      case Added(_) => Decide
      case MustSwap => Swap
      case Ready => Close
      case Closing => if s.flush.msgs == [] then CloseCheck else FlushBegin
      case LastSwap => CloseSwap
      case LastWait => if s.flush.msgs == [] then Finish else FlushBegin
      case Closed => Finish
  }

  function WriterRank(w: Writer): nat {
    match w
    case Added(_) => 6
    case MustSwap => 5
    case Ready => 4
    case Closing => 3
    case LastSwap => 2
    case LastWait => 1
    case Closed => 0
  }

  /** A bound on the steps left. */
  function Rank(s: State): nat {
    4 * WriterRank(s.writer)
    + match s.flusher
      case Writing => 2
      case Written => 1
      case Waiting => if s.flush.msgs == [] then 0 else 3
  }

  /** From every state on, without further messages the file gets closed. */
  lemma {:induction false} ClosesAlone(s: State) returns (path: seq<State>)
    ensures path != [] && path[0] == s && forall k | 0 <= k < |path| - 1 :: Step(path[k], path[k + 1])
    ensures path[|path| - 1].writer.Closed? && path[|path| - 1].written == s.written
    decreases Rank(s)
  {
    if s.writer.Closed? {
      path := [s];
    } else {
      var s' := Apply(s, NextAction(s));
      assert Step(s, s');
      var rest := ClosesAlone(s');
      path := [s] + rest;
    }
  }

  const NEW_FILE := State(1, 0, [], 0, 0, EMPTY_CHUNK, EMPTY_CHUNK, Ready, Waiting, [], [], false)

  /** A chunk of two messages and then an older message: the file header gets the begin time
      of the first chunk and the end time of the last one, and covers nothing at all. */
  lemma HeaderOfUnorderedFile(m: Msg, m': Msg, older: Msg) returns (run: seq<State>)
    requires 0 < older.time < m.time && m.time + 1 < m'.time
    ensures Run(run)
    ensures var s := run[|run| - 1];
            && s.writer.Closed? && s.written == [m, m', older] && Stream(s.sections, 0) == s.written
            && s.end < s.begin
  {
    run := FillAndSwap([NEW_FILE], m, m');
    run := FlushIt(run);
    var s := run[|run| - 1];
    run := Longer(run, WriteMessage(older), AddMessage(s, older));
    run := Longer(run, Decide, AddMessage(s, older).(writer := Ready));
    run := CloseIt(run);
    assert ([] + [m, m']) + [older] == [m, m', older];
    ClosedFileHoldsAll(run, |run| - 1);
  }

  lemma TwoSwaps(a: Msg, b: Msg, c: Msg, d: Msg) returns (path: seq<State>)
    requires 0 < a.time && a.time + 1 < b.time && 0 < c.time && c.time + 1 < d.time
    ensures Path(path) && path[0] == NEW_FILE
    ensures var s := path[|path| - 1];
            && s.flush.order == [2, 3] && s.flush.msgs != [] && s.active.order == [0, 1] && s.active.msgs != []
            && s.written == [a, b, c, d] && s.fileOrder == [] && s.writer == Ready && s.flusher == Waiting
  {
    path := FillAndSwap([NEW_FILE], a, b);
    path := FillAndSwap(path, c, d);
    assert [] + [a, b] == [a, b] && [a, b] + [c, d] == [a, b, c, d];
  }

  /** Two chunks are swapped before the flush thread starts: the later one is written first. */
  lemma OvertakenFile(a: Msg, b: Msg, c: Msg, d: Msg) returns (run: seq<State>)
    requires 0 < a.time && a.time + 1 < b.time && 0 < c.time && c.time + 1 < d.time
    ensures Run(run)
    ensures var s := run[|run| - 1];
            s.writer.Closed? && s.written == [a, b, c, d] && Stream(s.sections, 0) == [c, d, a, b]
  {
    run := TwoSwaps(a, b, c, d);
    run := FlushIt(run);
    run := CloseIt(run);
    var s := run[|run| - 1];
    assert s.fileOrder == ([] + [2, 3]) + [0, 1] == [2, 3, 0, 1];
    ClosedFileHoldsAll(run, |run| - 1);
    PicksFour(Stream(s.sections, 0), a, b, c, d);
  }

  lemma PicksFour(msgs: seq<Msg>, a: Msg, b: Msg, c: Msg, d: Msg)
    requires Picks(msgs, [2, 3, 0, 1], [a, b, c, d])
    ensures msgs == [c, d, a, b]
  {
    assert msgs[0] == c && msgs[1] == d && msgs[2] == a && msgs[3] == b;
  }
}
