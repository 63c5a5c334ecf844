/**
 From writing to viewing: what is recorded, split into segments, flushed in chunks by a
 second thread and then viewed window by window through all segments at once, is what was
 written.
 */
module RecordRoundTrip {
  import opened Orders
  import opened RecordStream
  import opened SegmentOrder
  import RecordFile
  import RecordReader
  import RecordViewer
  import RecordWriter

  /** A closed file: its sections and the times in its header. */
  datatype Image = Image(sections: seq<Section>, begin: nat, end: nat)

  /** The file holds these messages, in order, with accurate headers. */
  ghost predicate Holds(f: Image, msgs: seq<Msg>) {
    Accurate(f.sections, 0) && Stream(f.sections, 0) == msgs && f.begin == FirstTime(msgs) && f.end == LastTime(msgs)
  }

  /** Every closed file does, if its messages were written in time order with positive times
      and the flush thread kept up. */
  lemma ClosedFileHolds(run: seq<RecordFile.State>, i: nat)
    requires RecordFile.Run(run) && i < |run| && run[i].writer.Closed? && !run[i].overtaken
    requires RecordFile.AllPositive(run[i].written) && Sorted(run[i].written)
    ensures Holds(Image(run[i].sections, run[i].begin, run[i].end), run[i].written)
  {
    RecordFile.WellRecorded(run, i);
  }

  lemma {:induction false} AtConcat(ss: seq<seq<Msg>>, t: nat)
    ensures At(Concat(ss), t) == AtAll(ss, t)
  {
    if ss != [] {
      AtConcat(ss[..|ss| - 1], t);
      InRangeConcat(Concat(ss[..|ss| - 1]), ss[|ss| - 1], t, t, {});
    }
  }

  /** Merging consecutive segments gives them one after another. */
  lemma MergeOfConsecutive(ss: seq<seq<Msg>>, out: seq<Msg>)
    requires StableMerge(out, ss) && Sorted(Concat(ss))
    ensures out == Concat(ss)
  {
    forall t ensures At(out, t) == At(Concat(ss), t) {
      AtConcat(ss, t);
      assert At(out, t) == AtAll(ss, t);
    }
    StableMergeUnique(out, Concat(ss));
  }

  lemma {:induction false} RangesConcat(ss: seq<seq<Msg>>, from: nat, to: nat, ch: set<string>)
    ensures Concat(RecordViewer.Ranges(ss, from, to, ch)) == InRange(Concat(ss), from, to, ch)
  {
    if ss != [] {
      var n := |ss| - 1;
      RangesConcat(ss[..n], from, to, ch);
      assert RecordViewer.Ranges(ss, from, to, ch)[..n] == RecordViewer.Ranges(ss[..n], from, to, ch);
      InRangeConcat(Concat(ss[..n]), ss[n], from, to, ch);
    }
  }

  lemma {:induction false} InRangeSorted(s: seq<Msg>, from: nat, to: nat, ch: set<string>)
    requires Sorted(s)
    ensures Sorted(InRange(s, from, to, ch)) && forall x :: x in InRange(s, from, to, ch) ==> x in s
  {
    if s != [] {
      InRangeSorted(s[1..], from, to, ch);
      var r := InRange(s[1..], from, to, ch);
      forall i | 0 <= i < |r| ensures s[0].time <= r[i].time {
        assert r[i] in s[1..];
      }
      assert forall x :: x in s <==> x == s[0] || x in s[1..];
    }
  }

  /** What a viewer shows of segments in time order. */
  lemma ShownInOrder(ss: seq<seq<Msg>>, out: seq<Msg>, from: nat, to: nat, ch: set<string>)
    requires InTime(ss) && StableMerge(out, RecordViewer.Ranges(ss, from, to, ch))
    ensures out == InRange(Concat(ss), from, to, ch)
  {
    ConcatSortedIff(ss);
    RangesConcat(ss, from, to, ch);
    InRangeSorted(Concat(ss), from, to, ch);
    MergeOfConsecutive(RecordViewer.Ranges(ss, from, to, ch), out);
  }

  /** The reader is on a file that holds this segment. */
  ghost predicate Reads(r: RecordReader.RecordReader, msgs: seq<Msg>) {
    r.FileOk() && r.BoundsOk() && r.source == msgs && r.begin == FirstTime(msgs) && r.end == LastTime(msgs)
  }

  ghost predicate ReadAll(readers: seq<RecordReader.RecordReader>, ss: seq<seq<Msg>>) {
    |readers| == |ss| && forall i | 0 <= i < |ss| :: Reads(readers[i], ss[i])
  }

  ghost predicate Distinct(readers: seq<RecordReader.RecordReader>) {
    forall i, j | 0 <= i < j < |readers| :: readers[i] != readers[j]
  }

  method OpenFile(f: Image, ghost msgs: seq<Msg>) returns (r: RecordReader.RecordReader)
    requires Holds(f, msgs) && Sorted(msgs)
    ensures fresh(r) && Reads(r, msgs)
  {
    r := new RecordReader.RecordReader(f.sections, true, f.begin, f.end);
  }

  method OpenFiles(files: seq<Image>, ghost ss: seq<seq<Msg>>) returns (readers: seq<RecordReader.RecordReader>)
    requires |files| == |ss| && forall i | 0 <= i < |files| :: Holds(files[i], ss[i]) && Sorted(ss[i])
    ensures ReadAll(readers, ss) && Distinct(readers) && forall i | 0 <= i < |readers| :: fresh(readers[i])
  {
    readers := [];
    for i := 0 to |files|
      invariant ReadAll(readers, ss[..i]) && Distinct(readers) && forall j | 0 <= j < |readers| :: fresh(readers[j])
    {
      var r := OpenFile(files[i], ss[i]);
      readers := readers + [r];
    }
    assert ss[..|files|] == ss;
  }

  lemma ReadersSorted(readers: seq<RecordReader.RecordReader>, ss: seq<seq<Msg>>)
    requires ReadAll(readers, ss) && RecordViewer.HeaderSorted(readers)
    ensures HeaderSorted(ss)
  {
    forall i, j | 0 <= i < j < |ss| ensures NotAfter(ss[i], ss[j]) {
      assert Reads(readers[i], ss[i]) && Reads(readers[j], ss[j]);
      assert RecordViewer.NotAfter(readers[i], readers[j]);
    }
  }

  /** The sort of the readers is a sort of the segments. */
  lemma SortedSegments(readers: seq<RecordReader.RecordReader>, segments: seq<seq<Msg>>, place: seq<nat>, o: seq<nat>)
    requires IsOrder(place, |segments|) && Below(place, |segments|) && ReadAll(readers, Pick(segments, place))
    requires IsOrder(o, |readers|) && Below(o, |readers|) && RecordViewer.HeaderSorted(Pick(readers, o))
    ensures |place| == |readers| && Outcome(Pick(place, o), segments)
    ensures ReadAll(Pick(readers, o), Pick(segments, Pick(place, o)))
  {
    OrderFacts(place, |segments|);
    ComposedOrder(place, o, |segments|);
    var ss := Pick(segments, Pick(place, o));
    forall k | 0 <= k < |ss| ensures Reads(Pick(readers, o)[k], ss[k]) {
      assert Reads(readers[o[k]], Pick(segments, place)[o[k]]);
    }
    ReadersSorted(Pick(readers, o), ss);
  }

  /** Views the files, given in any order, and shows exactly the messages asked for: segment by
      segment in the order in which the sort has put them.  If no two segments with messages
      have the same header times, that is the order written. */
  method ViewFiles(files: seq<Image>, ghost segments: seq<seq<Msg>>, ghost place: seq<nat>,
                   from: nat, to: nat, channels: set<string>)
    returns (out: seq<Msg>, ghost order: seq<nat>)
    requires IsOrder(place, |segments|) && Below(place, |segments|) && |files| == |place|
    requires forall i | 0 <= i < |files| :: Holds(files[i], segments[place[i]])
    requires Sorted(Concat(segments))
    ensures Outcome(order, segments) && out == InRange(Concat(Pick(segments, order)), from, to, channels)
    ensures NoTies(segments) ==> out == InRange(Concat(segments), from, to, channels)
    ensures forall m :: AsAsked(multiset(out)[m], multiset(Concat(segments))[m], m, from, to, channels)
  {
    ConcatSortedIff(segments);
    var readers := OpenFiles(files, Pick(segments, place));
    ghost var ss: seq<seq<Msg>>;
    out, ss, order := ViewReaders(readers, segments, place, from, to, channels);
    OutcomeInTime(order, segments);
    ShownInOrder(ss, out, from, to, channels);
    if NoTies(segments) { OrderRecovered(order, segments); }
    ShownOnce(order, segments, from, to, channels);
  }

  lemma ShownOnce(order: seq<nat>, segments: seq<seq<Msg>>, from: nat, to: nat, ch: set<string>)
    requires IsOrder(order, |segments|) && Below(order, |segments|)
    ensures var out := InRange(Concat(Pick(segments, order)), from, to, ch);
            forall m :: AsAsked(multiset(out)[m], multiset(Concat(segments))[m], m, from, to, ch)
  {
    var out := InRange(Concat(Pick(segments, order)), from, to, ch);
    forall m ensures AsAsked(multiset(out)[m], multiset(Concat(segments))[m], m, from, to, ch) {
      InRangeCounts(Concat(Pick(segments, order)), from, to, ch, m);
      OrderCounts(order, segments, m);
    }
  }

  method ViewReaders(readers: seq<RecordReader.RecordReader>, ghost segments: seq<seq<Msg>>, ghost place: seq<nat>,
                     from: nat, to: nat, channels: set<string>)
    returns (out: seq<Msg>, ghost ss: seq<seq<Msg>>, ghost order: seq<nat>)
    requires IsOrder(place, |segments|) && Below(place, |segments|) && InTime(segments)
    requires ReadAll(readers, Pick(segments, place)) && Distinct(readers)
    modifies readers
    ensures Outcome(order, segments) && ss == Pick(segments, order)
    ensures StableMerge(out, RecordViewer.Ranges(ss, from, to, channels))
  {
    assert forall i | 0 <= i < |readers| :: Reads(readers[i], Pick(segments, place)[i]);
    var viewer := new RecordViewer.RecordViewer(readers, from, to, channels);
    SortedSegments(readers, segments, place, viewer.order);
    order := Pick(place, viewer.order);
    ss := Pick(segments, order);
    assert viewer.Sources() == ss by {
      assert forall i | 0 <= i < |ss| :: Reads(viewer.readers[i], ss[i]);
    }
    assert forall r | r in viewer.readers :: r in readers;
    out := viewer.Iterate();
    OutcomeInTime(order, segments);
    forall i | 0 <= i < |ss| ensures WindowOrdered(ss[i], viewer.begin, viewer.end, channels) {
      InOrderIsWindowOrdered(ss[i], viewer.begin, viewer.end, channels);
    }
  }

  ghost function Messages(closed: seq<RecordWriter.Segment>): seq<seq<Msg>> {
    seq(|closed|, i requires 0 <= i < |closed| => closed[i].msgs)
  }

  /** The messages of all segments, the current one last. */
  ghost function Segments(r: RecordWriter.Record): seq<seq<Msg>> {
    Messages(r.closed) + [r.current.msgs]
  }

  lemma {:induction false} ClosedConcat(closed: seq<RecordWriter.Segment>)
    ensures Concat(Messages(closed)) == RecordWriter.Contents(closed)
  {
    if closed != [] {
      var n := |closed| - 1;
      ClosedConcat(closed[..n]);
      assert Messages(closed)[..n] == Messages(closed[..n]);
    }
  }

  /** However the messages are split, the segments together are what was accepted. */
  lemma SegmentsConcat(lim: RecordWriter.Limits, ops: seq<RecordWriter.Op>)
    ensures Concat(Segments(RecordWriter.Replay(lim, ops))) == RecordWriter.Written(ops)
  {
    var r := RecordWriter.Replay(lim, ops);
    var ss := Segments(r);
    assert ss[..|ss| - 1] == Messages(r.closed) && ss[|ss| - 1] == r.current.msgs;
    ClosedConcat(r.closed);
    RecordWriter.NothingLost(lim, ops);
  }

  /** A finished run of the file writer that has written these messages. */
  ghost predicate Recorded(run: seq<RecordFile.State>, f: Image, msgs: seq<Msg>) {
    && RecordFile.Run(run)
    && var s := run[|run| - 1];
       s.writer.Closed? && !s.overtaken && s.written == msgs && f == Image(s.sections, s.begin, s.end)
  }

  lemma RecordedHolds(run: seq<RecordFile.State>, f: Image, ss: seq<seq<Msg>>, k: nat)
    requires k < |ss| && Recorded(run, f, ss[k]) && Sorted(Concat(ss)) && RecordFile.AllPositive(Concat(ss))
    ensures Holds(f, ss[k])
  {
    ConcatSortedIff(ss);
    forall m | m in ss[k] ensures m.time > 0 {
      ConcatMembers(ss, m);
    }
    assert RecordFile.AllPositive(ss[k]) by {
      assert forall i | 0 <= i < |ss[k]| :: ss[k][i] in ss[k];
    }
    ClosedFileHolds(run, |run| - 1);
  }

  /** Recording with any segmentation limits, each segment by a run of its file writer, and
      viewing the files, in any order and with any range and channels, shows exactly the
      accepted messages in range of those channels, once each: in the order written if no two
      segments with messages have the same header times, and always in time order. */
  method ViewRecord(files: seq<Image>, ghost runs: seq<seq<RecordFile.State>>, ghost place: seq<nat>,
                    ghost lim: RecordWriter.Limits, ghost ops: seq<RecordWriter.Op>,
                    from: nat, to: nat, channels: set<string>)
    returns (out: seq<Msg>, ghost order: seq<nat>)
    requires Sorted(RecordWriter.Written(ops)) && RecordFile.AllPositive(RecordWriter.Written(ops))
    requires var ss := Segments(RecordWriter.Replay(lim, ops));
             && IsOrder(place, |ss|) && |files| == |runs| == |place| && Below(place, |ss|)
             && forall i | 0 <= i < |files| :: Recorded(runs[i], files[i], ss[place[i]])
    ensures var ss := Segments(RecordWriter.Replay(lim, ops));
            Outcome(order, ss) && out == InRange(Concat(Pick(ss, order)), from, to, channels)
    ensures Sorted(out)
    ensures NoTies(Segments(RecordWriter.Replay(lim, ops))) ==>
              out == InRange(RecordWriter.Written(ops), from, to, channels)
    ensures forall m :: AsAsked(multiset(out)[m], multiset(RecordWriter.Written(ops))[m], m, from, to, channels)
  {
    ghost var ss := Segments(RecordWriter.Replay(lim, ops));
    SegmentsConcat(lim, ops);
    forall i | 0 <= i < |files| ensures Holds(files[i], ss[place[i]]) {
      RecordedHolds(runs[i], files[i], ss, place[i]);
    }
    out, order := ViewFiles(files, ss, place, from, to, channels);
    ConcatSortedIff(ss);
    OutcomeInTime(order, ss);
    ConcatSortedIff(Pick(ss, order));
    InRangeSorted(Concat(Pick(ss, order)), from, to, channels);
  }
}
