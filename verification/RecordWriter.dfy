/**
 Segmentation of a record (cyber/record/record_writer.cc): messages go to the current file,
 and the message that makes the file too large or too long is the last one of it.  File
 operations succeed; the failure of one message write is modelled.
 */
module RecordWriter {
  import opened RecordStream

  datatype Channel = Channel(messageType: string, protoDesc: string)

  /** One output file: the channels declared in it and its messages. */
  datatype Segment = Segment(channels: map<string, Channel>, msgs: seq<Msg>)

  /** segment_interval and segment_raw_size of the header; 0 means no limit. */
  datatype Limits = Limits(interval: nat, rawSize: nat)

  // ----- specification -----

  function RawSize(msgs: seq<Msg>): nat {
    if msgs == [] then 0 else RawSize(msgs[..|msgs| - 1]) + |msgs[|msgs| - 1].content|
  }

  /** The last message of msgs closes the segment. */
  predicate Closes(lim: Limits, msgs: seq<Msg>) {
    msgs != [] &&
    (|| (lim.interval > 0 && msgs[|msgs| - 1].time - BeginTime(msgs) > lim.interval)
     || (lim.rawSize > 0 && RawSize(msgs) > lim.rawSize))
  }

  /** Refuse: the file writer did not take the message. */
  datatype Op = AddChannel(name: string, channel: Channel) | Write(m: Msg) | Refuse(m: Msg)

  /** The closed segments, the current one, the channels registered so far, and how many
      messages came on each. */
  datatype Record = Record(closed: seq<Segment>, current: Segment, known: map<string, Channel>,
                           numbers: map<string, nat>)

  function OneMore(numbers: map<string, nat>, name: string): map<string, nat> {
    if name in numbers then numbers[name := numbers[name] + 1] else numbers
  }

  function Apply(lim: Limits, r: Record, op: Op): Record {
    match op
    case AddChannel(name, channel) =>
      if name in r.numbers then r
      else r.(known := r.known[name := channel], numbers := r.numbers[name := 0],
              current := r.current.(channels := r.current.channels[name := channel]))
    case Refuse(m) => r.(numbers := OneMore(r.numbers, m.channel))
    case Write(m) =>
      var msgs := r.current.msgs + [m];
      var r' := r.(numbers := OneMore(r.numbers, m.channel));
      if Closes(lim, msgs) then r'.(closed := r.closed + [r.current.(msgs := msgs)], current := Segment(r.known, []))
      else r'.(current := r.current.(msgs := msgs))
  }

  const NEW_RECORD := Record([], Segment(map[], []), map[], map[])

  function Replay(lim: Limits, ops: seq<Op>): Record {
    if ops == [] then NEW_RECORD else Apply(lim, Replay(lim, ops[..|ops| - 1]), ops[|ops| - 1])
  }

  lemma ReplayMore(lim: Limits, ops: seq<Op>, op: Op)
    ensures Replay(lim, ops + [op]) == Apply(lim, Replay(lim, ops), op)
  {
    assert (ops + [op])[..|ops|] == ops;
  }

  lemma MoreTimes(msgs: seq<Msg>, m: Msg)
    ensures RawSize(msgs + [m]) == RawSize(msgs) + |m.content|
    ensures var b := BeginTime(msgs); BeginTime(msgs + [m]) == if b == 0 || b > m.time then m.time else b
  {
    assert (msgs + [m])[..|msgs|] == msgs;
  }

  // ----- the code -----

  class RecordWriter {
    const limits: Limits
    var closed: seq<Segment>       // files that were closed
    var current: Segment           // what file_writer_ has written
    var known: map<string, Channel>
    var numbers: map<string, nat>  // messages offered per registered channel
    var segmentRawSize: nat
    var segmentBeginTime: nat
    ghost var log: seq<Op>         // the channels and messages offered

    /** The counters describe the current segment. */
    ghost predicate Counted()
      reads this`current, this`segmentRawSize, this`segmentBeginTime
    {
      segmentRawSize == RawSize(current.msgs) && segmentBeginTime == BeginTime(current.msgs)
    }

    ghost predicate Valid()
      reads this
    {
      Record(closed, current, known, numbers) == Replay(limits, log) && Counted()
    }

    constructor (limits: Limits)
      ensures Valid() && this.limits == limits && log == []
    {
      this.limits := limits;
      closed, current, known, numbers := [], Segment(map[], []), map[], map[];
      segmentRawSize, segmentBeginTime := 0, 0;
      log := [];
    }

    method WriteChannel(name: string, channel: Channel)
      requires Valid()
      modifies this
      ensures Valid() && log == old(log) + [AddChannel(name, channel)]
    {
      ReplayMore(limits, log, AddChannel(name, channel));
      log := log + [AddChannel(name, channel)];
      if name !in numbers {
        known, numbers := known[name := channel], numbers[name := 0];
        current := current.(channels := current.channels[name := channel]);
      }
    }

    /** Adds a message to the current segment and tells whether it closes it. */
    method Store(m: Msg) returns (closes: bool)
      requires Counted()
      modifies this`current, this`segmentRawSize, this`segmentBeginTime
      ensures Counted() && current == old(current).(msgs := old(current).msgs + [m])
      ensures closes == Closes(limits, current.msgs)
    {
      MoreTimes(current.msgs, m);
      current := current.(msgs := current.msgs + [m]);
      segmentRawSize := segmentRawSize + |m.content|;
      if segmentBeginTime == 0 {
        segmentBeginTime := m.time;
      }
      if segmentBeginTime > m.time {
        segmentBeginTime := m.time;
      }
      closes := (limits.interval > 0 && m.time - segmentBeginTime > limits.interval)
      || (limits.rawSize > 0 && segmentRawSize > limits.rawSize);
    }

    /** OnNewMessage. */
    method Count(name: string)
      modifies this`numbers
      ensures numbers == OneMore(old(numbers), name)
    {
      if name in numbers {
        numbers := numbers[name := numbers[name] + 1];
      }
    }

    function GetMessageNumber(name: string): nat
      reads this
    {
      if name in numbers then numbers[name] else 0
    }

    /** Counts a message and stores it, unless the file writer refuses it. */
    method WriteMessage(m: Msg, accepted: bool) returns (ok: bool)
      requires Valid()
      modifies this
      ensures Valid() && ok == accepted && log == old(log) + [if accepted then Write(m) else Refuse(m)]
    {
      Count(m.channel);
      if !accepted {
        ReplayMore(limits, log, Refuse(m));
        log := log + [Refuse(m)];
        return false;
      }
      ReplayMore(limits, log, Write(m));
      var closes := Store(m);
      log := log + [Write(m)];
      if closes {
        closed := closed + [current];
        SplitOutfile();
      }
      ok := true;
    }

    /** A new file that declares every channel registered so far. */
    method SplitOutfile()
      modifies this`current, this`segmentRawSize, this`segmentBeginTime
      ensures current == Segment(known, []) && segmentRawSize == 0 && segmentBeginTime == 0
    {
      segmentRawSize, segmentBeginTime := 0, 0;
      var todo := known.Keys;
      current := Segment(map[], []);
      while todo != {}
        invariant todo <= known.Keys && current.msgs == []
        invariant current.channels == map n | n in known && n !in todo :: known[n]
        invariant segmentRawSize == 0 && segmentBeginTime == 0
      {
        var name :| name in todo;
        todo := todo - {name};
        current := current.(channels := current.channels[name := known[name]]);
      }
    }
  }

  // ----- main results -----

  /** All messages of the segments, one after another. */
  function Contents(segments: seq<Segment>): seq<Msg> {
    if segments == [] then [] else Contents(segments[..|segments| - 1]) + segments[|segments| - 1].msgs
  }

  function Written(ops: seq<Op>): seq<Msg> {
    if ops == [] then []
    else
      var w := Written(ops[..|ops| - 1]);
      if ops[|ops| - 1].Write? then w + [ops[|ops| - 1].m] else w
  }

  /** Concatenating the segments gives exactly the accepted messages, in order. */
  lemma {:induction false} NothingLost(lim: Limits, ops: seq<Op>)
    ensures var r := Replay(lim, ops); Contents(r.closed) + r.current.msgs == Written(ops)
  {
    if ops != [] {
      var ops', op := ops[..|ops| - 1], ops[|ops| - 1];
      NothingLost(lim, ops');
      var r, r' := Replay(lim, ops'), Replay(lim, ops);
      if op.Write? {
        var msgs := r.current.msgs + [op.m];
        assert (Contents(r.closed) + r.current.msgs) + [op.m] == Contents(r.closed) + msgs;
        if Closes(lim, msgs) {
          assert r'.closed[..|r.closed|] == r.closed;
        }
      }
    }
  }

  predicate Offers(op: Op, name: string) {
    !op.AddChannel? && op.m.channel == name
  }

  predicate Registers(op: Op, name: string) {
    op.AddChannel? && op.name == name
  }

  /** Where a channel is first registered; |ops| if it is not. */
  function Registered(ops: seq<Op>, name: string): (r: nat)
    ensures r <= |ops|
  {
    if ops == [] then 0
    else
      var n := |ops| - 1;
      var r := Registered(ops[..n], name);
      if r < n || Registers(ops[n], name) then r else n + 1
  }

  /** The messages offered on a channel, stored or not. */
  function Offered(ops: seq<Op>, name: string): nat {
    if ops == [] then 0
    else Offered(ops[..|ops| - 1], name) + if Offers(ops[|ops| - 1], name) then 1 else 0
  }

  lemma ApplyNumber(lim: Limits, r: Record, op: Op, name: string)
    ensures var r' := Apply(lim, r, op);
            && (name in r'.numbers <==> name in r.numbers || Registers(op, name))
            && (name in r.numbers ==> r'.numbers[name] == r.numbers[name] + if Offers(op, name) then 1 else 0)
            && (name !in r.numbers && Registers(op, name) ==> r'.numbers[name] == 0)
  {}

  /** A channel has a number once it is registered, and that number counts every message
      offered on it since then, also those that were refused; earlier ones are not counted. */
  lemma {:induction false} MessageNumbers(lim: Limits, ops: seq<Op>, name: string)
    ensures var numbers, r := Replay(lim, ops).numbers, Registered(ops, name);
            && (name in numbers <==> r < |ops|)
            && (name in numbers ==> numbers[name] == Offered(ops[r..], name))
  {
    if ops != [] {
      var n := |ops| - 1;
      var r := Registered(ops, name);
      MessageNumbers(lim, ops[..n], name);
      ApplyNumber(lim, Replay(lim, ops[..n]), ops[n], name);
      if r < n {
        assert ops[r..][..n - r] == ops[..n][r..];
      } else if r == n {
        assert ops[r..] == [ops[n]] && [ops[n]][..0] == [];
      }
    }
  }

  /** A registered channel has the description given when it was first registered. */
  lemma {:induction false} DescribedAsRegistered(lim: Limits, ops: seq<Op>, name: string)
    ensures var known, r := Replay(lim, ops).known, Registered(ops, name);
            && (name in known <==> r < |ops|)
            && (name in known ==> ops[r] == AddChannel(name, known[name]))
  {
    CurrentDeclared(lim, ops);
    MessageNumbers(lim, ops, name);
    if ops != [] {
      var n := |ops| - 1;
      CurrentDeclared(lim, ops[..n]);
      DescribedAsRegistered(lim, ops[..n], name);
      MessageNumbers(lim, ops[..n], name);
    }
  }

  /** No message before the last one of msgs closes the segment. */
  ghost predicate OpenUntilLast(lim: Limits, msgs: seq<Msg>) {
    forall k | 0 <= k < |msgs| :: !Closes(lim, msgs[..k])
  }

  ghost predicate SegmentOk(lim: Limits, seg: Segment) {
    Closes(lim, seg.msgs) && OpenUntilLast(lim, seg.msgs)
  }

  /** A segment ends with the first message that pushes its raw size past the limit or whose
      time exceeds the begin time by more than the interval; the current one has none. */
  lemma {:induction false} ClosedAtFirst(lim: Limits, ops: seq<Op>)
    ensures var r := Replay(lim, ops);
            && (forall i | 0 <= i < |r.closed| :: SegmentOk(lim, r.closed[i]))
            && OpenUntilLast(lim, r.current.msgs) && !Closes(lim, r.current.msgs)
  {
    if ops != [] {
      var ops', op := ops[..|ops| - 1], ops[|ops| - 1];
      ClosedAtFirst(lim, ops');
      var r := Replay(lim, ops');
      if op.Write? {
        var msgs := r.current.msgs + [op.m];
        forall k | 0 <= k < |msgs| ensures !Closes(lim, msgs[..k]) {
          assert msgs[..k] == if k < |r.current.msgs| then r.current.msgs[..k] else r.current.msgs;
        }
      }
    }
  }

  lemma {:induction false} RawSizeIsLength(msgs: seq<Msg>)
    ensures RawSize(msgs) == |Joined(msgs)|
  {
    if msgs != [] { RawSizeIsLength(msgs[..|msgs| - 1]); }
  }

  lemma ClosesIff(lim: Limits, msgs: seq<Msg>)
    ensures Closes(lim, msgs) <==> Late(lim.interval, msgs) || Large(lim.rawSize, msgs)
  {
    RawSizeIsLength(msgs);
    if msgs != [] { LateIff(lim.interval, msgs); }
  }

  /** In every record: the last message of a closed segment comes more than the interval after
      another one, or makes the contents longer than the limit.  Neither was so for any part
      of a segment before its last message, nor is it for the open segment. */
  lemma SplitAtLimits(lim: Limits, ops: seq<Op>)
    ensures var r := Replay(lim, ops);
            && (forall i | 0 <= i < |r.closed| ::
                  Late(lim.interval, r.closed[i].msgs) || Large(lim.rawSize, r.closed[i].msgs))
            && (forall i, k | 0 <= i < |r.closed| && 0 <= k < |r.closed[i].msgs| ::
                  !Late(lim.interval, r.closed[i].msgs[..k]) && !Large(lim.rawSize, r.closed[i].msgs[..k]))
            && (forall k | 0 <= k <= |r.current.msgs| ::
                  !Late(lim.interval, r.current.msgs[..k]) && !Large(lim.rawSize, r.current.msgs[..k]))
  {
    ClosedAtFirst(lim, ops);
    var r := Replay(lim, ops);
    forall i | 0 <= i < |r.closed|
      ensures Late(lim.interval, r.closed[i].msgs) || Large(lim.rawSize, r.closed[i].msgs)
    {
      assert SegmentOk(lim, r.closed[i]);
      ClosesIff(lim, r.closed[i].msgs);
    }
    forall i, k | 0 <= i < |r.closed| && 0 <= k < |r.closed[i].msgs|
      ensures !Late(lim.interval, r.closed[i].msgs[..k]) && !Large(lim.rawSize, r.closed[i].msgs[..k])
    {
      assert SegmentOk(lim, r.closed[i]);
      ClosesIff(lim, r.closed[i].msgs[..k]);
    }
    forall k | 0 <= k <= |r.current.msgs|
      ensures !Late(lim.interval, r.current.msgs[..k]) && !Large(lim.rawSize, r.current.msgs[..k])
    {
      assert r.current.msgs[..|r.current.msgs|] == r.current.msgs;
      ClosesIff(lim, r.current.msgs[..k]);
    }
  }

  ghost predicate Declares(seg: Segment, known: map<string, Channel>) {
    forall n | n in known :: n in seg.channels && seg.channels[n] == known[n]
  }

  /** Segment k of the record, counting the current one. */
  function SegmentAt(r: Record, k: nat): Segment
    requires k <= |r.closed|
  {
    if k < |r.closed| then r.closed[k] else r.current
  }

  /** The current segment declares exactly the registered channels. */
  ghost predicate CurrentDeclares(r: Record) {
    r.current.channels == r.known && r.numbers.Keys == r.known.Keys
  }

  lemma {:induction false} CurrentDeclared(lim: Limits, ops: seq<Op>)
    ensures CurrentDeclares(Replay(lim, ops))
  {
    if ops != [] { CurrentDeclared(lim, ops[..|ops| - 1]); }
  }

  /** What was registered in r0 is declared in the segment that was current then. */
  ghost predicate StillDeclared(r0: Record, r: Record) {
    && |r0.closed| <= |r.closed| && Declares(SegmentAt(r, |r0.closed|), r0.known)
    && forall n | n in r0.known :: n in r.known
  }

  lemma ApplyDeclares(lim: Limits, r0: Record, r: Record, op: Op)
    requires StillDeclared(r0, r) && CurrentDeclares(r)
    ensures StillDeclared(r0, Apply(lim, r, op))
  {}

  /** Whatever was registered before a moment is declared, with the description it was first
      given, in the segment that was current at that moment: so every segment declares all
      channels registered before its first message. */
  lemma {:induction false} ChannelsDeclared(lim: Limits, ops: seq<Op>, q: nat)
    requires q <= |ops|
    ensures StillDeclared(Replay(lim, ops[..q]), Replay(lim, ops)) && CurrentDeclares(Replay(lim, ops))
    decreases |ops|
  {
    CurrentDeclared(lim, ops);
    if q == |ops| {
      assert ops[..q] == ops;
    } else {
      var ops' := ops[..|ops| - 1];
      ChannelsDeclared(lim, ops', q);
      assert ops'[..q] == ops[..q];
      ApplyDeclares(lim, Replay(lim, ops[..q]), Replay(lim, ops'), ops[|ops| - 1]);
    }
  }
}
