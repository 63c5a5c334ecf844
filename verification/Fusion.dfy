/**
 AllLatest fusion (cyber/data/fusion/all_latest.h) of one primary channel with any number
 of companions, as a step system.  A primary message is fused under the primary buffer's
 mutex, so one fusion follows another; each companion is read under its own mutex, so
 companions may publish in between.  The fused tuples form a channel of their own that the
 visitor fetches from.
 */
module Fusion {
  import opened DataChannel

  /** A fused tuple: the primary message and its place in the primary history (from 0), and
      for each companion the position read (from 1) and the message found there. */
  datatype Tuple = Tuple(primary: nat, m0: string, pos: seq<nat>, msgs: seq<string>)

  datatype Fusing =
    | Idle
    | Reading(m0: string, pos: seq<nat>, msgs: seq<string>) // the first |pos| companions have been read

  /** History: `primaries` are the primary messages that arrived, `begun` how many messages
      each companion had published when each of them arrived, and `outcome` whether it was
      fused. */
  datatype State = State(
    companions: seq<seq<string>>, primaries: seq<string>, fusing: Fusing, fused: Channel<Tuple>,
    begun: seq<seq<nat>>, outcome: seq<bool>)

  datatype Action =
    | PublishCompanion(j: nat, m: string)
    | PrimaryArrives(m: string)
    | ReadCompanion        // Latest of the next companion
    | FillFused
    | TryFetch

  predicate Enabled(s: State, a: Action) {
    match a
    case PublishCompanion(j, _) => j < |s.companions|
    case PrimaryArrives(_) => s.fusing.Idle?
    case ReadCompanion => s.fusing.Reading? && |s.fusing.pos| < |s.companions|
    case FillFused => s.fusing.Reading? && |s.fusing.pos| == |s.companions|
    case TryFetch => true
  }

  function Tails(companions: seq<seq<string>>): seq<nat> {
    seq(|companions|, j requires 0 <= j < |companions| => |companions[j]|)
  }

  /** A companion without a message ends the fusion without a tuple. */
  function ReadNext(s: State): State
    requires Enabled(s, ReadCompanion)
  {
    var f := s.fusing;
    var c := s.companions[|f.pos|];
    if c == [] then s.(fusing := Idle, outcome := s.outcome + [false])
    else s.(fusing := f.(pos := f.pos + [|c|], msgs := f.msgs + [c[|c| - 1]]))
  }

  ghost function Apply(s: State, a: Action): State
    requires Enabled(s, a) && Ok(s.fused)
  {
    match a
    case PublishCompanion(j, m) => s.(companions := s.companions[j := s.companions[j] + [m]])
    case PrimaryArrives(m) =>
      s.(primaries := s.primaries + [m], fusing := Reading(m, [], []), begun := s.begun + [Tails(s.companions)])
    case ReadCompanion => ReadNext(s)
    case FillFused =>
      var t := Tuple(|s.outcome|, s.fusing.m0, s.fusing.pos, s.fusing.msgs);
      s.(fusing := Idle, outcome := s.outcome + [true], fused := DataChannel.Apply(s.fused, Publish(t)))
    case TryFetch => s.(fused := DataChannel.Apply(s.fused, Poll))
  }

  /** The fused buffer takes over the queue size of the primary one. */
  ghost predicate Init(s: State) {
    && s.companions != [] && (forall j | 0 <= j < |s.companions| :: s.companions[j] == [])
    && s.primaries == [] && s.fusing == Idle && s.begun == [] && s.outcome == []
    && s.fused == Channel(s.fused.size, [], 0, [])
  }

  ghost predicate Step(s: State, s': State) {
    Ok(s.fused) && exists a :: Enabled(s, a) && s' == Apply(s, a)
  }

  ghost predicate StepAt(run: seq<State>, i: nat) {
    i + 1 < |run| && Step(run[i], run[i + 1])
  }

  ghost predicate Run(run: seq<State>) {
    run != [] && Init(run[0]) && forall i | 0 <= i < |run| - 1 :: StepAt(run, i)
  }

  // ----- the invariant -----

  /** The places of the primary messages that were fused. */
  function Trues(outcome: seq<bool>): seq<nat> {
    if outcome == [] then []
    else
      var n := |outcome| - 1;
      if outcome[n] then Trues(outcome[..n]) + [n] else Trues(outcome[..n])
  }

  function Primaries(ts: seq<Tuple>): seq<nat> {
    seq(|ts|, i requires 0 <= i < |ts| => ts[i].primary)
  }

  /** Companion positions that were the newest at some moment after `from` was published, and
      the messages at those positions. */
  ghost predicate Newest(companions: seq<seq<string>>, from: seq<nat>, pos: seq<nat>, msgs: seq<string>) {
    && |pos| == |msgs| <= |companions| == |from|
    && forall j | 0 <= j < |pos| ::
         && 1 <= pos[j] <= |companions[j]| && from[j] <= pos[j]
         && msgs[j] == companions[j][pos[j] - 1]
  }

  ghost predicate Pointwise(a: seq<nat>, b: seq<nat>) {
    |a| == |b| && forall j | 0 <= j < |a| :: a[j] <= b[j]
  }

  ghost predicate TupleOk(s: State, t: Tuple) {
    && t.primary < |s.outcome| <= |s.begun| && |s.begun| == |s.primaries|
    && t.m0 == s.primaries[t.primary]
    && |t.pos| == |s.companions| && Newest(s.companions, s.begun[t.primary], t.pos, t.msgs)
  }

  /** Later primary messages arrived when the companions were at least this far. */
  ghost predicate Behind(s: State, t: Tuple) {
    forall k | t.primary < k < |s.begun| :: Pointwise(t.pos, s.begun[k])
  }

  ghost predicate Counts(s: State) {
    && |s.begun| == |s.primaries| == |s.outcome| + (if s.fusing.Idle? then 0 else 1)
    && (s.fusing.Reading? ==>
          && s.fusing.m0 == s.primaries[|s.outcome|]
          && Newest(s.companions, s.begun[|s.outcome|], s.fusing.pos, s.fusing.msgs))
    && (forall k | 0 <= k < |s.begun| :: Pointwise(s.begun[k], Tails(s.companions)))
  }

  /** A primary message that arrived when every companion had published was fused. */
  ghost predicate AllFused(s: State) {
    |s.outcome| <= |s.begun| && forall k | 0 <= k < |s.outcome| && AllPublished(s.begun[k]) :: s.outcome[k]
  }

  ghost predicate AllPublished(tails: seq<nat>) {
    forall j | 0 <= j < |tails| :: tails[j] > 0
  }

  ghost predicate TuplesOk(s: State) {
    && (forall i | 0 <= i < |s.fused.history| :: TupleOk(s, s.fused.history[i]))
    && (forall i | 0 <= i < |s.fused.history| :: Behind(s, s.fused.history[i]))
  }

  ghost predicate Inv(s: State) {
    Counts(s) && AllFused(s) && TuplesOk(s) && Primaries(s.fused.history) == Trues(s.outcome) && Faithful(s.fused)
  }

  // ----- every step keeps it -----

  lemma NewestKept(cs: seq<seq<string>>, from: seq<nat>, pos: seq<nat>, msgs: seq<string>, j: nat, m: string)
    requires Newest(cs, from, pos, msgs) && j < |cs|
    ensures Newest(cs[j := cs[j] + [m]], from, pos, msgs)
  {}

  lemma PublishInv(s: State, j: nat, m: string)
    requires Inv(s) && j < |s.companions|
    ensures Inv(Apply(s, PublishCompanion(j, m)))
  {
    var s' := Apply(s, PublishCompanion(j, m));
    if s.fusing.Reading? {
      NewestKept(s.companions, s.begun[|s.outcome|], s.fusing.pos, s.fusing.msgs, j, m);
    }
    forall k | 0 <= k < |s.begun| ensures Pointwise(s'.begun[k], Tails(s'.companions)) {
      assert Pointwise(s.begun[k], Tails(s.companions));
    }
    forall i | 0 <= i < |s.fused.history| ensures TupleOk(s', s.fused.history[i]) && Behind(s', s.fused.history[i]) {
      var t := s.fused.history[i];
      assert TupleOk(s, t) && Behind(s, t);
      NewestKept(s.companions, s.begun[t.primary], t.pos, t.msgs, j, m);
    }
  }

  /** Tuples stay as they are when the histories grow and the companions rest. */
  lemma TupleKept(s: State, s': State, t: Tuple)
    requires TupleOk(s, t) && Behind(s, t) && s'.companions == s.companions
    requires s.primaries <= s'.primaries && s.begun <= s'.begun && s.outcome <= s'.outcome
    requires |s'.outcome| <= |s'.begun| == |s'.primaries|
    requires forall k | |s.begun| <= k < |s'.begun| :: s'.begun[k] == Tails(s.companions)
    ensures TupleOk(s', t) && Behind(s', t)
  {}

  lemma ArriveInv(s: State, m: string)
    requires Inv(s) && s.fusing.Idle?
    ensures Inv(Apply(s, PrimaryArrives(m)))
  {
    var s' := Apply(s, PrimaryArrives(m));
    forall i | 0 <= i < |s.fused.history| ensures TupleOk(s', s.fused.history[i]) && Behind(s', s.fused.history[i]) {
      TupleKept(s, s', s.fused.history[i]);
    }
    assert forall k | 0 <= k < |s.outcome| :: s'.begun[k] == s.begun[k];
  }

  /** A companion without a message: nothing has been fused yet. */
  lemma ReadEmptyInv(s: State)
    requires Inv(s) && Enabled(s, ReadCompanion) && s.companions[|s.fusing.pos|] == []
    ensures Inv(ReadNext(s))
  {
    NothingFused(s, |s.fusing.pos|);
    NotAllPublished(s);
    assert ReadNext(s).outcome[..|s.outcome|] == s.outcome;
  }

  lemma NotAllPublished(s: State)
    requires Counts(s) && Enabled(s, ReadCompanion) && s.companions[|s.fusing.pos|] == []
    ensures !AllPublished(s.begun[|s.outcome|])
  {
    var j, k := |s.fusing.pos|, |s.outcome|;
    assert Pointwise(s.begun[k], Tails(s.companions));
    assert s.begun[k][j] == 0;
  }

  /** A tuple has a message of every companion. */
  lemma NothingFused(s: State, j: nat)
    requires TuplesOk(s) && j < |s.companions|
    ensures s.companions[j] == [] ==> s.fused.history == []
  {
    if s.fused.history != [] {
      assert TupleOk(s, s.fused.history[0]);
      assert s.fused.history[0].pos[j] >= 1;
    }
  }

  lemma NewestMore(cs: seq<seq<string>>, from: seq<nat>, pos: seq<nat>, msgs: seq<string>)
    requires Newest(cs, from, pos, msgs) && Pointwise(from, Tails(cs)) && |pos| < |cs| && cs[|pos|] != []
    ensures var c := cs[|pos|]; Newest(cs, from, pos + [|c|], msgs + [c[|c| - 1]])
  {
    assert from[|pos|] <= Tails(cs)[|pos|];
  }

  lemma ReadInv(s: State)
    requires Inv(s) && Enabled(s, ReadCompanion) && s.companions[|s.fusing.pos|] != []
    ensures Inv(ReadNext(s))
  {
    var s', k := ReadNext(s), |s.outcome|;
    NewestMore(s.companions, s.begun[k], s.fusing.pos, s.fusing.msgs);
    forall i | 0 <= i < |s.fused.history| ensures TupleOk(s', s.fused.history[i]) && Behind(s', s.fused.history[i]) {
      TupleKept(s, s', s.fused.history[i]);
    }
  }

  lemma FillTuples(s: State, s': State, t: Tuple)
    requires TuplesOk(s) && s'.companions == s.companions && s'.primaries == s.primaries && s'.begun == s.begun
    requires s.outcome <= s'.outcome && |s'.outcome| <= |s.begun| == |s.primaries|
    requires s'.fused.history == s.fused.history + [t] && TupleOk(s', t) && Behind(s', t)
    ensures TuplesOk(s')
  {
    forall i | 0 <= i < |s.fused.history| ensures TupleOk(s', s.fused.history[i]) && Behind(s', s.fused.history[i]) {
      TupleKept(s, s', s.fused.history[i]);
    }
  }

  lemma FillInv(s: State)
    requires Inv(s) && Enabled(s, FillFused)
    ensures Inv(Apply(s, FillFused))
  {
    var s', k := Apply(s, FillFused), |s.outcome|;
    var t := Tuple(k, s.fusing.m0, s.fusing.pos, s.fusing.msgs);
    ApplyFaithful(s.fused, Publish(t));
    FillStream(s, s', t);
    FillTuples(s, s', t);
  }

  lemma FillStream(s: State, s': State, t: Tuple)
    requires Primaries(s.fused.history) == Trues(s.outcome)
    requires s'.fused.history == s.fused.history + [t] && s'.outcome == s.outcome + [true] && t.primary == |s.outcome|
    ensures Primaries(s'.fused.history) == Trues(s'.outcome)
  {
    assert s'.outcome[..|s.outcome|] == s.outcome;
    assert Primaries(s'.fused.history) == Primaries(s.fused.history) + [t.primary];
  }

  lemma FetchInv(s: State)
    requires Inv(s)
    ensures Inv(Apply(s, TryFetch))
  {
    var s' := Apply(s, TryFetch);
    ApplyFaithful(s.fused, Poll);
    forall i | 0 <= i < |s.fused.history| ensures TupleOk(s', s.fused.history[i]) && Behind(s', s.fused.history[i]) {
      TupleKept(s, s', s.fused.history[i]);
    }
  }

  lemma StepInv(s: State, s': State)
    requires Inv(s) && Step(s, s')
    ensures Inv(s')
  {
    var a :| Enabled(s, a) && s' == Apply(s, a);
    match a {
      case PublishCompanion(j, m) => PublishInv(s, j, m);
      case PrimaryArrives(m) => ArriveInv(s, m);
      case ReadCompanion => if s.companions[|s.fusing.pos|] == [] { ReadEmptyInv(s); } else { ReadInv(s); }
      case FillFused => FillInv(s);
      case TryFetch => FetchInv(s);
    }
  }

  lemma {:induction false} RunInv(run: seq<State>, i: nat)
    requires Run(run) && i < |run|
    ensures Inv(run[i])
  {
    if i > 0 {
      RunInv(run, i - 1);
      assert StepAt(run, i - 1);
      StepInv(run[i - 1], run[i]);
    } else {
      assert Primaries([]) == [];
    }
  }

  // ----- main results -----

  lemma {:induction false} TruesOnce(outcome: seq<bool>, k: nat)
    requires k < |outcome|
    ensures multiset(Trues(outcome))[k] == if outcome[k] then 1 else 0
    ensures forall x | x in Trues(outcome) :: x < |outcome|
  {
    var n := |outcome| - 1;
    if k < n {
      TruesOnce(outcome[..n], k);
    } else if n > 0 {
      TruesOnce(outcome[..n], 0);
      assert n !in Trues(outcome[..n]);
    }
  }

  /** Every primary message that arrived after all companions had published, and whose fusion
      is over, is in exactly one tuple; no primary message is in more than one. */
  lemma OneTuplePerPrimary(run: seq<State>, i: nat, k: nat)
    requires Run(run) && i < |run| && k < |run[i].outcome|
    ensures k < |run[i].begun|
    ensures multiset(Primaries(run[i].fused.history))[k] <= 1
    ensures AllPublished(run[i].begun[k]) ==> multiset(Primaries(run[i].fused.history))[k] == 1
  {
    RunInv(run, i);
    TruesOnce(run[i].outcome, k);
  }

  /** Each tuple holds its primary message and for every companion a message that was the
      newest between the arrival of that primary message and now; tuples come in the order of
      their primary messages, and companion positions never go backwards. */
  lemma TuplesAdvance(run: seq<State>, i: nat, a: nat, b: nat)
    requires Run(run) && i < |run| && a < b < |run[i].fused.history|
    ensures var h := run[i].fused.history;
            && TupleOk(run[i], h[a]) && TupleOk(run[i], h[b])
            && h[a].primary < h[b].primary && Pointwise(h[a].pos, h[b].pos)
  {
    RunInv(run, i);
    var s := run[i];
    var h := s.fused.history;
    TruesSorted(s.outcome, a, b);
    assert h[a].primary == Primaries(h)[a] && h[b].primary == Primaries(h)[b];
    assert TupleOk(s, h[b]) && Behind(s, h[a]);
    assert Pointwise(h[a].pos, s.begun[h[b].primary]);
  }

  lemma {:induction false} TruesSorted(outcome: seq<bool>, a: nat, b: nat)
    requires a < b < |Trues(outcome)|
    ensures Trues(outcome)[a] < Trues(outcome)[b]
  {
    var n := |outcome| - 1;
    var ts := Trues(outcome[..n]);
    if b < |ts| {
      TruesSorted(outcome[..n], a, b);
    } else {
      TruesBelow(outcome[..n], a);
    }
  }

  lemma {:induction false} TruesBelow(outcome: seq<bool>, a: nat)
    requires a < |Trues(outcome)|
    ensures Trues(outcome)[a] < |outcome|
  {
    var n := |outcome| - 1;
    if a < |Trues(outcome[..n])| { TruesBelow(outcome[..n], a); }
  }

  /** The consumer sees a strictly ordered part of the fused stream: each delivery is the
      tuple at its position, primary messages strictly advance, no companion goes back, and a tuple is skipped only
      when more than the queue size were waiting. */
  lemma ConsumerAdvances(run: seq<State>, i: nat, a: nat, b: nat)
    requires Run(run) && i < |run| && a < b < |run[i].fused.delivered|
    ensures var c := run[i].fused;
            && 1 <= c.delivered[a].pos < c.delivered[b].pos <= |c.history|
            && c.delivered[a].msg == c.history[c.delivered[a].pos - 1]
            && c.delivered[b].msg == c.history[c.delivered[b].pos - 1]
            && c.delivered[a].msg.primary < c.delivered[b].msg.primary
            && Pointwise(c.delivered[a].msg.pos, c.delivered[b].msg.pos)
            && (b == a + 1 ==> Follows(c.size, c.delivered[a], c.delivered[b]))
  {
    RunInv(run, i);
    var c := run[i].fused;
    PositionsIncrease(c, a, b);
    TuplesAdvance(run, i, c.delivered[a].pos - 1, c.delivered[b].pos - 1);
  }

  /** At step r primary message k is being fused and p is the newest position of companion j,
      which is read next. */
  ghost predicate NewestAt(run: seq<State>, r: nat, k: nat, j: nat, p: nat) {
    && r + 1 < |run| && run[r].fusing.Reading? && |run[r].outcome| == k
    && |run[r].fusing.pos| == j < |run[r].companions| && |run[r].companions[j]| == p
    && run[r + 1] == ReadNext(run[r])
  }

  /** How a state with some positions read came about. */
  lemma PositionFrom(s: State, s': State, j: nat)
    requires Inv(s) && Step(s, s') && s'.fusing.Reading? && j < |s'.fusing.pos|
    ensures s.fusing.Reading? && s.outcome == s'.outcome
    ensures if j < |s.fusing.pos| then s.fusing.pos[j] == s'.fusing.pos[j]
            else Enabled(s, ReadCompanion) && j == |s.fusing.pos| && s' == ReadNext(s)
                 && s'.fusing.pos[j] == |s.companions[j]|
  {}

  lemma TupleFrom(s: State, s': State, x: nat)
    requires Inv(s) && Step(s, s') && x < |s'.fused.history|
    ensures if x < |s.fused.history| then s.fused.history[x] == s'.fused.history[x]
            else s.fusing.Reading? && s'.fused.history[x].primary == |s.outcome|
                 && s'.fused.history[x].pos == s.fusing.pos
  {}

  lemma TupleBefore(run: seq<State>, i: nat, x: nat)
    requires Run(run) && i < |run| && x < |run[i].fused.history|
    ensures i > 0
    ensures if x < |run[i - 1].fused.history| then run[i - 1].fused.history[x] == run[i].fused.history[x]
            else run[i - 1].fusing.Reading? && run[i].fused.history[x].primary == |run[i - 1].outcome|
                 && run[i].fused.history[x].pos == run[i - 1].fusing.pos
  {
    RunInv(run, i - 1);
    assert StepAt(run, i - 1);
    TupleFrom(run[i - 1], run[i], x);
  }

  lemma {:induction false} ReadingNewest(run: seq<State>, i: nat, j: nat) returns (r: nat)
    requires Run(run) && i < |run| && run[i].fusing.Reading? && j < |run[i].fusing.pos|
    ensures r < i && NewestAt(run, r, |run[i].outcome|, j, run[i].fusing.pos[j])
  {
    RunInv(run, i - 1);
    assert StepAt(run, i - 1);
    PositionFrom(run[i - 1], run[i], j);
    if j < |run[i - 1].fusing.pos| {
      r := ReadingNewest(run, i - 1, j);
    } else {
      r := i - 1;
    }
  }

  /** Every companion message of a tuple was the newest of its companion when it was read,
      during the fusion of the tuple's own primary message. */
  lemma {:induction false} TupleNewest(run: seq<State>, i: nat, x: nat, j: nat) returns (r: nat)
    requires Run(run) && i < |run| && x < |run[i].fused.history| && j < |run[i].fused.history[x].pos|
    ensures r < i && NewestAt(run, r, run[i].fused.history[x].primary, j, run[i].fused.history[x].pos[j])
  {
    TupleBefore(run, i, x);
    if x < |run[i - 1].fused.history| {
      r := TupleNewest(run, i - 1, x, j);
    } else {
      r := ReadingNewest(run, i - 1, j);
    }
  }

  // ----- a fusion that is not disturbed -----

  lemma NewFusion(companions: nat, size: nat) returns (s: State)
    requires companions > 0
    ensures Run([s]) && |s.companions| == companions && s.fusing.Idle? && s.fused.size == size
  {
    s := State(seq(companions, _ => []), [], Idle, Channel(size, [], 0, []), [], []);
  }

  ghost predicate Path(path: seq<State>) {
    path != [] && forall k | 0 <= k < |path| - 1 :: Step(path[k], path[k + 1])
  }

  /** The newest message of each companion. */
  function Latest(companions: seq<seq<string>>): seq<string>
    requires forall j | 0 <= j < |companions| :: companions[j] != []
  {
    seq(|companions|, j requires 0 <= j < |companions| => companions[j][|companions[j]| - 1])
  }

  /** Reads the companions that are left. */
  lemma {:induction false} ReadsOn(s: State) returns (path: seq<State>)
    requires Ok(s.fused) && s.fusing.Reading? && |s.fusing.pos| == |s.fusing.msgs| <= |s.companions|
    requires forall j | 0 <= j < |s.companions| :: s.companions[j] != []
    requires s.fusing.pos == Tails(s.companions)[..|s.fusing.pos|]
    requires s.fusing.msgs == Latest(s.companions)[..|s.fusing.pos|]
    ensures Path(path) && path[0] == s
    ensures path[|path| - 1] == s.(fusing := Reading(s.fusing.m0, Tails(s.companions), Latest(s.companions)))
    decreases |s.companions| - |s.fusing.pos|
  {
    if |s.fusing.pos| == |s.companions| {
      path := [s];
    } else {
      var s' := Apply(s, ReadCompanion);
      assert Step(s, s');
      var rest := ReadsOn(s');
      path := [s] + rest;
    }
  }

  /** From every state of every run: a primary message that arrives when all companions have
      published, and whose fusion is not disturbed, becomes a tuple with their newest
      messages at the end of the fused stream. */
  lemma FusesAlone(run: seq<State>, i: nat, m: string) returns (path: seq<State>)
    requires Run(run) && i < |run| && run[i].fusing.Idle?
    requires forall j | 0 <= j < |run[i].companions| :: run[i].companions[j] != []
    ensures Path(path) && path[0] == run[i]
    ensures var s, s' := run[i], path[|path| - 1];
            && s'.fusing.Idle? && s'.primaries == s.primaries + [m]
            && s'.fused.history ==
               s.fused.history + [Tuple(|s.primaries|, m, Tails(s.companions), Latest(s.companions))]
  {
    RunInv(run, i);
    var s := run[i];
    var s1 := Apply(s, PrimaryArrives(m));
    assert Step(s, s1);
    path := ReadsOn(s1);
    var s2 := path[|path| - 1];
    var s3 := Apply(s2, FillFused);
    assert Step(s2, s3);
    path := [s] + path + [s3];
  }

  /** And the first companion without a message ends a fusion without a tuple. */
  lemma GivesUp(run: seq<State>, i: nat) returns (s': State)
    requires Run(run) && i < |run| && run[i].fusing.Reading? && |run[i].fusing.pos| < |run[i].companions|
    requires run[i].companions[|run[i].fusing.pos|] == []
    ensures Step(run[i], s') && s'.fusing.Idle? && s'.fused == run[i].fused
    ensures s'.outcome == run[i].outcome + [false]
  {
    RunInv(run, i);
    s' := Apply(run[i], ReadCompanion);
  }
}
