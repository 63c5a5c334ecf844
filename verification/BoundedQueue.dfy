/**
 The multi-producer, multi-consumer ring of cyber/base/bounded_queue.h as a step
 system.  Every atomic load, compare-and-swap and pool access is one step of one
 thread; a run is any interleaving of such steps by any number of threads.

 Positions are the values of the counters: position p lives in slot p mod (size + 2).
 An assignment to a pool slot is two steps: the slot is Undefined in between, and
 reading an Undefined slot yields an arbitrary value.
 */
module BoundedQueue {
  import opened Ring

  type Tid = nat

  datatype Slot<T> = Undefined | Value(v: T)

  /** Where a thread is; the constructor arguments are its local variables. */
  datatype Pc<T> =
    | Idle
    | EnqueueTest(v: T, oldTail: nat)     // about to compare with head_
    | EnqueueCas(v: T, oldTail: nat)      // about to move tail_
    | EnqueueClaimed(v: T, oldTail: nat)  // about to start assigning the slot
    | EnqueueWriting(v: T, oldTail: nat)  // about to finish assigning the slot
    | EnqueueCommit(v: T, oldTail: nat)   // about to move commit_
    | DequeueTest(oldHead: nat)           // about to compare with commit_
    | DequeueRead(oldHead: nat)           // about to read the slot
    | DequeueCas(oldHead: nat, v: T)      // about to move head_

  datatype Claim<T> = Claim(tid: Tid, v: T)

  /** The shared state, the threads, and two history variables: who claimed which
      position with which value (in tail_-swap order), and the values handed out
      (in head_-swap order). */
  datatype State<T> = State(
    size: nat, poolSize: nat, head: nat, tail: nat, commit: nat, pool: seq<Slot<T>>,
    pc: map<Tid, Pc<T>>, claims: seq<Claim<T>>, taken: seq<T>)

  ghost predicate Init<T>(s: State<T>) {
    && s.poolSize == s.size + 2
    && s.head == 0 && s.tail == 1 && s.commit == 1
    && |s.pool| == s.poolSize
    && (forall t | t in s.pc :: s.pc[t].Idle?)
    && s.claims == [] && s.taken == []
  }

  ghost predicate StartEnqueue<T>(s: State<T>, s': State<T>, t: Tid) {
    && t in s.pc && s.pc[t].Idle?
    && t in s'.pc && s'.pc[t].EnqueueTest? && s'.pc[t].oldTail == s.tail
    && s' == s.(pc := s.pc[t := s'.pc[t]])
  }

  /** Enqueue returns false. */
  ghost predicate EnqueueReject<T>(s: State<T>, s': State<T>, t: Tid) {
    && t in s.pc && s.pc[t].EnqueueTest? && s.poolSize > 0
    && SlotOf(s.pc[t].oldTail + 1, s.poolSize) == SlotOf(s.head, s.poolSize)
    && s' == s.(pc := s.pc[t := Idle])
  }

  ghost predicate EnqueuePass<T>(s: State<T>, s': State<T>, t: Tid) {
    && t in s.pc && s.pc[t].EnqueueTest? && s.poolSize > 0
    && SlotOf(s.pc[t].oldTail + 1, s.poolSize) != SlotOf(s.head, s.poolSize)
    && s' == s.(pc := s.pc[t := EnqueueCas(s.pc[t].v, s.pc[t].oldTail)])
  }

  ghost predicate EnqueueClaim<T>(s: State<T>, s': State<T>, t: Tid) {
    && t in s.pc && s.pc[t].EnqueueCas? && s.tail == s.pc[t].oldTail
    && s' == s.(tail := s.tail + 1,
                pc := s.pc[t := EnqueueClaimed(s.pc[t].v, s.tail)],
                claims := s.claims + [Claim(t, s.pc[t].v)])
  }

  /** The weak swap fails, possibly for no reason; old_tail is reloaded. */
  ghost predicate EnqueueCasFail<T>(s: State<T>, s': State<T>, t: Tid) {
    && t in s.pc && s.pc[t].EnqueueCas?
    && s' == s.(pc := s.pc[t := EnqueueTest(s.pc[t].v, s.tail)])
  }

  ghost predicate EnqueueBeginWrite<T>(s: State<T>, s': State<T>, t: Tid) {
    && t in s.pc && s.pc[t].EnqueueClaimed?
    && |s.pool| == s.poolSize > 0
    && s' == s.(pool := s.pool[SlotOf(s.pc[t].oldTail, s.poolSize) := Undefined],
                pc := s.pc[t := EnqueueWriting(s.pc[t].v, s.pc[t].oldTail)])
  }

  ghost predicate EnqueueEndWrite<T>(s: State<T>, s': State<T>, t: Tid) {
    && t in s.pc && s.pc[t].EnqueueWriting?
    && |s.pool| == s.poolSize > 0
    && s' == s.(pool := s.pool[SlotOf(s.pc[t].oldTail, s.poolSize) := Value(s.pc[t].v)],
                pc := s.pc[t := EnqueueCommit(s.pc[t].v, s.pc[t].oldTail)])
  }

  /** Enqueue returns true.  A failing swap of commit_ changes nothing. */
  ghost predicate EnqueuePublish<T>(s: State<T>, s': State<T>, t: Tid) {
    && t in s.pc && s.pc[t].EnqueueCommit? && s.commit == s.pc[t].oldTail
    && s' == s.(commit := s.commit + 1, pc := s.pc[t := Idle])
  }

  ghost predicate StartDequeue<T>(s: State<T>, s': State<T>, t: Tid) {
    && t in s.pc && s.pc[t].Idle?
    && s' == s.(pc := s.pc[t := DequeueTest(s.head)])
  }

  /** Dequeue returns false. */
  ghost predicate DequeueReject<T>(s: State<T>, s': State<T>, t: Tid) {
    && t in s.pc && s.pc[t].DequeueTest?
    && s.pc[t].oldHead + 1 == s.commit
    && s' == s.(pc := s.pc[t := Idle])
  }

  ghost predicate DequeuePass<T>(s: State<T>, s': State<T>, t: Tid) {
    && t in s.pc && s.pc[t].DequeueTest?
    && s.pc[t].oldHead + 1 != s.commit
    && s' == s.(pc := s.pc[t := DequeueRead(s.pc[t].oldHead)])
  }

  ghost predicate DequeueLoad<T>(s: State<T>, s': State<T>, t: Tid) {
    && t in s.pc && s.pc[t].DequeueRead?
    && |s.pool| == s.poolSize > 0
    && t in s'.pc && s'.pc[t].DequeueCas? && s'.pc[t].oldHead == s.pc[t].oldHead
    && (var slot := s.pool[SlotOf(s.pc[t].oldHead + 1, s.poolSize)];
        slot.Value? ==> s'.pc[t].v == slot.v)
    && s' == s.(pc := s.pc[t := s'.pc[t]])
  }

  /** Dequeue returns true with the value it read. */
  ghost predicate DequeueTake<T>(s: State<T>, s': State<T>, t: Tid) {
    && t in s.pc && s.pc[t].DequeueCas? && s.head == s.pc[t].oldHead
    && s' == s.(head := s.head + 1, pc := s.pc[t := Idle], taken := s.taken + [s.pc[t].v])
  }

  ghost predicate DequeueCasFail<T>(s: State<T>, s': State<T>, t: Tid) {
    && t in s.pc && s.pc[t].DequeueCas?
    && s' == s.(pc := s.pc[t := DequeueTest(s.head)])
  }

  ghost predicate ThreadStep<T>(s: State<T>, s': State<T>, t: Tid) {
    || StartEnqueue(s, s', t) || EnqueueReject(s, s', t) || EnqueuePass(s, s', t)
    || EnqueueClaim(s, s', t) || EnqueueCasFail(s, s', t)
    || EnqueueBeginWrite(s, s', t) || EnqueueEndWrite(s, s', t) || EnqueuePublish(s, s', t)
    || StartDequeue(s, s', t) || DequeueReject(s, s', t) || DequeuePass(s, s', t)
    || DequeueLoad(s, s', t) || DequeueTake(s, s', t) || DequeueCasFail(s, s', t)
  }

  ghost predicate Step<T>(s: State<T>, s': State<T>) {
    exists t :: ThreadStep(s, s', t)
  }

  ghost predicate StepAt<T>(run: seq<State<T>>, i: nat) {
    i + 1 < |run| && Step(run[i], run[i + 1])
  }

  ghost predicate Run<T>(run: seq<State<T>>) {
    run != [] && Init(run[0]) && forall i | 0 <= i < |run| - 1 :: StepAt(run, i)
  }

  // ----- the invariant -----

  /** A thread that owns a claimed, not yet committed position. */
  predicate Owns<T>(pc: Pc<T>, p: nat) {
    (pc.EnqueueClaimed? || pc.EnqueueWriting? || pc.EnqueueCommit?) && pc.oldTail == p
  }

  ghost predicate Counters<T>(s: State<T>) {
    && s.poolSize == s.size + 2
    && s.head < s.commit <= s.tail <= s.head + s.size + 1
    && |s.pool| == s.poolSize
    && |s.claims| == s.tail - 1 && |s.taken| == s.head
  }

  /** The claim of position p; the first position is 1. */
  ghost function ClaimOf<T>(claims: seq<Claim<T>>, p: nat): Claim<T>
    requires 1 <= p <= |claims|
  {
    claims[p - 1]
  }

  ghost predicate PcOk<T>(s: State<T>, t: Tid, pc: Pc<T>)
    requires Counters(s)
  {
    match pc
    case Idle => true
    case EnqueueTest(v, o) => 1 <= o <= s.tail
    case EnqueueCas(v, o) => 1 <= o <= s.tail && (o == s.tail ==> s.tail <= s.head + s.size)
    case EnqueueClaimed(v, o) => s.commit <= o < s.tail && ClaimOf(s.claims, o) == Claim(t, v)
    case EnqueueWriting(v, o) => s.commit <= o < s.tail && ClaimOf(s.claims, o) == Claim(t, v)
    case EnqueueCommit(v, o) =>
      && s.commit <= o < s.tail && ClaimOf(s.claims, o) == Claim(t, v)
      && s.pool[SlotOf(o, s.poolSize)] == Value(v)
    case DequeueTest(o) => o <= s.head
    case DequeueRead(o) => o <= s.head && (o == s.head ==> o + 1 < s.commit)
    case DequeueCas(o, v) => o <= s.head && (o == s.head ==> o + 1 < s.commit && v == ClaimOf(s.claims, o + 1).v)
  }

  ghost predicate Inv<T>(s: State<T>) {
    && Counters(s)
    && (forall i | 0 <= i < s.head :: s.taken[i] == s.claims[i].v)
    && (forall p | s.head < p < s.commit ::
          s.pool[SlotOf(p, s.poolSize)] == Value(ClaimOf(s.claims, p).v))
    && (forall p | s.commit <= p < s.tail ::
          ClaimOf(s.claims, p).tid in s.pc && Owns(s.pc[ClaimOf(s.claims, p).tid], p))
    && (forall t | t in s.pc :: PcOk(s, t, s.pc[t]))
  }

  /** No other position between head and tail shares the slot of o. */
  lemma OwnSlot<T>(s: State<T>, o: nat)
    requires Counters(s) && s.head < o < s.tail
    ensures forall p | s.head < p < s.tail && p != o ::
              SlotOf(p, s.poolSize) != SlotOf(o, s.poolSize)
  {
    forall p | s.head < p < s.tail && p != o
      ensures SlotOf(p, s.poolSize) != SlotOf(o, s.poolSize)
    {
      if p < o { SlotArithmetic(p, o, s.poolSize); } else { SlotArithmetic(o, p, s.poolSize); }
    }
  }

  /** A step that changes only the place of a thread without a claim. */
  lemma LocalStepInv<T>(s: State<T>, s': State<T>, t: Tid)
    requires Inv(s) && t in s.pc && t in s'.pc && s' == s.(pc := s.pc[t := s'.pc[t]])
    requires !s.pc[t].EnqueueClaimed? && !s.pc[t].EnqueueWriting? && !s.pc[t].EnqueueCommit?
    requires PcOk(s, t, s'.pc[t])
    ensures Inv(s')
  {
    forall u | u in s'.pc ensures PcOk(s', u, s'.pc[u]) {
      if u != t { assert PcOk(s, u, s.pc[u]); }
    }
  }

  lemma ProducerStepInv<T>(s: State<T>, s': State<T>, t: Tid)
    requires Inv(s)
    requires StartEnqueue(s, s', t) || EnqueueReject(s, s', t) || EnqueuePass(s, s', t)
             || EnqueueCasFail(s, s', t)
    ensures Inv(s')
  {
    assert PcOk(s, t, s.pc[t]);
    if EnqueuePass(s, s', t) && s.pc[t].oldTail == s.tail {
      SlotArithmetic(s.head, s.tail + 1, s.poolSize);
    }
    LocalStepInv(s, s', t);
  }

  lemma ClaimInv<T>(s: State<T>, s': State<T>, t: Tid)
    requires Inv(s) && EnqueueClaim(s, s', t)
    ensures Inv(s')
  {
    assert forall p | 1 <= p < s.tail :: ClaimOf(s'.claims, p) == ClaimOf(s.claims, p);
    ClaimPcs(s, s', t);
  }

  lemma ClaimPcs<T>(s: State<T>, s': State<T>, t: Tid)
    requires Inv(s) && Counters(s') && EnqueueClaim(s, s', t)
    ensures forall u | u in s'.pc :: PcOk(s', u, s'.pc[u])
  {
    assert forall p | 1 <= p < s.tail :: ClaimOf(s'.claims, p) == ClaimOf(s.claims, p);
    forall u | u in s'.pc ensures PcOk(s', u, s'.pc[u]) {
      assert PcOk(s, u, s.pc[u]);
    }
  }

  /** The owner of position o writes to its slot, which no other thread relies on. */
  lemma OwnWriteInv<T>(s: State<T>, s': State<T>, t: Tid, o: nat, slot: Slot<T>, pc: Pc<T>)
    requires Inv(s) && t in s.pc && Owns(s.pc[t], o) && Owns(pc, o) && pc.v == s.pc[t].v
    requires pc.EnqueueCommit? ==> slot == Value(pc.v)
    requires s' == s.(pool := s.pool[SlotOf(o, s.poolSize) := slot], pc := s.pc[t := pc])
    ensures Inv(s')
  {
    assert PcOk(s, t, s.pc[t]);
    OwnSlot(s, o);
    forall u | u in s'.pc ensures PcOk(s', u, s'.pc[u]) {
      assert PcOk(s, u, s.pc[u]);
      if u != t && s.pc[u].EnqueueCommit? {
        assert ClaimOf(s.claims, s.pc[u].oldTail).tid == u;
      }
    }
  }

  lemma WriteInv<T>(s: State<T>, s': State<T>, t: Tid)
    requires Inv(s) && (EnqueueBeginWrite(s, s', t) || EnqueueEndWrite(s, s', t))
    ensures Inv(s')
  {
    var v, o := s.pc[t].v, s.pc[t].oldTail;
    if EnqueueBeginWrite(s, s', t) {
      OwnWriteInv(s, s', t, o, Undefined, EnqueueWriting(v, o));
    } else {
      OwnWriteInv(s, s', t, o, Value(v), EnqueueCommit(v, o));
    }
  }

  lemma PublishPcs<T>(s: State<T>, s': State<T>, t: Tid)
    requires Inv(s) && Counters(s') && EnqueuePublish(s, s', t)
    ensures forall u | u in s'.pc :: PcOk(s', u, s'.pc[u])
  {
    assert PcOk(s, t, s.pc[t]);
    forall u | u in s'.pc ensures PcOk(s', u, s'.pc[u]) {
      assert PcOk(s, u, s.pc[u]);
      if u != t && (s.pc[u].EnqueueClaimed? || s.pc[u].EnqueueWriting? || s.pc[u].EnqueueCommit?) {
        assert ClaimOf(s.claims, s.pc[u].oldTail).tid == u;
        assert s.pc[u].oldTail != s.commit;
      }
    }
  }

  lemma PublishInv<T>(s: State<T>, s': State<T>, t: Tid)
    requires Inv(s) && EnqueuePublish(s, s', t)
    ensures Inv(s')
  {
    assert PcOk(s, t, s.pc[t]);
    PublishPcs(s, s', t);
  }

  lemma ConsumerStepInv<T>(s: State<T>, s': State<T>, t: Tid)
    requires Inv(s)
    requires StartDequeue(s, s', t) || DequeueReject(s, s', t) || DequeuePass(s, s', t)
             || DequeueLoad(s, s', t) || DequeueCasFail(s, s', t)
    ensures Inv(s')
  {
    assert PcOk(s, t, s.pc[t]);
    LocalStepInv(s, s', t);
  }

  lemma TakeInv<T>(s: State<T>, s': State<T>, t: Tid)
    requires Inv(s) && DequeueTake(s, s', t)
    ensures Inv(s')
  {
  }

  lemma StepInv<T>(s: State<T>, s': State<T>)
    requires Inv(s) && Step(s, s')
    ensures Inv(s')
  {
    var t :| ThreadStep(s, s', t);
    if EnqueueClaim(s, s', t) { ClaimInv(s, s', t); }
    else if EnqueueBeginWrite(s, s', t) || EnqueueEndWrite(s, s', t) { WriteInv(s, s', t); }
    else if EnqueuePublish(s, s', t) { PublishInv(s, s', t); }
    else if DequeueTake(s, s', t) { TakeInv(s, s', t); }
    else if StartDequeue(s, s', t) || DequeueReject(s, s', t) || DequeuePass(s, s', t)
            || DequeueLoad(s, s', t) || DequeueCasFail(s, s', t) { ConsumerStepInv(s, s', t); }
    else { ProducerStepInv(s, s', t); }
  }

  lemma {:induction false} RunInv<T>(run: seq<State<T>>, i: nat)
    requires Run(run) && i < |run|
    ensures Inv(run[i])
  {
    if i > 0 {
      RunInv(run, i - 1);
      assert StepAt(run, i - 1);
      StepInv(run[i - 1], run[i]);
    }
  }

  // ----- main results -----

  function Values<T>(claims: seq<Claim<T>>): seq<T> {
    seq(|claims|, i requires 0 <= i < |claims| => claims[i].v)
  }

  /** In every state of every run: the counters are ordered, at most `size` elements are
      in flight, live positions have slots of their own, and the values handed out are a
      prefix of the values claimed: nothing is lost, duplicated, reordered or invented. */
  lemma QueueIsFifo<T>(run: seq<State<T>>, i: nat)
    requires Run(run) && i < |run|
    ensures run[i].head < run[i].commit <= run[i].tail
    ensures run[i].tail - run[i].head - 1 <= run[i].size
    ensures forall p, q | run[i].head < p < q < run[i].tail ::
              run[i].poolSize > 0 && SlotOf(p, run[i].poolSize) != SlotOf(q, run[i].poolSize)
    ensures run[i].taken <= Values(run[i].claims)
    ensures |run[i].taken| == run[i].head && |run[i].claims| == run[i].tail - 1
  {
    RunInv(run, i);
    forall q | run[i].head < q < run[i].tail { OwnSlot(run[i], q); }
  }

  /** The two histories only grow, so the order they record never changes afterwards. */
  lemma {:induction false} HistoriesGrow<T>(run: seq<State<T>>, i: nat, j: nat)
    requires Run(run) && i <= j < |run|
    ensures run[i].taken <= run[j].taken
    ensures run[i].claims <= run[j].claims
    decreases j
  {
    if i < j {
      HistoriesGrow(run, i, j - 1);
      assert StepAt(run, j - 1);
    }
  }

  /** Dequeue returns false exactly in states without a committed element: the test of a
      thread with an up-to-date head succeeds iff nothing is committed, and a thread with
      a stale head never gives up. */
  lemma FailedDequeueSawNothingCommitted<T>(run: seq<State<T>>, i: nat, t: Tid)
    requires Run(run) && i + 1 < |run|
    requires t in run[i].pc && run[i].pc[t].DequeueTest?
    ensures DequeueReject(run[i], run[i + 1], t) ==> run[i].commit == run[i].head + 1
    ensures run[i].pc[t].oldHead + 1 == run[i].commit <==>
            run[i].commit == run[i].head + 1 && run[i].pc[t].oldHead == run[i].head
  {
    RunInv(run, i);
  }

  predicate Dequeues<T>(pc: Pc<T>) {
    pc.DequeueTest? || pc.DequeueRead? || pc.DequeueCas?
  }

  /** A thread leaves Dequeue with the oldest value not handed out yet, or without a value, and
      then nothing was committed. */
  lemma DequeueOutcome<T>(run: seq<State<T>>, i: nat, t: Tid)
    requires Run(run) && i + 1 < |run| && t in run[i].pc && t in run[i + 1].pc
    requires Dequeues(run[i].pc[t]) && run[i + 1].pc[t].Idle?
    ensures var s, s' := run[i], run[i + 1];
            || (s.commit == s.head + 1 && s' == s.(pc := s'.pc))
            || (|s.taken| < |s.claims| && s'.taken == s.taken + [s.claims[|s.taken|].v] && s'.head == s.head + 1)
  {
    RunInv(run, i);
    RunInv(run, i + 1);
    assert StepAt(run, i);
    var u :| ThreadStep(run[i], run[i + 1], u);
    assert PcOk(run[i], t, run[i].pc[t]);
  }

  predicate Enqueues<T>(pc: Pc<T>) {
    !pc.Idle? && !Dequeues(pc)
  }

  /** A thread leaves Enqueue with its own value committed at the next position, or with nothing
      changed, and then the position after the tail it had loaded shares its slot with the
      head.  The value does not change on the way. */
  lemma EnqueueOutcome<T>(run: seq<State<T>>, i: nat, t: Tid)
    requires Run(run) && i + 1 < |run| && t in run[i].pc && t in run[i + 1].pc && Enqueues(run[i].pc[t])
    ensures Enqueues(run[i + 1].pc[t]) ==> run[i + 1].pc[t].v == run[i].pc[t].v
    ensures run[i + 1].pc[t].Idle? ==>
              var s, s' := run[i], run[i + 1];
              || (s' == s.(pc := s'.pc) && s.poolSize > 0
                  && SlotOf(s.pc[t].oldTail + 1, s.poolSize) == SlotOf(s.head, s.poolSize))
              || (1 <= s.commit <= |s.claims| && s'.commit == s.commit + 1
                  && s.claims[s.commit - 1] == Claim(t, s.pc[t].v))
  {
    EnqueueRead(run, i, t);
    assert StepAt(run, i);
    var u :| ThreadStep(run[i], run[i + 1], u);
  }

  lemma EnqueueRead<T>(run: seq<State<T>>, i: nat, t: Tid)
    requires Run(run) && i < |run| && t in run[i].pc
    ensures Counters(run[i]) && PcOk(run[i], t, run[i].pc[t])
  {
    RunInv(run, i);
  }

  /** A rejected Enqueue found a full queue if and only if the tail it had loaded shares
      its slot with the current tail; in particular when the tail was not stale. */
  lemma RejectedEnqueueFoundFull<T>(run: seq<State<T>>, i: nat, t: Tid)
    requires Run(run) && i + 1 < |run| && EnqueueReject(run[i], run[i + 1], t)
    ensures run[i].tail - run[i].head - 1 == run[i].size <==>
            SlotOf(run[i].pc[t].oldTail, run[i].poolSize) == SlotOf(run[i].tail, run[i].poolSize)
  {
    RunInv(run, i);
    var s := run[i];
    var n := s.size + 2;
    SlotArithmetic(s.head, s.tail + 1, n);
    SuccessorSlots(s.pc[t].oldTail, s.tail, n);
  }

  // ----- a call that is not disturbed -----

  /** Steps of one thread alone. */
  ghost predicate Solo<T>(path: seq<State<T>>, t: Tid) {
    path != [] && forall k | 0 <= k < |path| - 1 :: ThreadStep(path[k], path[k + 1], t)
  }

  /** Enqueue of v up to its last loop, with room in the ring. */
  lemma ClaimIn<T>(s: State<T>, t: Tid, v: T) returns (path: seq<State<T>>)
    requires Counters(s) && s.tail < s.head + s.size + 1 && t in s.pc && s.pc[t].Idle?
    ensures Solo(path, t) && path[0] == s
    ensures path[|path| - 1] == Claimed(s, t, v)
  {
    var o, k := s.tail, SlotOf(s.tail, s.poolSize);
    var s1 := s.(pc := s.pc[t := EnqueueTest(v, o)]);
    var s2 := s.(pc := s.pc[t := EnqueueCas(v, o)]);
    var s3 := s.(tail := o + 1, pc := s.pc[t := EnqueueClaimed(v, o)], claims := s.claims + [Claim(t, v)]);
    var s4 := s3.(pool := s.pool[k := Undefined], pc := s.pc[t := EnqueueWriting(v, o)]);
    var s5 := Claimed(s, t, v);
    SlotArithmetic(s.head, o + 1, s.poolSize);
    assert s5.pool == s4.pool[k := Value(v)];
    assert StartEnqueue(s, s1, t) && EnqueuePass(s1, s2, t) && EnqueueClaim(s2, s3, t);
    assert EnqueueBeginWrite(s3, s4, t) && EnqueueEndWrite(s4, s5, t);
    path := [s, s1, s2, s3, s4, s5];
  }

  /** The value is in its slot and its position claimed, but not committed. */
  ghost function Claimed<T>(s: State<T>, t: Tid, v: T): State<T>
    requires Counters(s)
  {
    s.(tail := s.tail + 1, claims := s.claims + [Claim(t, v)], pool := s.pool[SlotOf(s.tail, s.poolSize) := Value(v)],
       pc := s.pc[t := EnqueueCommit(v, s.tail)])
  }

  ghost function Enqueued<T>(s: State<T>, t: Tid, v: T): State<T>
    requires Counters(s)
  {
    Claimed(s, t, v).(commit := s.commit + 1, pc := s.pc)
  }

  /** The whole Enqueue, if no other one is under way. */
  lemma PassIn<T>(s: State<T>, t: Tid, v: T) returns (path: seq<State<T>>)
    requires Counters(s) && s.commit == s.tail < s.head + s.size + 1 && t in s.pc && s.pc[t].Idle?
    ensures Solo(path, t) && path[0] == s && path[|path| - 1] == Enqueued(s, t, v)
  {
    path := ClaimIn(s, t, v);
    var c, e := path[|path| - 1], Enqueued(s, t, v);
    assert c.pc[t := Idle] == e.pc;
    assert EnqueuePublish(c, e, t);
    path := path + [e];
  }

  ghost function Dequeued<T>(s: State<T>, v: T): State<T> {
    s.(head := s.head + 1, taken := s.taken + [v])
  }

  lemma PassOut<T>(s: State<T>, t: Tid, v: T) returns (path: seq<State<T>>)
    requires Counters(s) && s.head + 1 < s.commit && s.pool[SlotOf(s.head + 1, s.poolSize)] == Value(v)
    requires t in s.pc && s.pc[t].Idle?
    ensures Solo(path, t) && path[0] == s && path[|path| - 1] == Dequeued(s, v)
  {
    var s1 := s.(pc := s.pc[t := DequeueTest(s.head)]);
    var s2 := s.(pc := s.pc[t := DequeueRead(s.head)]);
    var s3 := s.(pc := s.pc[t := DequeueCas(s.head, v)]);
    var e := Dequeued(s, v);
    assert s3.pc[t := Idle] == s.pc;
    assert StartDequeue(s, s1, t) && DequeuePass(s1, s2, t) && DequeueLoad(s2, s3, t) && DequeueTake(s3, e, t);
    path := [s, s1, s2, s3, e];
  }

  /** Undisturbed, Enqueue returns false exactly on a full ring and leaves it alone; otherwise
      the value is stored at the next position, and it is committed unless earlier positions
      are not. */
  lemma EnqueueAlone<T>(run: seq<State<T>>, i: nat, t: Tid, v: T) returns (path: seq<State<T>>)
    requires Run(run) && i < |run| && t in run[i].pc && run[i].pc[t].Idle?
    ensures Solo(path, t) && path[0] == run[i] && Counters(run[i])
    ensures var s, s' := run[i], path[|path| - 1];
            if s.tail - s.head - 1 == s.size then |path| > 1 && s' == s
            else s' == if s.commit == s.tail then Enqueued(s, t, v) else Claimed(s, t, v)
  {
    RunInv(run, i);
    var s := run[i];
    if s.tail - s.head - 1 == s.size {
      var s1 := s.(pc := s.pc[t := EnqueueTest(v, s.tail)]);
      SlotArithmetic(s.head, s.tail + 1, s.poolSize);
      assert s1.pc[t := Idle] == s.pc;
      assert StartEnqueue(s, s1, t) && EnqueueReject(s1, s, t);
      path := [s, s1, s];
    } else if s.commit == s.tail {
      path := PassIn(s, t, v);
    } else {
      path := ClaimIn(s, t, v);
    }
  }

  /** Undisturbed, Dequeue hands out the oldest value, or returns false exactly when nothing is
      committed. */
  lemma DequeueAlone<T>(run: seq<State<T>>, i: nat, t: Tid) returns (path: seq<State<T>>)
    requires Run(run) && i < |run| && t in run[i].pc && run[i].pc[t].Idle?
    ensures Solo(path, t) && |path| > 1 && path[0] == run[i]
    ensures var s, s' := run[i], path[|path| - 1];
            if s.commit == s.head + 1 then s' == s
            else |s.taken| < |s.claims| && s' == Dequeued(s, s.claims[|s.taken|].v)
  {
    RunInv(run, i);
    var s := run[i];
    if s.commit == s.head + 1 {
      var s1 := s.(pc := s.pc[t := DequeueTest(s.head)]);
      assert s1.pc[t := Idle] == s.pc;
      assert StartDequeue(s, s1, t) && DequeueReject(s1, s, t);
      path := [s, s1, s];
    } else {
      assert s.pool[SlotOf(s.head + 1, s.poolSize)] == Value(ClaimOf(s.claims, s.head + 1).v);
      path := PassOut(s, t, s.claims[s.head].v);
    }
  }

  // ----- a rejected Enqueue need not have found a full queue -----

  ghost predicate Path<T>(path: seq<State<T>>) {
    path != [] && forall i | 0 <= i < |path| - 1 :: Step(path[i], path[i + 1])
  }

  lemma SoloPath<T>(path: seq<State<T>>, t: Tid)
    requires Solo(path, t)
    ensures Path(path)
  {
    forall i | 0 <= i < |path| - 1 ensures Step(path[i], path[i + 1]) {
      assert ThreadStep(path[i], path[i + 1], t);
    }
  }

  lemma Join<T>(a: seq<State<T>>, b: seq<State<T>>) returns (path: seq<State<T>>)
    requires Path(a) && Path(b) && a[|a| - 1] == b[0]
    ensures Path(path) && path[0] == a[0] && path[|path| - 1] == b[|b| - 1]
  {
    path := a[..|a| - 1] + b;
    forall i | 0 <= i < |path| - 1 ensures Step(path[i], path[i + 1]) {
      if i < |a| - 1 { assert path[i] == a[i] && path[i + 1] == a[i + 1]; }
      else { assert path[i] == b[i - (|a| - 1)] && path[i + 1] == b[i + 1 - (|a| - 1)]; }
    }
  }

  /** A value passes through an empty queue. */
  lemma ThroughAlone<T>(run: seq<State<T>>, t: Tid, v: T) returns (run': seq<State<T>>)
    requires Path(run)
    requires var s := run[|run| - 1];
             Counters(s) && s.commit == s.tail == s.head + 1 && s.size >= 1 && t in s.pc && s.pc[t].Idle?
    ensures Path(run') && run'[0] == run[0]
    ensures var s, s' := run[|run| - 1], run'[|run'| - 1];
            && Counters(s') && s'.commit == s'.tail == s'.head + 1 == s.head + 2
            && s'.size == s.size && s'.poolSize == s.poolSize && s'.pc == s.pc
  {
    var s := run[|run| - 1];
    var a := PassIn(s, t, v);
    var b := PassOut(Enqueued(s, t, v), t, v);
    SoloPath(a, t);
    SoloPath(b, t);
    run' := Join(run, a);
    run' := Join(run', b);
  }

  /** Thread 0 loads the tail and is overtaken by two values passing through an otherwise
      idle ring of size 1; its Enqueue then returns false although the queue is empty. */
  lemma SpuriousReject() returns (run: seq<State<int>>, last: State<int>)
    ensures Run(run)
    ensures EnqueueReject(run[|run| - 1], last, 0)
    ensures run[|run| - 1].tail == run[|run| - 1].head + 1 && run[|run| - 1].size == 1
  {
    var s0: State<int> := State(1, 3, 0, 1, 1, [Undefined, Undefined, Undefined], map[0 := Idle, 1 := Idle], [], []);
    var s1 := s0.(pc := s0.pc[0 := EnqueueTest(7, 1)]);
    assert StartEnqueue(s0, s1, 0);
    run := [s0, s1];
    assert ThreadStep(s0, s1, 0);
    run := ThroughAlone(run, 1, 8);
    run := ThroughAlone(run, 1, 9);
    var e := run[|run| - 1];
    assert SlotOf(2, 3) == 2;
    last := e.(pc := e.pc[0 := Idle]);
  }

  /** Some claimed position is always being completed: whenever a claim is uncommitted,
      the owner of the oldest one is inside Enqueue, past its claim, and its next swap of
      commit_ cannot be refused by another thread. */
  lemma CommitNeverStalls<T>(run: seq<State<T>>, i: nat) returns (owner: Tid)
    requires Run(run) && i < |run| && run[i].commit < run[i].tail
    ensures owner in run[i].pc && Owns(run[i].pc[owner], run[i].commit)
    ensures forall t | t in run[i].pc && Owns(run[i].pc[t], run[i].commit) :: t == owner
  {
    RunInv(run, i);
    owner := ClaimOf(run[i].claims, run[i].commit).tid;
  }
}
