/**
 The reader/writer spin lock of cyber/base/atomic_rw_lock.h as a step system.  Each
 atomic operation on lock_num_ and write_lock_wait_num_ is one step; a failing writer
 swap and the yields of the spin loops change nothing and are not steps.
 */
module RWLock {

  type Tid = nat

  const RW_LOCK_FREE: int := 0
  const WRITE_EXCLUSIVE: int := -1

  datatype Pc =
    | Idle
    | ReadTest(n: int)     // lock_num loaded, about to evaluate the wait condition
    | ReadReload           // condition held, about to load lock_num again
    | ReadCas(n: int)      // past the wait condition
    | Reading
    | WriteCas             // announced in write_lock_wait_num_
    | WriteEntered         // lock taken, announcement not yet withdrawn
    | Writing

  /** History variables: `entries` lists the threads whose ReadLock succeeded, in order;
      the sets hold the readers inside, the writers inside and the announced writers. */
  datatype State = State(
    writeFirst: bool, lockNum: int, waitNum: int, pc: map<Tid, Pc>,
    entries: seq<Tid>, readers: set<Tid>, writers: set<Tid>, announced: set<Tid>)

  ghost predicate Init(s: State) {
    && s.lockNum == RW_LOCK_FREE && s.waitNum == 0
    && (forall t | t in s.pc :: s.pc[t].Idle?)
    && s.entries == [] && s.readers == {} && s.writers == {} && s.announced == {}
  }

  ghost predicate StartRead(s: State, s': State, t: Tid) {
    && t in s.pc && s.pc[t].Idle?
    && s' == s.(pc := s.pc[t := ReadTest(s.lockNum)])
  }

  /** The condition of the inner loop of ReadLock. */
  ghost predicate MustWait(s: State, n: int) {
    n < RW_LOCK_FREE || (s.writeFirst && s.waitNum > 0)
  }

  ghost predicate ReadSpin(s: State, s': State, t: Tid) {
    && t in s.pc && s.pc[t].ReadTest? && MustWait(s, s.pc[t].n)
    && s' == s.(pc := s.pc[t := ReadReload])
  }

  ghost predicate ReadAgain(s: State, s': State, t: Tid) {
    && t in s.pc && s.pc[t].ReadReload?
    && s' == s.(pc := s.pc[t := ReadTest(s.lockNum)])
  }

  ghost predicate ReadPass(s: State, s': State, t: Tid) {
    && t in s.pc && s.pc[t].ReadTest? && !MustWait(s, s.pc[t].n)
    && s' == s.(pc := s.pc[t := ReadCas(s.pc[t].n)])
  }

  ghost predicate ReadEnter(s: State, s': State, t: Tid) {
    && t in s.pc && s.pc[t].ReadCas? && s.lockNum == s.pc[t].n
    && s' == s.(lockNum := s.lockNum + 1, pc := s.pc[t := Reading],
                entries := s.entries + [t], readers := s.readers + {t})
  }

  ghost predicate ReadCasFail(s: State, s': State, t: Tid) {
    && t in s.pc && s.pc[t].ReadCas?
    && s' == s.(pc := s.pc[t := ReadTest(s.lockNum)])
  }

  ghost predicate ReadUnlock(s: State, s': State, t: Tid) {
    && t in s.pc && s.pc[t].Reading?
    && s' == s.(lockNum := s.lockNum - 1, pc := s.pc[t := Idle], readers := s.readers - {t})
  }

  ghost predicate StartWrite(s: State, s': State, t: Tid) {
    && t in s.pc && s.pc[t].Idle?
    && s' == s.(waitNum := s.waitNum + 1, pc := s.pc[t := WriteCas], announced := s.announced + {t})
  }

  ghost predicate WriteEnter(s: State, s': State, t: Tid) {
    && t in s.pc && s.pc[t].WriteCas? && s.lockNum == RW_LOCK_FREE
    && s' == s.(lockNum := WRITE_EXCLUSIVE, pc := s.pc[t := WriteEntered], writers := s.writers + {t})
  }

  ghost predicate WriteWithdraw(s: State, s': State, t: Tid) {
    && t in s.pc && s.pc[t].WriteEntered?
    && s' == s.(waitNum := s.waitNum - 1, pc := s.pc[t := Writing], announced := s.announced - {t})
  }

  ghost predicate WriteUnlock(s: State, s': State, t: Tid) {
    && t in s.pc && s.pc[t].Writing?
    && s' == s.(lockNum := s.lockNum + 1, pc := s.pc[t := Idle], writers := s.writers - {t})
  }

  ghost predicate ThreadStep(s: State, s': State, t: Tid) {
    || StartRead(s, s', t) || ReadSpin(s, s', t) || ReadAgain(s, s', t) || ReadPass(s, s', t)
    || ReadEnter(s, s', t) || ReadCasFail(s, s', t) || ReadUnlock(s, s', t)
    || StartWrite(s, s', t) || WriteEnter(s, s', t) || WriteWithdraw(s, s', t)
    || WriteUnlock(s, s', t)
  }

  ghost predicate Step(s: State, s': State) {
    exists t :: ThreadStep(s, s', t)
  }

  ghost predicate StepAt(run: seq<State>, i: nat) {
    i + 1 < |run| && Step(run[i], run[i + 1])
  }

  ghost predicate Run(run: seq<State>) {
    run != [] && Init(run[0]) && forall i | 0 <= i < |run| - 1 :: StepAt(run, i)
  }

  // ----- the invariant -----

  ghost predicate SetsOk(s: State) {
    && (forall t | t in s.readers :: t in s.pc)
    && (forall t | t in s.writers :: t in s.pc)
    && (forall t | t in s.announced :: t in s.pc)
    && (forall t | t in s.pc ::
          && (t in s.readers <==> s.pc[t].Reading?)
          && (t in s.writers <==> s.pc[t].WriteEntered? || s.pc[t].Writing?)
          && (t in s.announced <==> s.pc[t].WriteCas? || s.pc[t].WriteEntered?))
  }

  ghost predicate Inv(s: State) {
    && SetsOk(s)
    && s.waitNum == |s.announced|
    && (forall t | t in s.pc && s.pc[t].ReadCas? :: s.pc[t].n >= 0)
    && (s.lockNum == if s.writers == {} then |s.readers| else WRITE_EXCLUSIVE)
    && |s.writers| <= 1
    && (s.writers != {} ==> s.readers == {})
  }

  lemma ReaderStepInv(s: State, s': State, t: Tid)
    requires Inv(s)
    requires StartRead(s, s', t) || ReadSpin(s, s', t) || ReadAgain(s, s', t) || ReadPass(s, s', t)
             || ReadCasFail(s, s', t)
    ensures Inv(s')
  {
  }

  lemma ReadEnterInv(s: State, s': State, t: Tid)
    requires Inv(s) && ReadEnter(s, s', t)
    ensures Inv(s')
  {
  }

  lemma ReadUnlockInv(s: State, s': State, t: Tid)
    requires Inv(s) && ReadUnlock(s, s', t)
    ensures Inv(s')
  {
  }

  lemma WriterStepInv(s: State, s': State, t: Tid)
    requires Inv(s) && (StartWrite(s, s', t) || WriteWithdraw(s, s', t))
    ensures Inv(s')
  {
    if StartWrite(s, s', t) {
      assert t !in s.announced && |s'.announced| == |s.announced| + 1;
    } else {
      assert t in s.announced && |s'.announced| == |s.announced| - 1;
    }
    assert SetsOk(s');
  }

  lemma WriterEntryInv(s: State, s': State, t: Tid)
    requires Inv(s) && (WriteEnter(s, s', t) || WriteUnlock(s, s', t))
    ensures Inv(s')
  {
    if WriteUnlock(s, s', t) { assert |s.writers - {t}| == 0; }
  }

  lemma StepInv(s: State, s': State, t: Tid)
    requires Inv(s) && ThreadStep(s, s', t)
    ensures Inv(s')
  {
    if ReadEnter(s, s', t) { ReadEnterInv(s, s', t); }
    else if ReadUnlock(s, s', t) { ReadUnlockInv(s, s', t); }
    else if WriteEnter(s, s', t) || WriteUnlock(s, s', t) { WriterEntryInv(s, s', t); }
    else if StartWrite(s, s', t) || WriteWithdraw(s, s', t) { WriterStepInv(s, s', t); }
    else { ReaderStepInv(s, s', t); }
  }

  lemma {:induction false} RunInv(run: seq<State>, i: nat)
    requires Run(run) && i < |run|
    ensures Inv(run[i])
  {
    if i > 0 {
      RunInv(run, i - 1);
      assert StepAt(run, i - 1);
      var t :| ThreadStep(run[i - 1], run[i], t);
      StepInv(run[i - 1], run[i], t);
    }
  }

  // ----- main results -----

  /** In every state of every run, lock_num_ is the number of readers inside and no writer
      is inside, or it is -1 and one writer is inside alone; write_lock_wait_num_ is the
      number of announced writers. */
  lemma Exclusion(run: seq<State>, i: nat)
    requires Run(run) && i < |run|
    ensures run[i].readers == set t | t in run[i].pc && run[i].pc[t].Reading?
    ensures run[i].writers == set t | t in run[i].pc && (run[i].pc[t].WriteEntered? || run[i].pc[t].Writing?)
    ensures run[i].lockNum >= 0 ==> run[i].writers == {} && |run[i].readers| == run[i].lockNum
    ensures run[i].lockNum < 0 ==>
              run[i].lockNum == WRITE_EXCLUSIVE && run[i].readers == {} && |run[i].writers| == 1
    ensures forall r, w | r in run[i].pc && w in run[i].pc ::
              !(run[i].pc[r].Reading? && run[i].pc[w].Writing?)
    ensures forall v, w | v in run[i].pc && w in run[i].pc && run[i].pc[v].Writing? && run[i].pc[w].Writing? :: v == w
    ensures run[i].waitNum == |run[i].announced|
  {
    RunInv(run, i);
    forall v, w | v in run[i].writers && w in run[i].writers ensures v == w {
      assert |run[i].writers - {v}| == 0;
    }
  }

  ghost predicate PastTheTest(s: State, t: Tid) {
    t in s.pc && s.pc[t].ReadCas?
  }

  ghost predicate Distinct(q: seq<Tid>) {
    forall i, j | 0 <= i < j < |q| :: q[i] != q[j]
  }

  /** With a writer announced, no step takes a reader past the test, and a reader that
      gets in is not past the test any more. */
  lemma NobodyNewPasses(s: State, s': State, t: Tid)
    requires ThreadStep(s, s', t) && s.writeFirst && s.waitNum > 0
    ensures forall u | PastTheTest(s', u) :: PastTheTest(s, u)
    ensures s'.writeFirst
    ensures s'.entries == s.entries || (s'.entries == s.entries + [t] && PastTheTest(s, t) && !PastTheTest(s', t))
  {
  }

  lemma AnnouncedMeansWaiting(s: State, w: Tid)
    requires Inv(s) && w in s.pc && s.pc[w].WriteCas?
    ensures s.waitNum > 0
  {
    assert w in s.announced;
  }

  /** Between s0 and s the readers `added` got in: each was past the wait test at s0, is not
      so any more, and got in once; nobody else is past the test. */
  ghost predicate OnlyPassed(s0: State, s: State, added: seq<Tid>) {
    && s.entries == s0.entries + added && Distinct(added)
    && (forall t | t in added :: PastTheTest(s0, t) && !PastTheTest(s, t))
    && (forall t | PastTheTest(s, t) :: PastTheTest(s0, t))
  }

  lemma OnlyPassedStep(s0: State, s: State, s': State, t: Tid, added: seq<Tid>) returns (added': seq<Tid>)
    requires OnlyPassed(s0, s, added) && ThreadStep(s, s', t) && s.writeFirst && s.waitNum > 0
    ensures OnlyPassed(s0, s', added') && s'.writeFirst
  {
    NobodyNewPasses(s, s', t);
    added' := if s'.entries == s.entries then added else added + [t];
    assert s'.entries != s.entries ==> s'.entries == s0.entries + added';
  }

  /** While some writer stays announced, the only readers that get in are those that were
      past the wait test when the stretch began, and each of them gets in at most once. */
  lemma {:induction false} WriterPreference(run: seq<State>, i: nat, j: nat, w: Tid) returns (added: seq<Tid>)
    requires Run(run) && i <= j < |run| && run[i].writeFirst
    requires forall k | i <= k <= j :: w in run[k].pc && run[k].pc[w].WriteCas?
    ensures OnlyPassed(run[i], run[j], added) && run[j].writeFirst
    decreases j
  {
    if i == j {
      added := [];
    } else {
      added := WriterPreference(run, i, j - 1, w);
      RunInv(run, j - 1);
      AnnouncedMeansWaiting(run[j - 1], w);
      assert StepAt(run, j - 1);
      var t :| ThreadStep(run[j - 1], run[j], t);
      added := OnlyPassedStep(run[i], run[j - 1], run[j], t, added);
    }
  }

  /** A reader must wait: a writer is inside, or one is announced and has precedence. */
  ghost predicate KeptOut(s: State) {
    s.writers != {} || (s.writeFirst && s.announced != {})
  }

  /** The wait test lets a reader past if and only if the number it has loaded is not that of a
      writer inside, and no announced writer has precedence. */
  lemma WaitTest(s: State, s': State, t: Tid)
    requires ThreadStep(s, s', t) && s.pc[t].ReadTest?
    ensures t in s'.pc && (s'.pc[t].ReadCas? <==> s.pc[t].n >= 0 && !(s.writeFirst && s.waitNum > 0))
  {}

  /** From a lock where no reader must wait, whoever is reading already, a new reader gets in
      by its own three steps. */
  lemma ReaderEnters(run: seq<State>, i: nat, t: Tid) returns (path: seq<State>)
    requires Run(run) && i < |run| && t in run[i].pc && run[i].pc[t].Idle? && !KeptOut(run[i])
    ensures |path| == 4 && path[0] == run[i] && forall k | 0 <= k < 3 :: ThreadStep(path[k], path[k + 1], t)
    ensures t in path[3].pc && path[3].pc[t].Reading? && path[3].readers == run[i].readers + {t}
    ensures path[3].entries == run[i].entries + [t] && path[3].writers == {}
  {
    RunInv(run, i);
    var s := run[i];
    var s1 := s.(pc := s.pc[t := ReadTest(s.lockNum)]);
    var s2 := s.(pc := s.pc[t := ReadCas(s.lockNum)]);
    var s3 := s.(lockNum := s.lockNum + 1, pc := s.pc[t := Reading], entries := s.entries + [t],
                 readers := s.readers + {t});
    assert s.announced == {} ==> s.waitNum == 0;
    assert StartRead(s, s1, t) && ReadPass(s1, s2, t) && ReadEnter(s2, s3, t);
    path := [s, s1, s2, s3];
  }

  /** Where a reader must wait, no number of its own steps gets it in. */
  lemma {:induction false} ReaderWaits(run: seq<State>, i: nat, path: seq<State>, t: Tid, k: nat)
    requires Run(run) && i < |run| && t in run[i].pc && KeptOut(run[i])
    requires run[i].pc[t].ReadReload? || (run[i].pc[t].ReadTest? && run[i].pc[t].n == run[i].lockNum)
    requires path != [] && path[0] == run[i] && k < |path|
    requires forall j | 0 <= j < |path| - 1 :: ThreadStep(path[j], path[j + 1], t)
    ensures path[k] == run[i].(pc := path[k].pc) && t in path[k].pc
    ensures path[k].pc[t].ReadReload? || (path[k].pc[t].ReadTest? && path[k].pc[t].n == run[i].lockNum)
  {
    if k > 0 {
      ReaderWaits(run, i, path, t, k - 1);
      RunInv(run, i);
      assert ThreadStep(path[k - 1], path[k], t);
      WaitsOn(path[k - 1], path[k], t);
    }
  }

  lemma WaitsOn(s: State, s': State, t: Tid)
    requires ThreadStep(s, s', t) && t in s.pc && KeptOut(s)
    requires s.writers != {} ==> s.lockNum == WRITE_EXCLUSIVE
    requires s.announced != {} ==> s.waitNum > 0
    requires s.pc[t].ReadReload? || (s.pc[t].ReadTest? && s.pc[t].n == s.lockNum)
    ensures s' == s.(pc := s'.pc) && t in s'.pc
    ensures s'.pc[t].ReadReload? || (s'.pc[t].ReadTest? && s'.pc[t].n == s.lockNum)
  {}

  /** From a lock with nobody inside, a new writer gets in by its own three steps and out by
      one more, and leaves the lock as it was. */
  lemma WriterEntersAndLeaves(run: seq<State>, i: nat, t: Tid) returns (path: seq<State>)
    requires Run(run) && i < |run| && t in run[i].pc && run[i].pc[t].Idle?
    requires run[i].readers == {} && run[i].writers == {}
    ensures |path| == 5 && path[0] == path[4] == run[i]
    ensures forall k | 0 <= k < 4 :: ThreadStep(path[k], path[k + 1], t)
    ensures t in path[3].pc && path[3].pc[t].Writing? && path[3].writers == {t}
  {
    RunInv(run, i);
    var s := run[i];
    var s1 := s.(waitNum := s.waitNum + 1, pc := s.pc[t := WriteCas], announced := s.announced + {t});
    var s2 := s1.(lockNum := WRITE_EXCLUSIVE, pc := s.pc[t := WriteEntered], writers := {t});
    var s3 := s.(lockNum := WRITE_EXCLUSIVE, pc := s.pc[t := Writing], writers := {t});
    assert StartWrite(s, s1, t) && WriteEnter(s1, s2, t);
    assert s2.announced - {t} == s.announced;
    assert WriteWithdraw(s2, s3, t);
    assert s3.pc[t := Idle] == s.pc && s3.writers - {t} == {};
    assert WriteUnlock(s3, s, t);
    path := [s, s1, s2, s3, s];
  }

  /** A reader inside gets out by one step. */
  lemma ReaderLeaves(run: seq<State>, i: nat, t: Tid) returns (s': State)
    requires Run(run) && i < |run| && t in run[i].pc && run[i].pc[t].Reading?
    ensures ThreadStep(run[i], s', t) && t in s'.pc && s'.pc[t].Idle?
    ensures s'.lockNum == run[i].lockNum - 1 && s'.readers == run[i].readers - {t}
  {
    var s := run[i];
    s' := s.(lockNum := s.lockNum - 1, pc := s.pc[t := Idle], readers := s.readers - {t});
    assert ReadUnlock(s, s', t);
  }

  /** A writer is kept out only by threads inside the lock: with nobody inside, its next
      swap succeeds. */
  lemma AloneWriterEnters(run: seq<State>, i: nat, w: Tid)
    requires Run(run) && i < |run| && w in run[i].pc && run[i].pc[w].WriteCas?
    ensures (exists s' :: WriteEnter(run[i], s', w)) <==>
            run[i].readers == {} && run[i].writers == {}
  {
    RunInv(run, i);
    if run[i].lockNum == RW_LOCK_FREE {
      var s' := run[i].(lockNum := WRITE_EXCLUSIVE, pc := run[i].pc[w := WriteEntered],
                         writers := run[i].writers + {w});
      assert WriteEnter(run[i], s', w);
    }
  }
}
