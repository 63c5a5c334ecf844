/**
 The wake-up protocol between publishers, a data-driven routine and the processors that
 may run it: the loop of cyber/croutine/routine_factory.h, the state machine of
 cyber/croutine/croutine.h, Dispatch and Notify of cyber/data, and NotifyProcessor and
 NextRoutine of cyber/scheduler/policy.

 Every access to state_, updated_ and the buffer is one step.  Only the holder of lock_
 runs or updates the routine, so one executor position stands for all processors.
 Messages are positions of the visitor's buffer, as in DataChannel.
 */
module WakeUp {
  import opened DataChannel

  type Pid = nat

  datatype RoutineState = READY | SLEEP | IO_WAIT | DATA_WAIT

  /** Where the holder of lock_ is, or Parked if lock_ is free. */
  datatype Exec =
    | Parked
    | UpdateSleep     // UpdateState, before the test of wake_time_
    | UpdateFlag      // before updated_.test_and_set
    | UpdateApply     // updated_ was clear, before the test of state_
    | UpdateDecide    // UpdateState returned, before the test for READY
    | SetWait         // top of the loop, before set_state(DATA_WAIT)
    | TryFetch        // before TryFetch
    | Callback        // a message was fetched; inside f or before Yield(READY)
    | YieldReady      // before set_state(READY) in Yield
    | YieldPlain      // nothing was fetched, before Yield()
    | Releasing       // switched out, before Release

  /** Where the routine continues when it is resumed. */
  datatype Resume = Top | InCallback

  datatype Publisher =
    | Quiet
    | Filled    // in Dispatch, after Fill
    | Testing   // in NotifyProcessor, before the test of state()
    | Setting   // before SetUpdateFlag

  /** `updated` is true when updated_ is clear, that is, an update is pending.  `tail` and
      `next` are the buffer's newest position and the visitor's next_msg_index_.
      `registered` says that the notify callback is set; regTail is the newest position
      at that time. */
  datatype State = State(
    size: nat, tail: nat, next: nat, registered: bool, regTail: nat,
    state: RoutineState, updated: bool, exec: Exec, resume: Resume, pubs: map<Pid, Publisher>)

  /** CreateTask has put a new routine in the run queue. */
  ghost predicate Init(s: State) {
    && s.tail == 0 && s.next == 0 && !s.registered && s.regTail == 0
    && s.state == READY && !s.updated && s.exec == Parked && s.resume == Top
    && (forall p | p in s.pubs :: s.pubs[p] == Quiet)
  }

  // ----- publishers -----

  ghost predicate Fill(s: State, s': State, p: Pid) {
    p in s.pubs && s.pubs[p] == Quiet && s' == s.(tail := s.tail + 1, pubs := s.pubs[p := Filled])
  }

  ghost predicate NotifyNobody(s: State, s': State, p: Pid) {
    p in s.pubs && s.pubs[p] == Filled && !s.registered && s' == s.(pubs := s.pubs[p := Quiet])
  }

  ghost predicate NotifyRoutine(s: State, s': State, p: Pid) {
    p in s.pubs && s.pubs[p] == Filled && s.registered && s' == s.(pubs := s.pubs[p := Testing])
  }

  ghost predicate TestState(s: State, s': State, p: Pid) {
    && p in s.pubs && s.pubs[p] == Testing
    && s' == s.(pubs := s.pubs[p := if s.state == DATA_WAIT || s.state == IO_WAIT then Setting else Quiet])
  }

  ghost predicate SetUpdateFlag(s: State, s': State, p: Pid) {
    p in s.pubs && s.pubs[p] == Setting && s' == s.(updated := true, pubs := s.pubs[p := Quiet])
  }

  ghost predicate PublisherStep(s: State, s': State, p: Pid) {
    || Fill(s, s', p) || NotifyNobody(s, s', p) || NotifyRoutine(s, s', p)
    || TestState(s, s', p) || SetUpdateFlag(s, s', p)
  }

  /** CreateTask sets the notify callback, after the routine was queued. */
  ghost predicate Register(s: State, s': State) {
    !s.registered && s' == s.(registered := true, regTail := s.tail)
  }

  // ----- the processor holding the routine, and the routine -----

  function Continue(s: State): State {
    s.(exec := if s.resume == Top then SetWait else Callback)
  }

  ghost predicate Acquire(s: State, s': State) {
    s.exec == Parked && s' == s.(exec := UpdateSleep)
  }

  /** The sleep is over: READY is returned at once. */
  ghost predicate WakeFromSleep(s: State, s': State) {
    s.exec == UpdateSleep && s.state == SLEEP && s' == s.(state := READY, exec := UpdateDecide)
  }

  ghost predicate NoSleep(s: State, s': State) {
    s.exec == UpdateSleep && s' == s.(exec := UpdateFlag)
  }

  ghost predicate TestAndSet(s: State, s': State) {
    s.exec == UpdateFlag && s' == s.(updated := false, exec := if s.updated then UpdateApply else UpdateDecide)
  }

  ghost predicate ApplyUpdate(s: State, s': State) {
    && s.exec == UpdateApply
    && s' == s.(state := if s.state == DATA_WAIT || s.state == IO_WAIT then READY else s.state, exec := UpdateDecide)
  }

  ghost predicate Decide(s: State, s': State) {
    s.exec == UpdateDecide && s' == if s.state == READY then Continue(s) else s.(exec := Parked)
  }

  ghost predicate StartWaiting(s: State, s': State) {
    s.exec == SetWait && s' == s.(state := DATA_WAIT, exec := TryFetch)
  }

  ghost predicate FetchMessage(s: State, s': State) {
    && s.exec == TryFetch && CanFetch(s.tail, s.next)
    && s' == s.(next := FetchPosition(s.tail, s.size, s.next) + 1, exec := Callback)
  }

  ghost predicate FetchNothing(s: State, s': State) {
    s.exec == TryFetch && !CanFetch(s.tail, s.next) && s' == s.(exec := YieldPlain)
  }

  /** The user's function may sleep: it is switched out and resumed inside f. */
  ghost predicate SleepInCallback(s: State, s': State) {
    s.exec == Callback && s' == s.(state := SLEEP, resume := InCallback, exec := Releasing)
  }

  ghost predicate LeaveCallback(s: State, s': State) {
    s.exec == Callback && s' == s.(exec := YieldReady)
  }

  ghost predicate DoYieldReady(s: State, s': State) {
    s.exec == YieldReady && s' == s.(state := READY, resume := Top, exec := Releasing)
  }

  ghost predicate DoYieldPlain(s: State, s': State) {
    s.exec == YieldPlain && s' == s.(resume := Top, exec := Releasing)
  }

  ghost predicate Release(s: State, s': State) {
    s.exec == Releasing && s' == s.(exec := Parked)
  }

  ghost predicate ExecutorStep(s: State, s': State) {
    || Acquire(s, s') || WakeFromSleep(s, s') || NoSleep(s, s') || TestAndSet(s, s')
    || ApplyUpdate(s, s') || Decide(s, s') || StartWaiting(s, s')
    || FetchMessage(s, s') || FetchNothing(s, s') || SleepInCallback(s, s')
    || LeaveCallback(s, s') || DoYieldReady(s, s') || DoYieldPlain(s, s') || Release(s, s')
  }

  ghost predicate Step(s: State, s': State) {
    ExecutorStep(s, s') || Register(s, s') || exists p :: PublisherStep(s, s', p)
  }

  ghost predicate StepAt(run: seq<State>, i: nat) {
    i + 1 < |run| && Step(run[i], run[i + 1])
  }

  ghost predicate Run(run: seq<State>) {
    run != [] && Init(run[0]) && forall i | 0 <= i < |run| - 1 :: StepAt(run, i)
  }

  // ----- the property -----

  /** A message filled in after the callback was set has not been fetched. */
  ghost predicate LateUnfetched(s: State) {
    s.registered && s.tail > s.regTail && s.next != s.tail + 1
  }

  /** Some publisher is between Fill and the end of its notification. */
  ghost predicate Notifying(s: State) {
    exists p :: p in s.pubs && s.pubs[p] != Quiet
  }

  /** Not holding a place in its loop: switched out, or being looked at by a processor. */
  predicate SwitchedOut(s: State) {
    s.exec == Parked || s.exec == UpdateSleep || s.exec == UpdateFlag || s.exec == UpdateApply
    || s.exec == UpdateDecide || s.exec == Releasing
  }

  /** The routine will look at its buffer again without further notification: an update is
      pending or being applied, it is READY, it is running with a fetch or a Yield(READY)
      ahead, or it sleeps inside f and will be woken by the clock. */
  ghost predicate WillLook(s: State) {
    || s.updated || s.exec == UpdateApply
    || s.exec == SetWait || s.exec == TryFetch || s.exec == Callback || s.exec == YieldReady
    || (SwitchedOut(s) && s.state == READY)
    || (SwitchedOut(s) && s.resume == InCallback)
  }

  ghost predicate Inv(s: State) {
    && s.next <= s.tail + 1 && s.regTail <= s.tail
    && ((s.exec == TryFetch || s.exec == YieldPlain) ==> s.state == DATA_WAIT)
    && (SwitchedOut(s) ==> if s.resume == Top then s.state == READY || s.state == DATA_WAIT
                           else s.state == READY || s.state == SLEEP)
    && (LateUnfetched(s) ==> WillLook(s) || Notifying(s))
  }

  lemma StillNotifying(s: State, s': State)
    requires s'.pubs == s.pubs && Notifying(s)
    ensures Notifying(s')
  {
    var p :| p in s.pubs && s.pubs[p] != Quiet;
    assert p in s'.pubs && s'.pubs[p] != Quiet;
  }

  /** Steps of a processor looking at the routine, and Register. */
  lemma LookInv(s: State, s': State)
    requires Inv(s)
    requires Acquire(s, s') || WakeFromSleep(s, s') || NoSleep(s, s') || TestAndSet(s, s')
             || ApplyUpdate(s, s') || Decide(s, s') || Release(s, s') || Register(s, s')
    ensures Inv(s')
  {
    if Notifying(s) { StillNotifying(s, s'); }
  }

  /** Steps of the running routine. */
  lemma LoopInv(s: State, s': State)
    requires Inv(s)
    requires StartWaiting(s, s') || FetchMessage(s, s') || FetchNothing(s, s') || SleepInCallback(s, s')
             || LeaveCallback(s, s') || DoYieldReady(s, s') || DoYieldPlain(s, s')
    ensures Inv(s')
  {
    if Notifying(s) { StillNotifying(s, s'); }
  }

  lemma PublisherInv(s: State, s': State, p: Pid)
    requires Inv(s) && PublisherStep(s, s', p)
    ensures Inv(s')
  {
    if LateUnfetched(s') && !WillLook(s') {
      if Fill(s, s', p) || NotifyRoutine(s, s', p) || TestState(s, s', p) {
        assert p in s'.pubs && s'.pubs[p] != Quiet;
      }
    }
  }

  lemma {:induction false} RunInv(run: seq<State>, i: nat)
    requires Run(run) && i < |run|
    ensures Inv(run[i])
  {
    if i > 0 {
      RunInv(run, i - 1);
      var s, s' := run[i - 1], run[i];
      assert StepAt(run, i - 1);
      if p :| PublisherStep(s, s', p) { PublisherInv(s, s', p); }
      else if StartWaiting(s, s') || FetchMessage(s, s') || FetchNothing(s, s') || SleepInCallback(s, s')
              || LeaveCallback(s, s') || DoYieldReady(s, s') || DoYieldPlain(s, s') { LoopInv(s, s'); }
      else { LookInv(s, s'); }
    }
  }

  // ----- main results -----

  /** In every run: if a message filled in after the callback was set is still unfetched and
      no publisher is between Fill and the end of its notification, the routine will look at
      its buffer again without any further notification. */
  lemma NoLostWakeUp(run: seq<State>, i: nat)
    requires Run(run) && i < |run| && LateUnfetched(run[i]) && !Notifying(run[i])
    ensures WillLook(run[i])
  {
    RunInv(run, i);
  }

  ghost predicate Path(path: seq<State>) {
    path != [] && forall i | 0 <= i < |path| - 1 :: ExecutorStep(path[i], path[i + 1])
  }

  /** And the next processor that acquires the routine does fetch: from every reachable
      parked state of that kind, not asleep in f, one pass of NextRoutine and Resume leads
      to a successful TryFetch, with no help from publishers. */
  lemma NextPassFetches(run: seq<State>, i: nat) returns (path: seq<State>)
    requires Run(run) && i < |run| && LateUnfetched(run[i]) && !Notifying(run[i])
    requires run[i].exec == Parked && run[i].resume == Top
    ensures Path(path) && path[0] == run[i]
    ensures path[|path| - 1].exec == Callback
    ensures path[|path| - 1].next == FetchPosition(run[i].tail, run[i].size, run[i].next) + 1
  {
    RunInv(run, i);
    var s := run[i];
    var s1 := s.(exec := UpdateSleep);
    var s2 := s.(exec := UpdateFlag);
    var s3 := s.(updated := false, exec := if s.updated then UpdateApply else UpdateDecide);
    var s4 := s3.(state := READY, exec := UpdateDecide);
    var s5 := s4.(exec := SetWait);
    var s6 := s4.(state := DATA_WAIT, exec := TryFetch);
    var s7 := s6.(next := FetchPosition(s.tail, s.size, s.next) + 1, exec := Callback);
    assert Acquire(s, s1) && NoSleep(s1, s2) && TestAndSet(s2, s3);
    assert Decide(s4, s5) && StartWaiting(s5, s6) && FetchMessage(s6, s7);
    if s.updated {
      assert ApplyUpdate(s3, s4);
      path := [s, s1, s2, s3, s4, s5, s6, s7];
    } else {
      assert s4 == s3;
      path := [s, s1, s2, s3, s5, s6, s7];
    }
  }

  /** A bound on the steps left until the routine looks at its buffer. */
  function Rank(s: State): nat {
    match s.exec
    case TryFetch => 1
    case SetWait => 2
    case UpdateDecide => if s.state == READY then (if s.resume == Top then 3 else 11)
                         else (if s.resume == Top then 8 else 16)
    case UpdateApply => if s.resume == Top then 4 else if s.state == READY then 12 else 17
    case UpdateFlag => if s.resume == Top then 5 else if s.state == READY then 13 else 18
    case UpdateSleep => if s.resume == Top then 6 else 14
    case Parked => if s.resume == Top then 7 else 15
    case Releasing => if s.resume == Top then 8 else 16
    case YieldReady => 9
    case YieldPlain => 9
    case Callback => 10
  }

  lemma Onward(s: State) returns (s': State)
    requires Inv(s) && WillLook(s) && s.exec != TryFetch
    ensures ExecutorStep(s, s') && Rank(s') < Rank(s) && WillLook(s')
    ensures s' == s.(state := s'.state, updated := s'.updated, exec := s'.exec, resume := s'.resume)
  {
    match s.exec
    case Parked => s' := s.(exec := UpdateSleep);
    case UpdateSleep =>
      s' := if s.state == SLEEP then s.(state := READY, exec := UpdateDecide) else s.(exec := UpdateFlag);
    case UpdateFlag => s' := s.(updated := false, exec := if s.updated then UpdateApply else UpdateDecide);
    case UpdateApply =>
      s' := s.(state := if s.state == DATA_WAIT || s.state == IO_WAIT then READY else s.state, exec := UpdateDecide);
    case UpdateDecide => s' := if s.state == READY then Continue(s) else s.(exec := Parked);
    case SetWait => s' := s.(state := DATA_WAIT, exec := TryFetch);
    case Callback => s' := s.(exec := YieldReady);
    case YieldReady => s' := s.(state := READY, resume := Top, exec := Releasing);
    case YieldPlain => s' := s.(resume := Top, exec := Releasing);
    case Releasing => s' := s.(exec := Parked);
  }

  /** The executor and the routine, left to themselves, fetch the message: from every state of
      every run with a late unfetched message and nobody notifying. */
  lemma FetchesAlone(run: seq<State>, i: nat) returns (path: seq<State>)
    requires Run(run) && i < |run| && LateUnfetched(run[i]) && !Notifying(run[i])
    ensures Path(path) && path[0] == run[i]
    ensures var s, s' := run[i], path[|path| - 1];
            s'.exec == Callback && s'.tail == s.tail && s'.next == FetchPosition(s.tail, s.size, s.next) + 1
  {
    RunInv(run, i);
    path := LooksAlone(run[i]);
    var s := path[|path| - 1];
    var s' := s.(next := FetchPosition(s.tail, s.size, s.next) + 1, exec := Callback);
    assert FetchMessage(s, s');
    path := path + [s'];
  }

  lemma {:induction false} LooksAlone(s: State) returns (path: seq<State>)
    requires Inv(s) && WillLook(s)
    ensures Path(path) && path[0] == s
    ensures var e := path[|path| - 1]; e.exec == TryFetch && e.tail == s.tail && e.next == s.next && e.size == s.size
    decreases Rank(s)
  {
    if s.exec == TryFetch {
      path := [s];
    } else {
      var s' := Onward(s);
      assert Step(s, s');
      OnwardInv(s, s');
      var rest := LooksAlone(s');
      path := [s] + rest;
    }
  }

  lemma OnwardInv(s: State, s': State)
    requires Inv(s) && ExecutorStep(s, s')
    ensures Inv(s')
  {
    if StartWaiting(s, s') || FetchMessage(s, s') || FetchNothing(s, s') || SleepInCallback(s, s')
       || LeaveCallback(s, s') || DoYieldReady(s, s') || DoYieldPlain(s, s')
    {
      LoopInv(s, s');
    } else {
      LookInv(s, s');
    }
  }

  /** Steps of one publisher alone. */
  ghost predicate Publishes(path: seq<State>, p: Pid) {
    path != [] && forall k | 0 <= k < |path| - 1 :: PublisherStep(path[k], path[k + 1], p)
  }

  /** A publisher that is not disturbed ends its notification: it sets the update flag if the
      routine waits, and nothing else happens. */
  lemma NotifiesAlone(s: State, p: Pid) returns (path: seq<State>)
    requires s.registered && p in s.pubs && s.pubs[p] == Filled
    ensures Publishes(path, p) && path[0] == s
    ensures path[|path| - 1] == s.(pubs := s.pubs[p := Quiet],
                                   updated := s.updated || s.state == DATA_WAIT || s.state == IO_WAIT)
  {
    var s1 := s.(pubs := s.pubs[p := Testing]);
    assert NotifyRoutine(s, s1, p);
    if s.state == DATA_WAIT || s.state == IO_WAIT {
      var s2 := s.(pubs := s.pubs[p := Setting]);
      var s3 := s.(pubs := s.pubs[p := Quiet], updated := true);
      assert s1.pubs[p := Setting] == s2.pubs && s2.pubs[p := Quiet] == s3.pubs;
      assert TestState(s1, s2, p) && SetUpdateFlag(s2, s3, p);
      path := [s, s1, s2, s3];
    } else {
      var s2 := s.(pubs := s.pubs[p := Quiet]);
      assert s1.pubs[p := Quiet] == s2.pubs;
      assert TestState(s1, s2, p);
      path := [s, s1, s2];
    }
  }

  // ----- messages from before the registration -----

  /** A message is unfetched, but nobody is notifying and the routine will not look. */
  ghost predicate Stranded(s: State) {
    s.registered && s.tail > 0 && s.next != s.tail + 1 && !Notifying(s) && !WillLook(s)
  }

  /** A stranded routine stays so until a message arrives. */
  lemma StrandedStays(s: State, s': State)
    requires Inv(s) && Step(s, s') && Stranded(s) && s'.tail == s.tail
    ensures Stranded(s')
  {
    assert forall p | PublisherStep(s, s', p) :: Notifying(s);
  }

  /** Nothing that happens after the registration strands a routine. */
  lemma StrandedBefore(s: State, s': State)
    requires Inv(s) && Step(s, s') && s.registered && Stranded(s')
    ensures Stranded(s) && s'.tail == s.tail
  {
    if p :| PublisherStep(s, s', p) {
      PublisherStrandsNobody(s, s', p);
    } else if Notifying(s) {
      StillNotifying(s, s');
    }
  }

  lemma PublisherStrandsNobody(s: State, s': State, p: Pid)
    requires Inv(s) && PublisherStep(s, s', p) && s.registered
    ensures !Stranded(s')
  {
    assert p in s'.pubs;
    if Fill(s, s', p) || NotifyRoutine(s, s', p) {
      assert s'.pubs[p] != Quiet;
    }
  }

  lemma StepGrows(s: State, s': State)
    requires Step(s, s')
    ensures s.tail <= s'.tail && (s.registered ==> s'.registered)
  {}

  lemma StrandedStep(s: State, s': State)
    requires Inv(s) && Step(s, s') && s.registered
    ensures s'.registered && s.tail <= s'.tail
    ensures Stranded(s') <==> Stranded(s) && s'.tail == s.tail
  {
    StepGrows(s, s');
    if Stranded(s') { StrandedBefore(s, s'); }
    if Stranded(s) && s'.tail == s.tail { StrandedStays(s, s'); }
  }

  /** Exactly which messages are stranded: after the registration at step r a routine is
      stranded if and only if the registration itself found it so and no message has arrived
      since.  So it is for ever if none comes, and over with the next one. */
  lemma {:induction false} StrandedIff(run: seq<State>, r: nat, i: nat)
    requires Run(run) && r < i < |run| && Register(run[r], run[r + 1])
    ensures run[i].registered && run[r + 1].tail <= run[i].tail
    ensures Stranded(run[i]) <==> Stranded(run[r + 1]) && run[i].tail == run[r + 1].tail
  {
    if i > r + 1 {
      StrandedIff(run, r, i - 1);
      RunInv(run, i - 1);
      assert StepAt(run, i - 1);
      StrandedStep(run[i - 1], run[i]);
    }
  }

  /** Before the registration nobody sets the update flag. */
  ghost predicate NoUpdate(s: State) {
    !s.updated && s.exec != UpdateApply && forall p | p in s.pubs :: s.pubs[p] == Quiet || s.pubs[p] == Filled
  }

  lemma NoUpdateStep(s: State, s': State)
    requires Step(s, s') && !s'.registered && NoUpdate(s)
    ensures !s.registered && NoUpdate(s')
  {}

  lemma {:induction false} NoUpdateYet(run: seq<State>, i: nat)
    requires Run(run) && i < |run| && !run[i].registered
    ensures NoUpdate(run[i])
  {
    if i > 0 {
      assert StepAt(run, i - 1);
      StepGrows(run[i - 1], run[i]);
      NoUpdateYet(run, i - 1);
      NoUpdateStep(run[i - 1], run[i]);
    }
  }

  /** And the registration finds it so if and only if a message has arrived, its publisher
      has notified nobody, and the routine has looked before that and waits. */
  lemma StrandedAtRegistrationIff(run: seq<State>, r: nat)
    requires Run(run) && r + 1 < |run| && Register(run[r], run[r + 1])
    ensures Stranded(run[r + 1]) <==>
            && run[r].tail > 0 && run[r].next != run[r].tail + 1 && !Notifying(run[r])
            && (run[r].exec == YieldPlain || (SwitchedOut(run[r]) && run[r].state == DATA_WAIT))
  {
    RunInv(run, r);
    NoUpdateYet(run, r);
    assert run[r + 1].pubs == run[r].pubs;
  }

  /** A new routine looks at its empty buffer once and is parked waiting. */
  lemma LooksAndWaits(s0: State) returns (path: seq<State>)
    requires Init(s0)
    ensures Path(path) && path[0] == s0
    ensures path[|path| - 1] == s0.(state := DATA_WAIT)
  {
    var s1 := s0.(exec := UpdateSleep);
    var s2 := s0.(exec := UpdateFlag);
    var s3 := s0.(exec := UpdateDecide);
    var s4 := s0.(exec := SetWait);
    var s5 := s0.(state := DATA_WAIT, exec := TryFetch);
    var s6 := s5.(exec := YieldPlain);
    var s7 := s5.(exec := Releasing);
    var s8 := s5.(exec := Parked);
    assert Acquire(s0, s1) && NoSleep(s1, s2) && TestAndSet(s2, s3) && Decide(s3, s4);
    assert StartWaiting(s4, s5) && FetchNothing(s5, s6) && DoYieldPlain(s6, s7) && Release(s7, s8);
    path := [s0, s1, s2, s3, s4, s5, s6, s7, s8];
  }

  /** The callback is set only after the routine was queued.  A message filled in before
      that can be stranded: the routine looks, finds nothing and waits; the message comes;
      nobody is notified; the callback is set.  Now nothing makes the routine look again. */
  lemma StrandedBeforeRegistration() returns (run: seq<State>)
    ensures Run(run)
    ensures var s := run[|run| - 1];
            Stranded(s) && s.exec == Parked && s.state == DATA_WAIT
  {
    var s0 := State(1, 0, 0, false, 0, READY, false, Parked, Top, map[0 := Quiet]);
    var path := LooksAndWaits(s0);
    var n := |path|;
    var s1 := path[n - 1];
    var s2 := s1.(tail := 1, pubs := s1.pubs[0 := Filled]);
    var s3 := s2.(pubs := s2.pubs[0 := Quiet]);
    var s4 := s3.(registered := true, regTail := 1);
    assert Fill(s1, s2, 0) && NotifyNobody(s2, s3, 0) && Register(s3, s4);
    assert PublisherStep(s1, s2, 0) && PublisherStep(s2, s3, 0);
    run := path + [s2, s3, s4];
    forall i | 0 <= i < |run| - 1 ensures Step(run[i], run[i + 1]) {
      if i < n - 1 { assert ExecutorStep(path[i], path[i + 1]); }
    }
  }
}
