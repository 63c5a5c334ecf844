/**
 The two-level timing wheel of cyber/timer/timing_wheel.{h,cc}, refining a table of
 absolute due ticks.  Time is the number of index advances.  A task is known by an id that
 is never reused; a task whose last owner is gone is dead, and its list entries are
 dropped when they are met.  AddTask is atomic with respect to the index updates.
 */
module TimingWheel {

  const WORK_WHEEL_SIZE: nat := 512
  const ASSISTANT_WHEEL_SIZE: nat := 64
  const TIMER_RESOLUTION_MS: nat := 2
  const TIMER_MAX_INTERVAL_MS: nat := WORK_WHEEL_SIZE * ASSISTANT_WHEEL_SIZE * TIMER_RESOLUTION_MS

  /** GetWorkWheelIndex, and the assistant bucket of a tick: the sizes are powers of two. */
  function WorkIndex(tick: nat): nat {
    tick % WORK_WHEEL_SIZE
  }

  /** How often the work wheel has turned before a tick. */
  function Turn(tick: nat): nat {
    tick / WORK_WHEEL_SIZE
  }

  function AssistantIndex(tick: nat): nat {
    Turn(tick) % ASSISTANT_WHEEL_SIZE
  }

  type TaskId = nat
  type Bucket = seq<TaskId>

  // ----- the specification: a table of due ticks -----

  datatype Firing = Firing(id: TaskId, tick: nat)

  /** `ticked` says whether Tick has run for the current index. */
  datatype Table = Table(now: nat, ticked: bool, due: map<TaskId, nat>, dead: set<TaskId>, log: seq<Firing>)

  datatype Op = Add(id: TaskId, duration: nat) | Expire(id: TaskId) | Tick | Advance

  /** The duration in ticks, rounded up. */
  function Ticks(duration: nat): nat {
    (duration + 1) / TIMER_RESOLUTION_MS
  }

  /** The tick for which AddTask files a task, for any duration at all. */
  function DueTick(now: nat, ticked: bool, duration: nat): nat {
    var current := WorkIndex(now);
    var w := current + Ticks(duration);
    if w < WORK_WHEEL_SIZE then
      (if Ticks(duration) == 0 && ticked then now + WORK_WHEEL_SIZE else now + Ticks(duration))
    else if Turn(w) == 1 && WorkIndex(w) < current then now + Ticks(duration)
    else (Turn(now) + (Turn(w) - 1) % ASSISTANT_WHEEL_SIZE + 1) * WORK_WHEEL_SIZE + WorkIndex(w)
  }

  ghost predicate Enabled(t: Table, op: Op) {
    match op
    case Add(id, _) => id !in t.due && id !in t.dead
    case Expire(id) => true
    case Tick => !t.ticked
    case Advance => t.ticked
  }

  function At(ids: seq<TaskId>, tick: nat): seq<Firing> {
    seq(|ids|, i requires 0 <= i < |ids| => Firing(ids[i], tick))
  }

  ghost predicate Unique(ids: seq<TaskId>) {
    forall i, j | 0 <= i < j < |ids| :: ids[i] != ids[j]
  }

  /** Tick fires every task due now, once each, and no other. */
  ghost predicate FiresDue(t: Table, t': Table, fired: seq<TaskId>) {
    && Unique(fired)
    && (forall id :: id in fired <==> id in t.due && t.due[id] == t.now)
    && (forall id :: id in t'.due <==> id in t.due && t.due[id] != t.now)
    && (forall id | id in t'.due :: t'.due[id] == t.due[id])
    && t' == Table(t.now, true, t'.due, t.dead, t.log + At(fired, t.now))
  }

  ghost predicate TableStep(t: Table, op: Op, t': Table) {
    && Enabled(t, op)
    && match op
       case Add(id, d) => t' == t.(due := t.due[id := DueTick(t.now, t.ticked, d)])
       case Expire(id) => t' == t.(due := t.due - {id}, dead := t.dead + {id})
       case Tick => exists fired :: FiresDue(t, t', fired)
       case Advance => t' == t.(now := t.now + 1, ticked := false)
  }

  ghost predicate StepAt(run: seq<Table>, ops: seq<Op>, i: nat) {
    i < |ops| && i + 1 < |run| && TableStep(run[i], ops[i], run[i + 1])
  }

  /** States of the table and the operations between them. */
  ghost predicate TableSteps(run: seq<Table>, ops: seq<Op>) {
    |run| == |ops| + 1 && forall i | 0 <= i < |ops| :: StepAt(run, ops, i)
  }

  /** The operations can be called one after another: a task is added only when it is not
      filed, and ticks and advances alternate. */
  ghost predicate Callable(t: Table, ops: seq<Op>)
    decreases |ops|
  {
    ops == [] || (Enabled(t, ops[0]) && forall t' | TableStep(t, ops[0], t') :: Callable(t', ops[1..]))
  }

  lemma TableStepsMore(run: seq<Table>, ops: seq<Op>, op: Op, t': Table)
    requires TableSteps(run, ops) && TableStep(run[|ops|], op, t')
    ensures TableSteps(run + [t'], ops + [op])
  {
    forall i | 0 <= i < |ops| + 1 ensures StepAt(run + [t'], ops + [op], i) {
      if i < |ops| { assert StepAt(run, ops, i); }
    }
  }

  // ----- the wheel as a value, and how it stands for a table -----

  datatype Wheel = Wheel(work: seq<Bucket>, assistant: seq<Bucket>, remainder: map<TaskId, nat>, dead: set<TaskId>)

  /** Within one turn of the work wheel, counting from the next Tick. */
  ghost predicate WithinTurn(t: Table, due: nat) {
    if t.ticked then t.now < due <= t.now + WORK_WHEEL_SIZE else t.now <= due < t.now + WORK_WHEEL_SIZE
  }

  ghost predicate OnWork(t: Table, onWork: set<TaskId>, id: TaskId, i: nat) {
    && id in t.due && id in onWork
    && WorkIndex(t.due[id]) == i && WithinTurn(t, t.due[id])
  }

  ghost predicate OnAssistant(w: Wheel, t: Table, onWork: set<TaskId>, id: TaskId, j: nat) {
    && id in t.due && id !in onWork
    && id in w.remainder && w.remainder[id] == WorkIndex(t.due[id])
    && Turn(t.now) < Turn(t.due[id]) <= Turn(t.now) + ASSISTANT_WHEEL_SIZE && AssistantIndex(t.due[id]) == j
  }

  /** Live ids occur once in a bucket. */
  ghost predicate LiveOnce(b: Bucket, dead: set<TaskId>) {
    forall i, j | 0 <= i < j < |b| && b[i] !in dead :: b[i] != b[j]
  }

  /** The live list entries are exactly the table's tasks, each once and in its place. */
  ghost predicate Represents(w: Wheel, t: Table, onWork: set<TaskId>) {
    && |w.work| == WORK_WHEEL_SIZE && |w.assistant| == ASSISTANT_WHEEL_SIZE && w.dead == t.dead
    && (forall i, id | 0 <= i < WORK_WHEEL_SIZE && id in w.work[i] && id !in w.dead :: OnWork(t, onWork, id, i))
    && (forall j, id | 0 <= j < ASSISTANT_WHEEL_SIZE && id in w.assistant[j] && id !in w.dead ::
              OnAssistant(w, t, onWork, id, j))
    && (forall id | id in t.due && id in onWork :: id in w.work[WorkIndex(t.due[id])])
    && (forall id | id in t.due && id !in onWork :: id in w.assistant[AssistantIndex(t.due[id])])
    && (forall id | id in t.due :: id !in t.dead)
    && (forall i | 0 <= i < WORK_WHEEL_SIZE :: LiveOnce(w.work[i], w.dead))
    && (forall j | 0 <= j < ASSISTANT_WHEEL_SIZE :: LiveOnce(w.assistant[j], w.dead))
  }

  function Live(b: Bucket, dead: set<TaskId>): Bucket {
    if b == [] then [] else (if b[0] in dead then [] else [b[0]]) + Live(b[1..], dead)
  }

  lemma {:induction false} LiveFacts(b: Bucket, dead: set<TaskId>)
    requires LiveOnce(b, dead)
    ensures forall id :: id in Live(b, dead) <==> id in b && id !in dead
    ensures Unique(Live(b, dead))
  {
    if b != [] {
      LiveFacts(b[1..], dead);
      assert forall id :: id in b <==> id == b[0] || id in b[1..];
      if b[0] !in dead { assert b[0] !in b[1..]; }
    }
  }

  lemma {:induction false} LiveSnoc(b: Bucket, id: TaskId, dead: set<TaskId>)
    ensures Live(b + [id], dead) == Live(b, dead) + (if id in dead then [] else [id])
  {
    if b != [] {
      LiveSnoc(b[1..], id, dead);
      assert (b + [id])[1..] == b[1..] + [id];
    } else {
      assert (b + [id])[1..] == [];
    }
  }

  // ----- Tick -----

  /** A task on the work wheel after Tick. */
  lemma TickOnWork(t: Table, t': Table, fired: seq<TaskId>, onWork: set<TaskId>, id: TaskId, i: nat)
    requires FiresDue(t, t', fired) && !t.ticked && OnWork(t, onWork, id, i) && i != WorkIndex(t.now)
    ensures OnWork(t', onWork, id, i)
  {}

  /** A task of the assistant wheel is not due yet. */
  lemma TickOnAssistant(w: Wheel, t: Table, t': Table, fired: seq<TaskId>, onWork: set<TaskId>, id: TaskId, j: nat)
    requires FiresDue(t, t', fired) && OnAssistant(w, t, onWork, id, j)
    ensures OnAssistant(w, t', onWork, id, j)
  {}

  /** A task that is still due on the work wheel is in another bucket. */
  lemma TickOthers(t: Table, t': Table, fired: seq<TaskId>, onWork: set<TaskId>, id: TaskId, i: nat)
    requires FiresDue(t, t', fired) && !t.ticked && id in t'.due && OnWork(t, onWork, id, i)
    ensures i != WorkIndex(t.now)
  {}

  lemma TickRepresents(w: Wheel, t: Table, onWork: set<TaskId>, t': Table)
    requires Represents(w, t, onWork) && !t.ticked
    requires FiresDue(t, t', Live(w.work[WorkIndex(t.now)], w.dead))
    ensures Represents(w.(work := w.work[WorkIndex(t.now) := []]), t', onWork)
  {
    var c := WorkIndex(t.now);
    var fired, w' := Live(w.work[c], w.dead), w.(work := w.work[c := []]);
    forall i, id | 0 <= i < WORK_WHEEL_SIZE && id in w'.work[i] && id !in w'.dead ensures OnWork(t', onWork, id, i) {
      TickOnWork(t, t', fired, onWork, id, i);
    }
    forall j, id | 0 <= j < ASSISTANT_WHEEL_SIZE && id in w'.assistant[j] && id !in w'.dead
      ensures OnAssistant(w', t', onWork, id, j)
    {
      TickOnAssistant(w, t, t', fired, onWork, id, j);
    }
    forall id | id in t'.due && id in onWork ensures id in w'.work[WorkIndex(t'.due[id])] {
      assert id in w.work[WorkIndex(t.due[id])];
      TickOthers(t, t', fired, onWork, id, WorkIndex(t.due[id]));
    }
  }

  /** The live tasks of the current bucket are those due now. */
  lemma DueNow(w: Wheel, t: Table, onWork: set<TaskId>, id: TaskId)
    requires Represents(w, t, onWork) && !t.ticked
    ensures id in w.work[WorkIndex(t.now)] && id !in w.dead <==> id in t.due && t.due[id] == t.now
  {
    var c := WorkIndex(t.now);
    if id in w.work[c] && id !in w.dead {
      assert OnWork(t, onWork, id, c);
    }
    if id in t.due && id !in onWork {
      assert OnAssistant(w, t, onWork, id, AssistantIndex(t.due[id]));
    }
  }

  lemma TickFires(w: Wheel, t: Table, onWork: set<TaskId>) returns (t': Table)
    requires Represents(w, t, onWork) && !t.ticked
    ensures FiresDue(t, t', Live(w.work[WorkIndex(t.now)], w.dead))
  {
    var bucket := w.work[WorkIndex(t.now)];
    var fired := Live(bucket, w.dead);
    LiveFacts(bucket, w.dead);
    t' := Table(t.now, true, map id | id in t.due && t.due[id] != t.now :: t.due[id], t.dead, t.log + At(fired, t.now));
    forall id ensures id in fired <==> id in t.due && t.due[id] == t.now {
      DueNow(w, t, onWork, id);
    }
  }

  // ----- AddTask -----

  function Added(w: Wheel, i: nat, id: TaskId): Wheel
    requires i < |w.work|
  {
    w.(work := w.work[i := w.work[i] + [id]])
  }

  function AddedAside(w: Wheel, j: nat, id: TaskId, rem: nat): Wheel
    requires j < |w.assistant|
  {
    w.(assistant := w.assistant[j := w.assistant[j] + [id]], remainder := w.remainder[id := rem])
  }

  lemma AppendOnce(b: Bucket, id: TaskId, dead: set<TaskId>)
    requires LiveOnce(b, dead) && id !in b
    ensures LiveOnce(b + [id], dead)
    ensures forall x :: x in b + [id] <==> x in b || x == id
  {
  }

  /** A live id that is not in the table is in no bucket. */
  lemma NotFiled(w: Wheel, t: Table, onWork: set<TaskId>, id: TaskId)
    requires Represents(w, t, onWork) && id !in t.due && id !in t.dead
    ensures forall i | 0 <= i < WORK_WHEEL_SIZE :: id !in w.work[i]
    ensures forall j | 0 <= j < ASSISTANT_WHEEL_SIZE :: id !in w.assistant[j]
  {
    forall i | 0 <= i < WORK_WHEEL_SIZE ensures id !in w.work[i] {
      assert id in w.work[i] && id !in w.dead ==> OnWork(t, onWork, id, i);
    }
    forall j | 0 <= j < ASSISTANT_WHEEL_SIZE ensures id !in w.assistant[j] {
      assert id in w.assistant[j] && id !in w.dead ==> OnAssistant(w, t, onWork, id, j);
    }
  }

  lemma FileOnWork(w: Wheel, t: Table, onWork: set<TaskId>, id: TaskId, due: nat)
    requires Represents(w, t, onWork) && id !in t.due && id !in t.dead
    requires WithinTurn(t, due)
    ensures Represents(Added(w, WorkIndex(due), id), t.(due := t.due[id := due]), onWork + {id})
  {
    var w', t', on' := Added(w, WorkIndex(due), id), t.(due := t.due[id := due]), onWork + {id};
    NotFiled(w, t, onWork, id);
    AppendOnce(w.work[WorkIndex(due)], id, w.dead);
    forall i, x | 0 <= i < WORK_WHEEL_SIZE && x in w'.work[i] && x !in w'.dead ensures OnWork(t', on', x, i) {
      if x != id { assert OnWork(t, onWork, x, i); }
    }
    forall j, x | 0 <= j < ASSISTANT_WHEEL_SIZE && x in w'.assistant[j] && x !in w'.dead
      ensures OnAssistant(w', t', on', x, j)
    {
      assert OnAssistant(w, t, onWork, x, j);
    }
    forall x | x in t'.due && x in on' ensures x in w'.work[WorkIndex(t'.due[x])] {
      if x != id { assert x in w.work[WorkIndex(t.due[x])]; }
    }
  }

  lemma FileOnAssistant(w: Wheel, t: Table, onWork: set<TaskId>, id: TaskId, due: nat)
    requires Represents(w, t, onWork) && id !in t.due && id !in t.dead
    requires Turn(t.now) < Turn(due) <= Turn(t.now) + ASSISTANT_WHEEL_SIZE
    ensures Represents(AddedAside(w, AssistantIndex(due), id, WorkIndex(due)),
                       t.(due := t.due[id := due]), onWork - {id})
  {
    var j0 := AssistantIndex(due);
    var w', t', on' := AddedAside(w, j0, id, WorkIndex(due)), t.(due := t.due[id := due]), onWork - {id};
    NotFiled(w, t, onWork, id);
    AppendOnce(w.assistant[j0], id, w.dead);
    forall i, x | 0 <= i < WORK_WHEEL_SIZE && x in w'.work[i] && x !in w'.dead ensures OnWork(t', on', x, i) {
      assert OnWork(t, onWork, x, i);
    }
    forall j, x | 0 <= j < ASSISTANT_WHEEL_SIZE && x in w'.assistant[j] && x !in w'.dead
      ensures OnAssistant(w', t', on', x, j)
    {
      if x != id { assert OnAssistant(w, t, onWork, x, j); }
    }
    forall x | x in t'.due && x !in on' ensures x in w'.assistant[AssistantIndex(t'.due[x])] {
      if x != id { assert x in w.assistant[AssistantIndex(t.due[x])]; }
    }
  }

  /** The remainder of a task that is not filed is free to change. */
  lemma SetRemainder(w: Wheel, t: Table, onWork: set<TaskId>, id: TaskId, rem: nat)
    requires Represents(w, t, onWork) && id !in t.due
    ensures Represents(w.(remainder := w.remainder[id := rem]), t, onWork)
  {
    var w' := w.(remainder := w.remainder[id := rem]);
    forall j, x | 0 <= j < ASSISTANT_WHEEL_SIZE && x in w'.assistant[j] && x !in w'.dead
      ensures OnAssistant(w', t, onWork, x, j)
    {
      assert OnAssistant(w, t, onWork, x, j);
    }
  }

  /** The assistant slot and the round of a due tick. */
  lemma RoundOf(now: nat, ticks: nat, index: nat, current: nat)
    requires ticks >= 1 && index < WORK_WHEEL_SIZE && current == AssistantIndex(now)
    ensures var due := (Turn(now) + (ticks - 1) % ASSISTANT_WHEEL_SIZE + 1) * WORK_WHEEL_SIZE + index;
            && WorkIndex(due) == index && Turn(due) == Turn(now) + (ticks - 1) % ASSISTANT_WHEEL_SIZE + 1
            && AssistantIndex(due) == (current + ticks) % ASSISTANT_WHEEL_SIZE
  {
    var r := Turn(now) + (ticks - 1) % ASSISTANT_WHEEL_SIZE + 1;
    assert Turn(r * WORK_WHEEL_SIZE + index) == r;
  }

  /** AddTask on values: where the task is filed. */
  ghost function Filed(w: Wheel, now: nat, id: TaskId, d: nat): Wheel
    requires |w.work| == WORK_WHEEL_SIZE && |w.assistant| == ASSISTANT_WHEEL_SIZE
  {
    var at := WorkIndex(now) + Ticks(d);
    if at < WORK_WHEEL_SIZE then Added(w, at, id)
    else
      var w1 := w.(remainder := w.remainder[id := WorkIndex(at)]);
      if Turn(at) == 1 && WorkIndex(at) < WorkIndex(now) then Added(w1, WorkIndex(at), id)
      else AddedAside(w, (AssistantIndex(now) + Turn(at)) % ASSISTANT_WHEEL_SIZE, id, WorkIndex(at))
  }

  lemma DueNextTurn(now: nat, ticks: nat)
    requires var at := WorkIndex(now) + ticks; Turn(at) == 1 && WorkIndex(at) < WorkIndex(now)
    ensures 0 < ticks < WORK_WHEEL_SIZE && WorkIndex(now + ticks) == WorkIndex(WorkIndex(now) + ticks)
  {}

  lemma DueThisTurn(now: nat, ticks: nat)
    requires WorkIndex(now) + ticks < WORK_WHEEL_SIZE
    ensures WorkIndex(now + ticks) == WorkIndex(now) + ticks == WorkIndex(WorkIndex(now) + ticks)
    ensures WorkIndex(now + WORK_WHEEL_SIZE) == WorkIndex(now)
  {}

  /** Where the due tick lies, in each of AddTask's three cases. */
  lemma DueFacts(now: nat, ticked: bool, d: nat)
    ensures var at := WorkIndex(now) + Ticks(d);
            var due := DueTick(now, ticked, d);
            if at < WORK_WHEEL_SIZE || (Turn(at) == 1 && WorkIndex(at) < WorkIndex(now)) then
              && (if ticked then now < due <= now + WORK_WHEEL_SIZE else now <= due < now + WORK_WHEEL_SIZE)
              && WorkIndex(due) == WorkIndex(at)
            else
              && Turn(now) < Turn(due) <= Turn(now) + ASSISTANT_WHEEL_SIZE && WorkIndex(due) == WorkIndex(at)
              && AssistantIndex(due) == (AssistantIndex(now) + Turn(at)) % ASSISTANT_WHEEL_SIZE
  {
    var at := WorkIndex(now) + Ticks(d);
    if at < WORK_WHEEL_SIZE {
      DueThisTurn(now, Ticks(d));
    } else if Turn(at) == 1 && WorkIndex(at) < WorkIndex(now) {
      DueNextTurn(now, Ticks(d));
    } else {
      RoundOf(now, Turn(at), WorkIndex(at), AssistantIndex(now));
    }
  }

  /** Filed in the current turn of the work wheel. */
  lemma FiledHere(w: Wheel, t: Table, onWork: set<TaskId>, id: TaskId, d: nat)
    requires Represents(w, t, onWork) && Enabled(t, Add(id, d)) && WorkIndex(t.now) + Ticks(d) < WORK_WHEEL_SIZE
    ensures Represents(Filed(w, t.now, id, d), t.(due := t.due[id := DueTick(t.now, t.ticked, d)]), onWork + {id})
  {
    DueFacts(t.now, t.ticked, d);
    var due := DueTick(t.now, t.ticked, d);
    assert WorkIndex(due) == WorkIndex(t.now) + Ticks(d);
    FileOnWork(w, t, onWork, id, due);
  }

  /** Filed in the next turn, ahead of the current index. */
  lemma FiledSoon(w: Wheel, t: Table, onWork: set<TaskId>, id: TaskId, d: nat)
    requires Represents(w, t, onWork) && Enabled(t, Add(id, d))
    requires var at := WorkIndex(t.now) + Ticks(d); Turn(at) == 1 && WorkIndex(at) < WorkIndex(t.now)
    ensures Represents(Filed(w, t.now, id, d), t.(due := t.due[id := DueTick(t.now, t.ticked, d)]), onWork + {id})
  {
    var rem := (WorkIndex(t.now) + Ticks(d)) % WORK_WHEEL_SIZE;
    DueFacts(t.now, t.ticked, d);
    SetRemainder(w, t, onWork, id, rem);
    FileOnWork(w.(remainder := w.remainder[id := rem]), t, onWork, id, DueTick(t.now, t.ticked, d));
  }

  lemma FiledAsideIs(w: Wheel, now: nat, ticked: bool, id: TaskId, d: nat)
    requires |w.work| == WORK_WHEEL_SIZE && |w.assistant| == ASSISTANT_WHEEL_SIZE
    requires var at := WorkIndex(now) + Ticks(d);
             at >= WORK_WHEEL_SIZE && !(Turn(at) == 1 && WorkIndex(at) < WorkIndex(now))
    ensures var due := DueTick(now, ticked, d);
            && Turn(now) < Turn(due) <= Turn(now) + ASSISTANT_WHEEL_SIZE
            && Filed(w, now, id, d) == AddedAside(w, AssistantIndex(due), id, WorkIndex(due))
  {
    DueFacts(now, ticked, d);
  }

  /** Filed in the assistant wheel. */
  lemma FiledAside(w: Wheel, t: Table, onWork: set<TaskId>, id: TaskId, d: nat)
    requires Represents(w, t, onWork) && Enabled(t, Add(id, d))
    requires var at := WorkIndex(t.now) + Ticks(d);
             at >= WORK_WHEEL_SIZE && !(Turn(at) == 1 && WorkIndex(at) < WorkIndex(t.now))
    ensures Represents(Filed(w, t.now, id, d), t.(due := t.due[id := DueTick(t.now, t.ticked, d)]), onWork - {id})
  {
    FiledAsideIs(w, t.now, t.ticked, id, d);
    FileOnAssistant(w, t, onWork, id, DueTick(t.now, t.ticked, d));
  }

  lemma FiledRepresents(w: Wheel, t: Table, onWork: set<TaskId>, id: TaskId, d: nat) returns (on': set<TaskId>)
    requires Represents(w, t, onWork) && Enabled(t, Add(id, d))
    ensures Represents(Filed(w, t.now, id, d), t.(due := t.due[id := DueTick(t.now, t.ticked, d)]), on')
  {
    var at := WorkIndex(t.now) + Ticks(d);
    if at < WORK_WHEEL_SIZE {
      on' := onWork + {id};
      FiledHere(w, t, onWork, id, d);
    } else if Turn(at) == 1 && WorkIndex(at) < WorkIndex(t.now) {
      on' := onWork + {id};
      FiledSoon(w, t, onWork, id, d);
    } else {
      on' := onWork - {id};
      FiledAside(w, t, onWork, id, d);
    }
  }

  // ----- Expire -----

  lemma ExpireRepresents(w: Wheel, t: Table, onWork: set<TaskId>, id: TaskId)
    requires Represents(w, t, onWork)
    ensures Represents(w.(dead := w.dead + {id}), t.(due := t.due - {id}, dead := t.dead + {id}), onWork)
  {
    var w', t' := w.(dead := w.dead + {id}), t.(due := t.due - {id}, dead := t.dead + {id});
    forall i, x | 0 <= i < WORK_WHEEL_SIZE && x in w'.work[i] && x !in w'.dead ensures OnWork(t', onWork, x, i) {
      assert OnWork(t, onWork, x, i);
    }
    forall j, x | 0 <= j < ASSISTANT_WHEEL_SIZE && x in w'.assistant[j] && x !in w'.dead
      ensures OnAssistant(w', t', onWork, x, j)
    {
      assert OnAssistant(w, t, onWork, x, j);
    }
  }

  // ----- the index advance and Cascade -----

  ghost predicate Cascadable(list: Bucket, w: Wheel) {
    forall id | id in list && id !in w.dead :: id in w.remainder && w.remainder[id] < WORK_WHEEL_SIZE
  }

  /** File one task by its remainder, unless it is dead. */
  function CascadeOne(work: seq<Bucket>, id: TaskId, w: Wheel): (r: seq<Bucket>)
    requires |work| == WORK_WHEEL_SIZE && (id !in w.dead ==> id in w.remainder && w.remainder[id] < WORK_WHEEL_SIZE)
    ensures |r| == WORK_WHEEL_SIZE
  {
    if id in w.dead then work else work[w.remainder[id] := work[w.remainder[id]] + [id]]
  }

  lemma NextIndex(now: nat)
    ensures (WorkIndex(now) + 1) % WORK_WHEEL_SIZE == WorkIndex(now + 1)
    ensures if WorkIndex(now + 1) == 0 then (AssistantIndex(now) + 1) % ASSISTANT_WHEEL_SIZE == AssistantIndex(now + 1)
            else Turn(now + 1) == Turn(now)
  {
    if WorkIndex(now + 1) == 0 { assert Turn(now + 1) == Turn(now) + 1; }
  }

  /** Cascade: the live tasks of a list are filed by their remainders, in order. */
  function CascadeInto(work: seq<Bucket>, list: Bucket, w: Wheel): (r: seq<Bucket>)
    requires |work| == WORK_WHEEL_SIZE && Cascadable(list, w)
    ensures |r| == WORK_WHEEL_SIZE
    decreases |list|
  {
    if list == [] then work else CascadeInto(CascadeOne(work, list[0], w), list[1..], w)
  }

  lemma {:induction false} CascadeFacts(work: seq<Bucket>, list: Bucket, w: Wheel)
    requires |work| == WORK_WHEEL_SIZE && Cascadable(list, w) && LiveOnce(list, w.dead)
    requires forall i | 0 <= i < WORK_WHEEL_SIZE :: LiveOnce(work[i], w.dead)
    requires forall i, id | 0 <= i < WORK_WHEEL_SIZE && id in list && id !in w.dead :: id !in work[i]
    ensures var r := CascadeInto(work, list, w);
            && (forall i | 0 <= i < WORK_WHEEL_SIZE :: LiveOnce(r[i], w.dead))
            && (forall i, id | 0 <= i < WORK_WHEEL_SIZE && id !in w.dead ::
                  id in r[i] <==> id in work[i] || (id in list && w.remainder[id] == i))
    decreases |list|
  {
    if list != [] {
      var id := list[0];
      assert forall x :: x in list <==> x == id || x in list[1..];
      var work' := CascadeOne(work, id, w);
      if id !in w.dead { AppendOnce(work[w.remainder[id]], id, w.dead); }
      assert forall i | 0 <= i < WORK_WHEEL_SIZE :: LiveOnce(work'[i], w.dead);
      assert forall i, x | 0 <= i < WORK_WHEEL_SIZE && x !in w.dead ::
          x in work'[i] <==> x in work[i] || (x == id && w.remainder[id] == i);
      CascadeFacts(work', list[1..], w);
    }
  }

  lemma AdvanceRepresents(w: Wheel, t: Table, onWork: set<TaskId>)
    requires Represents(w, t, onWork) && t.ticked && WorkIndex(t.now + 1) != 0
    ensures Represents(w, t.(now := t.now + 1, ticked := false), onWork)
  {
    var t' := t.(now := t.now + 1, ticked := false);
    assert Turn(t'.now) == Turn(t.now);
    forall i, id | 0 <= i < WORK_WHEEL_SIZE && id in w.work[i] && id !in w.dead ensures OnWork(t', onWork, id, i) {
      assert OnWork(t, onWork, id, i);
    }
    forall j, id | 0 <= j < ASSISTANT_WHEEL_SIZE && id in w.assistant[j] && id !in w.dead
      ensures OnAssistant(w, t', onWork, id, j)
    {
      assert OnAssistant(w, t, onWork, id, j);
    }
  }

  /** Within ASSISTANT_WHEEL_SIZE rounds only one has the slot of the first. */
  lemma RoundSlot(round: nat, r: nat)
    requires round <= r <= round + ASSISTANT_WHEEL_SIZE - 1
    ensures r % ASSISTANT_WHEEL_SIZE == round % ASSISTANT_WHEEL_SIZE <==> r == round
  {}

  /** The list to be cascaded holds exactly the tasks of the round that begins. */
  lemma CascadeReady(w: Wheel, t: Table, onWork: set<TaskId>)
    requires Represents(w, t, onWork) && t.ticked && WorkIndex(t.now + 1) == 0
    ensures Cascadable(w.assistant[AssistantIndex(t.now + 1)], w)
    ensures forall j, id | 0 <= j < ASSISTANT_WHEEL_SIZE && id in w.assistant[j] && id !in w.dead ::
              (j == AssistantIndex(t.now + 1) <==> Turn(t.due[id]) == Turn(t.now + 1))
    ensures forall i, id | 0 <= i < WORK_WHEEL_SIZE && id in w.assistant[AssistantIndex(t.now + 1)] && id !in w.dead ::
              id !in w.work[i]
  {
    var round := Turn(t.now + 1);
    assert round == Turn(t.now) + 1;
    forall j, id | 0 <= j < ASSISTANT_WHEEL_SIZE && id in w.assistant[j] && id !in w.dead
      ensures id in w.remainder && w.remainder[id] < WORK_WHEEL_SIZE && id !in onWork
      ensures j == round % ASSISTANT_WHEEL_SIZE <==> Turn(t.due[id]) == round
    {
      assert OnAssistant(w, t, onWork, id, j);
      var r := Turn(t.due[id]);
      RoundSlot(round, r);
    }
    forall i, id | 0 <= i < WORK_WHEEL_SIZE && id in w.assistant[round % ASSISTANT_WHEEL_SIZE] && id !in w.dead
      ensures id !in w.work[i]
    {
      assert id in w.work[i] && id !in w.dead ==> OnWork(t, onWork, id, i);
    }
  }

  /** A task of the round that begins is on the work wheel from now on. */
  lemma CascadedOnWork(w: Wheel, t: Table, onWork: set<TaskId>, on': set<TaskId>, id: TaskId, j: nat)
    requires OnAssistant(w, t, onWork, id, j) && t.ticked && WorkIndex(t.now + 1) == 0
    requires Turn(t.due[id]) == Turn(t.now + 1) && id in on'
    ensures OnWork(t.(now := t.now + 1, ticked := false), on', id, w.remainder[id])
  {}

  lemma StaysOnWork(t: Table, onWork: set<TaskId>, on': set<TaskId>, id: TaskId, i: nat)
    requires OnWork(t, onWork, id, i) && t.ticked && onWork <= on'
    ensures OnWork(t.(now := t.now + 1, ticked := false), on', id, i)
  {}

  /** A task of a later round stays where it is. */
  lemma StaysOnAssistant(w: Wheel, w': Wheel, t: Table, onWork: set<TaskId>, on': set<TaskId>, id: TaskId, j: nat)
    requires OnAssistant(w, t, onWork, id, j) && t.ticked && w'.remainder == w.remainder && id !in on'
    requires Turn(t.due[id]) != Turn(t.now + 1)
    ensures OnAssistant(w', t.(now := t.now + 1, ticked := false), on', id, j)
  {
    assert Turn(t.now + 1) == if WorkIndex(t.now + 1) == 0 then Turn(t.now) + 1 else Turn(t.now);
  }

  /** What holds in the wheels after the cascade, list by list. */
  lemma CascadeLists(w: Wheel, t: Table, onWork: set<TaskId>, on': set<TaskId>, w': Wheel, t': Table, j0: nat)
    requires Represents(w, t, onWork) && t.ticked && WorkIndex(t.now + 1) == 0 && j0 == AssistantIndex(t.now + 1)
    requires Cascadable(w.assistant[j0], w) && on' == onWork + set id | id in w.assistant[j0]
    requires w' == w.(work := CascadeInto(w.work, w.assistant[j0], w), assistant := w.assistant[j0 := []])
    requires t' == t.(now := t.now + 1, ticked := false)
    ensures forall i, id | 0 <= i < WORK_WHEEL_SIZE && id in w'.work[i] && id !in w'.dead :: OnWork(t', on', id, i)
    ensures forall j, id | 0 <= j < ASSISTANT_WHEEL_SIZE && id in w'.assistant[j] && id !in w'.dead ::
              OnAssistant(w', t', on', id, j)
    ensures forall i | 0 <= i < WORK_WHEEL_SIZE :: LiveOnce(w'.work[i], w'.dead)
  {
    CascadeReady(w, t, onWork);
    CascadeFacts(w.work, w.assistant[j0], w);
    forall i, id | 0 <= i < WORK_WHEEL_SIZE && id in w'.work[i] && id !in w'.dead ensures OnWork(t', on', id, i) {
      if id in w.work[i] { StaysOnWork(t, onWork, on', id, i); }
      else { CascadedOnWork(w, t, onWork, on', id, j0); }
    }
    forall j, id | 0 <= j < ASSISTANT_WHEEL_SIZE && id in w'.assistant[j] && id !in w'.dead
      ensures OnAssistant(w', t', on', id, j)
    {
      assert id in w.assistant[j0] ==> OnAssistant(w, t, onWork, id, j0);
      StaysOnAssistant(w, w', t, onWork, on', id, j);
    }
  }

  /** Where each task is found after the cascade. */
  lemma CascadeFinds(w: Wheel, t: Table, onWork: set<TaskId>, on': set<TaskId>, w': Wheel, id: TaskId, j0: nat)
    requires Represents(w, t, onWork) && t.ticked && WorkIndex(t.now + 1) == 0 && j0 == AssistantIndex(t.now + 1)
    requires Cascadable(w.assistant[j0], w) && on' == onWork + set id | id in w.assistant[j0]
    requires w' == w.(work := CascadeInto(w.work, w.assistant[j0], w), assistant := w.assistant[j0 := []])
    requires id in t.due
    ensures id in on' ==> id in w'.work[WorkIndex(t.due[id])]
    ensures id !in on' ==> id in w'.assistant[AssistantIndex(t.due[id])]
  {
    CascadeReady(w, t, onWork);
    CascadeFacts(w.work, w.assistant[j0], w);
    if id in onWork {
      assert id in w.work[WorkIndex(t.due[id])];
    } else {
      var j := AssistantIndex(t.due[id]);
      assert id in w.assistant[j] && OnAssistant(w, t, onWork, id, j);
      assert id in w.assistant[j0] ==> OnAssistant(w, t, onWork, id, j0);
    }
  }

  lemma CascadeRepresents(w: Wheel, t: Table, onWork: set<TaskId>) returns (on': set<TaskId>)
    requires Represents(w, t, onWork) && t.ticked && WorkIndex(t.now + 1) == 0
    ensures Cascadable(w.assistant[AssistantIndex(t.now + 1)], w)
    ensures var j := AssistantIndex(t.now + 1);
            Represents(w.(work := CascadeInto(w.work, w.assistant[j], w), assistant := w.assistant[j := []]),
                       t.(now := t.now + 1, ticked := false), on')
  {
    var j0 := AssistantIndex(t.now + 1);
    CascadeReady(w, t, onWork);
    on' := onWork + set id | id in w.assistant[j0];
    var w' := w.(work := CascadeInto(w.work, w.assistant[j0], w), assistant := w.assistant[j0 := []]);
    var t' := t.(now := t.now + 1, ticked := false);
    CascadeLists(w, t, onWork, on', w', t', j0);
    forall id | id in t'.due
      ensures if id in on' then id in w'.work[WorkIndex(t'.due[id])] else id in w'.assistant[AssistantIndex(t'.due[id])]
    {
      CascadeFinds(w, t, onWork, on', w', id, j0);
    }
  }

  // ----- the code -----

  /** What a cascade needs, if there is one when the index moves on. */
  ghost predicate Movable(w: Wheel, now: nat) {
    && |w.work| == WORK_WHEEL_SIZE && |w.assistant| == ASSISTANT_WHEEL_SIZE
    && (WorkIndex(now + 1) == 0 ==> Cascadable(w.assistant[AssistantIndex(now + 1)], w))
  }

  /** The wheels after the index has moved on from tick now. */
  ghost function Moved(w: Wheel, now: nat): Wheel
    requires Movable(w, now)
  {
    var j := AssistantIndex(now + 1);
    if WorkIndex(now + 1) != 0 then w
    else w.(work := CascadeInto(w.work, w.assistant[j], w), assistant := w.assistant[j := []])
  }

  lemma MovedRepresents(w: Wheel, t: Table, onWork: set<TaskId>) returns (on': set<TaskId>)
    requires Represents(w, t, onWork) && t.ticked
    ensures Movable(w, t.now) && Represents(Moved(w, t.now), t.(now := t.now + 1, ticked := false), on')
  {
    if WorkIndex(t.now + 1) == 0 {
      on' := CascadeRepresents(w, t, onWork);
    } else {
      AdvanceRepresents(w, t, onWork);
      on' := onWork;
    }
  }

  class TimingWheel {
    const work: array<Bucket>
    const assistant: array<Bucket>
    var currentWork: nat
    var currentAssistant: nat
    var tickCount: nat
    var remainder: map<TaskId, nat>    // remainder_interval_ms of the tasks
    var dead: set<TaskId>
    ghost var table: Table
    ghost var onWork: set<TaskId>

    ghost function Value(): Wheel
      reads this, work, assistant
    {
      Wheel(work[..], assistant[..], remainder, dead)
    }

    ghost predicate Valid()
      reads this, work, assistant
    {
      && work.Length == WORK_WHEEL_SIZE && assistant.Length == ASSISTANT_WHEEL_SIZE && work != assistant
      && currentWork == WorkIndex(table.now) && currentAssistant == AssistantIndex(table.now)
      && Represents(Value(), table, onWork)
    }

    constructor ()
      ensures Valid() && fresh(work) && fresh(assistant)
      ensures table == Table(0, false, map[], {}, [])
    {
      work := new Bucket[WORK_WHEEL_SIZE](_ => []);
      assistant := new Bucket[ASSISTANT_WHEEL_SIZE](_ => []);
      currentWork, currentAssistant, tickCount := 0, 0, 0;
      remainder, dead, onWork := map[], {}, {};
      table := Table(0, false, map[], {}, []);
    }

    /** Fires the tasks of the current bucket, dropping dead ones, and empties it. */
    method Tick() returns (fired: seq<TaskId>)
      requires Valid() && !table.ticked
      modifies this`table, work
      ensures Valid() && FiresDue(old(table), table, fired)
    {
      ghost var w := Value();
      ghost var list := work[currentWork];
      ghost var t' := TickFires(w, table, onWork);
      TickRepresents(w, table, onWork, t');
      fired := [];
      ghost var k := 0;
      while work[currentWork] != []
        modifies work
        invariant 0 <= k <= |list| && work[currentWork] == list[k..]
        invariant work[..] == w.work[currentWork := list[k..]]
        invariant fired == Live(list[..k], dead)
        decreases |work[currentWork]|
      {
        var id := work[currentWork][0];
        assert list[..k + 1] == list[..k] + [id];
        LiveSnoc(list[..k], id, dead);
        if id !in dead {
          fired := fired + [id];
        }
        work[currentWork] := work[currentWork][1..];
        k := k + 1;
      }
      assert list[..k] == list;
      table := t';
    }

    /** AddTask, for a task that is not filed already. */
    method AddTask(id: TaskId, nextFireDurationMs: nat)
      requires Valid() && Enabled(table, Add(id, nextFireDurationMs))
      modifies this`table, this`onWork, this`remainder, work, assistant
      ensures Valid() && TableStep(old(table), Add(id, nextFireDurationMs), table)
    {
      ghost var w := Value();
      onWork := FiledRepresents(w, table, onWork, id, nextFireDurationMs);
      File(id, nextFireDurationMs);
      table := table.(due := table.due[id := DueTick(table.now, table.ticked, nextFireDurationMs)]);
    }

    method File(id: TaskId, nextFireDurationMs: nat)
      requires work.Length == WORK_WHEEL_SIZE && assistant.Length == ASSISTANT_WHEEL_SIZE && work != assistant
      requires currentWork == WorkIndex(table.now) && currentAssistant == AssistantIndex(table.now)
      modifies this`remainder, work, assistant
      ensures Value() == Filed(old(Value()), table.now, id, nextFireDurationMs)
    {
      ghost var w := Value();
      var workIndex := currentWork + Ticks(nextFireDurationMs);
      if workIndex >= WORK_WHEEL_SIZE {
        var index := WorkIndex(workIndex);
        remainder := remainder[id := index];
        var ticks := Turn(workIndex);
        if ticks == 1 && index < currentWork {
          work[index] := work[index] + [id];
          assert work[..] == w.work[index := w.work[index] + [id]];
        } else {
          var j := (currentAssistant + ticks) % ASSISTANT_WHEEL_SIZE;
          assistant[j] := assistant[j] + [id];
          assert assistant[..] == w.assistant[j := w.assistant[j] + [id]];
        }
      } else {
        work[workIndex] := work[workIndex] + [id];
        assert work[..] == w.work[workIndex := w.work[workIndex] + [id]];
      }
    }

    /** The owner of a task lets go of it. */
    method Expire(id: TaskId)
      requires Valid()
      modifies this`table, this`dead
      ensures Valid() && TableStep(old(table), Op.Expire(id), table)
    {
      ExpireRepresents(Value(), table, onWork, id);
      dead := dead + {id};
      table := table.(due := table.due - {id}, dead := table.dead + {id});
    }

    /** Moves the live tasks of an assistant bucket to the work wheel. */
    method Cascade(index: nat)
      requires work.Length == WORK_WHEEL_SIZE && assistant.Length == ASSISTANT_WHEEL_SIZE && work != assistant
      requires index < ASSISTANT_WHEEL_SIZE
      requires Cascadable(assistant[index], Value())
      modifies work, assistant
      ensures work[..] == CascadeInto(old(work[..]), old(assistant[index]), old(Value()))
      ensures assistant[..] == old(assistant[..])[index := []]
    {
      ghost var w := Value();
      while assistant[index] != []
        invariant Cascadable(assistant[index], w)
        invariant CascadeInto(work[..], assistant[index], w) == CascadeInto(w.work, w.assistant[index], w)
        invariant assistant[..] == w.assistant[index := assistant[index]]
        decreases |assistant[index]|
      {
        var id := assistant[index][0];
        ghost var was := work[..];
        if id !in dead {
          work[remainder[id]] := work[remainder[id]] + [id];
        }
        assert work[..] == CascadeOne(was, id, w);
        assistant[index] := assistant[index][1..];
      }
    }

    /** The part of TickFunc after the sleep, on the wheels. */
    method MoveIndex(ghost now: nat)
      requires work.Length == WORK_WHEEL_SIZE && assistant.Length == ASSISTANT_WHEEL_SIZE && work != assistant
      requires currentWork == WorkIndex(now) && currentAssistant == AssistantIndex(now) && Movable(Value(), now)
      modifies this`currentWork, this`currentAssistant, work, assistant
      ensures currentWork == WorkIndex(now + 1) && currentAssistant == AssistantIndex(now + 1)
      ensures Value() == Moved(old(Value()), now)
    {
      NextIndex(now);
      currentWork := (currentWork + 1) % WORK_WHEEL_SIZE;
      if currentWork == 0 {
        currentAssistant := (currentAssistant + 1) % ASSISTANT_WHEEL_SIZE;
        Cascade(currentAssistant);
      }
    }

    /** The same with the table. */
    method AdvanceIndex()
      requires Valid() && table.ticked
      modifies this`table, this`onWork, this`currentWork, this`currentAssistant, work, assistant
      ensures Valid() && TableStep(old(table), Advance, table)
    {
      ghost var w, now := Value(), table.now;
      onWork := MovedRepresents(w, table, onWork);
      MoveIndex(now);
      table := table.(now := now + 1, ticked := false);
      assert Value() == Moved(w, now);
    }

    /** One operation of the wheel. */
    method Do(op: Op)
      requires Valid() && Enabled(table, op)
      modifies this, work, assistant
      ensures Valid() && TableStep(old(table), op, table)
    {
      match op {
        case Add(id, duration) => AddTask(id, duration);
        case Expire(id) => Expire(id);
        case Tick => var _ := Tick();
        case Advance => AdvanceIndex();
      }
    }

    /** Any sequence of operations does to the wheel what it does to the table. */
    method Drive(ops: seq<Op>) returns (ghost run: seq<Table>)
      requires Valid() && Callable(table, ops)
      modifies this, work, assistant
      ensures Valid() && TableSteps(run, ops) && run[0] == old(table) && run[|ops|] == table
    {
      run := [table];
      var k := 0;
      while k < |ops|
        invariant 0 <= k <= |ops| && Valid() && Callable(table, ops[k..])
        invariant TableSteps(run, ops[..k]) && run[0] == old(table) && run[k] == table
      {
        assert ops[k..][0] == ops[k] && ops[k..][1..] == ops[k + 1..];
        ghost var t := table;
        Do(ops[k]);
        assert TableStep(t, ops[k..][0], table);
        TableStepsMore(run, ops[..k], ops[k], table);
        assert ops[..k + 1] == ops[..k] + [ops[k]];
        run := run + [table];
        k := k + 1;
      }
      assert ops[..k] == ops;
    }

    /** TickFunc, for a given number of iterations without arrivals in between: every task
        that falls due meanwhile is fired once, at its due tick, and no other is fired. */
    method TickFunc(iterations: nat)
      requires Valid() && !table.ticked
      modifies this, work, assistant
      ensures Valid() && !table.ticked && table.now == old(table.now) + iterations
      ensures tickCount == old(tickCount) + iterations && FiredSince(old(table), table)
    {
      ghost var t0 := table;
      var k := 0;
      AllAhead(Value(), table, onWork);
      FiredNothing(t0);
      while k < iterations
        invariant 0 <= k <= iterations && Valid() && !table.ticked
        invariant table.now == t0.now + k && tickCount == old(tickCount) + k
        invariant FiredSince(t0, table)
      {
        ghost var t1 := table;
        var fired := Tick();
        ghost var t2 := table;
        tickCount := tickCount + 1;
        AdvanceIndex();
        FiredMore(t0, t1, t2, table);
        k := k + 1;
      }
    }
  }

  /** Between t0 and t exactly the tasks that fell due were fired, once each and at their due
      ticks, and the others are still pending. */
  ghost predicate FiredSince(t0: Table, t: Table) {
    && t.dead == t0.dead && t0.log <= t.log
    && (forall id :: FiringsOf(t.log[|t0.log|..], id) ==
                     if id in t0.due && t0.due[id] < t.now then [t0.due[id]] else [])
    && (forall id :: id in t.due <==> id in t0.due && t0.due[id] >= t.now)
    && forall id | id in t.due :: t.due[id] == t0.due[id]
  }

  lemma FiredNothing(t: Table)
    requires !t.ticked && forall id | id in t.due :: !Passed(t, t.due[id])
    ensures FiredSince(t, t)
  {
    assert t.log[|t.log|..] == [];
  }

  /** One iteration: a tick and an advance. */
  lemma FiredMore(t0: Table, t1: Table, t2: Table, t3: Table)
    requires FiredSince(t0, t1) && TableStep(t1, Op.Tick, t2) && TableStep(t2, Advance, t3)
    ensures FiredSince(t0, t3)
  {
    assert t2.log[|t0.log|..] == t1.log[|t0.log|..] + t2.log[|t1.log|..];
    forall id
      ensures FiringsOf(t2.log[|t0.log|..], id) == if id in t0.due && t0.due[id] <= t1.now then [t0.due[id]] else []
    {
      TickFiresDue(t1, t2, id);
      FiringsOfConcat(t1.log[|t0.log|..], t2.log[|t1.log|..], id);
    }
  }

  /** Everything pending lies ahead. */
  lemma AllAhead(w: Wheel, t: Table, onWork: set<TaskId>)
    requires Represents(w, t, onWork)
    ensures forall id | id in t.due :: !Passed(t, t.due[id])
  {
    forall id | id in t.due ensures !Passed(t, t.due[id]) {
      if id in onWork { assert OnWork(t, onWork, id, WorkIndex(t.due[id])); }
      else { assert OnAssistant(w, t, onWork, id, AssistantIndex(t.due[id])); }
    }
  }

  // ----- main results -----

  /** The wheel is filed exactly: the task is due after the rounded-up duration, unless the
      duration is zero and the current bucket was already served, or so long that it passes
      the assistant wheel more than once. */
  lemma ExactDue(now: nat, ticked: bool, duration: nat)
    ensures DueTick(now, ticked, duration) == now + Ticks(duration) <==>
            && !(duration == 0 && ticked)
            && WorkIndex(now) + Ticks(duration) < (ASSISTANT_WHEEL_SIZE + 1) * WORK_WHEEL_SIZE
    ensures 1 <= duration < TIMER_MAX_INTERVAL_MS ==> DueTick(now, ticked, duration) == now + Ticks(duration)
  {
    var at := WorkIndex(now) + Ticks(duration);
    if at >= WORK_WHEEL_SIZE {
      var r := Turn(at);
      assert at == r * WORK_WHEEL_SIZE + WorkIndex(at) && now == (Turn(now)) * WORK_WHEEL_SIZE + WorkIndex(now);
      if r <= ASSISTANT_WHEEL_SIZE { assert (r - 1) % ASSISTANT_WHEEL_SIZE == r - 1; }
    }
  }

  /** The task is due after exactly as many ticks as its duration takes, rounded up. */
  ghost predicate RoundedUp(now: nat, duration: nat, due: nat) {
    TIMER_RESOLUTION_MS * (due - now - 1) < duration <= TIMER_RESOLUTION_MS * (due - now)
  }

  /** In milliseconds, for every duration that a timer may ask for. */
  lemma DueRoundedUp(now: nat, ticked: bool, duration: nat)
    requires 1 <= duration < TIMER_MAX_INTERVAL_MS
    ensures RoundedUp(now, duration, DueTick(now, ticked, duration))
  {
    ExactDue(now, ticked, duration);
  }

  /** For any duration at all: a longer one is due at the same place of the two wheels, but
      after fewer turns of the assistant wheel; a zero one is due at once, or one turn later
      if the current bucket was served. */
  lemma DueModuloTurns(now: nat, ticked: bool, duration: nat) returns (turns: nat)
    ensures var due := DueTick(now, ticked, duration);
            if duration == 0 then due == if ticked then now + WORK_WHEEL_SIZE else now
            else RoundedUp(now, duration, due + turns * (ASSISTANT_WHEEL_SIZE * WORK_WHEEL_SIZE))
                 && now < due && Turn(due) <= Turn(now) + ASSISTANT_WHEEL_SIZE
  {
    var at := WorkIndex(now) + Ticks(duration);
    turns := if at < WORK_WHEEL_SIZE then 0 else (Turn(at) - 1) / ASSISTANT_WHEEL_SIZE;
    DueFacts(now, ticked, duration);
    if at >= WORK_WHEEL_SIZE {
      assert at == Turn(at) * WORK_WHEEL_SIZE + WorkIndex(at) && now == Turn(now) * WORK_WHEEL_SIZE + WorkIndex(now);
      assert Turn(at) - 1 == turns * ASSISTANT_WHEEL_SIZE + (Turn(at) - 1) % ASSISTANT_WHEEL_SIZE;
    }
  }

  /** The ticks at which id was fired, in order. */
  function FiringsOf(log: seq<Firing>, id: TaskId): seq<nat> {
    if log == [] then []
    else FiringsOf(log[..|log| - 1], id) + (if log[|log| - 1].id == id then [log[|log| - 1].tick] else [])
  }

  lemma {:induction false} FiringsOfConcat(a: seq<Firing>, b: seq<Firing>, id: TaskId)
    ensures FiringsOf(a + b, id) == FiringsOf(a, id) + FiringsOf(b, id)
    decreases |b|
  {
    if b == [] {
      assert a + b == a;
    } else {
      FiringsOfConcat(a, b[..|b| - 1], id);
      assert (a + b)[..|a + b| - 1] == a + b[..|b| - 1];
    }
  }

  lemma {:induction false} FiringsOfTick(fired: seq<TaskId>, tick: nat, id: TaskId)
    requires Unique(fired)
    ensures FiringsOf(At(fired, tick), id) == if id in fired then [tick] else []
  {
    if fired != [] {
      var front := fired[..|fired| - 1];
      FiringsOfTick(front, tick, id);
      assert At(fired, tick)[..|fired| - 1] == At(front, tick);
      assert fired == front + [fired[|fired| - 1]];
    }
  }

  /** The task has had its tick. */
  predicate Passed(t: Table, due: nat) {
    t.now > due || (t.now == due && t.ticked)
  }

  lemma TickFiresDue(t: Table, t': Table, id: TaskId)
    requires TableStep(t, Tick, t')
    ensures t.log <= t'.log
    ensures FiringsOf(t'.log[|t.log|..], id) == if id in t.due && t.due[id] == t.now then [t.now] else []
    ensures id in t'.due <==> id in t.due && t.due[id] != t.now
    ensures id in t'.due ==> t'.due[id] == t.due[id]
    ensures t'.now == t.now && t'.ticked
  {
    var fired :| FiresDue(t, t', fired);
    FiringsOfTick(fired, t.now, id);
    assert t'.log[|t.log|..] == At(fired, t.now);
  }

  /** Since `before` was logged, the task was fired exactly once, at its due tick, if that has
      passed; otherwise it is pending and was not fired. */
  ghost predicate FiredOnce(before: seq<Firing>, t: Table, id: TaskId, due: nat) {
    && before <= t.log
    && FiringsOf(t.log[|before|..], id) == (if Passed(t, due) then [due] else [])
    && (id in t.due <==> !Passed(t, due))
    && (id in t.due ==> t.due[id] == due)
  }

  lemma FiringsMore(before: seq<Firing>, log: seq<Firing>, log': seq<Firing>, id: TaskId)
    requires before <= log <= log'
    ensures FiringsOf(log'[|before|..], id) == FiringsOf(log[|before|..], id) + FiringsOf(log'[|log|..], id)
  {
    assert log'[|before|..] == log[|before|..] + log'[|log|..];
    FiringsOfConcat(log[|before|..], log'[|log|..], id);
  }

  lemma FiredOnceStep(before: seq<Firing>, t: Table, op: Op, t': Table, id: TaskId, due: nat)
    requires FiredOnce(before, t, id, due) && TableStep(t, op, t')
    requires op != Expire(id) && (op.Add? ==> op.id != id)
    ensures FiredOnce(before, t', id, due)
  {
    if op.Tick? {
      TickFiresDue(t, t', id);
      FiringsMore(before, t.log, t'.log, id);
    } else {
      assert t'.log == t.log;
    }
  }

  /** In every run of the wheel: a task added at step i, that stays alive and is not added
      again up to state j, is fired exactly once, at its due tick; before that it is pending
      and has not been fired, and afterwards it is gone. */
  lemma {:induction false} FiresExactlyOnce(run: seq<Table>, ops: seq<Op>, i: nat, j: nat)
    requires TableSteps(run, ops) && i < j < |run| && ops[i].Add?
    requires forall k | i < k < j :: ops[k] != Expire(ops[i].id) && (ops[k].Add? ==> ops[k].id != ops[i].id)
    ensures FiredOnce(run[i].log, run[j], ops[i].id, DueTick(run[i].now, run[i].ticked, ops[i].duration))
    decreases j
  {
    var id, d := ops[i].id, ops[i].duration;
    if j == i + 1 {
      assert StepAt(run, ops, i);
      NotYetPassed(run[i], d);
      assert run[j].log[|run[i].log|..] == [];
    } else {
      FiresExactlyOnce(run, ops, i, j - 1);
      assert StepAt(run, ops, j - 1);
      FiredOnceStep(run[i].log, run[j - 1], ops[j - 1], run[j], id, DueTick(run[i].now, run[i].ticked, d));
    }
  }

  /** In milliseconds: a task with a duration that a timer may ask for is fired at most once,
      after its duration rounded up to ticks, and has been fired when that has passed. */
  lemma FiresOnTime(run: seq<Table>, ops: seq<Op>, i: nat, j: nat)
    requires TableSteps(run, ops) && i < j < |run| && ops[i].Add?
    requires forall k | i < k < j :: ops[k] != Expire(ops[i].id) && (ops[k].Add? ==> ops[k].id != ops[i].id)
    requires 1 <= ops[i].duration < TIMER_MAX_INTERVAL_MS
    ensures run[i].log <= run[j].log
    ensures var now, d := run[i].now, ops[i].duration;
            var fired := FiringsOf(run[j].log[|run[i].log|..], ops[i].id);
            && |fired| <= 1
            && (forall x | x in fired :: TIMER_RESOLUTION_MS * (x - now - 1) < d <= TIMER_RESOLUTION_MS * (x - now))
            && (d <= TIMER_RESOLUTION_MS * (run[j].now - now - 1) ==> |fired| == 1)
  {
    FiresExactlyOnce(run, ops, i, j);
    DueRoundedUp(run[i].now, run[i].ticked, ops[i].duration);
  }

  /** A due tick lies ahead when it is assigned. */
  lemma NotYetPassed(t: Table, d: nat)
    ensures !Passed(t, DueTick(t.now, t.ticked, d))
  {
    var at := WorkIndex(t.now) + Ticks(d);
    if at >= WORK_WHEEL_SIZE && !(Turn(at) == 1 && WorkIndex(at) < WorkIndex(t.now)) {
      DueFacts(t.now, t.ticked, d);
    }
  }
}
