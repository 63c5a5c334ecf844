/**
 Progress of the insert-only hash map: from every reachable state, an operation of one thread
 that is not disturbed by the others completes, whatever stale pointers it holds.
 */
module HashMapProgress {
  import opened Options
  import opened AtomicHashMap

  /** Steps of one thread alone. */
  ghost predicate Solo<V>(path: seq<State<V>>, t: Tid) {
    path != [] && forall k | 0 <= k < |path| - 1 :: ThreadStep(path[k], path[k + 1], t)
  }

  /** A state of some run. */
  ghost predicate Reached<V(!new)>(s: State<V>) {
    exists run: seq<State<V>> :: Run(run) && run[|run| - 1] == s
  }

  lemma ReachedInv<V(!new)>(s: State<V>)
    requires Reached(s)
    ensures Inv(s)
  {
    var run :| Run(run) && run[|run| - 1] == s;
    RunInv(run, |run| - 1);
  }

  lemma ReachedNext<V(!new)>(s: State<V>, s': State<V>, t: Tid)
    requires Reached(s) && ThreadStep(s, s', t)
    ensures Reached(s')
  {
    var run :| Run(run) && run[|run| - 1] == s;
    var run' := run + [s'];
    forall i | 0 <= i < |run'| - 1 ensures StepAt(run', i) {
      if i < |run| - 1 { assert StepAt(run, i); } else { assert Step(s, s'); }
    }
    assert run'[|run'| - 1] == s';
  }

  /** From s on, thread t alone has completed the operation op. */
  ghost predicate Completed<V(!new)>(path: seq<State<V>>, s: State<V>, t: Tid, op: Op<V>) {
    && Solo(path, t) && path[0] == s
    && var e := path[|path| - 1];
       Reached(e) && t in e.pc && e.pc[t].Done? && e.log == s.log + [e.pc[t].event] && Completes(op, e.pc[t].event)
  }

  lemma StepBefore<V(!new)>(s: State<V>, s': State<V>, t: Tid, op: Op<V>, rest: seq<State<V>>)
    requires ThreadStep(s, s', t) && Completed(rest, s', t, op) && s'.log == s.log
    ensures Completed([s] + rest, s, t, op)
  {
    var path := [s] + rest;
    forall k | 0 <= k < |path| - 1 ensures ThreadStep(path[k], path[k + 1], t) {
      if k > 0 { assert path[k] == rest[k - 1] && path[k + 1] == rest[k]; }
    }
    assert path[|path| - 1] == rest[|rest| - 1];
  }

  lemma LastStep<V(!new)>(s: State<V>, s': State<V>, t: Tid, op: Op<V>)
    requires Reached(s) && ThreadStep(s, s', t) && t in s'.pc && s'.pc[t].Done?
    requires s'.log == s.log + [s'.pc[t].event] && Completes(op, s'.pc[t].event)
    ensures Completed([s, s'], s, t, op)
  {
    ReachedNext(s, s', t);
  }

  /** A name that no entry has. */
  lemma FreshId<V>(entries: map<Id, Entry<V>>) returns (id: Id)
    ensures id !in entries
  {
    id := Above(entries.Keys);
  }

  lemma FreshPtr<V>(entries: map<Id, Entry<V>>) returns (ptr: Ptr)
    ensures forall e | e in entries :: entries[e].ptr != ptr
  {
    var used := set e | e in entries :: entries[e].ptr;
    ptr := Above(used);
    assert forall e | e in entries :: entries[e].ptr in used;
  }

  lemma {:induction false} Above(s: set<nat>) returns (n: nat)
    ensures n !in s && forall x | x in s :: x < n
    decreases |s|
  {
    if s == {} {
      n := 0;
    } else {
      var x :| x in s;
      var m := Above(s - {x});
      n := if x < m then m else x + 1;
      assert forall y | y in s :: y == x || y in s - {x};
    }
  }

  lemma FromGetLoad<V(!new)>(s: State<V>, t: Tid) returns (path: seq<State<V>>)
    requires Reached(s) && t in s.pc && s.pc[t].GetLoad? && s.pc[t].e in s.entries
    ensures Completed(path, s, t, Get(s.pc[t].key))
  {
    var s' := Finish(s, t, GetEvent(s.pc[t].key, Some(s.entries[s.pc[t].e].val)));
    assert GetValue(s, s', t);
    LastStep(s, s', t, Get(s.pc[t].key));
    path := [s, s'];
  }

  lemma FromSetCas<V(!new)>(s: State<V>, t: Tid) returns (path: seq<State<V>>)
    requires Reached(s) && t in s.pc && s.pc[t].SetCas? && s.pc[t].e in s.entries
    requires s.entries[s.pc[t].e].ptr == s.pc[t].seen
    ensures Completed(path, s, t, Set(s.pc[t].key, s.pc[t].v))
  {
    var e, v := s.pc[t].e, s.pc[t].v;
    var ptr := FreshPtr(s.entries);
    var s' := Finish(s, t, SetEvent(s.pc[t].key, v)).(entries := s.entries[e := s.entries[e].(ptr := ptr, val := v)]);
    assert SetSwap(s, s', t);
    LastStep(s, s', t, Set(s.pc[t].key, v));
    path := [s, s'];
  }

  lemma FromSetLoad<V(!new)>(s: State<V>, t: Tid) returns (path: seq<State<V>>)
    requires Reached(s) && t in s.pc && s.pc[t].SetLoad? && s.pc[t].e in s.entries
    ensures Completed(path, s, t, Set(s.pc[t].key, s.pc[t].v))
  {
    var s' := s.(pc := s.pc[t := SetCas(s.pc[t].key, s.pc[t].v, s.pc[t].e, s.entries[s.pc[t].e].ptr)]);
    assert SetLoadPtr(s, s', t);
    ReachedNext(s, s', t);
    var rest := FromSetCas(s', t);
    StepBefore(s, s', t, Set(s.pc[t].key, s.pc[t].v), rest);
    path := [s] + rest;
  }

  /** The table with a new entry between prev and target. */
  ghost function Linked<V>(s: State<V>, t: Tid, id: Id, ptr: Ptr): State<V>
    requires AtLink(s, t)
  {
    var pc := s.pc[t];
    Finish(s, t, SetEvent(pc.key, pc.v))
    .(first := if pc.prev.Head? then s.first[Bucket(pc.key, s.tableSize) := Some(id)] else s.first,
      entries := (if pc.prev.Head? then s.entries
                  else s.entries[pc.prev.id := s.entries[pc.prev.id].(next := Some(id))])
                 [id := Entry(pc.key, ptr, pc.v, pc.target)],
      index := s.index[pc.key := id])
  }

  lemma FromLink<V(!new)>(s: State<V>, t: Tid) returns (path: seq<State<V>>)
    requires Reached(s) && AtLink(s, t) && NextOf(s, s.pc[t].key, s.pc[t].prev) == s.pc[t].target
    ensures Completed(path, s, t, Set(s.pc[t].key, s.pc[t].v))
  {
    var id := FreshId(s.entries);
    var ptr := FreshPtr(s.entries);
    var s' := Linked(s, t, id, ptr);
    assert LinkSwap(s, s', t, id);
    LastStep(s, s', t, Set(s.pc[t].key, s.pc[t].v));
    path := [s, s'];
  }

  /** What the walk loads next. */
  ghost function Loaded<V>(s: State<V>, t: Tid): Option<Id>
    requires AtWalk(s, t)
  {
    NextOf(s, s.pc[t].op.key, s.pc[t].prev)
  }

  lemma FoundHas<V(!new)>(s: State<V>, t: Tid) returns (path: seq<State<V>>)
    requires Reached(s) && AtWalk(s, t) && s.pc[t].op.Has?
    requires Loaded(s, t).Some? && s.entries[Loaded(s, t).value].key == s.pc[t].op.key
    ensures Completed(path, s, t, s.pc[t].op)
  {
    var s' := Finish(s, t, HasEvent(s.pc[t].op.key, true));
    assert WalkFound(s, s', t);
    LastStep(s, s', t, s.pc[t].op);
    path := [s, s'];
  }

  lemma FoundGet<V(!new)>(s: State<V>, t: Tid) returns (path: seq<State<V>>)
    requires Reached(s) && AtWalk(s, t) && s.pc[t].op.Get?
    requires Loaded(s, t).Some? && s.entries[Loaded(s, t).value].key == s.pc[t].op.key
    ensures Completed(path, s, t, s.pc[t].op)
  {
    var s' := s.(pc := s.pc[t := GetLoad(s.pc[t].op.key, Loaded(s, t).value)]);
    assert WalkFound(s, s', t);
    ReachedNext(s, s', t);
    var rest := FromGetLoad(s', t);
    StepBefore(s, s', t, s.pc[t].op, rest);
    path := [s] + rest;
  }

  lemma FoundSet<V(!new)>(s: State<V>, t: Tid) returns (path: seq<State<V>>)
    requires Reached(s) && AtWalk(s, t) && s.pc[t].op.Set?
    requires Loaded(s, t).Some? && s.entries[Loaded(s, t).value].key == s.pc[t].op.key
    ensures Completed(path, s, t, s.pc[t].op)
  {
    var s' := s.(pc := s.pc[t := SetLoad(s.pc[t].op.key, s.pc[t].op.v, Loaded(s, t).value)]);
    assert WalkFound(s, s', t);
    ReachedNext(s, s', t);
    var rest := FromSetLoad(s', t);
    StepBefore(s, s', t, s.pc[t].op, rest);
    path := [s] + rest;
  }

  lemma MissedHasOrGet<V(!new)>(s: State<V>, t: Tid) returns (path: seq<State<V>>)
    requires Reached(s) && AtWalk(s, t) && !s.pc[t].op.Set?
    requires Loaded(s, t).Some? ==> s.entries[Loaded(s, t).value].key > s.pc[t].op.key
    ensures Completed(path, s, t, s.pc[t].op)
  {
    var op := s.pc[t].op;
    var s' := Finish(s, t, if op.Has? then HasEvent(op.key, false) else GetEvent(op.key, None));
    assert WalkMissed(s, s', t);
    LastStep(s, s', t, op);
    path := [s, s'];
  }

  lemma MissedSet<V(!new)>(s: State<V>, t: Tid) returns (path: seq<State<V>>)
    requires Reached(s) && AtWalk(s, t) && s.pc[t].op.Set?
    requires Loaded(s, t).Some? ==> s.entries[Loaded(s, t).value].key > s.pc[t].op.key
    ensures Completed(path, s, t, s.pc[t].op)
  {
    var s' := s.(pc := s.pc[t := Link(s.pc[t].op.key, s.pc[t].op.v, s.pc[t].prev, Loaded(s, t))]);
    assert WalkMissed(s, s', t);
    ReachedNext(s, s', t);
    var rest := FromLink(s', t);
    StepBefore(s, s', t, s.pc[t].op, rest);
    path := [s] + rest;
  }

  lemma ReadyToWalk<V(!new)>(s: State<V>, t: Tid)
    requires Reached(s) && t in s.pc && s.pc[t].Walk?
    ensures AtWalk(s, t)
    ensures Loaded(s, t).Some? ==> Low(s, s.pc[t].prev) < s.entries[Loaded(s, t).value].key
  {
    ReachedInv(s);
    assert PcOk(s, s.pc[t]);
    NextIsNearest(s, s.pc[t].op.key, s.pc[t].prev);
  }

  /** Each step of the walk leads to a greater key below the one looked for. */
  lemma {:induction false} FromWalk<V(!new)>(s: State<V>, t: Tid) returns (path: seq<State<V>>)
    requires Reached(s) && AtWalk(s, t)
    ensures Completed(path, s, t, s.pc[t].op)
    decreases s.pc[t].op.key - Low(s, s.pc[t].prev)
  {
    ReadyToWalk(s, t);
    var op, x := s.pc[t].op, Loaded(s, t);
    if x.None? || s.entries[x.value].key > op.key {
      if op.Set? { path := MissedSet(s, t); } else { path := MissedHasOrGet(s, t); }
    } else if s.entries[x.value].key == op.key {
      if op.Has? { path := FoundHas(s, t); }
      else if op.Get? { path := FoundGet(s, t); }
      else { path := FoundSet(s, t); }
    } else {
      var s' := s.(pc := s.pc[t := Walk(op, At(x.value))]);
      assert WalkOn(s, s', t);
      ReachedNext(s, s', t);
      ReadyToWalk(s', t);
      var rest := FromWalk(s', t);
      StepBefore(s, s', t, op, rest);
      path := [s] + rest;
    }
  }

  /** A swap that fails starts the walk again. */
  lemma FromRetry<V(!new)>(s: State<V>, k: Key, v: V, t: Tid) returns (path: seq<State<V>>)
    requires Reached(s) && t in s.pc && ThreadStep(s, s.(pc := s.pc[t := Walk(Set(k, v), Head)]), t)
    ensures Completed(path, s, t, Set(k, v))
  {
    var s' := s.(pc := s.pc[t := Walk(Set(k, v), Head)]);
    ReachedNext(s, s', t);
    ReadyToWalk(s', t);
    var rest := FromWalk(s', t);
    StepBefore(s, s', t, Set(k, v), rest);
    path := [s] + rest;
  }

  lemma FromAnySetCas<V(!new)>(s: State<V>, t: Tid) returns (path: seq<State<V>>)
    requires Reached(s) && t in s.pc && s.pc[t].SetCas? && s.pc[t].e in s.entries
    ensures Completed(path, s, t, Set(s.pc[t].key, s.pc[t].v))
  {
    if s.entries[s.pc[t].e].ptr == s.pc[t].seen {
      path := FromSetCas(s, t);
    } else {
      assert SetSwapFail(s, s.(pc := s.pc[t := Walk(Set(s.pc[t].key, s.pc[t].v), Head)]), t);
      path := FromRetry(s, s.pc[t].key, s.pc[t].v, t);
    }
  }

  lemma FromAnyLink<V(!new)>(s: State<V>, t: Tid) returns (path: seq<State<V>>)
    requires Reached(s) && AtLink(s, t)
    ensures Completed(path, s, t, Set(s.pc[t].key, s.pc[t].v))
  {
    if NextOf(s, s.pc[t].key, s.pc[t].prev) == s.pc[t].target {
      path := FromLink(s, t);
    } else {
      assert LinkFail(s, s.(pc := s.pc[t := Walk(Set(s.pc[t].key, s.pc[t].v), Head)]), t);
      path := FromRetry(s, s.pc[t].key, s.pc[t].v, t);
    }
  }

  /** The pointers a thread holds are to entries. */
  lemma HoldsEntries<V(!new)>(s: State<V>, t: Tid)
    requires Reached(s) && t in s.pc
    ensures s.pc[t].GetLoad? || s.pc[t].SetLoad? || s.pc[t].SetCas? ==> s.pc[t].e in s.entries
    ensures s.pc[t].Link? ==> AtLink(s, t)
    ensures s.pc[t].Walk? ==> AtWalk(s, t)
  {
    ReachedInv(s);
    assert PcOk(s, s.pc[t]);
    if s.pc[t].Walk? { ReadyToWalk(s, t); }
  }

  /** From every state of every run: an operation under way, run alone, completes. */
  lemma CompletesAlone<V(!new)>(s: State<V>, t: Tid) returns (path: seq<State<V>>)
    requires Reached(s) && t in s.pc && Executing(s.pc[t]).Some?
    ensures Completed(path, s, t, Executing(s.pc[t]).value)
  {
    HoldsEntries(s, t);
    match s.pc[t] {
      case Walk(_, _) => path := FromWalk(s, t);
      case GetLoad(_, _) => path := FromGetLoad(s, t);
      case SetLoad(_, _, _) => path := FromSetLoad(s, t);
      case SetCas(_, _, _, _) => path := FromAnySetCas(s, t);
      case Link(_, _, _, _) => path := FromAnyLink(s, t);
    }
  }

  /** And its answer is that of the plain map at the beginning of the stretch: nobody else
      has changed it. */
  lemma AnswersAlone<V(!new)>(path: seq<State<V>>, s: State<V>, t: Tid, op: Op<V>)
    requires Reached(s) && Completed(path, s, t, op)
    ensures var e := path[|path| - 1]; Answers(s.abs, e.pc[t].event) && e.abs == Effect(s.abs, e.pc[t].event)
  {
    var e := path[|path| - 1];
    ReachedInv(s);
    ReachedInv(e);
    AnswerOfLast(s.log, e.log, e.pc[t].event);
  }

  /** A whole operation, from its call to its return: undisturbed, it leaves the thread idle,
      and adds one completion, with the answer of the plain map. */
  lemma OperationAlone<V(!new)>(s: State<V>, t: Tid, op: Op<V>) returns (path: seq<State<V>>, ev: Event<V>)
    requires Reached(s) && t in s.pc && s.pc[t].Idle?
    ensures Solo(path, t) && path[0] == s
    ensures Completes(op, ev) && Answers(s.abs, ev)
    ensures var e := path[|path| - 1];
            t in e.pc && e.pc[t].Idle? && e.log == s.log + [ev] && e.abs == Effect(s.abs, ev)
  {
    var s1 := s.(pc := s.pc[t := Walk(op, Head)]);
    assert Call(s, s1, t);
    ReachedNext(s, s1, t);
    var rest := CompletesAlone(s1, t);
    AnswersAlone(rest, s1, t, op);
    var done := rest[|rest| - 1];
    ev := done.pc[t].event;
    var e := done.(pc := done.pc[t := Idle]);
    assert Return(done, e, t);
    path := Enclosed(s, rest, e, t);
  }

  lemma Enclosed<V>(s: State<V>, rest: seq<State<V>>, e: State<V>, t: Tid) returns (path: seq<State<V>>)
    requires Solo(rest, t) && ThreadStep(s, rest[0], t) && ThreadStep(rest[|rest| - 1], e, t)
    ensures Solo(path, t) && path[0] == s && path[|path| - 1] == e
  {
    path := [s] + rest + [e];
    forall k | 0 <= k < |path| - 1 ensures ThreadStep(path[k], path[k + 1], t) {
      if 0 < k < |rest| { assert path[k] == rest[k - 1] && path[k + 1] == rest[k]; }
    }
  }

  lemma AnswerOfLast<V>(log: seq<Event<V>>, log': seq<Event<V>>, ev: Event<V>)
    requires log' == log + [ev] && Legal(log')
    ensures Answers(Replay(log), ev) && Replay(log') == Effect(Replay(log), ev)
  {
    assert log'[..|log|] == log && log'[|log|] == ev;
  }
}
