/**
 The insert-only hash map of cyber/base/atomic_hash_map.h as a step system.  Every load
 of a next or value pointer and every compare-and-swap is one step of one thread.

 Entries and value pointers are names that are never reused.  A new entry is filled in
 before it is published, so building it is part of the step that publishes it.
 */
module AtomicHashMap {
  import opened Options

  type Tid = nat
  type Key = nat
  type Id = nat
  type Ptr = nat

  datatype Entry<V> = Entry(key: Key, ptr: Ptr, val: V, next: Option<Id>)

  /** A place whose next field can be followed: the bucket's head node or an entry. */
  datatype Ref = Head | At(id: Id)

  datatype Op<V> = Has(key: Key) | Get(key: Key) | Set(key: Key, v: V)

  /** A completed operation with its answer. */
  datatype Event<V> =
    | HasEvent(key: Key, found: bool)
    | GetEvent(key: Key, result: Option<V>)
    | SetEvent(key: Key, v: V)

  datatype Pc<V> =
    | Idle
    | Walk(op: Op<V>, prev: Ref)                             // about to load prev->next
    | GetLoad(key: Key, e: Id)                               // Get: about to load value_ptr
    | SetLoad(key: Key, v: V, e: Id)                         // Insert: about to load value_ptr
    | SetCas(key: Key, v: V, e: Id, seen: Ptr)                // about to swap value_ptr
    | Link(key: Key, v: V, prev: Ref, target: Option<Id>)    // about to swap prev->next
    | Done(event: Event<V>)                                  // about to return

  /** `first` holds the next fields of the head nodes.  History variables: `index` (the
      entry of each key), `abs` (the plain map) and `log` (the operations in the order in
      which they take effect). */
  datatype State<V> = State(
    tableSize: nat, first: seq<Option<Id>>, entries: map<Id, Entry<V>>, pc: map<Tid, Pc<V>>,
    index: map<Key, Id>, abs: map<Key, V>, log: seq<Event<V>>)

  // ----- the sequential map -----

  ghost predicate Answers<V>(m: map<Key, V>, ev: Event<V>) {
    match ev
    case HasEvent(k, found) => found == (k in m)
    case GetEvent(k, r) => r == (if k in m then Some(m[k]) else None)
    case SetEvent(_, _) => true
  }

  function Effect<V>(m: map<Key, V>, ev: Event<V>): map<Key, V> {
    if ev.SetEvent? then m[ev.key := ev.v] else m
  }

  /** The map after a sequence of operations on an initially empty map. */
  function Replay<V>(log: seq<Event<V>>): map<Key, V> {
    if log == [] then map[] else Effect(Replay(log[..|log| - 1]), log[|log| - 1])
  }

  /** Every operation gave the answer that the plain map gives at its place in the order. */
  ghost predicate Legal<V>(log: seq<Event<V>>) {
    forall i | 0 <= i < |log| :: Answers(Replay(log[..i]), log[i])
  }

  ghost predicate Sets<V>(ev: Event<V>, k: Key) {
    ev.SetEvent? && ev.key == k
  }

  /** The plain map holds the keys that were set, */
  lemma {:induction false} ReplayHoldsSet<V>(log: seq<Event<V>>, k: Key)
    ensures k in Replay(log) <==> exists i :: 0 <= i < |log| && Sets(log[i], k)
  {
    if log != [] {
      var n := |log| - 1;
      ReplayHoldsSet(log[..n], k);
      assert forall i | 0 <= i < n :: log[..n][i] == log[i];
    }
  }

  /** each with the value set last. */
  lemma {:induction false} ReplayHoldsLast<V>(log: seq<Event<V>>, k: Key, i: nat)
    requires i < |log| && Sets(log[i], k) && forall j | i < j < |log| :: !Sets(log[j], k)
    ensures k in Replay(log) && Replay(log)[k] == log[i].v
  {
    var n := |log| - 1;
    if i < n {
      assert forall j | 0 <= j < n :: log[..n][j] == log[j];
      ReplayHoldsLast(log[..n], k, i);
      assert !Sets(log[n], k);
    }
  }

  // ----- steps -----

  ghost predicate Init<V>(s: State<V>) {
    && s.tableSize > 0 && |s.first| == s.tableSize
    && (forall b | 0 <= b < s.tableSize :: s.first[b].None?)
    && s.entries == map[] && s.index == map[] && s.abs == map[] && s.log == []
    && (forall t | t in s.pc :: s.pc[t].Idle?)
  }

  function Bucket(key: Key, tableSize: nat): (b: nat)
    requires tableSize > 0
    ensures b < tableSize
  {
    key % tableSize
  }

  ghost predicate Shape<V>(s: State<V>) {
    s.tableSize > 0 && |s.first| == s.tableSize
  }

  /** The next field of prev in the bucket of key. */
  ghost function NextOf<V>(s: State<V>, key: Key, prev: Ref): Option<Id>
    requires Shape(s) && (prev.At? ==> prev.id in s.entries)
  {
    if prev.Head? then s.first[Bucket(key, s.tableSize)] else s.entries[prev.id].next
  }

  ghost predicate Call<V>(s: State<V>, s': State<V>, t: Tid) {
    && t in s.pc && s.pc[t].Idle?
    && t in s'.pc && s'.pc[t].Walk? && s'.pc[t].prev.Head?
    && s' == s.(pc := s.pc[t := s'.pc[t]])
  }

  ghost predicate Return<V>(s: State<V>, s': State<V>, t: Tid) {
    && t in s.pc && s.pc[t].Done?
    && s' == s.(pc := s.pc[t := Idle])
  }

  ghost predicate AtWalk<V>(s: State<V>, t: Tid) {
    && Shape(s) && t in s.pc && s.pc[t].Walk?
    && (s.pc[t].prev.At? ==> s.pc[t].prev.id in s.entries)
    && (var x := NextOf(s, s.pc[t].op.key, s.pc[t].prev); x.Some? ==> x.value in s.entries)
  }

  /** The loaded entry has a smaller key: go on from there. */
  ghost predicate WalkOn<V>(s: State<V>, s': State<V>, t: Tid) {
    && AtWalk(s, t)
    && (var op := s.pc[t].op;
        var x := NextOf(s, op.key, s.pc[t].prev);
        && x.Some? && s.entries[x.value].key < op.key
        && s' == s.(pc := s.pc[t := Walk(op, At(x.value))]))
  }

  /** The loaded entry has the key. */
  ghost predicate WalkFound<V>(s: State<V>, s': State<V>, t: Tid) {
    && AtWalk(s, t)
    && (var op := s.pc[t].op;
        var x := NextOf(s, op.key, s.pc[t].prev);
        && x.Some? && s.entries[x.value].key == op.key
        && s' == match op
                 case Has(k) => Finish(s, t, HasEvent(k, true))
                 case Get(k) => s.(pc := s.pc[t := GetLoad(k, x.value)])
                 case Set(k, v) => s.(pc := s.pc[t := SetLoad(k, v, x.value)]))
  }

  /** The list ends or the loaded entry has a greater key. */
  ghost predicate WalkMissed<V>(s: State<V>, s': State<V>, t: Tid) {
    && AtWalk(s, t)
    && (var op := s.pc[t].op;
        var x := NextOf(s, op.key, s.pc[t].prev);
        && (x.Some? ==> s.entries[x.value].key > op.key)
        && s' == match op
                 case Has(k) => Finish(s, t, HasEvent(k, false))
                 case Get(k) => Finish(s, t, GetEvent(k, None))
                 case Set(k, v) => s.(pc := s.pc[t := Link(k, v, s.pc[t].prev, x)]))
  }

  /** Record the operation as taking effect now. */
  ghost function Finish<V>(s: State<V>, t: Tid, ev: Event<V>): State<V> {
    s.(pc := s.pc[t := Done(ev)], log := s.log + [ev], abs := Effect(s.abs, ev))
  }

  ghost predicate GetValue<V>(s: State<V>, s': State<V>, t: Tid) {
    && t in s.pc && s.pc[t].GetLoad? && s.pc[t].e in s.entries
    && s' == Finish(s, t, GetEvent(s.pc[t].key, Some(s.entries[s.pc[t].e].val)))
  }

  ghost predicate SetLoadPtr<V>(s: State<V>, s': State<V>, t: Tid) {
    && t in s.pc && s.pc[t].SetLoad? && s.pc[t].e in s.entries
    && s' == s.(pc := s.pc[t := SetCas(s.pc[t].key, s.pc[t].v, s.pc[t].e, s.entries[s.pc[t].e].ptr)])
  }

  /** The value pointer is replaced by a fresh one. */
  ghost predicate SetSwap<V>(s: State<V>, s': State<V>, t: Tid) {
    && t in s.pc && s.pc[t].SetCas? && s.pc[t].e in s.entries
    && s.entries[s.pc[t].e].ptr == s.pc[t].seen
    && s.pc[t].e in s'.entries
    && (var ptr := s'.entries[s.pc[t].e].ptr;
        && (forall e | e in s.entries :: s.entries[e].ptr != ptr)
        && s' == Finish(s, t, SetEvent(s.pc[t].key, s.pc[t].v))
                 .(entries := s.entries[s.pc[t].e := s.entries[s.pc[t].e].(ptr := ptr, val := s.pc[t].v)]))
  }

  ghost predicate SetSwapFail<V>(s: State<V>, s': State<V>, t: Tid) {
    && t in s.pc && s.pc[t].SetCas? && s.pc[t].e in s.entries
    && s.entries[s.pc[t].e].ptr != s.pc[t].seen
    && s' == s.(pc := s.pc[t := Walk(Set(s.pc[t].key, s.pc[t].v), Head)])
  }

  ghost predicate AtLink<V>(s: State<V>, t: Tid) {
    && Shape(s) && t in s.pc && s.pc[t].Link?
    && (s.pc[t].prev.At? ==> s.pc[t].prev.id in s.entries)
  }

  /** A fresh entry is published between prev and target. */
  ghost predicate LinkSwap<V>(s: State<V>, s': State<V>, t: Tid, id: Id) {
    && AtLink(s, t) && id !in s.entries && id in s'.entries
    && (var pc := s.pc[t];
        var ptr := s'.entries[id].ptr;
        && NextOf(s, pc.key, pc.prev) == pc.target
        && (forall e | e in s.entries :: s.entries[e].ptr != ptr)
        && s' == Finish(s, t, SetEvent(pc.key, pc.v))
                 .(first := if pc.prev.Head? then s.first[Bucket(pc.key, s.tableSize) := Some(id)] else s.first,
                   entries := (if pc.prev.Head? then s.entries
                               else s.entries[pc.prev.id := s.entries[pc.prev.id].(next := Some(id))])
                              [id := Entry(pc.key, ptr, pc.v, pc.target)],
                   index := s.index[pc.key := id]))
  }

  ghost predicate LinkFail<V>(s: State<V>, s': State<V>, t: Tid) {
    && AtLink(s, t) && NextOf(s, s.pc[t].key, s.pc[t].prev) != s.pc[t].target
    && s' == s.(pc := s.pc[t := Walk(Set(s.pc[t].key, s.pc[t].v), Head)])
  }

  ghost predicate ThreadStep<V>(s: State<V>, s': State<V>, t: Tid) {
    || Call(s, s', t) || Return(s, s', t)
    || WalkOn(s, s', t) || WalkFound(s, s', t) || WalkMissed(s, s', t)
    || GetValue(s, s', t)
    || SetLoadPtr(s, s', t) || SetSwap(s, s', t) || SetSwapFail(s, s', t)
    || (exists id :: LinkSwap(s, s', t, id)) || LinkFail(s, s', t)
  }

  ghost predicate Step<V>(s: State<V>, s': State<V>) {
    exists t :: ThreadStep(s, s', t)
  }

  ghost predicate StepAt<V>(run: seq<State<V>>, i: nat) {
    i + 1 < |run| && Step(run[i], run[i + 1])
  }

  ghost predicate Run<V>(run: seq<State<V>>) {
    run != [] && Init(run[0]) && forall i | 0 <= i < |run| - 1 :: StepAt(run, i)
  }

  // ----- the invariant -----

  ghost predicate SameBucket<V>(s: State<V>, k: Key, e: Id)
    requires s.tableSize > 0 && e in s.entries
  {
    Bucket(s.entries[e].key, s.tableSize) == Bucket(k, s.tableSize)
  }

  /** Each key has one entry, and the entries hold the plain map. */
  ghost predicate Indexed<V>(s: State<V>) {
    && (forall e | e in s.entries :: s.entries[e].key in s.index && s.index[s.entries[e].key] == e)
    && (forall k | k in s.index :: s.index[k] in s.entries && s.entries[s.index[k]].key == k)
    && (forall k :: k in s.abs <==> k in s.index)
    && (forall k | k in s.abs :: s.abs[k] == s.entries[s.index[k]].val)
  }

  /** n is the smallest of the bucket's entries beyond `low`: it lies there, and no entry m
      of the bucket lies in between. */
  ghost predicate Nearest<V>(s: State<V>, b: nat, low: int, n: Option<Id>)
    requires s.tableSize > 0
  {
    && (n.Some? ==>
          && n.value in s.entries
          && Bucket(s.entries[n.value].key, s.tableSize) == b && low < s.entries[n.value].key)
    && (forall m | m in s.entries && Bucket(s.entries[m].key, s.tableSize) == b && low < s.entries[m].key ::
          n.Some? && s.entries[n.value].key <= s.entries[m].key)
  }

  /** Every bucket is a strictly sorted list of exactly its keys: each next field leads to
      the nearest greater key of the bucket. */
  ghost predicate Sorted<V>(s: State<V>)
    requires Shape(s)
  {
    && (forall b | 0 <= b < s.tableSize :: Nearest(s, b, -1, s.first[b]))
    && (forall e | e in s.entries ::
          Nearest(s, Bucket(s.entries[e].key, s.tableSize), s.entries[e].key, s.entries[e].next))
  }

  ghost predicate RefOk<V>(s: State<V>, k: Key, prev: Ref)
    requires s.tableSize > 0
  {
    prev.At? ==> prev.id in s.entries && s.entries[prev.id].key < k && SameBucket(s, k, prev.id)
  }

  ghost predicate EntryOk<V>(s: State<V>, k: Key, e: Id) {
    e in s.entries && s.entries[e].key == k
  }

  ghost predicate PcOk<V>(s: State<V>, pc: Pc<V>)
    requires s.tableSize > 0
  {
    match pc
    case Idle => true
    case Walk(op, prev) => RefOk(s, op.key, prev)
    case GetLoad(k, e) => EntryOk(s, k, e)
    case SetLoad(k, v, e) => EntryOk(s, k, e)
    case SetCas(k, v, e, p) => EntryOk(s, k, e)
    case Link(k, v, prev, target) =>
      && RefOk(s, k, prev)
      && (target.Some? ==>
            target.value in s.entries && k < s.entries[target.value].key && SameBucket(s, k, target.value))
    case Done(ev) => true
  }

  ghost predicate Inv<V>(s: State<V>) {
    && Shape(s) && Indexed(s) && Sorted(s)
    && (forall t | t in s.pc :: PcOk(s, s.pc[t]))
    && Legal(s.log) && Replay(s.log) == s.abs
  }

  lemma LogStep<V>(log: seq<Event<V>>, ev: Event<V>)
    requires Legal(log) && Answers(Replay(log), ev)
    ensures Legal(log + [ev]) && Replay(log + [ev]) == Effect(Replay(log), ev)
  {
    var log' := log + [ev];
    assert log'[..|log|] == log;
    forall i | 0 <= i < |log'| ensures Answers(Replay(log'[..i]), log'[i]) {
      if i < |log| { assert log'[..i] == log[..i]; }
    }
  }

  ghost function Low<V>(s: State<V>, prev: Ref): int
    requires prev.At? ==> prev.id in s.entries
  {
    if prev.Head? then -1 else s.entries[prev.id].key
  }

  lemma NextIsNearest<V>(s: State<V>, k: Key, prev: Ref)
    requires Shape(s) && Sorted(s) && RefOk(s, k, prev)
    ensures Nearest(s, Bucket(k, s.tableSize), Low(s, prev), NextOf(s, k, prev))
  {
    var b := Bucket(k, s.tableSize);
    if prev.Head? {
      assert Nearest(s, b, -1, s.first[b]);
    } else {
      assert Nearest(s, b, s.entries[prev.id].key, s.entries[prev.id].next);
    }
  }

  /** Between an entry and its nearest successor there is no further key. */
  lemma NotPresent<V>(s: State<V>, k: Key, prev: Ref)
    requires Shape(s) && Indexed(s) && Sorted(s) && RefOk(s, k, prev)
    requires var x := NextOf(s, k, prev); x.Some? ==> x.value in s.entries && s.entries[x.value].key > k
    ensures k !in s.abs
  {
    NextIsNearest(s, k, prev);
    assert forall m | m in s.entries :: s.entries[m].key != k;
  }

  /** At most the values differ. */
  ghost predicate SameLinks<V>(s: State<V>, s': State<V>) {
    && s'.tableSize == s.tableSize && s'.first == s.first
    && (forall m :: m in s'.entries <==> m in s.entries)
    && (forall m | m in s.entries ::
          s'.entries[m].key == s.entries[m].key && s'.entries[m].next == s.entries[m].next)
  }

  /** The buckets stay sorted. */
  lemma LinksSorted<V>(s: State<V>, s': State<V>)
    requires Shape(s) && Sorted(s) && SameLinks(s, s')
    ensures Shape(s') && Sorted(s')
  {
    forall b | 0 <= b < s'.tableSize ensures Nearest(s', b, -1, s'.first[b]) {
      assert Nearest(s, b, -1, s.first[b]);
    }
    forall m | m in s'.entries
      ensures Nearest(s', Bucket(s'.entries[m].key, s'.tableSize), s'.entries[m].key, s'.entries[m].next)
    {
      assert Nearest(s, Bucket(s.entries[m].key, s.tableSize), s.entries[m].key, s.entries[m].next);
    }
  }

  /** Steps that leave the table alone. */
  lemma LocalStepInv<V>(s: State<V>, s': State<V>, t: Tid)
    requires Inv(s)
    requires Call(s, s', t) || Return(s, s', t) || SetLoadPtr(s, s', t)
             || SetSwapFail(s, s', t) || LinkFail(s, s', t)
    ensures Inv(s')
  {
    assert Sorted(s') by { LinksSorted(s, s'); }
    forall u | u in s'.pc ensures PcOk(s', s'.pc[u]) {
      if u != t { assert PcOk(s, s.pc[u]); }
    }
  }

  /** The threads other than t keep their facts while the links stay the same. */
  lemma OthersOk<V>(s: State<V>, s': State<V>, t: Tid)
    requires Inv(s) && Shape(s') && SameLinks(s, s')
    requires t in s'.pc && s'.pc == s.pc[t := s'.pc[t]] && PcOk(s', s'.pc[t])
    ensures forall u | u in s'.pc :: PcOk(s', s'.pc[u])
  {
    forall u | u in s'.pc ensures PcOk(s', s'.pc[u]) {
      if u != t { assert PcOk(s, s.pc[u]); }
    }
  }

  lemma WalkOnInv<V>(s: State<V>, s': State<V>, t: Tid)
    requires Inv(s) && WalkOn(s, s', t)
    ensures Inv(s')
  {
    assert PcOk(s, s.pc[t]);
    NextIsNearest(s, s.pc[t].op.key, s.pc[t].prev);
    LinksSorted(s, s');
    OthersOk(s, s', t);
  }

  lemma WalkFoundInv<V>(s: State<V>, s': State<V>, t: Tid)
    requires Inv(s) && WalkFound(s, s', t)
    ensures Inv(s')
  {
    var op := s.pc[t].op;
    LinksSorted(s, s');
    OthersOk(s, s', t);
    if op.Has? { LogStep(s.log, HasEvent(op.key, true)); }
  }

  lemma WalkMissedInv<V>(s: State<V>, s': State<V>, t: Tid)
    requires Inv(s) && WalkMissed(s, s', t)
    ensures Inv(s')
  {
    var op := s.pc[t].op;
    assert PcOk(s, s.pc[t]);
    NextIsNearest(s, op.key, s.pc[t].prev);
    NotPresent(s, op.key, s.pc[t].prev);
    LinksSorted(s, s');
    OthersOk(s, s', t);
    match op
    case Has(k) => LogStep(s.log, HasEvent(k, false));
    case Get(k) => LogStep(s.log, GetEvent(k, None));
    case Set(_, _) =>
  }

  lemma GetValueInv<V>(s: State<V>, s': State<V>, t: Tid)
    requires Inv(s) && GetValue(s, s', t)
    ensures Inv(s')
  {
    assert PcOk(s, s.pc[t]);
    var k, e := s.pc[t].key, s.pc[t].e;
    assert s.index[k] == e;
    LinksSorted(s, s');
    OthersOk(s, s', t);
    LogStep(s.log, GetEvent(k, Some(s.entries[e].val)));
  }

  lemma SetSwapLinks<V>(s: State<V>, s': State<V>, t: Tid)
    requires Shape(s) && SetSwap(s, s', t)
    ensures SameLinks(s, s') && s'.index == s.index && s'.abs == s.abs[s.pc[t].key := s.pc[t].v]
    ensures forall m | m in s.entries :: s'.entries[m].val == if m == s.pc[t].e then s.pc[t].v else s.entries[m].val
  {}

  lemma SetSwapIndexed<V>(s: State<V>, s': State<V>, k: Key, v: V, e: Id)
    requires Indexed(s) && SameLinks(s, s') && e in s.entries && s.entries[e].key == k
    requires s'.index == s.index && s'.abs == s.abs[k := v]
    requires forall m | m in s.entries :: s'.entries[m].val == if m == e then v else s.entries[m].val
    ensures Indexed(s')
  {
    assert s.index[k] == e;
  }

  lemma SetSwapInv<V>(s: State<V>, s': State<V>, t: Tid)
    requires Inv(s) && SetSwap(s, s', t)
    ensures Inv(s')
  {
    assert PcOk(s, s.pc[t]);
    var k, v := s.pc[t].key, s.pc[t].v;
    SetSwapLinks(s, s', t);
    SetSwapIndexed(s, s', k, v, s.pc[t].e);
    LinksSorted(s, s');
    OthersOk(s, s', t);
    LogStep(s.log, SetEvent(k, v));
  }

  /** What publishing does to the table. */
  ghost predicate Spliced<V>(s: State<V>, s': State<V>, id: Id, k: Key, prev: Ref, target: Option<Id>) {
    && Shape(s) && Shape(s') && s'.tableSize == s.tableSize
    && id !in s.entries && (forall m :: m in s'.entries <==> m in s.entries || m == id)
    && (forall m | m in s.entries :: s'.entries[m].key == s.entries[m].key && s'.entries[m].val == s.entries[m].val)
    && s'.entries[id].key == k && s'.entries[id].next == target
    && (prev.At? ==> prev.id in s.entries)
    && (forall m | m in s.entries :: s'.entries[m].next == if prev == At(m) then Some(id) else s.entries[m].next)
    && (forall b | 0 <= b < s.tableSize ::
          s'.first[b] == if prev.Head? && b == Bucket(k, s.tableSize) then Some(id) else s.first[b])
  }

  /** One entry more, of key k. */
  ghost predicate OneMore<V>(s: State<V>, s': State<V>, id: Id, k: Key) {
    && s'.tableSize == s.tableSize > 0
    && (forall m :: m in s'.entries <==> m in s.entries || m == id)
    && (forall m | m in s.entries :: s'.entries[m].key == s.entries[m].key)
    && s'.entries[id].key == k
  }

  /** An entry that does not come in between leaves the nearest one what it was. */
  lemma NearestStays<V>(s: State<V>, s': State<V>, id: Id, k: Key, c: nat, low: int, n: Option<Id>)
    requires OneMore(s, s', id, k) && Nearest(s, c, low, n)
    requires c != Bucket(k, s.tableSize) || k <= low || (n.Some? && s.entries[n.value].key <= k)
    ensures Nearest(s', c, low, n)
  {}

  /** One that does is the nearest from now on. */
  lemma NearestIsNew<V>(s: State<V>, s': State<V>, id: Id, k: Key, low: int, target: Option<Id>)
    requires OneMore(s, s', id, k) && Nearest(s, Bucket(k, s.tableSize), low, target) && low < k
    requires target.Some? ==> k < s.entries[target.value].key
    ensures Nearest(s', Bucket(k, s.tableSize), low, Some(id))
  {}

  /** From a place of the bucket other than prev, something lies before k: prev itself, or
      else prev lies before that place and would not lead beyond k. */
  lemma NearestBelow<V>(s: State<V>, k: Key, prev: Ref, target: Option<Id>, low: int, n: Option<Id>, here: Ref)
    requires s.tableSize > 0 && Indexed(s) && RefOk(s, k, prev) && here != prev && low < k
    requires target.Some? ==> target.value in s.entries && k < s.entries[target.value].key
    requires Nearest(s, Bucket(k, s.tableSize), Low(s, prev), target)
    requires Nearest(s, Bucket(k, s.tableSize), low, n)
    requires here.Head? ==> low == -1
    requires here.At? ==> here.id in s.entries && s.entries[here.id].key == low && SameBucket(s, k, here.id)
    ensures n.Some? && s.entries[n.value].key <= k
  {
    if here.At? && prev.At? {
      assert s.index[s.entries[prev.id].key] == prev.id && s.index[low] == here.id;
    }
    assert low <= Low(s, prev);
    assert prev.At? && low < s.entries[prev.id].key;
  }

  /** One next field, that of `here`, before and after the splice. */
  lemma NearestAfterSplice<V>(s: State<V>, s': State<V>, id: Id, k: Key, prev: Ref, target: Option<Id>,
                              c: nat, low: int, n: Option<Id>, here: Ref)
    requires OneMore(s, s', id, k) && Indexed(s) && RefOk(s, k, prev)
    requires target.Some? ==> target.value in s.entries && k < s.entries[target.value].key
    requires Nearest(s, Bucket(k, s.tableSize), Low(s, prev), target)
    requires Nearest(s, c, low, n)
    requires here.Head? ==> low == -1
    requires here.At? ==> here.id in s.entries && s.entries[here.id].key == low && Bucket(low, s.tableSize) == c
    requires here == prev && c == Bucket(k, s.tableSize) ==> n == target
    ensures Nearest(s', c, low, if here == prev && c == Bucket(k, s.tableSize) then Some(id) else n)
  {
    if here == prev && c == Bucket(k, s.tableSize) {
      NearestIsNew(s, s', id, k, low, target);
    } else {
      if c == Bucket(k, s.tableSize) && low < k {
        NearestBelow(s, k, prev, target, low, n, here);
      }
      NearestStays(s, s', id, k, c, low, n);
    }
  }

  /** The premises under which k is spliced in after prev. */
  ghost predicate Splice<V>(s: State<V>, s': State<V>, id: Id, k: Key, prev: Ref, target: Option<Id>) {
    && Spliced(s, s', id, k, prev, target) && Indexed(s) && Sorted(s) && RefOk(s, k, prev)
    && NextOf(s, k, prev) == target
    && (target.Some? ==> target.value in s.entries && k < s.entries[target.value].key)
  }

  lemma SplicedHead<V>(s: State<V>, s': State<V>, id: Id, k: Key, prev: Ref, target: Option<Id>, c: nat)
    requires Splice(s, s', id, k, prev, target) && c < s.tableSize
    ensures Nearest(s', c, -1, s'.first[c])
  {
    NextIsNearest(s, k, prev);
    assert Nearest(s, c, -1, s.first[c]);
    NearestAfterSplice(s, s', id, k, prev, target, c, -1, s.first[c], Head);
  }

  lemma SplicedEntry<V>(s: State<V>, s': State<V>, id: Id, k: Key, prev: Ref, target: Option<Id>, e: Id)
    requires Splice(s, s', id, k, prev, target) && e in s'.entries
    ensures Nearest(s', Bucket(s'.entries[e].key, s'.tableSize), s'.entries[e].key, s'.entries[e].next)
  {
    NextIsNearest(s, k, prev);
    if e != id {
      var c := Bucket(s.entries[e].key, s.tableSize);
      assert Nearest(s, c, s.entries[e].key, s.entries[e].next);
      NearestAfterSplice(s, s', id, k, prev, target, c, s.entries[e].key, s.entries[e].next, At(e));
    }
  }

  /** Splicing k in after the entry below it keeps every next field nearest. */
  lemma SplicedSorted<V>(s: State<V>, s': State<V>, id: Id, k: Key, prev: Ref, target: Option<Id>)
    requires Splice(s, s', id, k, prev, target)
    ensures Sorted(s')
  {
    forall c | 0 <= c < s'.tableSize ensures Nearest(s', c, -1, s'.first[c]) {
      SplicedHead(s, s', id, k, prev, target, c);
    }
    forall e | e in s'.entries
      ensures Nearest(s', Bucket(s'.entries[e].key, s'.tableSize), s'.entries[e].key, s'.entries[e].next)
    {
      SplicedEntry(s, s', id, k, prev, target, e);
    }
  }

  lemma SplicedPcs<V>(s: State<V>, s': State<V>, t: Tid, id: Id, k: Key, prev: Ref, target: Option<Id>)
    requires Inv(s) && Splice(s, s', id, k, prev, target)
    requires t in s'.pc && s'.pc == s.pc[t := s'.pc[t]] && s'.pc[t].Done?
    ensures forall u | u in s'.pc :: PcOk(s', s'.pc[u])
  {
    forall u | u in s'.pc ensures PcOk(s', s'.pc[u]) {
      if u != t { assert PcOk(s, s.pc[u]); }
    }
  }

  lemma LinkShape<V>(s: State<V>, s': State<V>, t: Tid, id: Id)
    requires LinkSwap(s, s', t, id)
    ensures Spliced(s, s', id, s.pc[t].key, s.pc[t].prev, s.pc[t].target)
  {
  }

  lemma LinkSplices<V>(s: State<V>, s': State<V>, id: Id, pc: Pc<V>)
    requires Shape(s) && Indexed(s) && Sorted(s) && pc.Link? && PcOk(s, pc)
    requires NextOf(s, pc.key, pc.prev) == pc.target && Spliced(s, s', id, pc.key, pc.prev, pc.target)
    ensures Splice(s, s', id, pc.key, pc.prev, pc.target)
  {
  }

  lemma LinkIndexed<V>(s: State<V>, s': State<V>, id: Id, k: Key, v: V, prev: Ref, target: Option<Id>)
    requires Indexed(s) && Spliced(s, s', id, k, prev, target) && k !in s.abs
    requires s'.index == s.index[k := id] && s'.abs == s.abs[k := v] && s'.entries[id].val == v
    ensures Indexed(s')
  {
  }

  lemma LinkSwapInv<V>(s: State<V>, s': State<V>, t: Tid, id: Id)
    requires Inv(s) && LinkSwap(s, s', t, id)
    ensures Inv(s')
  {
    var k, v, prev, target := s.pc[t].key, s.pc[t].v, s.pc[t].prev, s.pc[t].target;
    LinkShape(s, s', t, id);
    assert PcOk(s, s.pc[t]);
    LinkSplices(s, s', id, s.pc[t]);
    NotPresent(s, k, prev);
    LinkIndexed(s, s', id, k, v, prev, target);
    SplicedSorted(s, s', id, k, prev, target);
    SplicedPcs(s, s', t, id, k, prev, target);
    LogStep(s.log, SetEvent(k, v));
  }

  lemma StepInv<V>(s: State<V>, s': State<V>)
    requires Inv(s) && Step(s, s')
    ensures Inv(s')
  {
    var t :| ThreadStep(s, s', t);
    if WalkOn(s, s', t) { WalkOnInv(s, s', t); }
    else if WalkFound(s, s', t) { WalkFoundInv(s, s', t); }
    else if WalkMissed(s, s', t) { WalkMissedInv(s, s', t); }
    else if GetValue(s, s', t) { GetValueInv(s, s', t); }
    else if SetSwap(s, s', t) { SetSwapInv(s, s', t); }
    else if exists id :: LinkSwap(s, s', t, id) {
      var id :| LinkSwap(s, s', t, id);
      LinkSwapInv(s, s', t, id);
    }
    else { LocalStepInv(s, s', t); }
  }

  lemma {:induction false} RunInv<V>(run: seq<State<V>>, i: nat)
    requires Run(run) && i < |run|
    ensures Inv(run[i])
  {
    if i > 0 {
      RunInv(run, i - 1);
      assert StepAt(run, i - 1);
      StepInv(run[i - 1], run[i]);
    }
  }

  // ----- main results -----

  /** In every state of every run the recorded operations, in the order in which they took
      effect, gave the answers of a plain map, and the table holds exactly that map. */
  lemma Linearizable<V>(run: seq<State<V>>, i: nat)
    requires Run(run) && i < |run|
    ensures Legal(run[i].log) && Replay(run[i].log) == run[i].abs
    ensures forall k :: k in run[i].abs <==>
              exists e :: e in run[i].entries && run[i].entries[e].key == k
    ensures forall e | e in run[i].entries :: run[i].abs[run[i].entries[e].key] == run[i].entries[e].val
  {
    RunInv(run, i);
  }

  /** The operation a thread is executing. */
  ghost function Executing<V>(pc: Pc<V>): Option<Op<V>> {
    match pc
    case Walk(op, _) => Some(op)
    case GetLoad(k, _) => Some(Get(k))
    case SetLoad(k, v, _) => Some(Set(k, v))
    case SetCas(k, v, _, _) => Some(Set(k, v))
    case Link(k, v, _, _) => Some(Set(k, v))
    case _ => None
  }

  /** ev is a completion of op. */
  ghost predicate Completes<V>(op: Op<V>, ev: Event<V>) {
    match op
    case Has(k) => ev.HasEvent? && ev.key == k
    case Get(k) => ev.GetEvent? && ev.key == k
    case Set(k, v) => ev == SetEvent(k, v)
  }

  /** A step of t that leaves the log alone: t goes on with its operation, calls or returns. */
  ghost predicate Silent<V>(s: State<V>, s': State<V>, t: Tid)
    requires t in s.pc && t in s'.pc
  {
    && s'.log == s.log && s'.abs == s.abs && !s'.pc[t].Done?
    && (Executing(s.pc[t]) == Executing(s'.pc[t]) || (s.pc[t].Idle? && s'.pc[t].Walk?))
  }

  /** A step of t that completes its operation and appends just that completion. */
  ghost predicate Completing<V>(s: State<V>, s': State<V>, t: Tid)
    requires t in s.pc && t in s'.pc
  {
    && s'.pc[t].Done? && s'.log == s.log + [s'.pc[t].event]
    && Executing(s.pc[t]).Some? && Completes(Executing(s.pc[t]).value, s'.pc[t].event)
  }

  ghost predicate Effective<V>(s: State<V>, s': State<V>, t: Tid) {
    && t in s.pc && t in s'.pc && s'.pc == s.pc[t := s'.pc[t]]
    && (Silent(s, s', t) || Completing(s, s', t))
  }

  lemma WalkEffect<V>(s: State<V>, s': State<V>, t: Tid)
    requires WalkOn(s, s', t) || WalkFound(s, s', t) || WalkMissed(s, s', t)
    ensures Effective(s, s', t)
  {
  }

  lemma SwapEffect<V>(s: State<V>, s': State<V>, t: Tid)
    requires SetSwap(s, s', t) || exists id :: LinkSwap(s, s', t, id)
    ensures Effective(s, s', t)
  {
  }

  lemma OtherEffect<V>(s: State<V>, s': State<V>, t: Tid)
    requires Call(s, s', t) || Return(s, s', t) || GetValue(s, s', t) || SetLoadPtr(s, s', t)
             || SetSwapFail(s, s', t) || LinkFail(s, s', t)
    ensures Effective(s, s', t)
  {
  }

  /** Each operation takes effect exactly once, by a step of its own thread between its
      call and its return, and returns the answer recorded there. */
  lemma TakesEffectOnce<V>(run: seq<State<V>>, i: nat) returns (t: Tid)
    requires Run(run) && i + 1 < |run|
    ensures t in run[i].pc && t in run[i + 1].pc
    ensures run[i + 1].pc == run[i].pc[t := run[i + 1].pc[t]]
    ensures Silent(run[i], run[i + 1], t) || Completing(run[i], run[i + 1], t)
  {
    assert StepAt(run, i);
    t :| ThreadStep(run[i], run[i + 1], t);
    var s, s' := run[i], run[i + 1];
    if WalkOn(s, s', t) || WalkFound(s, s', t) || WalkMissed(s, s', t) { WalkEffect(s, s', t); }
    else if SetSwap(s, s', t) || exists id :: LinkSwap(s, s', t, id) { SwapEffect(s, s', t); }
    else { OtherEffect(s, s', t); }
  }

  /** Each bucket is strictly sorted and holds exactly the keys of its residue: next fields
      go up, stay in the bucket, and skip no key. */
  lemma BucketsSorted<V>(run: seq<State<V>>, i: nat)
    requires Run(run) && i < |run|
    ensures Shape(run[i])
    ensures forall b | 0 <= b < run[i].tableSize :: Nearest(run[i], b, -1, run[i].first[b])
    ensures forall b | 0 <= b < run[i].tableSize && run[i].first[b].Some? ::
              && run[i].first[b].value in run[i].entries
              && run[i].entries[run[i].first[b].value].key % run[i].tableSize == b
    ensures forall e | e in run[i].entries ::
              var b := run[i].entries[e].key % run[i].tableSize;
              Nearest(run[i], b, run[i].entries[e].key, run[i].entries[e].next)
    ensures forall e, m | e in run[i].entries && m in run[i].entries ::
              run[i].entries[e].key == run[i].entries[m].key ==> e == m
  {
    RunInv(run, i);
  }

  /** No key ever disappears, and an entry keeps its key. */
  lemma {:induction false} KeysStay<V>(run: seq<State<V>>, i: nat, j: nat)
    requires Run(run) && i <= j < |run|
    ensures forall k | k in run[i].abs :: k in run[j].abs
    ensures run[i].log <= run[j].log
    decreases j
  {
    if i < j {
      KeysStay(run, i, j - 1);
      assert StepAt(run, j - 1);
      StepKeepsKeys(run[j - 1], run[j]);
    }
  }

  lemma StepKeepsKeys<V>(s: State<V>, s': State<V>)
    requires Step(s, s')
    ensures s.log <= s'.log && forall k | k in s.abs :: k in s'.abs
  {
    var t :| ThreadStep(s, s', t);
    if WalkOn(s, s', t) || WalkFound(s, s', t) || WalkMissed(s, s', t) {
      WalkKeepsKeys(s, s', t);
    } else if SetSwap(s, s', t) || exists id :: LinkSwap(s, s', t, id) {
      SwapKeepsKeys(s, s', t);
    }
  }

  lemma SwapKeepsKeys<V>(s: State<V>, s': State<V>, t: Tid)
    requires SetSwap(s, s', t) || exists id :: LinkSwap(s, s', t, id)
    ensures s.log <= s'.log && forall k | k in s.abs :: k in s'.abs
  {}

  lemma WalkKeepsKeys<V>(s: State<V>, s': State<V>, t: Tid)
    requires WalkOn(s, s', t) || WalkFound(s, s', t) || WalkMissed(s, s', t)
    ensures s.log <= s'.log && forall k | k in s.abs :: k in s'.abs
  {}
}
