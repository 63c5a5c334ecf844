/**
 The lock-free free list of cyber/base/concurrent_object_pool.h as a step system: a
 stack of arena nodes whose head pairs a node with a counter.  Nodes are arena indices.
 Loads, the write of node->next and the compare-and-swaps are separate steps, and a
 weak swap may fail for no reason.
 */
module ObjectPool {
  import opened Options

  type Tid = nat
  type Node = nat

  datatype Head = Head(count: nat, node: Option<Node>)

  datatype Pc =
    | Idle
    | GetLoaded(h: Head)                     // FindFreeHead, old_head loaded
    | GetCas(h: Head, next: Option<Node>)    // old_head.node->next read
    | ReleaseLoaded(node: Node, h: Head)     // ReleaseObject, old_head loaded
    | ReleaseCas(node: Node, h: Head)        // node->next written

  /** Who may use a node: the free list, a user, or a thread returning it. */
  datatype Place = Free | Held | Releasing(tid: Tid)

  /** `free` and `place` are history variables: the free list as a sequence, and the
      owner of each node. */
  datatype State = State(
    capacity: nat, next: seq<Option<Node>>, head: Head, pc: map<Tid, Pc>,
    free: seq<Node>, place: seq<Place>)

  ghost predicate Init(s: State) {
    && s.capacity > 0
    && |s.next| == |s.place| == |s.free| == s.capacity
    && (forall i | 0 <= i < s.capacity ::
          && s.next[i] == (if i + 1 < s.capacity then Some(i + 1) else None)
          && s.free[i] == i && s.place[i] == Free)
    && s.head == Head(0, Some(0))
    && (forall t | t in s.pc :: s.pc[t].Idle?)
  }

  ghost predicate Shape(s: State) {
    |s.next| == |s.place| == s.capacity
  }

  ghost predicate StartGet(s: State, s': State, t: Tid) {
    && t in s.pc && s.pc[t].Idle?
    && s' == s.(pc := s.pc[t := GetLoaded(s.head)])
  }

  /** FindFreeHead returns false. */
  ghost predicate GetNull(s: State, s': State, t: Tid) {
    && t in s.pc && s.pc[t].GetLoaded? && s.pc[t].h.node.None?
    && s' == s.(pc := s.pc[t := Idle])
  }

  /** The node may be in use by now; its next field is read all the same. */
  ghost predicate GetReadNext(s: State, s': State, t: Tid) {
    && t in s.pc && s.pc[t].GetLoaded? && s.pc[t].h.node.Some?
    && s.pc[t].h.node.value < |s.next|
    && s' == s.(pc := s.pc[t := GetCas(s.pc[t].h, s.next[s.pc[t].h.node.value])])
  }

  /** FindFreeHead returns the node. */
  ghost predicate GetTake(s: State, s': State, t: Tid) {
    && Shape(s) && t in s.pc && s.pc[t].GetCas? && s.head == s.pc[t].h
    && s.head.node.Some? && s.head.node.value < s.capacity && s.free != []
    && s' == s.(head := Head(s.head.count + 1, s.pc[t].next),
                pc := s.pc[t := Idle],
                free := s.free[1..],
                place := s.place[s.head.node.value := Held])
  }

  ghost predicate GetCasFail(s: State, s': State, t: Tid) {
    && t in s.pc && s.pc[t].GetCas?
    && s' == s.(pc := s.pc[t := GetLoaded(s.head)])
  }

  /** Some user, on any thread, gives back a node it holds. */
  ghost predicate StartRelease(s: State, s': State, t: Tid, node: Node) {
    && Shape(s) && t in s.pc && s.pc[t].Idle?
    && node < s.capacity && s.place[node] == Held
    && s' == s.(pc := s.pc[t := ReleaseLoaded(node, s.head)],
                place := s.place[node := Releasing(t)])
  }

  ghost predicate ReleaseLink(s: State, s': State, t: Tid) {
    && Shape(s) && t in s.pc && s.pc[t].ReleaseLoaded? && s.pc[t].node < s.capacity
    && s' == s.(next := s.next[s.pc[t].node := s.pc[t].h.node],
                pc := s.pc[t := ReleaseCas(s.pc[t].node, s.pc[t].h)])
  }

  ghost predicate ReleasePush(s: State, s': State, t: Tid) {
    && Shape(s) && t in s.pc && s.pc[t].ReleaseCas? && s.head == s.pc[t].h
    && s.pc[t].node < s.capacity
    && s' == s.(head := Head(s.head.count + 1, Some(s.pc[t].node)),
                pc := s.pc[t := Idle],
                free := [s.pc[t].node] + s.free,
                place := s.place[s.pc[t].node := Free])
  }

  ghost predicate ReleaseCasFail(s: State, s': State, t: Tid) {
    && t in s.pc && s.pc[t].ReleaseCas?
    && s' == s.(pc := s.pc[t := ReleaseLoaded(s.pc[t].node, s.head)])
  }

  ghost predicate ThreadStep(s: State, s': State, t: Tid) {
    || StartGet(s, s', t) || GetNull(s, s', t) || GetReadNext(s, s', t)
    || GetTake(s, s', t) || GetCasFail(s, s', t)
    || (exists node :: StartRelease(s, s', t, node))
    || ReleaseLink(s, s', t) || ReleasePush(s, s', t) || ReleaseCasFail(s, s', t)
  }

  ghost predicate Step(s: State, s': State) {
    exists t :: ThreadStep(s, s', t)
  }

  ghost predicate StepAt(run: seq<State>, i: nat) {
    i + 1 < |run| && Step(run[i], run[i + 1])
  }

  ghost predicate Run(run: seq<State>) {
    run != [] && Init(run[0]) && forall i | 0 <= i < |run| - 1 :: StepAt(run, i)
  }

  // ----- the invariant -----

  ghost predicate InArena(s: State, n: Option<Node>) {
    n.Some? ==> n.value < s.capacity
  }

  /** The node after position i of a list. */
  ghost function Follower(q: seq<Node>, i: nat): Option<Node>
    requires i < |q|
  {
    if i == |q| - 1 then None else Some(q[i + 1])
  }

  /** The free list is the chain of next fields from the head, without repetition. */
  ghost predicate FreeChain(s: State)
    requires Shape(s)
  {
    && (forall i | 0 <= i < |s.free| :: s.free[i] < s.capacity)
    && (forall i, j | 0 <= i < j < |s.free| :: s.free[i] != s.free[j])
    && s.head.node == (if s.free == [] then None else Some(s.free[0]))
    && (forall i {:trigger Follower(s.free, i)} | 0 <= i < |s.free| ::
          s.next[s.free[i]] == Follower(s.free, i))
    && (forall n | 0 <= n < s.capacity :: s.place[n] == Free <==> n in s.free)
  }

  /** A loaded head is not newer than the current one, and with an equal counter it is
      the current one. */
  ghost predicate LoadedOk(s: State, h: Head) {
    InArena(s, h.node) && h.count <= s.head.count && (h.count == s.head.count ==> h == s.head)
  }

  ghost predicate PcOk(s: State, t: Tid, pc: Pc)
    requires Shape(s)
  {
    match pc
    case Idle => true
    case GetLoaded(h) => LoadedOk(s, h)
    case GetCas(h, next) =>
      && LoadedOk(s, h) && h.node.Some? && InArena(s, next)
      && (h.count == s.head.count ==> next == s.next[h.node.value])
    case ReleaseLoaded(node, h) =>
      LoadedOk(s, h) && node < s.capacity && s.place[node] == Releasing(t)
    case ReleaseCas(node, h) =>
      && LoadedOk(s, h) && node < s.capacity && s.place[node] == Releasing(t)
      && s.next[node] == h.node
  }

  predicate Releases(pc: Pc, node: Node) {
    (pc.ReleaseLoaded? || pc.ReleaseCas?) && pc.node == node
  }

  ghost predicate Inv(s: State) {
    && Shape(s) && FreeChain(s)
    && (forall n | 0 <= n < s.capacity :: InArena(s, s.next[n]))
    && (forall t | t in s.pc :: PcOk(s, t, s.pc[t]))
    && (forall n | 0 <= n < s.capacity && s.place[n].Releasing? ::
          s.place[n].tid in s.pc && Releases(s.pc[s.place[n].tid], n))
  }

  /** A step that changes only the place of a thread, which goes on releasing what it did. */
  lemma LocalStepInv(s: State, s': State, t: Tid)
    requires Inv(s) && t in s.pc && t in s'.pc && s' == s.(pc := s.pc[t := s'.pc[t]])
    requires PcOk(s, t, s'.pc[t]) && forall n :: Releases(s.pc[t], n) <==> Releases(s'.pc[t], n)
    ensures Inv(s')
  {
    forall u | u in s'.pc ensures PcOk(s', u, s'.pc[u]) {
      if u != t { assert PcOk(s, u, s.pc[u]); }
    }
  }

  lemma LoadStepInv(s: State, s': State, t: Tid)
    requires Inv(s)
    requires StartGet(s, s', t) || GetNull(s, s', t) || GetReadNext(s, s', t)
             || GetCasFail(s, s', t) || ReleaseCasFail(s, s', t)
    ensures Inv(s')
  {
    assert PcOk(s, t, s.pc[t]);
    LocalStepInv(s, s', t);
  }

  lemma FollowerTail(q: seq<Node>, i: nat)
    requires i + 1 < |q|
    ensures Follower(q[1..], i) == Follower(q, i + 1)
  {}

  lemma TakeChain(s: State, s': State, t: Tid)
    requires Inv(s) && GetTake(s, s', t)
    ensures FreeChain(s')
  {
    var n := s.free[0];
    assert s.next[n] == Follower(s.free, 0);
    assert s'.free == s.free[1..];
    forall i | 0 <= i < |s'.free| ensures s'.next[s'.free[i]] == Follower(s'.free, i) {
      FollowerTail(s.free, i);
    }
    assert forall m :: m in s.free <==> m == n || m in s'.free;
    assert n !in s'.free;
  }

  lemma TakeInv(s: State, s': State, t: Tid)
    requires Inv(s) && GetTake(s, s', t)
    ensures Inv(s')
  {
    TakeChain(s, s', t);
  }

  lemma StartReleaseInv(s: State, s': State, t: Tid, node: Node)
    requires Inv(s) && StartRelease(s, s', t, node)
    ensures Inv(s')
  {
  }

  lemma LinkInv(s: State, s': State, t: Tid)
    requires Inv(s) && ReleaseLink(s, s', t)
    ensures Inv(s')
  {
    assert PcOk(s, t, s.pc[t]);
    LinkChain(s, s', t);
    LinkPcs(s, s', t);
  }

  /** The next field written is that of a node not in the list. */
  lemma LinkChain(s: State, s': State, t: Tid)
    requires Inv(s) && ReleaseLink(s, s', t)
    ensures Shape(s') && FreeChain(s')
  {
    assert PcOk(s, t, s.pc[t]);
    assert s.pc[t].node !in s.free;
  }

  lemma LinkPcs(s: State, s': State, t: Tid)
    requires Inv(s) && ReleaseLink(s, s', t) && Shape(s')
    ensures forall u | u in s'.pc :: PcOk(s', u, s'.pc[u])
  {
    assert PcOk(s, t, s.pc[t]);
    assert s.pc[t].node !in s.free;
    forall u | u in s'.pc ensures PcOk(s', u, s'.pc[u]) {
      assert PcOk(s, u, s.pc[u]);
    }
  }

  lemma FollowerBehind(n: Node, q: seq<Node>, i: nat)
    requires 0 < i <= |q|
    ensures Follower([n] + q, i) == Follower(q, i - 1)
  {}

  lemma PushChain(s: State, s': State, t: Tid)
    requires Inv(s) && ReleasePush(s, s', t)
    ensures FreeChain(s')
  {
    var n := s.pc[t].node;
    assert n !in s.free && s'.free == [n] + s.free;
    assert s'.next[n] == Follower(s'.free, 0);
    forall i | 0 < i < |s'.free| ensures s'.next[s'.free[i]] == Follower(s'.free, i) {
      FollowerBehind(n, s.free, i);
    }
    assert forall m :: m in s'.free <==> m == n || m in s.free;
  }

  lemma PushInv(s: State, s': State, t: Tid)
    requires Inv(s) && ReleasePush(s, s', t)
    ensures Inv(s')
  {
    PushChain(s, s', t);
  }

  lemma StepInv(s: State, s': State)
    requires Inv(s) && Step(s, s')
    ensures Inv(s')
  {
    var t :| ThreadStep(s, s', t);
    if GetTake(s, s', t) { TakeInv(s, s', t); }
    else if ReleaseLink(s, s', t) { LinkInv(s, s', t); }
    else if ReleasePush(s, s', t) { PushInv(s, s', t); }
    else if exists node :: StartRelease(s, s', t, node) {
      var node :| StartRelease(s, s', t, node);
      StartReleaseInv(s, s', t, node);
    }
    else { LoadStepInv(s, s', t); }
  }

  lemma {:induction false} RunInv(run: seq<State>, i: nat)
    requires Run(run) && i < |run|
    ensures Inv(run[i])
  {
    if i > 0 {
      RunInv(run, i - 1);
      assert StepAt(run, i - 1);
      StepInv(run[i - 1], run[i]);
    }
  }

  // ----- main results -----

  /** Following next fields from a node, at most k times. */
  ghost function Walk(s: State, n: Option<Node>, k: nat): seq<Node>
    decreases k
  {
    if k == 0 || n.None? || n.value >= |s.next| then []
    else [n.value] + Walk(s, s.next[n.value], k - 1)
  }

  lemma {:induction false} WalkIsFreeSuffix(s: State, i: nat, k: nat)
    requires Inv(s) && i <= |s.free| <= i + k
    ensures Walk(s, if i == |s.free| then None else Some(s.free[i]), k) == s.free[i..]
    decreases |s.free| - i
  {
    if i < |s.free| {
      WalkIsFreeSuffix(s, i + 1, k - 1);
      assert s.next[s.free[i]] == Follower(s.free, i);
      assert s.free[i..] == [s.free[i]] + s.free[i + 1..];
    }
  }

  /** A list of distinct numbers below n has at most n elements. */
  lemma {:induction false} DistinctCount(q: seq<nat>, n: nat)
    requires forall i | 0 <= i < |q| :: q[i] < n
    requires forall i, j | 0 <= i < j < |q| :: q[i] != q[j]
    ensures |q| <= n
  {
    if q != [] {
      assert q[0] < n;
      if k :| 0 <= k < |q| && q[k] == n - 1 {
        DistinctCount(q[..k] + q[k + 1..], n - 1);
      } else {
        DistinctCount(q, n - 1);
      }
    }
  }

  /** In every state of every run the next fields lead from the head through a finite list
      without repetition, and every node of the arena is in exactly one of three places:
      once in that list, with a user, or with exactly one thread that is returning it. */
  lemma FreeListPartition(run: seq<State>, i: nat)
    requires Run(run) && i < |run|
    ensures Walk(run[i], run[i].head.node, run[i].capacity) == run[i].free
    ensures forall j, k | 0 <= j < k < |run[i].free| :: run[i].free[j] != run[i].free[k]
    ensures |run[i].place| == run[i].capacity
    ensures forall n | 0 <= n < run[i].capacity :: n in run[i].free <==> run[i].place[n] == Free
    ensures forall n, t | 0 <= n < run[i].capacity && t in run[i].pc ::
              Releases(run[i].pc[t], n) <==> run[i].place[n] == Releasing(t)
  {
    RunInv(run, i);
    DistinctCount(run[i].free, run[i].capacity);
    WalkIsFreeSuffix(run[i], 0, run[i].capacity);
    assert run[i].free[0..] == run[i].free;
  }

  /** A successful swap in FindFreeHead removes the first node of the free list, nobody
      holds that node, and the next field read earlier is still its next field. */
  lemma TakenNodeWasFree(run: seq<State>, i: nat, t: Tid)
    requires Run(run) && i + 1 < |run| && GetTake(run[i], run[i + 1], t)
    ensures var n := run[i].head.node.value;
            && run[i].free == [n] + run[i + 1].free
            && run[i].place[n] == Free && run[i + 1].place[n] == Held
            && run[i].next[n] == run[i].pc[t].next
  {
    RunInv(run, i);
  }

  /** The swap of a thread in FindFreeHead can succeed on the counter alone: whenever the
      counters agree, so do the nodes and the next field. */
  lemma EqualCountMeansUnchanged(run: seq<State>, i: nat, t: Tid)
    requires Run(run) && i < |run| && t in run[i].pc && run[i].pc[t].GetCas?
    requires run[i].pc[t].h.count == run[i].head.count
    ensures run[i].pc[t].h == run[i].head && run[i].free != []
    ensures run[i].pc[t].next == (if |run[i].free| == 1 then None else Some(run[i].free[1]))
  {
    RunInv(run, i);
    assert run[i].next[run[i].free[0]] == Follower(run[i].free, 0);
  }

  /** A loaded head was the head at some earlier moment of the same call, and it is null
      exactly if the free list was empty at that moment. */
  lemma {:induction false} NullOnlyIfEmptyAtLoad(run: seq<State>, j: nat, t: Tid) returns (i: nat)
    requires Run(run) && j < |run| && t in run[j].pc && run[j].pc[t].GetLoaded?
    ensures i < j && run[i].head == run[j].pc[t].h
    ensures forall k | i < k <= j :: t in run[k].pc && run[k].pc[t] == run[j].pc[t]
    ensures run[j].pc[t].h.node.None? <==> run[i].free == []
  {
    i := j - 1;
    assert StepAt(run, i);
    RunInv(run, i);
    if t in run[i].pc && run[i].pc[t] == run[j].pc[t] && run[i].head != run[j].pc[t].h {
      i := NullOnlyIfEmptyAtLoad(run, i, t);
    }
  }

  ghost predicate ReleasedBySomeone(s: State, s': State, n: Node) {
    exists t :: StartRelease(s, s', t, n)
  }

  ghost predicate TakenBySomeone(s: State, s': State) {
    exists t :: GetTake(s, s', t)
  }

  /** A node in use leaves its user only by that user returning it. */
  lemma HeldUntilReleased(run: seq<State>, i: nat, n: Node)
    requires Run(run) && i + 1 < |run| && n < run[i].capacity
    ensures |run[i].place| == |run[i + 1].place| == run[i].capacity
    ensures run[i].place[n] == Held && run[i + 1].place[n] != Held ==>
              ReleasedBySomeone(run[i], run[i + 1], n)
    ensures run[i].place[n] != Held && run[i + 1].place[n] == Held ==>
              TakenBySomeone(run[i], run[i + 1]) && run[i].head.node == Some(n)
  {
    RunInv(run, i);
    RunInv(run, i + 1);
    assert StepAt(run, i);
    var t :| ThreadStep(run[i], run[i + 1], t);
  }

  // ----- what a call does -----

  /** A thread leaves FindFreeHead with the first node of the free list, or with nothing, and
      then the list was empty at some earlier moment of the same call. */
  lemma GetOutcome(run: seq<State>, j: nat, t: Tid) returns (i: nat)
    requires Run(run) && j + 1 < |run| && t in run[j].pc && t in run[j + 1].pc
    requires (run[j].pc[t].GetLoaded? || run[j].pc[t].GetCas?) && run[j + 1].pc[t].Idle?
    ensures i <= j
    ensures || (run[j].free != [] && run[j + 1].free == run[j].free[1..]
                && run[j].free[0] < |run[j].place| && run[j + 1].place == run[j].place[run[j].free[0] := Held])
            || (run[i].free == [] && run[j + 1] == run[j].(pc := run[j + 1].pc)
                && forall k | i < k <= j :: t in run[k].pc && run[k].pc[t] == run[j].pc[t])
  {
    RunInv(run, j);
    assert StepAt(run, j);
    var u :| ThreadStep(run[j], run[j + 1], u);
    i := j;
    if run[j].pc[t].GetLoaded? { i := NullOnlyIfEmptyAtLoad(run, j, t); }
  }

  /** Steps of one thread alone. */
  ghost predicate Solo(path: seq<State>, t: Tid) {
    path != [] && forall k | 0 <= k < |path| - 1 :: ThreadStep(path[k], path[k + 1], t)
  }

  /** A call that is not disturbed takes the first free node, or finds that there is none. */
  lemma GetAlone(run: seq<State>, i: nat, t: Tid) returns (path: seq<State>)
    requires Run(run) && i < |run| && t in run[i].pc && run[i].pc[t].Idle?
    ensures Solo(path, t) && path[0] == run[i]
    ensures var s, s' := run[i], path[|path| - 1];
            if s.free == [] then |path| == 3 && s' == s
            else |path| == 4 && s.free[0] < |s.place| && s'.pc == s.pc && s'.free == s.free[1..]
                 && s'.place == s.place[s.free[0] := Held] && s'.next == s.next
  {
    RunInv(run, i);
    var s := run[i];
    var s1 := s.(pc := s.pc[t := GetLoaded(s.head)]);
    assert s1.pc[t := Idle] == s.pc;
    assert StartGet(s, s1, t);
    if s.free == [] {
      assert GetNull(s1, s, t);
      path := [s, s1, s];
    } else {
      var n := s.free[0];
      var s2 := s.(pc := s.pc[t := GetCas(s.head, s.next[n])]);
      var s3 := s.(head := Head(s.head.count + 1, s.next[n]), free := s.free[1..], place := s.place[n := Held]);
      assert s2.pc[t := Idle] == s.pc;
      assert GetReadNext(s1, s2, t) && GetTake(s2, s3, t);
      path := [s, s1, s2, s3];
    }
  }

  /** A release that is not disturbed puts the node first in the free list. */
  lemma ReleaseAlone(run: seq<State>, i: nat, t: Tid, node: Node) returns (path: seq<State>)
    requires Run(run) && i < |run| && t in run[i].pc && run[i].pc[t].Idle?
    requires node < |run[i].place| && run[i].place[node] == Held
    ensures Solo(path, t) && |path| == 4 && path[0] == run[i]
    ensures var s, s' := run[i], path[3];
            s'.pc == s.pc && s'.free == [node] + s.free && s'.place == s.place[node := Free]
  {
    RunInv(run, i);
    var s := run[i];
    var s1 := s.(pc := s.pc[t := ReleaseLoaded(node, s.head)], place := s.place[node := Releasing(t)]);
    var s2 := s1.(next := s.next[node := s.head.node], pc := s.pc[t := ReleaseCas(node, s.head)]);
    var s3 := s2.(head := Head(s.head.count + 1, Some(node)), pc := s.pc, free := [node] + s.free,
                  place := s.place[node := Free]);
    assert s2.pc[t := Idle] == s.pc && s2.place[node := Free] == s.place[node := Free];
    assert StartRelease(s, s1, t, node) && ReleaseLink(s1, s2, t) && ReleasePush(s2, s3, t);
    path := [s, s1, s2, s3];
  }

  /** A new pool of any capacity but 0 has all its nodes in the free list. */
  lemma NewPool(capacity: nat, pc: map<Tid, Pc>) returns (s: State)
    requires capacity > 0 && forall t | t in pc :: pc[t].Idle?
    ensures Run([s]) && s.capacity == capacity && s.pc == pc && |s.free| == capacity
    ensures forall n | 0 <= n < capacity :: n in s.free
  {
    s := State(capacity, seq(capacity, i => if i + 1 < capacity then Some(i + 1) else None), Head(0, Some(0)), pc,
               seq(capacity, i => i), seq(capacity, _ => Free));
    forall n | 0 <= n < capacity ensures n in s.free {
      assert s.free[n] == n;
    }
  }
}
