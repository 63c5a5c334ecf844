/**
 Service calls (cyber/service/client.h, cyber/service/service.h) as a step system: any
 number of clients and one service over a network that may lose, duplicate, delay and
 reorder messages.  What was ever transmitted stays available for delivery, any number of
 times; a lost message is one that is never delivered.  The mutexes of the source make the
 steps: a client's mutex is held from the increment of the sequence number until the
 pending entry is made, and a response is handled under the same mutex.
 */
module Rpc {

  type Id = nat
  type Promise = nat

  /** transport::MessageInfo: the response carries the request's info with the sender
      replaced, so spare is still the writer that asked. */
  datatype Info = Info(sender: Id, seqNum: nat, spare: Id)
  datatype Req = Req(request: string, info: Info)
  datatype Res = Res(response: string, info: Info)

  datatype Phase =
    | Free                      // the mutex is free
    | Counted(request: string)  // sequence number taken, about to transmit
    | Sent                      // transmitted, about to make the pending entry

  /** `promises` counts the promises made and `value` holds those that were set.  History:
      `call` holds the promise made for each sequence number. */
  datatype Client = Client(
    sequenceNumber: nat, phase: Phase, pending: map<nat, Promise>,
    promises: nat, value: map<Promise, string>, call: map<nat, Promise>)

  datatype Worker =
    | Waiting
    | Handling(task: Req)              // popped, the callback has not returned
    | Replying(task: Req, out: string) // about to transmit
    | Stopped

  /** `requests` and `responses` are what was ever transmitted.  History: `asked` holds the
      request a client passed in for the call with a given info, `produced` holds
      every request with the response the service callback gave it, `delivered` the requests
      enqueued, `popped` those taken from the queue and `handled` those the callback has
      answered, with its answers, in order; `cleared` tells whether destroy has emptied the
      queue. */
  datatype State = State(
    clients: map<Id, Client>, requests: set<Req>, responses: set<Res>,
    service: Id, inited: bool, tasks: seq<Req>, worker: Worker,
    asked: map<Info, string>, produced: set<(Req, string)>, delivered: seq<Req>, popped: seq<Req>,
    handled: seq<(Req, string)>, cleared: bool)

  datatype Action =
    | StartCall(c: Id, request: string)   // lock, ++sequence_number_
    | Transmit(c: Id)
    | MakePending(c: Id)                  // make the promise and the entry, unlock
    | HandleResponse(c: Id, res: Res)     // one delivery of one response to one client
    | Deliver(req: Req)                   // one delivery of one request: Enqueue
    | Pop
    | Callback(out: string)
    | Reply
    | Stop                                // the worker leaves its loop
    | StartDestroy
    | ClearTasks

  predicate Enabled(s: State, a: Action) {
    match a
    case StartCall(c, _) => c in s.clients && s.clients[c].phase.Free?
    case Transmit(c) => c in s.clients && s.clients[c].phase.Counted?
    case MakePending(c) => c in s.clients && s.clients[c].phase.Sent?
    case HandleResponse(c, res) => c in s.clients && s.clients[c].phase.Free? && res in s.responses
    case Deliver(req) => req in s.requests
    case Pop => s.worker.Waiting? && s.inited && s.tasks != []
    case Callback(_) => s.worker.Handling?
    case Reply => s.worker.Replying?
    case Stop => s.worker.Waiting? && !s.inited
    case StartDestroy => true
    case ClearTasks => !s.inited
  }

  /** The info AsyncSendRequest gives a request. */
  function InfoOf(c: Id, n: nat): Info {
    Info(c, n, c)
  }

  function Count(k: Client, request: string): Client {
    k.(sequenceNumber := k.sequenceNumber + 1, phase := Counted(request))
  }

  function MarkSent(k: Client): Client
    requires k.phase.Counted?
  {
    k.(phase := Sent)
  }

  function AddPending(k: Client): Client {
    k.(phase := Free, promises := k.promises + 1,
       pending := k.pending[k.sequenceNumber := k.promises],
       call := k.call[k.sequenceNumber := k.promises])
  }

  /** HandleResponse of client c. */
  function Settle(k: Client, c: Id, res: Res): Client {
    if res.info.spare != c || res.info.seqNum !in k.pending then k
    else k.(pending := k.pending - {res.info.seqNum},
            value := k.value[k.pending[res.info.seqNum] := res.response])
  }

  /** Transmits the request of the call that holds client c's mutex. */
  function TransmitNow(s: State, c: Id): State
    requires c in s.clients && s.clients[c].phase.Counted?
  {
    var k := s.clients[c];
    var i := InfoOf(c, k.sequenceNumber);
    s.(clients := s.clients[c := MarkSent(k)], requests := s.requests + {Req(k.phase.request, i)},
       asked := s.asked[i := k.phase.request])
  }

  function ReplyNow(s: State): State
    requires s.worker.Replying?
  {
    s.(worker := Waiting, responses := s.responses + {Res(s.worker.out, s.worker.task.info.(sender := s.service))})
  }

  function Apply(s: State, a: Action): State
    requires Enabled(s, a)
  {
    match a
    case StartCall(c, request) => s.(clients := s.clients[c := Count(s.clients[c], request)])
    case Transmit(c) => TransmitNow(s, c)
    case MakePending(c) => s.(clients := s.clients[c := AddPending(s.clients[c])])
    case HandleResponse(c, res) => s.(clients := s.clients[c := Settle(s.clients[c], c, res)])
    case Deliver(req) => s.(tasks := s.tasks + [req], delivered := s.delivered + [req])
    case Pop => s.(worker := Handling(s.tasks[0]), tasks := s.tasks[1..], popped := s.popped + [s.tasks[0]])
    case Callback(out) =>
      s.(worker := Replying(s.worker.task, out), produced := s.produced + {(s.worker.task, out)},
         handled := s.handled + [(s.worker.task, out)])
    case Reply => ReplyNow(s)
    case Stop => s.(worker := Stopped)
    case StartDestroy => s.(inited := false)
    case ClearTasks => s.(tasks := [], cleared := true)
  }

  ghost predicate Init(s: State) {
    && (forall c | c in s.clients :: s.clients[c] == Client(0, Free, map[], 0, map[], map[]))
    && s.requests == {} && s.responses == {} && s.inited && s.tasks == [] && s.worker == Waiting
    && s.asked == map[] && s.produced == {} && s.delivered == [] && s.popped == []
    && s.handled == [] && !s.cleared
  }

  ghost predicate Step(s: State, s': State) {
    exists a :: Enabled(s, a) && s' == Apply(s, a)
  }

  ghost predicate StepAt(run: seq<State>, i: nat) {
    i + 1 < |run| && Step(run[i], run[i + 1])
  }

  ghost predicate Run(run: seq<State>) {
    run != [] && Init(run[0]) && forall i | 0 <= i < |run| - 1 :: StepAt(run, i)
  }

  // ----- the invariant -----

  /** The last sequence number that has a promise: the one taken by a call that still holds
      the mutex has none yet. */
  function Called(k: Client): int {
    if k.phase.Free? then k.sequenceNumber else k.sequenceNumber - 1
  }

  /** The last sequence number under which a request was transmitted. */
  function Transmitted(k: Client): int {
    if k.phase.Counted? then k.sequenceNumber - 1 else k.sequenceNumber
  }

  /** Every number that was called has its own promise, which is pending or set, not both. */
  ghost predicate ClientOk(k: Client) {
    && (k.phase.Free? || k.sequenceNumber >= 1)
    && (forall n :: n in k.call <==> 1 <= n <= Called(k))
    && (forall n | n in k.call :: k.call[n] < k.promises)
    && (forall n, m | n in k.call && m in k.call && k.call[n] == k.call[m] :: n == m)
    && (forall n | n in k.pending :: n in k.call && k.pending[n] == k.call[n])
    && (forall n | n in k.call :: n in k.pending <==> k.call[n] !in k.value)
    && (forall p | p in k.value :: p < k.promises)
  }

  ghost predicate ClientsOk(s: State) {
    forall c | c in s.clients :: ClientOk(s.clients[c])
  }

  /** Exactly the numbers client c has transmitted have been asked. */
  ghost predicate AskedBy(asked: map<Info, string>, c: Id, k: Client) {
    forall n: nat :: InfoOf(c, n) in asked <==> 1 <= n <= Transmitted(k)
  }

  ghost predicate AskedOk(s: State) {
    forall c | c in s.clients :: AskedBy(s.asked, c, s.clients[c])
  }

  /** The service callback answered request i with v. */
  ghost predicate Answered(s: State, i: Info, v: string) {
    i in s.asked && (Req(s.asked[i], i), v) in s.produced
  }

  /** A promise that was set has a response produced for its own request. */
  ghost predicate ValueOk(s: State, c: Id, k: Client) {
    forall n | n in k.call && k.call[n] in k.value :: Answered(s, InfoOf(c, n), k.value[k.call[n]])
  }

  ghost predicate ValuesOk(s: State) {
    forall c | c in s.clients :: ValueOk(s, c, s.clients[c])
  }

  /** A request in the network is what its client passed in for the info it carries. */
  ghost predicate RequestOk(s: State, q: Req) {
    && q.info.sender == q.info.spare && q.info.spare in s.clients
    && q.info in s.asked && s.asked[q.info] == q.request
  }

  /** A response in the network answers the request of the writer and number it carries. */
  ghost predicate ResponseOk(s: State, r: Res) {
    r.info.spare in s.clients && Answered(s, InfoOf(r.info.spare, r.info.seqNum), r.response)
  }

  ghost predicate NetworkOk(s: State) {
    && (forall q | q in s.requests :: RequestOk(s, q))
    && (forall r | r in s.responses :: ResponseOk(s, r))
  }

  ghost predicate WorkerOk(s: State) {
    && (forall q | q in s.tasks :: q in s.requests)
    && (s.worker.Handling? || s.worker.Replying? ==> s.worker.task in s.requests)
    && (s.worker.Replying? ==> (s.worker.task, s.worker.out) in s.produced)
  }

  /** The queue holds what was delivered and not yet popped. */
  ghost predicate QueueOk(s: State) {
    && s.popped <= s.delivered
    && (!s.cleared ==> s.popped + s.tasks == s.delivered)
    && (s.cleared ==> !s.inited)
  }

  ghost predicate Inv(s: State) {
    ClientsOk(s) && AskedOk(s) && ValuesOk(s) && NetworkOk(s) && WorkerOk(s) && QueueOk(s)
  }

  // ----- every step keeps it -----

  lemma AddPendingOk(k: Client)
    requires ClientOk(k) && k.phase.Sent?
    ensures ClientOk(AddPending(k))
  {
    assert k.sequenceNumber !in k.call && k.promises !in k.value;
  }

  lemma SettleOk(k: Client, c: Id, res: Res)
    requires ClientOk(k)
    ensures ClientOk(Settle(k, c, res))
  {
    var k', n := Settle(k, c, res), res.info.seqNum;
    if k' != k {
      assert forall m | m in k.call && m != n :: k.call[m] != k.call[n];
    }
  }

  /** What was answered stays answered. */
  ghost predicate Grows(s: State, s': State) {
    && s'.clients.Keys == s.clients.Keys && s.produced <= s'.produced
    && forall i | i in s.asked :: i in s'.asked && s'.asked[i] == s.asked[i]
  }

  lemma GrowsKeeps(s: State, s': State)
    requires NetworkOk(s) && Grows(s, s')
    ensures forall q | q in s.requests :: RequestOk(s', q)
    ensures forall r | r in s.responses :: ResponseOk(s', r)
  {
    forall q | q in s.requests ensures RequestOk(s', q) { assert RequestOk(s, q); }
    forall r | r in s.responses ensures ResponseOk(s', r) { assert ResponseOk(s, r); }
  }

  lemma GrowsKeepsValue(s: State, s': State, c: Id, k: Client)
    requires ValueOk(s, c, k) && Grows(s, s')
    ensures ValueOk(s', c, k)
  {
    forall n | n in k.call && k.call[n] in k.value ensures Answered(s', InfoOf(c, n), k.value[k.call[n]]) {
      assert Answered(s, InfoOf(c, n), k.value[k.call[n]]);
    }
  }

  /** A step of client c that transmits nothing. */
  lemma QuietStepInv(s: State, s': State, c: Id, k': Client)
    requires Inv(s) && c in s.clients && s' == s.(clients := s.clients[c := k'])
    requires ClientOk(k') && ValueOk(s, c, k') && Transmitted(k') == Transmitted(s.clients[c])
    ensures Inv(s')
  {
    GrowsKeeps(s, s');
    QuietStepAsked(s, s', c, k');
    forall d | d in s'.clients ensures ValueOk(s', d, s'.clients[d]) {
      GrowsKeepsValue(s, s', d, s'.clients[d]);
    }
  }

  lemma QuietStepAsked(s: State, s': State, c: Id, k': Client)
    requires AskedOk(s) && c in s.clients && s' == s.(clients := s.clients[c := k'])
    requires Transmitted(k') == Transmitted(s.clients[c])
    ensures AskedOk(s')
  {
    assert AskedBy(s.asked, c, s.clients[c]) && AskedBy(s.asked, c, k');
  }

  lemma StartCallInv(s: State, c: Id, request: string)
    requires Inv(s) && Enabled(s, StartCall(c, request))
    ensures Inv(Apply(s, StartCall(c, request)))
  {
    var k := s.clients[c];
    assert ClientOk(k) && ClientOk(Count(k, request));
    assert ValueOk(s, c, k);
    QuietStepInv(s, Apply(s, StartCall(c, request)), c, Count(k, request));
  }

  lemma AskedMore(asked: map<Info, string>, c: Id, k: Client, request: string)
    requires AskedBy(asked, c, k) && ClientOk(k) && k.phase.Counted?
    ensures var i := InfoOf(c, k.sequenceNumber); i !in asked && AskedBy(asked[i := request], c, MarkSent(k))
  {}

  lemma TransmitAsked(s: State, c: Id)
    requires ClientsOk(s) && AskedOk(s) && c in s.clients && s.clients[c].phase.Counted?
    ensures InfoOf(c, s.clients[c].sequenceNumber) !in s.asked && AskedOk(TransmitNow(s, c))
  {
    AskedMore(s.asked, c, s.clients[c], s.clients[c].phase.request);
    var s' := TransmitNow(s, c);
    forall d | d in s'.clients && d != c ensures AskedBy(s'.asked, d, s'.clients[d]) {
      assert AskedBy(s.asked, d, s.clients[d]);
    }
  }

  lemma TransmitInv(s: State, c: Id)
    requires Inv(s) && c in s.clients && s.clients[c].phase.Counted?
    ensures Inv(TransmitNow(s, c))
  {
    var s', k := TransmitNow(s, c), s.clients[c];
    TransmitAsked(s, c);
    GrowsKeeps(s, s');
    assert ClientOk(k) && ClientOk(MarkSent(k));
    assert ValueOk(s, c, k) && ValueOk(s, c, MarkSent(k));
    assert NetworkOk(s');
    forall d | d in s'.clients ensures ValueOk(s', d, s'.clients[d]) {
      GrowsKeepsValue(s, s', d, s'.clients[d]);
    }
  }

  lemma MakePendingInv(s: State, c: Id)
    requires Inv(s) && Enabled(s, MakePending(c))
    ensures Inv(Apply(s, MakePending(c)))
  {
    var k := s.clients[c];
    AddPendingOk(k);
    assert ValueOk(s, c, k) && k.promises !in k.value;
    QuietStepInv(s, Apply(s, MakePending(c)), c, AddPending(k));
  }

  lemma HandleResponseInv(s: State, c: Id, res: Res)
    requires Inv(s) && Enabled(s, HandleResponse(c, res))
    ensures Inv(Apply(s, HandleResponse(c, res)))
  {
    var k := s.clients[c];
    SettleOk(k, c, res);
    assert ValueOk(s, c, k) && ResponseOk(s, res);
    QuietStepInv(s, Apply(s, HandleResponse(c, res)), c, Settle(k, c, res));
  }

  /** A step that leaves the clients alone. */
  lemma ServiceStepKeeps(s: State, s': State)
    requires Inv(s) && s'.clients == s.clients && s'.asked == s.asked && s.produced <= s'.produced
    ensures ClientsOk(s') && AskedOk(s') && ValuesOk(s')
    ensures forall q | q in s.requests :: RequestOk(s', q)
    ensures forall r | r in s.responses :: ResponseOk(s', r)
  {
    assert Grows(s, s');
    GrowsKeeps(s, s');
    forall d | d in s'.clients ensures ValueOk(s', d, s'.clients[d]) {
      GrowsKeepsValue(s, s', d, s.clients[d]);
    }
  }

  lemma ReplyInv(s: State)
    requires Inv(s) && s.worker.Replying?
    ensures Inv(ReplyNow(s))
  {
    ServiceStepKeeps(s, ReplyNow(s));
    assert RequestOk(s, s.worker.task);
  }

  lemma DeliverInv(s: State, req: Req)
    requires Inv(s) && req in s.requests
    ensures Inv(Apply(s, Deliver(req)))
  {
    ServiceStepKeeps(s, Apply(s, Deliver(req)));
    assert (s.popped + s.tasks) + [req] == s.popped + (s.tasks + [req]);
  }

  lemma PopWorker(s: State)
    requires Enabled(s, Pop) && WorkerOk(s)
    ensures WorkerOk(Apply(s, Pop))
  {
    assert forall q | q in s.tasks[1..] :: q in s.tasks;
  }

  lemma PopQueue(s: State)
    requires Enabled(s, Pop) && QueueOk(s)
    ensures QueueOk(Apply(s, Pop))
  {
    assert (s.popped + [s.tasks[0]]) + s.tasks[1..] == s.popped + s.tasks;
  }

  lemma PopInv(s: State)
    requires Inv(s) && Enabled(s, Pop)
    ensures Inv(Apply(s, Pop))
  {
    ServiceStepKeeps(s, Apply(s, Pop));
    PopWorker(s);
    PopQueue(s);
  }

  lemma WorkerStepInv(s: State, a: Action)
    requires Inv(s) && Enabled(s, a) && (a.Callback? || a.Stop? || a.StartDestroy? || a.ClearTasks?)
    ensures Inv(Apply(s, a))
  {
    ServiceStepKeeps(s, Apply(s, a));
  }

  lemma StepInv(s: State, s': State)
    requires Inv(s) && Step(s, s')
    ensures Inv(s')
  {
    var a :| Enabled(s, a) && s' == Apply(s, a);
    match a {
      case StartCall(c, request) => StartCallInv(s, c, request);
      case Transmit(c) => TransmitInv(s, c);
      case MakePending(c) => MakePendingInv(s, c);
      case HandleResponse(c, res) => HandleResponseInv(s, c, res);
      case Reply => ReplyInv(s);
      case Deliver(req) => DeliverInv(s, req);
      case Pop => PopInv(s);
      case _ => WorkerStepInv(s, a);
    }
  }

  lemma {:induction false} RunInv(run: seq<State>, i: nat)
    requires Run(run) && i < |run|
    ensures Inv(run[i])
  {
    if i > 0 {
      RunInv(run, i - 1);
      assert StepAt(run, i - 1);
      StepInv(run[i - 1], run[i]);
    }
  }

  // ----- what the callers see -----

  /** A promise is set at most once: once set it keeps its value. */
  lemma {:induction false} PromiseSetOnce(run: seq<State>, i: nat, j: nat, c: Id, p: Promise)
    requires Run(run) && i <= j < |run|
    requires c in run[i].clients && p in run[i].clients[c].value
    ensures c in run[j].clients && p in run[j].clients[c].value
    ensures run[j].clients[c].value[p] == run[i].clients[c].value[p]
    decreases j - i
  {
    if i < j {
      PromiseSetOnce(run, i, j - 1, c, p);
      ValueKeptInRun(run, j - 1, c, p);
    }
  }

  lemma ValueKeptInRun(run: seq<State>, i: nat, c: Id, p: Promise)
    requires Run(run) && i < |run| - 1 && c in run[i].clients && p in run[i].clients[c].value
    ensures c in run[i + 1].clients && p in run[i + 1].clients[c].value
    ensures run[i + 1].clients[c].value[p] == run[i].clients[c].value[p]
  {
    RunInv(run, i);
    assert StepAt(run, i);
    var a :| Enabled(run[i], a) && run[i + 1] == Apply(run[i], a);
    ValueKept(run[i], a, c, p);
  }

  lemma ValueKept(s: State, a: Action, c: Id, p: Promise)
    requires ClientsOk(s) && Enabled(s, a) && c in s.clients && p in s.clients[c].value
    ensures var s' := Apply(s, a);
            c in s'.clients && p in s'.clients[c].value && s'.clients[c].value[p] == s.clients[c].value[p]
  {
    if a.HandleResponse? && a.c == c { SettleKeeps(s.clients[c], c, a.res); }
  }

  lemma SettleKeeps(k: Client, c: Id, res: Res)
    requires ClientOk(k)
    ensures var k' := Settle(k, c, res); forall p | p in k.value :: p in k'.value && k'.value[p] == k.value[p]
  {}

  /** A promise is set only with a response that the service callback produced for the very
      request of the call that made the promise: same writer, same number, same request. */
  lemma OnlyOwnResponse(run: seq<State>, i: nat, c: Id, n: nat)
    requires Run(run) && i < |run| && c in run[i].clients
    requires n in run[i].clients[c].call && run[i].clients[c].call[n] in run[i].clients[c].value
    ensures var k := run[i].clients[c];
            Answered(run[i], InfoOf(c, n), k.value[k.call[n]])
  {
    RunInv(run, i);
    assert ValueOk(run[i], c, run[i].clients[c]);
  }

  /** The request recorded for a call is the one its caller passed in, forever. */
  lemma {:induction false} AskedForever(run: seq<State>, i: nat, j: nat, x: Info)
    requires Run(run) && i <= j < |run| && x in run[i].asked
    ensures x in run[j].asked && run[j].asked[x] == run[i].asked[x]
    decreases j - i
  {
    if i < j {
      AskedForever(run, i, j - 1, x);
      AskedKeptInRun(run, j - 1, x);
    }
  }

  lemma AskedKeptInRun(run: seq<State>, i: nat, x: Info)
    requires Run(run) && i < |run| - 1 && x in run[i].asked
    ensures x in run[i + 1].asked && run[i + 1].asked[x] == run[i].asked[x]
  {
    RunInv(run, i);
    assert StepAt(run, i);
    var a :| Enabled(run[i], a) && run[i + 1] == Apply(run[i], a);
    AskedKept(run[i], a, x);
  }

  lemma AskedKept(s: State, a: Action, x: Info)
    requires ClientsOk(s) && AskedOk(s) && Enabled(s, a) && x in s.asked
    ensures x in Apply(s, a).asked && Apply(s, a).asked[x] == s.asked[x]
  {
    if a.Transmit? { TransmitAsked(s, a.c); }
  }

  /** A response for another writer, or for a number that was settled before, changes
      nothing. */
  lemma StrayResponse(run: seq<State>, i: nat, c: Id, res: Res)
    requires Run(run) && i < |run| && Enabled(run[i], HandleResponse(c, res))
    requires var k := run[i].clients[c];
             res.info.spare != c || (res.info.seqNum in k.call && k.call[res.info.seqNum] in k.value)
    ensures Apply(run[i], HandleResponse(c, res)) == run[i]
  {
    RunInv(run, i);
    var s := run[i];
    assert ClientOk(s.clients[c]);
    assert s.clients[c := s.clients[c]] == s.clients;
  }

  /** No response is lost between transmission and the making of the pending entry: whenever
      a client can handle a response of its own, that call's promise is set afterwards. */
  lemma ResponseSettles(run: seq<State>, i: nat, c: Id, res: Res)
    requires Run(run) && i < |run| && Enabled(run[i], HandleResponse(c, res)) && res.info.spare == c
    ensures var k := Apply(run[i], HandleResponse(c, res)).clients[c];
            var n := res.info.seqNum;
            n in k.call && k.call[n] in k.value && n !in k.pending
  {
    RunInv(run, i);
    var s := run[i];
    assert ClientOk(s.clients[c]) && ResponseOk(s, res) && AskedBy(s.asked, c, s.clients[c]);
  }

  /** Whenever a client's mutex is free, each of its calls so far has its own promise, and
      that promise is waiting in the pending map or was set, never both. */
  lemma PendingXorSettled(run: seq<State>, i: nat, c: Id, n: nat)
    requires Run(run) && i < |run| && c in run[i].clients && run[i].clients[c].phase.Free?
    requires 1 <= n <= run[i].clients[c].sequenceNumber
    ensures var k := run[i].clients[c];
            && n in k.call && (n in k.pending <==> k.call[n] !in k.value)
            && (n in k.pending ==> k.pending[n] == k.call[n])
            && forall m | m in k.call && k.call[m] == k.call[n] :: m == n
  {
    RunInv(run, i);
    assert ClientOk(run[i].clients[c]);
  }

  // ----- what the service does -----

  function Requests(handled: seq<(Req, string)>): seq<Req> {
    seq(|handled|, k requires 0 <= k < |handled| => handled[k].0)
  }

  /** The request the worker has popped and the callback has not answered. */
  function InHand(w: Worker): seq<Req> {
    if w.Handling? then [w.task] else []
  }

  /** The response that answers a request. */
  function ResponseTo(s: State, a: (Req, string)): Res {
    Res(a.1, a.0.info.(sender := s.service))
  }

  /** What was popped was handled, in order; every answer was produced and transmitted, but
      for the one about to be. */
  ghost predicate HandledOk(s: State) {
    && s.popped == Requests(s.handled) + InHand(s.worker)
    && (forall a :: a in s.produced <==> a in s.handled)
    && (s.worker.Replying? ==> s.handled != [] && s.handled[|s.handled| - 1] == (s.worker.task, s.worker.out))
    && forall k | 0 <= k < |s.handled| - (if s.worker.Replying? then 1 else 0) ::
         ResponseTo(s, s.handled[k]) in s.responses
  }

  /** What was asked was transmitted. */
  ghost predicate SentOk(s: State) {
    forall i | i in s.asked :: Req(s.asked[i], i) in s.requests
  }

  lemma HandledMore(h: seq<(Req, string)>, q: Req, out: string)
    ensures Requests(h + [(q, out)]) == Requests(h) + [q]
  {}

  lemma HandledStep(s: State, a: Action)
    requires HandledOk(s) && Enabled(s, a)
    ensures HandledOk(Apply(s, a))
  {
    if a.Callback? { HandledMore(s.handled, s.worker.task, a.out); }
    assert a.Pop? ==> Requests(s.handled) + [] == Requests(s.handled);
  }

  lemma SentStep(s: State, a: Action)
    requires SentOk(s) && Enabled(s, a)
    ensures SentOk(Apply(s, a))
  {}

  lemma {:induction false} ServedInRun(run: seq<State>, i: nat)
    requires Run(run) && i < |run|
    ensures HandledOk(run[i]) && SentOk(run[i])
  {
    if i > 0 {
      ServedInRun(run, i - 1);
      assert StepAt(run, i - 1);
      var a :| Enabled(run[i - 1], a) && run[i] == Apply(run[i - 1], a);
      HandledStep(run[i - 1], a);
      SentStep(run[i - 1], a);
    }
  }

  /** The requests given to the service callback are, in order, the first ones enqueued, each
      delivery once.  With the one in hand they are those popped; until destroy empties the
      queue, all others are waiting.  Every answer was produced by the callback, and it was
      transmitted, but for the one that is about to be. */
  lemma HandledInOrder(run: seq<State>, i: nat)
    requires Run(run) && i < |run|
    ensures Requests(run[i].handled) <= run[i].delivered
    ensures run[i].popped == Requests(run[i].handled) + InHand(run[i].worker)
    ensures run[i].popped <= run[i].delivered
    ensures !run[i].cleared ==> run[i].delivered == run[i].popped + run[i].tasks
    ensures forall a :: a in run[i].produced <==> a in run[i].handled
    ensures forall k | 0 <= k < |run[i].handled| - (if run[i].worker.Replying? then 1 else 0) ::
              ResponseTo(run[i], run[i].handled[k]) in run[i].responses
  {
    RunInv(run, i);
    ServedInRun(run, i);
  }

  /** The worker stops only after destroy, and after destroy nothing more is taken from the
      queue: only the request in hand is still answered. */
  lemma {:induction false} AfterDestroy(run: seq<State>, i: nat, j: nat)
    requires Run(run) && i <= j < |run|
    ensures run[i].worker.Stopped? || run[i].cleared ==> !run[i].inited
    ensures !run[i].inited ==> !run[j].inited && run[j].popped == run[i].popped
    decreases j
  {
    if i < j {
      AfterDestroy(run, i, j - 1);
      assert StepAt(run, j - 1);
    } else if i > 0 {
      AfterDestroy(run, i - 1, i - 1);
      assert StepAt(run, i - 1);
    }
  }

  /** Destroy empties the queue and lets a waiting worker stop. */
  lemma DestroysAlone(s: State) returns (path: seq<State>)
    requires s.worker.Waiting?
    ensures Path(path) && path[0] == s
    ensures var s' := path[|path| - 1]; s'.worker.Stopped? && !s'.inited && s'.tasks == [] && s'.popped == s.popped
  {
    path := Onward([s], StartDestroy);
    path := Onward(path, ClearTasks);
    path := Onward(path, Stop);
  }

  /** A new service with new clients. */
  lemma NewService(clients: set<Id>, service: Id) returns (s: State)
    ensures Run([s]) && s.clients.Keys == clients && s.inited && s.worker.Waiting? && s.tasks == []
  {
    s := State(map c | c in clients :: Client(0, Free, map[], 0, map[], map[]), {}, {}, service, true, [], Waiting,
               map[], {}, [], [], [], false);
  }

  /** One step after another. */
  ghost predicate Path(path: seq<State>) {
    path != [] && forall k | 0 <= k < |path| - 1 :: Step(path[k], path[k + 1])
  }

  lemma Onward(path: seq<State>, a: Action) returns (path': seq<State>)
    requires Path(path) && Enabled(path[|path| - 1], a)
    ensures Path(path') && path'[0] == path[0] && path'[|path'| - 1] == Apply(path[|path| - 1], a)
  {
    var s' := Apply(path[|path| - 1], a);
    assert Step(path[|path| - 1], s');
    path' := path + [s'];
  }

  /** A request goes out and comes in. */
  lemma AsksAlone(s: State, c: Id, request: string) returns (path: seq<State>)
    requires c in s.clients && s.clients[c].phase.Free?
    ensures Path(path) && path[0] == s
    ensures var q := Req(request, InfoOf(c, s.clients[c].sequenceNumber + 1));
            var s', k := path[|path| - 1], s.clients[c];
            && c in s'.clients && s'.clients[c] == AddPending(Count(k, request))
            && s' == s.(clients := s'.clients, requests := s.requests + {q}, asked := s'.asked,
                        tasks := s.tasks + [q], delivered := s.delivered + [q])
  {
    var q := Req(request, InfoOf(c, s.clients[c].sequenceNumber + 1));
    path := Onward([s], StartCall(c, request));
    path := Onward(path, Transmit(c));
    path := Onward(path, MakePending(c));
    path := Onward(path, Deliver(q));
  }

  /** A waiting service answers the only request in its queue. */
  lemma ServesAlone(s: State, out: string) returns (path: seq<State>)
    requires s.worker.Waiting? && s.inited && |s.tasks| == 1
    ensures Path(path) && path[0] == s
    ensures var s' := path[|path| - 1];
            && s'.worker.Waiting? && s'.clients == s.clients && s'.tasks == []
            && s'.responses == s.responses + {Res(out, s.tasks[0].info.(sender := s.service))}
  {
    path := Onward([s], Pop);
    path := Onward(path, Callback(out));
    path := Onward(path, Reply);
  }

  /** A call completes: from every state of every run in which its client is free and the service
      waits with an empty queue, the next call can be answered, and its promise is then set to
      what the callback gave. */
  lemma CallCompletes(run: seq<State>, i: nat, c: Id, request: string, out: string) returns (path: seq<State>)
    requires Run(run) && i < |run| && c in run[i].clients && run[i].clients[c].phase.Free?
    requires run[i].worker.Waiting? && run[i].inited && run[i].tasks == []
    ensures Path(path) && path[0] == run[i]
    ensures var n := run[i].clients[c].sequenceNumber + 1;
            var s' := path[|path| - 1];
            && c in s'.clients && n in s'.clients[c].call && s'.clients[c].call[n] in s'.clients[c].value
            && s'.clients[c].value[s'.clients[c].call[n]] == out
  {
    var s := run[i];
    var n := s.clients[c].sequenceNumber + 1;
    path := AsksAlone(s, c, request);
    var path2 := ServesAlone(path[|path| - 1], out);
    path := Join(path, path2);
    path := Onward(path, HandleResponse(c, Res(out, InfoOf(c, n).(sender := s.service))));
  }

  lemma Join(a: seq<State>, b: seq<State>) returns (path: seq<State>)
    requires Path(a) && Path(b) && a[|a| - 1] == b[0]
    ensures Path(path) && path[0] == a[0] && path[|path| - 1] == b[|b| - 1]
  {
    path := a[..|a| - 1] + b;
    forall i | 0 <= i < |path| - 1 ensures Step(path[i], path[i + 1]) {
      if i < |a| - 1 { assert path[i] == a[i] && path[i + 1] == a[i + 1]; }
      else { assert path[i] == b[i - (|a| - 1)] && path[i + 1] == b[i + 1 - (|a| - 1)]; }
    }
  }
}
