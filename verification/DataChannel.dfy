/**
 The channel data path: the overwriting ring of cyber/data/cache_buffer.h, the fetches of
 cyber/data/channel_buffer.h and the one-channel visitor of cyber/data/data_visitor.h,
 against the full history of published messages.  Every operation runs under the
 buffer's mutex, so it is one step of a run.
 */
module DataChannel {
  import opened Ring

  // ----- the specification: a history and a reading position -----

  /** The oldest position still in a ring of the given size. */
  function Head(tail: nat, size: nat): nat {
    if tail <= size then 1 else tail - size + 1
  }

  /** Something has been published and the reader is not up to date. */
  predicate CanFetch(tail: nat, index: nat) {
    tail > 0 && index != tail + 1
  }

  /** The position that Fetch delivers. */
  function FetchPosition(tail: nat, size: nat, index: nat): nat {
    if index == 0 || index < Head(tail, size) then tail else index
  }

  function Min(a: nat, b: nat): nat {
    if a < b then a else b
  }

  /** A delivery: its position, its message, and how many messages had been published. */
  datatype Delivery<T> = Delivery(pos: nat, msg: T, tail: nat)

  datatype Channel<T> = Channel(size: nat, history: seq<T>, next: nat, delivered: seq<Delivery<T>>)

  datatype Op<T> = Publish(msg: T) | Poll

  ghost predicate Ok<T>(c: Channel<T>) {
    c.next <= |c.history| + 1
  }

  function Apply<T>(c: Channel<T>, op: Op<T>): (c': Channel<T>)
    requires Ok(c)
    ensures Ok(c')
  {
    match op
    case Publish(m) => c.(history := c.history + [m])
    case Poll =>
      var tail := |c.history|;
      if CanFetch(tail, c.next) then
        var p := FetchPosition(tail, c.size, c.next);
        c.(next := p + 1, delivered := c.delivered + [Delivery(p, c.history[p - 1], tail)])
      else c
  }

  function Replay<T>(c: Channel<T>, ops: seq<Op<T>>): (c': Channel<T>)
    requires Ok(c)
    ensures Ok(c')
    decreases |ops|
  {
    if ops == [] then c else Apply(Replay(c, ops[..|ops| - 1]), ops[|ops| - 1])
  }

  // ----- the code -----

  /** The slot of the next position is none of the slots retained afterwards. */
  lemma RetainedApart(tail: nat, capacity: nat)
    requires capacity > 0
    ensures forall p: nat | tail + 1 < p + capacity && p <= tail :: SlotOf(p, capacity) != SlotOf(tail + 1, capacity)
  {
    forall p: nat | tail + 1 < p + capacity && p <= tail
      ensures SlotOf(p, capacity) != SlotOf(tail + 1, capacity)
    {
      SlotArithmetic(p, tail + 1, capacity);
    }
  }

  /** Storing the next message in its slot keeps the retained positions. */
  lemma RetainedKept<T>(ring: seq<T>, history: seq<T>, value: T, capacity: nat)
    requires |ring| == capacity > 0
    requires forall p | 1 <= p <= |history| < p + capacity :: ring[SlotOf(p, capacity)] == history[p - 1]
    ensures var tail := |history| + 1;
            var ring' := ring[SlotOf(tail, capacity) := value];
            forall p | 1 <= p <= tail < p + capacity :: ring'[SlotOf(p, capacity)] == (history + [value])[p - 1]
  {
    RetainedApart(|history|, capacity);
  }

  class CacheBuffer<T(0)> {
    const size: nat
    const capacity: nat
    const buffer: array<T>
    var head: nat
    var tail: nat
    ghost var history: seq<T>

    /** Position p is in the ring for every retained p. */
    ghost predicate Valid()
      reads this, buffer
    {
      && capacity == size + 1 && buffer.Length == capacity
      && tail == |history| && head + 1 == Head(tail, size)
      && forall p | 1 <= p <= tail < p + capacity :: buffer[SlotOf(p, capacity)] == history[p - 1]
    }

    constructor (size: nat)
      ensures Valid() && fresh(buffer)
      ensures this.size == size && history == []
    {
      this.size := size;
      capacity := size + 1;
      buffer := new T[size + 1];
      head, tail := 0, 0;
      history := [];
    }

    predicate Empty()
      reads this
    {
      tail == 0
    }

    predicate Full()
      reads this
    {
      capacity - 1 == tail - head
    }

    /** Fill without a fusion callback: the new message replaces the oldest when full. */
    method Fill(value: T)
      requires Valid()
      modifies this, buffer
      ensures Valid()
      ensures history == old(history) + [value]
    {
      ghost var was := buffer[..];
      RetainedKept(was, history, value, capacity);
      if Full() {
        IndexIsSlotOf(head, capacity);
        SlotArithmetic(head, tail + 1, capacity);
        buffer[head % capacity] := value;
        head := head + 1;
        tail := tail + 1;
      } else {
        IndexIsSlotOf(tail + 1, capacity);
        buffer[(tail + 1) % capacity] := value;
        tail := tail + 1;
      }
      history := history + [value];
      assert buffer[..] == was[SlotOf(tail, capacity) := value];
    }

    /** ChannelBuffer::Fetch; index is the caller's variable.  Beyond the newest position
        the ring is read all the same: the message kept in the same slot is delivered. */
    method Fetch(index: nat) returns (ok: bool, index': nat, m: T)
      requires Valid()
      ensures ok <==> history != [] && index != |history| + 1
      ensures index' == if ok then FetchPosition(|history|, size, index) else index
      ensures ok && index <= |history| ==> m == history[index' - 1]
      ensures ok ==> forall p | 1 <= p <= |history| < p + capacity && SlotOf(p, capacity) == SlotOf(index', capacity) ::
                m == history[p - 1]
    {
      m := buffer[0];
      index' := index;
      if Empty() {
        return false, index, m;
      }
      if index == 0 {
        index' := tail;
      } else if index == tail + 1 {
        return false, index, m;
      } else if index < head + 1 {
        index' := tail;
      }
      IndexIsSlotOf(index', capacity);
      m := buffer[index' % capacity];
      ok := true;
    }

    method Latest() returns (ok: bool, m: T)
      requires Valid()
      ensures ok <==> history != []
      ensures ok ==> m == history[|history| - 1]
    {
      m := buffer[0];
      if Empty() {
        return false, m;
      }
      IndexIsSlotOf(tail, capacity);
      return true, buffer[tail % capacity];
    }

    /** The newest messages in publication order, at most fetchSize of them. */
    method FetchMulti(fetchSize: nat) returns (ok: bool, vec: seq<T>)
      requires Valid()
      ensures ok <==> history != []
      ensures vec == history[|history| - Min(Min(|history|, size), fetchSize)..]
    {
      vec := [];
      if Empty() {
        return false, vec;
      }
      var num := Min(tail - head, fetchSize);
      var index := tail - num + 1;
      while index <= tail
        invariant tail - num + 1 <= index <= tail + 1
        invariant vec == history[tail - num..index - 1]
      {
        IndexIsSlotOf(index, capacity);
        vec := vec + [buffer[index % capacity]];
        index := index + 1;
      }
      ok := true;
    }
  }

  /** DataVisitor of one message type. */
  class DataVisitor<T(0)> {
    const buffer: CacheBuffer<T>
    var nextMsgIndex: nat
    ghost var delivered: seq<Delivery<T>>

    ghost predicate Valid()
      reads this, buffer, buffer.buffer
    {
      buffer.Valid() && nextMsgIndex <= |buffer.history| + 1
    }

    ghost function Abstract(): (c: Channel<T>)
      requires Valid()
      reads this, buffer, buffer.buffer
      ensures Ok(c)
    {
      Channel(buffer.size, buffer.history, nextMsgIndex, delivered)
    }

    constructor (queueSize: nat)
      ensures Valid() && fresh(buffer) && fresh(buffer.buffer)
      ensures Abstract() == Channel(queueSize, [], 0, [])
    {
      buffer := new CacheBuffer(queueSize);
      nextMsgIndex := 0;
      delivered := [];
    }

    method TryFetch() returns (ok: bool, m: T)
      requires Valid()
      modifies this
      ensures Valid() && Abstract() == Apply(old(Abstract()), Poll)
      ensures ok <==> buffer.history != [] && old(nextMsgIndex) != |buffer.history| + 1
      ensures ok <==> |delivered| > |old(delivered)|
      ensures ok ==> m == delivered[|delivered| - 1].msg
    {
      var index;
      ok, index, m := buffer.Fetch(nextMsgIndex);
      if ok {
        delivered := delivered + [Delivery(index, m, |buffer.history|)];
        nextMsgIndex := index + 1;
      }
    }

    /** Any interleaving of publishing and fetching does to the ring what it does to the
        full history. */
    method Drive(ops: seq<Op<T>>)
      requires Valid()
      modifies this, buffer, buffer.buffer
      ensures Valid() && Abstract() == Replay(old(Abstract()), ops)
    {
      var k := 0;
      while k < |ops|
        invariant 0 <= k <= |ops|
        invariant Valid() && Abstract() == Replay(old(Abstract()), ops[..k])
      {
        assert ops[..k + 1][..k] == ops[..k];
        match ops[k] {
          case Publish(m) => buffer.Fill(m);
          case Poll => var _, _ := TryFetch();
        }
        k := k + 1;
      }
      assert ops[..k] == ops;
    }
  }

  // ----- main results -----

  /** One delivery after another: contiguous as long as at most `size` messages waited, and
      otherwise a jump to the newest that drops exactly the messages in between. */
  ghost predicate Follows<T>(size: nat, a: Delivery<T>, b: Delivery<T>) {
    && a.tail <= b.tail
    && (if b.tail - a.pos <= size then b.pos == a.pos + 1
        else b.pos == b.tail)
    && a.pos < b.pos <= b.tail
  }

  ghost predicate Faithful<T>(c: Channel<T>) {
    && Ok(c)
    && (forall k | 0 <= k < |c.delivered| ::
          && 1 <= c.delivered[k].pos <= c.delivered[k].tail <= |c.history|
          && c.delivered[k].msg == c.history[c.delivered[k].pos - 1])
    && (forall k | 0 < k < |c.delivered| :: Follows(c.size, c.delivered[k - 1], c.delivered[k]))
    && (c.delivered != [] ==> c.delivered[0].pos == c.delivered[0].tail)
    && c.next == (if c.delivered == [] then 0 else c.delivered[|c.delivered| - 1].pos + 1)
  }

  lemma ApplyFaithful<T>(c: Channel<T>, op: Op<T>)
    requires Faithful(c)
    ensures Faithful(Apply(c, op))
  {
    if op.Poll? && CanFetch(|c.history|, c.next) { PollFollows(c); }
  }

  lemma PollFollows<T>(c: Channel<T>)
    requires Faithful(c) && CanFetch(|c.history|, c.next)
    ensures var c' := Apply(c, Poll);
            forall k | 0 < k < |c'.delivered| :: Follows(c'.size, c'.delivered[k - 1], c'.delivered[k])
  {
    var c' := Apply(c, Poll);
    forall k | 0 < k < |c'.delivered| ensures Follows(c'.size, c'.delivered[k - 1], c'.delivered[k]) {
      if k < |c.delivered| { assert Follows(c.size, c.delivered[k - 1], c.delivered[k]); }
    }
  }

  /** For every interleaving of publishing and fetching, from a new visitor: each delivery
      is the message published at its position; the first is the newest at that time;
      positions strictly increase; a message is skipped after the first delivery only when
      more than queue_size were waiting, and then exactly the older ones are dropped. */
  lemma {:induction false} DeliveryInOrder<T>(size: nat, ops: seq<Op<T>>)
    ensures Faithful(Replay(Channel(size, [], 0, []), ops))
    ensures Replay(Channel(size, [], 0, []), ops).size == size
    decreases |ops|
  {
    if ops != [] {
      DeliveryInOrder(size, ops[..|ops| - 1]);
      ApplyFaithful(Replay(Channel(size, [], 0, []), ops[..|ops| - 1]), ops[|ops| - 1]);
    }
  }

  /** After any interleaving, a fetch delivers a message if and only if the newest published
      one was not delivered yet; the reader is never up to date with a message waiting. */
  lemma FetchDeliversIff<T>(size: nat, ops: seq<Op<T>>)
    ensures var c := Replay(Channel(size, [], 0, []), ops);
            var c' := Apply(c, Poll);
            var n := |c.delivered|;
            if c.history != [] && (n == 0 || c.delivered[n - 1].pos < |c.history|)
            then |c'.delivered| == n + 1 && c'.delivered[..n] == c.delivered && c'.delivered[n].tail == |c.history|
            else c'.delivered == c.delivered
  {
    DeliveryInOrder(size, ops);
  }

  /** Positions increase over the whole sequence of deliveries. */
  lemma {:induction false} PositionsIncrease<T>(c: Channel<T>, i: nat, j: nat)
    requires Faithful(c) && i < j < |c.delivered|
    ensures c.delivered[i].pos < c.delivered[j].pos
    decreases j
  {
    assert Follows(c.size, c.delivered[j - 1], c.delivered[j]);
    if i < j - 1 { PositionsIncrease(c, i, j - 1); }
  }
}
