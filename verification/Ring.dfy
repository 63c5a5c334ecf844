/**
 Slot arithmetic shared by the ring of cyber/base/bounded_queue.h and the ring of
 cyber/data/cache_buffer.h: positions count up for ever, slots repeat.
 */
module Ring {

  /** The slot of a position, by counting round the ring. */
  function SlotOf(num: nat, poolSize: nat): (r: nat)
    requires poolSize > 0
    ensures r < poolSize
  {
    if num < poolSize then num else SlotOf(num - poolSize, poolSize)
  }

  /** The division used by the bounded queue. */
  function GetIndex(num: nat, poolSize: nat): nat
    requires poolSize > 0
  {
    num - (num / poolSize) * poolSize
  }

  /** Both ways of computing an index agree with counting round the ring. */
  lemma {:induction false} IndexIsSlotOf(num: nat, poolSize: nat)
    requires poolSize > 0
    ensures GetIndex(num, poolSize) == SlotOf(num, poolSize)
    ensures num % poolSize == SlotOf(num, poolSize)
  {
    assert num == (num / poolSize) * poolSize + num % poolSize;
    if num >= poolSize {
      IndexIsSlotOf(num - poolSize, poolSize);
      DivideLess(num, poolSize);
    } else {
      OnlyMultiple(num / poolSize, poolSize);
    }
  }

  lemma DivideLess(num: nat, n: nat)
    requires 0 < n <= num
    ensures ((num - n) / n) * n == (num / n) * n - n
  {
    var q, q' := num / n, (num - n) / n;
    assert num == q * n + num % n && num - n == q' * n + (num - n) % n;
    assert (q - q') * n == q * n - q' * n;
    OnlyMultiple(q - q' - 1, n);
  }

  lemma OnlyMultiple(k: int, n: int)
    requires -n < k * n < n
    ensures k == 0
  {
  }

  /** Positions less than a pool size apart lie in different slots, and positions
      exactly one pool size apart share one. */
  lemma {:induction false} SlotArithmetic(a: nat, b: nat, n: nat)
    requires n > 0 && a <= b <= a + n
    ensures SlotOf(a, n) == SlotOf(b, n) <==> a == b || b == a + n
  {
    if a >= n { SlotArithmetic(a - n, b - n, n); }
  }

  lemma {:induction false} SuccessorSlot(a: nat, n: nat)
    requires n > 1
    ensures SlotOf(a + 1, n) == if SlotOf(a, n) == n - 1 then 0 else SlotOf(a, n) + 1
  {
    if a >= n { SuccessorSlot(a - n, n); }
  }

  lemma SuccessorSlots(a: nat, b: nat, n: nat)
    requires n > 1
    ensures SlotOf(a, n) == SlotOf(b, n) <==> SlotOf(a + 1, n) == SlotOf(b + 1, n)
  {
    SuccessorSlot(a, n);
    SuccessorSlot(b, n);
  }
}
