/**
 The periodic callback of cyber/timer/timer.cc: how the error of past fires is accumulated
 and compensated in the next duration.  Times are nanoseconds of the monotonic clock; they
 are parameters.  The doubles of the source are exact here: all quotients are by 10^6 and
 rounded to the nearest integer, halves away from zero.
 */
module PeriodicTimer {
  import opened TimingWheel

  const NS_PER_MS: int := 1_000_000

  /** llround(ns / 1e6) */
  function RoundMs(ns: int): int {
    if ns >= 0 then (ns + 500_000) / 1_000_000 else -((500_000 - ns) / 1_000_000)
  }

  /** When the callback started and when the user's function returned. */
  datatype Fire = Fire(start: nat, end: nat)

  datatype Task = Task(intervalMs: nat, nextFireMs: int, errorNs: int, lastNs: nat)

  /** The condition under which the error is compensated in one go. */
  predicate Compensates(intervalMs: nat, errorNs: int, f: Fire) {
    var exec := RoundMs(f.end - f.start);
    exec < intervalMs && intervalMs - exec - TIMER_RESOLUTION_MS >= RoundMs(errorNs)
  }

  function AfterFire(t: Task, f: Fire): Task {
    var error := if t.lastNs == 0 then t.errorNs
                 else t.errorNs + f.start - t.lastNs - t.intervalMs * NS_PER_MS;
    t.(errorNs := error, lastNs := f.start,
       nextFireMs := if Compensates(t.intervalMs, error, f)
                     then t.intervalMs - RoundMs(f.end - f.start) - RoundMs(error)
                     else TIMER_RESOLUTION_MS)
  }

  // ----- the code -----

  class TimerTask {
    var intervalMs: nat
    var nextFireDurationMs: int
    var accumulatedErrorNs: int
    var lastExecuteTimeNs: nat

    ghost function Value(): Task
      reads this
    {
      Task(intervalMs, nextFireDurationMs, accumulatedErrorNs, lastExecuteTimeNs)
    }

    constructor (period: nat)
      ensures Value() == Task(period, period, 0, 0)
    {
      intervalMs := period;
      nextFireDurationMs := period;
      accumulatedErrorNs := 0;
      lastExecuteTimeNs := 0;
    }

    /** The callback of a periodic timer, up to its AddTask. */
    method Callback(start: nat, end: nat)
      requires start <= end
      modifies this
      ensures Value() == AfterFire(old(Value()), Fire(start, end))
      ensures nextFireDurationMs >= TIMER_RESOLUTION_MS
    {
      var executeTimeNs := end - start;
      var executeTimeMs := RoundMs(executeTimeNs);
      if lastExecuteTimeNs == 0 {
        lastExecuteTimeNs := start;
      } else {
        accumulatedErrorNs := accumulatedErrorNs + (start - lastExecuteTimeNs - intervalMs * NS_PER_MS);
      }
      lastExecuteTimeNs := start;
      if executeTimeMs >= intervalMs {
        nextFireDurationMs := TIMER_RESOLUTION_MS;
      } else {
        var accumulatedErrorMs := RoundMs(accumulatedErrorNs);
        if intervalMs - executeTimeMs - TIMER_RESOLUTION_MS >= accumulatedErrorMs {
          nextFireDurationMs := intervalMs - executeTimeMs - accumulatedErrorMs;
        } else {
          nextFireDurationMs := TIMER_RESOLUTION_MS;
        }
      }
    }
  }

  /** InitTimerTask: periods outside the wheel's range are refused. */
  method InitTimerTask(period: nat) returns (task: TimerTask?)
    ensures task == null <==> period == 0 || period >= TIMER_MAX_INTERVAL_MS
    ensures task != null ==> fresh(task) && task.Value() == Task(period, period, 0, 0)
  {
    if period == 0 || period >= TIMER_MAX_INTERVAL_MS {
      return null;
    }
    task := new TimerTask(period);
  }

  // ----- runs -----

  /** A sequence of fires of one task; the clock is positive and a function takes time. */
  ghost predicate Fires(fires: seq<Fire>) {
    forall k | 0 <= k < |fires| :: 0 < fires[k].start <= fires[k].end
  }

  function After(intervalMs: nat, fires: seq<Fire>): Task {
    if fires == [] then Task(intervalMs, intervalMs, 0, 0)
    else AfterFire(After(intervalMs, fires[..|fires| - 1]), fires[|fires| - 1])
  }

  /** The task after fires 0 to k. */
  function Upto(intervalMs: nat, fires: seq<Fire>, k: nat): Task
    requires k < |fires|
  {
    After(intervalMs, fires[..k + 1])
  }

  /** How much later than asked for fire k + 1 started. */
  function Deviation(intervalMs: nat, fires: seq<Fire>, k: nat): int
    requires k + 1 < |fires|
  {
    fires[k + 1].start - (fires[k].end + Upto(intervalMs, fires, k).nextFireMs * NS_PER_MS)
  }

  predicate CompensatedAt(intervalMs: nat, fires: seq<Fire>, k: nat)
    requires k < |fires|
  {
    Compensates(intervalMs, Upto(intervalMs, fires, k).errorNs, fires[k])
  }

  /** r milliseconds are nearest to ns, halves away from zero. */
  ghost predicate Nearest(ns: int, r: int) {
    && -500_000 <= ns - r * NS_PER_MS <= 500_000
    && (ns > 0 ==> ns - r * NS_PER_MS < 500_000) && (ns < 0 ==> ns - r * NS_PER_MS > -500_000)
  }

  lemma RoundingError(ns: int)
    ensures Nearest(ns, RoundMs(ns)) && forall r | Nearest(ns, r) :: r == RoundMs(ns)
  {
  }

  lemma UptoStep(intervalMs: nat, fires: seq<Fire>, k: nat)
    requires k < |fires|
    ensures Upto(intervalMs, fires, k) ==
            AfterFire(if k == 0 then Task(intervalMs, intervalMs, 0, 0) else Upto(intervalMs, fires, k - 1), fires[k])
  {
    var upto := fires[..k + 1];
    assert upto[..|upto| - 1] == fires[..k];
    assert After(intervalMs, upto) == AfterFire(After(intervalMs, fires[..k]), fires[k]);
  }

  /** In every run the accumulated error is exactly how far the latest start is from its
      place on the grid of the first start. */
  lemma {:induction false} ErrorIsDrift(intervalMs: nat, fires: seq<Fire>, k: nat)
    requires Fires(fires) && k < |fires|
    ensures Upto(intervalMs, fires, k).errorNs ==
            fires[k].start - fires[0].start - k * (intervalMs * NS_PER_MS)
    ensures Upto(intervalMs, fires, k).lastNs == fires[k].start
    ensures Upto(intervalMs, fires, k).intervalMs == intervalMs
  {
    UptoStep(intervalMs, fires, k);
    if k > 0 {
      ErrorIsDrift(intervalMs, fires, k - 1);
      assert k * (intervalMs * NS_PER_MS) == (k - 1) * (intervalMs * NS_PER_MS) + intervalMs * NS_PER_MS;
    }
  }

  /** Every fire is scheduled at least one wheel resolution ahead. */
  lemma RefireAtLeastResolution(intervalMs: nat, fires: seq<Fire>, k: nat)
    requires Fires(fires) && k < |fires|
    ensures Upto(intervalMs, fires, k).nextFireMs >= TIMER_RESOLUTION_MS
  {
    UptoStep(intervalMs, fires, k);
    ErrorIsDrift(intervalMs, fires, k);
  }

  /** How the error evolves from one fire to the next. */
  lemma NextError(intervalMs: nat, fires: seq<Fire>, k: nat)
    requires Fires(fires) && k + 1 < |fires|
    ensures var t := Upto(intervalMs, fires, k);
            Upto(intervalMs, fires, k + 1).errorNs ==
            t.errorNs + (fires[k].end - fires[k].start) + t.nextFireMs * NS_PER_MS
            + Deviation(intervalMs, fires, k) - intervalMs * NS_PER_MS
  {
    ErrorIsDrift(intervalMs, fires, k);
    UptoStep(intervalMs, fires, k + 1);
  }

  /** The timer does not drift: however many fires have happened, a fire that was scheduled
      by the compensating branch starts within one millisecond, plus its own deviation, of
      its place on the grid of the first start. */
  lemma NoDrift(intervalMs: nat, fires: seq<Fire>, k: nat)
    requires Fires(fires) && k + 1 < |fires| && CompensatedAt(intervalMs, fires, k)
    ensures var off := fires[k + 1].start - (fires[0].start + (k + 1) * (intervalMs * NS_PER_MS));
            var dev := Deviation(intervalMs, fires, k);
            -NS_PER_MS + dev <= off <= NS_PER_MS + dev
    ensures Upto(intervalMs, fires, k + 1).errorNs ==
            fires[k + 1].start - (fires[0].start + (k + 1) * (intervalMs * NS_PER_MS))
  {
    var t := Upto(intervalMs, fires, k);
    ErrorIsDrift(intervalMs, fires, k);
    ErrorIsDrift(intervalMs, fires, k + 1);
    UptoStep(intervalMs, fires, k);
    NextError(intervalMs, fires, k);
    RoundingError(t.errorNs);
    RoundingError(fires[k].end - fires[k].start);
    assert t.nextFireMs == intervalMs - RoundMs(fires[k].end - fires[k].start) - RoundMs(t.errorNs);
  }

  /** How late fire k started, against the grid of the first start. */
  function Offset(intervalMs: nat, fires: seq<Fire>, k: nat): int
    requires k < |fires|
  {
    fires[k].start - (fires[0].start + k * (intervalMs * NS_PER_MS))
  }

  /** When fire k asks for the next one. */
  function Planned(intervalMs: nat, fires: seq<Fire>, k: nat): int
    requires k < |fires|
  {
    fires[k].end + Upto(intervalMs, fires, k).nextFireMs * NS_PER_MS
  }

  /** What fire k asks for, from the clock readings alone: with its execution time e and its
      offset o to the nearest millisecond, whatever is left of the interval if that is at least
      the resolution, and else the resolution. */
  lemma NextDuration(intervalMs: nat, fires: seq<Fire>, k: nat, e: int, o: int)
    requires Fires(fires) && k < |fires|
    requires Nearest(fires[k].end - fires[k].start, e) && Nearest(Offset(intervalMs, fires, k), o)
    ensures Upto(intervalMs, fires, k).nextFireMs ==
            if e < intervalMs && e + o + TIMER_RESOLUTION_MS <= intervalMs then intervalMs - e - o
            else TIMER_RESOLUTION_MS
  {
    ErrorIsDrift(intervalMs, fires, k);
    UptoStep(intervalMs, fires, k);
    RoundingError(fires[k].end - fires[k].start);
    RoundingError(Offset(intervalMs, fires, k));
  }

  /** Whenever execution, offset, resolution and one millisecond of rounding fit in the
      interval, and execution alone does, the next fire is planned within one millisecond of
      its place on the grid. */
  lemma PlannedOnGrid(intervalMs: nat, fires: seq<Fire>, k: nat)
    requires Fires(fires) && k < |fires|
    requires var exec, off := fires[k].end - fires[k].start, Offset(intervalMs, fires, k);
             && exec + NS_PER_MS <= intervalMs * NS_PER_MS
             && exec + off + (TIMER_RESOLUTION_MS + 1) * NS_PER_MS <= intervalMs * NS_PER_MS
    ensures var grid := fires[0].start + (k + 1) * (intervalMs * NS_PER_MS);
            -NS_PER_MS <= Planned(intervalMs, fires, k) - grid <= NS_PER_MS
  {
    var exec, off := fires[k].end - fires[k].start, Offset(intervalMs, fires, k);
    RoundingError(exec);
    RoundingError(off);
    NextDuration(intervalMs, fires, k, RoundMs(exec), RoundMs(off));
    assert (k + 1) * (intervalMs * NS_PER_MS) == k * (intervalMs * NS_PER_MS) + intervalMs * NS_PER_MS;
  }

  /** Fire k leaves a margin: execution, one resolution and the next deviation fit in the
      interval with `margin` to spare. */
  predicate Leaves(intervalMs: nat, fires: seq<Fire>, k: nat, margin: int)
    requires k + 1 < |fires|
  {
    var dev := Deviation(intervalMs, fires, k);
    (fires[k].end - fires[k].start) + TIMER_RESOLUTION_MS * NS_PER_MS + (if dev > 0 then dev else 0) + margin
    <= intervalMs * NS_PER_MS
  }

  /** A late fire: with such a margin the error was positive, and it shrinks by the margin. */
  lemma LateFireGains(intervalMs: nat, fires: seq<Fire>, k: nat, margin: int)
    requires Fires(fires) && k + 1 < |fires| && margin > 0
    requires Leaves(intervalMs, fires, k, margin) && !CompensatedAt(intervalMs, fires, k)
    ensures Upto(intervalMs, fires, k).errorNs > 0
    ensures Upto(intervalMs, fires, k + 1).errorNs <= Upto(intervalMs, fires, k).errorNs - margin
  {
    ErrorIsDrift(intervalMs, fires, k);
    UptoStep(intervalMs, fires, k);
    NextError(intervalMs, fires, k);
    RoundingError(fires[k].end - fires[k].start);
  }

  /** A late timer catches up: over any stretch of n consecutive late fires with a margin,
      the error falls by n margins, so the stretch is no longer than the initial error
      divided by the margin, plus one fire. */
  lemma {:induction false} CatchesUp(intervalMs: nat, fires: seq<Fire>, k: nat, n: nat, margin: int)
    requires Fires(fires) && k + n < |fires| && n >= 1 && margin > 0
    requires forall j | k <= j < k + n :: Leaves(intervalMs, fires, j, margin) && !CompensatedAt(intervalMs, fires, j)
    ensures Upto(intervalMs, fires, k + n).errorNs <= Upto(intervalMs, fires, k).errorNs - n * margin
    ensures (n - 1) * margin < Upto(intervalMs, fires, k).errorNs
    decreases n
  {
    LateFireGains(intervalMs, fires, k + n - 1, margin);
    if n > 1 {
      CatchesUp(intervalMs, fires, k, n - 1, margin);
      assert n * margin == (n - 1) * margin + margin;
    }
  }
}
