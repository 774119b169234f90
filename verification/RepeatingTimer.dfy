/**
 * The repeating timer: each run of the task requests the next one, at the time expected
 * for it or, when that has passed, at the next multiple of the period. All times are
 * boot-time microseconds; the machine's integer widths are written out.
 */
module RepeatingTimer {
  import opened Common

  const TWO63: int := 0x8000_0000_0000_0000
  const TWO64: int := 0x1_0000_0000_0000_0000

  /** uint64_t: arithmetic modulo 2^64. */
  function U64(x: int): int { x % TWO64 }

  /** The same bits read as int64_t. */
  function I64(x: int): int {
    var u := U64(x);
    if u < TWO63 then u else u - TWO64
  }

  /** C++'s `%`, which takes the sign of the dividend. */
  function Rem(a: int, b: int): int
    requires b > 0
  {
    if a >= 0 then a % b else -((-a) % b)
  }

  lemma {:induction false} I64Exact(x: int)
    requires -TWO63 <= x < TWO63
    ensures I64(x) == x
  {
    if x < 0 { assert (x + TWO64) % TWO64 == x % TWO64; }
  }

  datatype Timer = Timer(expected: int, period: int)

  /** The delay RunTask asks for, and the timer after it. */
  function RunStep(t: Timer, now: int): (Timer, int)
    requires t.period > 0
  {
    var expected := U64(t.expected + t.period);
    var remaining := I64(expected - now);
    (t.(expected := expected), Folded(remaining, t.period))
  }

  /** A time left that is negative is replaced by the time to the next multiple of the period. */
  function Folded(remaining: int, period: int): int
    requires period > 0
  {
    if remaining < 0 then Rem(Rem(remaining, period) + period, period) else remaining
  }

  // ---------- Arithmetic ----------

  lemma {:induction false} MulMod(q: int, p: int)
    requires p > 0
    ensures (q * p) % p == 0
  {
    ModUnique(q * p, p, q, 0);
  }

  /** Quotient and remainder are unique. */
  lemma {:induction false} ModUnique(x: int, p: int, q: int, r: int)
    requires p > 0 && x == q * p + r && 0 <= r < p
    ensures x % p == r
  {
    var d := x / p - q;
    assert x == (x / p) * p + x % p;
    assert d * p == r - x % p by { assert (x / p) * p - q * p == d * p; }
    MulFar(d, p);
  }

  lemma {:induction false} MulFar(d: int, p: int)
    requires p > 0
    ensures d >= 1 ==> d * p >= p
    ensures d <= -1 ==> d * p <= -p
  {
  }

  /** The double remainder brings a negative number into [0, p) without changing its class. */
  lemma {:induction false} DoubleRem(r: int, p: int)
    requires p > 0 && r < 0
    ensures 0 <= Folded(r, p) < p && (Folded(r, p) - r) % p == 0
  {
    var q := (-r) % p;
    var k := (-r) / p;
    assert -r == k * p + q;
    var m := Folded(r, p);
    assert Rem(r, p) == -q;
    if q == 0 {
      ModUnique(p, p, 1, 0);
      assert m == 0;
      MulMod(k, p);
    } else {
      ModUnique(p - q, p, 0, p - q);
      assert m - r == (k + 1) * p;
      MulMod(k + 1, p);
    }
  }

  // ---------- What a run requests ----------

  /** `g` is the first time at or after `now` that is a whole number of periods from `t0`. */
  ghost predicate FirstGridPoint(g: int, t0: int, period: int, now: int)
    requires period > 0
  {
    (g - t0) % period == 0 && now <= g < now + period
  }

  lemma {:induction false} FirstGridPointIsFirst(g: int, h: int, t0: int, period: int, now: int)
    requires period > 0 && FirstGridPoint(g, t0, period, now)
    requires (h - t0) % period == 0 && now <= h
    ensures g <= h
  {
    NegMod(h - t0, period);
    SumMod(g - t0, -(h - t0), period);
    if h < g {
      ModUnique(g - h, period, 0, g - h);
    }
  }

  lemma {:induction false} NegMod(a: int, p: int)
    requires p > 0 && a % p == 0
    ensures (-a) % p == 0
  {
    assert -a == (-(a / p)) * p;
    MulMod(-(a / p), p);
  }

  /** Times small enough that no 64-bit value wraps: some 292,000 years of microseconds. */
  ghost predicate Fits(t0: int, period: int, nows: seq<int>) {
    && 0 <= t0 && 0 < period
    && Due(t0, period, |nows| + 1) < TWO63
    && (forall i :: 0 <= i < |nows| ==> 0 <= nows[i] < TWO63)
  }

  /** The timer after being scheduled at `t0` and run at the given times. */
  function After(t0: int, period: int, nows: seq<int>): Timer
    requires period > 0
    ensures After(t0, period, nows).period == period
  {
    if nows == [] then Timer(U64(t0 + period), period)
    else RunStep(After(t0, period, nows[..|nows| - 1]), nows[|nows| - 1]).0
  }

  /** When firing number n + 1 is requested for, by the n-th run (the first by SchedulePeriodic). */
  function Requested(t0: int, period: int, nows: seq<int>): int
    requires period > 0
  {
    if nows == [] then t0 + period
    else
      var now := nows[|nows| - 1];
      now + RunStep(After(t0, period, nows[..|nows| - 1]), now).1
  }

  /** The time `n` periods after `t0`. */
  function Due(t0: int, period: int, n: nat): int {
    t0 + n * period
  }

  lemma {:induction false} DueFacts(t0: int, period: int, n: nat)
    requires period > 0
    ensures Due(t0, period, n + 1) == Due(t0, period, n) + period
    ensures Due(t0, period, n) >= t0
    ensures (Due(t0, period, n) - t0) % period == 0
  {
    assert n * period + period == (n + 1) * period;
    MulMod(n, period);
  }

  /** One run: from an expected time that fits, to one a period later. */
  lemma {:induction false} StepExpected(t: Timer, now: int, due: int)
    requires t.period > 0 && t.expected + t.period == due && 0 <= due < TWO63
    ensures RunStep(t, now).0.expected == due
  {
  }

  /** However late the tasks ran, what is expected next has not drifted. */
  lemma {:induction false} NoDrift(t0: int, period: int, nows: seq<int>)
    requires Fits(t0, period, nows)
    ensures After(t0, period, nows).expected == Due(t0, period, |nows| + 1)
  {
    DueFacts(t0, period, |nows|);
    if nows != [] {
      var before := nows[..|nows| - 1];
      FitsBefore(t0, period, nows);
      NoDrift(t0, period, before);
      StepExpected(After(t0, period, before), nows[|nows| - 1], Due(t0, period, |nows| + 1));
    }
  }

  /** One run: the delay it asks for. */
  lemma {:induction false} StepDelay(t: Timer, now: int, due: int)
    requires t.period > 0 && t.expected + t.period == due && 0 <= due < TWO63 && 0 <= now < TWO63
    ensures var at := now + RunStep(t, now).1;
      && (now <= due ==> at == due)
      && (now > due ==> now <= at < now + t.period && (at - due) % t.period == 0)
  {
    var r := due - now;
    StepExpected(t, now, due);
    I64Exact(r);
    assert RunStep(t, now).1 == Folded(r, t.period);
    if r < 0 {
      DoubleRem(r, t.period);
      assert now + Folded(r, t.period) - due == Folded(r, t.period) - r;
    }
  }

  /**
   * The n-th run, at `now`, requests firing n + 1 for a time on the grid of `t0` and never
   * before t0 + (n + 1) periods: for exactly that time if it has not passed, and otherwise
   * for the first grid point at or after now.
   */
  lemma {:induction false} NthFiring(t0: int, period: int, nows: seq<int>)
    requires Fits(t0, period, nows) && nows != []
    ensures var now, due := nows[|nows| - 1], t0 + (|nows| + 1) * period;
      var at := Requested(t0, period, nows);
      && (at - t0) % period == 0
      && at >= due
      && (now <= due ==> at == due)
      && (now > due ==> FirstGridPoint(at, t0, period, now))
  {
    var before, due := nows[..|nows| - 1], Due(t0, period, |nows| + 1);
    FitsBefore(t0, period, nows);
    NoDrift(t0, period, before);
    DueFacts(t0, period, |nows|);
    DueFacts(t0, period, |nows| + 1);
    StepDelay(After(t0, period, before), nows[|nows| - 1], due);
    if nows[|nows| - 1] > due {
      SumMod(Requested(t0, period, nows) - due, due - t0, period);
    }
  }

  lemma {:induction false} FitsBefore(t0: int, period: int, nows: seq<int>)
    requires Fits(t0, period, nows) && nows != []
    ensures Fits(t0, period, nows[..|nows| - 1])
  {
    DueFacts(t0, period, |nows|);
  }

  lemma {:induction false} SumMod(a: int, b: int, p: int)
    requires p > 0 && a % p == 0 && b % p == 0
    ensures (a + b) % p == 0
  {
    assert a == (a / p) * p && b == (b / p) * p;
    assert a + b == (a / p + b / p) * p;
    MulMod(a / p + b / p, p);
  }

  /** A run that is not early is followed by the next within one period, and later runs are requested no earlier. */
  lemma {:induction false} WithinOnePeriod(t0: int, period: int, nows: seq<int>)
    requires Fits(t0, period, nows) && nows != []
    requires nows[|nows| - 1] >= Requested(t0, period, nows[..|nows| - 1])
    ensures 0 <= Requested(t0, period, nows) - nows[|nows| - 1] <= period
    ensures Requested(t0, period, nows) >= Requested(t0, period, nows[..|nows| - 1])
  {
    var before := nows[..|nows| - 1];
    NthFiring(t0, period, nows);
    FitsBefore(t0, period, nows);
    DueFacts(t0, period, |nows|);
    if before != [] {
      NthFiring(t0, period, before);
    }
  }

  // ---------- The object ----------

  class RepeatingTimer {
    var expectedTimeNextTaskUs: int
    var periodUs: int
    var scheduled: bool              // message_loop_thread_ is set

    ghost function View(): Timer
      reads this
    {
      Timer(expectedTimeNextTaskUs, periodUs)
    }

    ghost predicate Valid()
      reads this
    {
      if scheduled then periodUs >= 1 else expectedTimeNextTaskUs == 0 && periodUs == 0
    }

    constructor ()
      ensures Valid() && !scheduled
    {
      expectedTimeNextTaskUs := 0;
      periodUs := 0;
      scheduled := false;
    }

    /** The cancelling closure. */
    method Cancel()
      modifies this
      ensures Valid() && !scheduled
    {
      scheduled := false;
      periodUs := 0;
      expectedTimeNextTaskUs := 0;
    }

    /**
     * `now` is the clock on entry, and `later` once the previous task is cancelled; the time
     * asked for is `now` plus the period, however long the cancelling took.
     */
    method SchedulePeriodic(threadGiven: bool, period: int, now: int, later: int, postOk: bool)
      returns (ok: bool, delay: int)
      requires Valid()
      requires 0 <= now <= later < TWO63 && now + period < TWO63
      modifies this
      ensures Valid()
      ensures ok <==> period >= 1 && threadGiven && postOk
      ensures ok ==> scheduled && View() == After(now, period, []) && later + delay == Requested(now, period, [])
      ensures !ok && period >= 1 && threadGiven ==> !scheduled
      ensures period < 1 || !threadGiven ==> scheduled == old(scheduled) && View() == old(View())
    {
      delay := 0;
      if period < 1 {
        return false, 0;
      }
      var next := U64(now + period);
      if !threadGiven {
        return false, 0;
      }
      Cancel();
      expectedTimeNextTaskUs := next;
      scheduled := true;
      periodUs := period;
      delay := I64(next - later);
      I64Exact(next - later);
      if !postOk {
        expectedTimeNextTaskUs := 0;
        scheduled := false;
        periodUs := 0;
        return false, 0;
      }
      return true, delay;
    }

    /** The delay after which the next run is posted; None if the timer was cancelled or its thread stopped. */
    method RunTask(running: bool, now: int) returns (delay: Option<int>)
      requires Valid()
      modifies this
      ensures Valid() && scheduled == old(scheduled)
      ensures delay.Some? <==> old(scheduled) && running
      ensures delay.Some? ==> (View(), delay.value) == RunStep(old(View()), now)
      ensures delay == None ==> View() == old(View())
    {
      if !scheduled || !running {
        return None;
      }
      expectedTimeNextTaskUs := U64(expectedTimeNextTaskUs + periodUs);
      var remaining := I64(expectedTimeNextTaskUs - now);
      if remaining < 0 {
        remaining := Rem(Rem(remaining, periodUs) + periodUs, periodUs);
      }
      return Some(remaining);
    }
  }
}
