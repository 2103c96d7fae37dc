/** Time arithmetic (rtos/oslib/ll/sys/ll/time.h) and the arming and rearming of per-process timers
    (rtos/kernel/time.c).  Seconds are unbounded integers. */
module Clocks {
  datatype Timespec = Timespec(sec: int, nsec: int)

  /** The comparison macro. */
  predicate TimespecLess(a: Timespec, b: Timespec) {
    a.sec < b.sec || (a.sec == b.sec && a.nsec < b.nsec)
  }

  const BILLION: int := 1_000_000_000

  function Nanoseconds(t: Timespec): int {
    t.sec * BILLION + t.nsec
  }

  predicate Normal(t: Timespec) {
    0 <= t.nsec < BILLION
  }

  /** ADDTIMESPEC. */
  function Add(a: Timespec, b: Timespec): Timespec {
    var sec, nsec := a.sec + b.sec, a.nsec + b.nsec;
    if nsec < 0 then Timespec(sec - 1, nsec + BILLION)
    else if nsec >= BILLION then Timespec(sec + 1, nsec - BILLION)
    else Timespec(sec, nsec)
  }

  /** SUBTIMESPEC. */
  function Subtract(a: Timespec, b: Timespec): Timespec {
    if a.nsec >= b.nsec then Timespec(a.sec - b.sec, a.nsec - b.nsec)
    else Timespec(a.sec - b.sec - 1, BILLION + a.nsec - b.nsec)
  }

  /** On normalised times the comparison is that of the nanoseconds, so equal nanoseconds mean equal times. */
  lemma LessMeansEarlier(a: Timespec, b: Timespec)
    requires Normal(a) && Normal(b)
    ensures TimespecLess(a, b) <==> Nanoseconds(a) < Nanoseconds(b)
    ensures a == b <==> Nanoseconds(a) == Nanoseconds(b)
  {
  }

  /** The due time after k reactivations. */
  function Reactivated(current: Timespec, period: Timespec, k: nat): Timespec {
    if k == 0 then current else Add(Reactivated(current, period, k - 1), period)
  }

  lemma AddInNanoseconds(a: Timespec, b: Timespec)
    requires Normal(a) && Normal(b)
    ensures Normal(Add(a, b)) && Nanoseconds(Add(a, b)) == Nanoseconds(a) + Nanoseconds(b)
  {
  }

  /** A periodic timer does not drift: its k-th reactivation is due k periods after the armed time. */
  lemma {:induction false} NoDrift(current: Timespec, period: Timespec, k: nat)
    requires Normal(current) && Normal(period)
    ensures Normal(Reactivated(current, period, k))
    ensures Nanoseconds(Reactivated(current, period, k)) == Nanoseconds(current) + k * Nanoseconds(period)
  {
    if k > 0 {
      NoDrift(current, period, k - 1);
      AddInNanoseconds(Reactivated(current, period, k - 1), period);
      var n := Nanoseconds(period);
      assert (k - 1) * n + n == k * n;
    }
  }

  /** Later reactivations are due strictly later. */
  lemma DueInOrder(current: Timespec, period: Timespec, j: nat, k: nat)
    requires Normal(current) && Normal(period) && 0 <= period.sec && period != Timespec(0, 0) && j < k
    ensures TimespecLess(Reactivated(current, period, j), Reactivated(current, period, k))
  {
    NoDrift(current, period, j);
    NoDrift(current, period, k);
    assert Nanoseconds(period) > 0;
    assert j * Nanoseconds(period) < k * Nanoseconds(period);
    LessMeansEarlier(Reactivated(current, period, j), Reactivated(current, period, k));
  }

  const NO_EVENT: int := -1
  const ZERO: Timespec := Timespec(0, 0)

  /** The clock side of a timer: when it is due next, its period, and the event that will fire it. */
  class AlarmClock {
    var current: Timespec
    var period: Timespec
    var event: int

    /** History: where the clock was armed, and how often it fired since. */
    ghost var armedAt: Timespec
    ghost var fired: nat

    ghost predicate Valid()
      reads this
    {
      && Normal(current) && Normal(period) && Normal(armedAt)
      && (event != NO_EVENT ==> current == Reactivated(armedAt, period, fired))
    }

    constructor ()
      ensures Valid() && event == NO_EVENT
    {
      current, period, event := ZERO, ZERO, NO_EVENT;
      armedAt, fired := ZERO, 0;
    }

    /** timer_settime: `posted` is the event that the kernel will return, `now` the clock.  The remaining time of
        an armed timer is reported.  Disarming deletes the event but keeps its number in `event`. */
    method SetTime(absolute: bool, value: Timespec, interval: Timespec, now: Timespec, posted: int)
      returns (ok: bool, remaining: Timespec)
      requires Valid() && Normal(now) && posted != NO_EVENT
      modifies this
      ensures Valid()
      ensures ok <==> Normal(value) && Normal(interval)
      ensures ok && old(event) != NO_EVENT ==>
                Normal(remaining) && Nanoseconds(remaining) == old(Nanoseconds(current)) - Nanoseconds(now)
      ensures ok && old(event) == NO_EVENT ==> remaining == ZERO
      ensures ok && value != ZERO ==>
                && event == posted && period == interval && fired == 0
                && Nanoseconds(current) == Nanoseconds(value) + (if absolute then 0 else Nanoseconds(now))
      ensures !ok || value == ZERO ==>
                && current == old(current) && period == old(period) && event == old(event)
                && armedAt == old(armedAt) && fired == old(fired)
    {
      if interval.nsec < 0 || interval.nsec >= BILLION || value.nsec < 0 || value.nsec >= BILLION {
        return false, ZERO;
      }
      remaining := if event == NO_EVENT then ZERO else Subtract(current, now);
      if value.sec != 0 || value.nsec != 0 {
        period := interval;
        current := if absolute then value else Add(now, value);
        event, armedAt, fired := posted, current, 0;
      }
      ok := true;
    }

    /** The end of timer_timerfire: post the next event, or none when the timer is not periodic. */
    method Rearm(posted: int)
      requires Valid() && event != NO_EVENT && posted != NO_EVENT
      modifies this
      ensures Valid() && period == old(period) && armedAt == old(armedAt)
      ensures period == ZERO ==> event == NO_EVENT && current == old(current)
      ensures period != ZERO ==> event == posted && fired == old(fired) + 1
      ensures period != ZERO ==>
                Nanoseconds(current) == Nanoseconds(armedAt) + fired * Nanoseconds(period)
    {
      if period.sec != 0 || period.nsec != 0 {
        current := Add(current, period);
        event, fired := posted, fired + 1;
        NoDrift(armedAt, period, fired);
      } else {
        event := NO_EVENT;
      }
    }
  }
}
