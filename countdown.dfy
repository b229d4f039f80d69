/**
 * The per-stop countdown: a number of seconds that a once-a-second tick
 * lowers by one, never below zero, and that every new start time coming
 * from a poll overwrites.
 */
module Countdown {
  import opened TimeFormat

  function Max(a: int, b: int): int { if a < b then b else a }

  /** The tick rule: `time >= 1 ? time - 1 : 0`. */
  function NextTime(time: int): (r: int)
    ensures r == Max(time - 1, 0)
  {
    if time >= 1 then time - 1 else 0
  }

  /**
   * The time after `k` ticks with no reset in between: never negative once
   * a tick has happened, and never above a non-negative start.
   */
  function Ticks(time: int, k: nat): (r: int)
    ensures k > 0 ==> 0 <= r
    ensures time >= 0 ==> r <= time
    decreases k
  {
    if k == 0 then time else Ticks(NextTime(time), k - 1)
  }

  /**
   * One tick never yields a negative time, never raises it, lowers a
   * positive time by exactly one, turns any time below one into zero, and
   * leaves zero at zero.
   */
  lemma NextTimeBounds(time: int)
    ensures 0 <= NextTime(time)
    ensures time >= 0 ==> NextTime(time) <= time
    ensures time >= 1 ==> NextTime(time) == time - 1
    ensures time < 1 ==> NextTime(time) == 0
    ensures NextTime(NextTime(0)) == NextTime(0) == 0
  {
  }

  /**
   * `k` ticks from `time` lower it by `k` and stop at zero; a negative time
   * becomes zero at the first tick.
   */
  lemma {:induction false} TicksClosedForm(time: int, k: nat)
    ensures Ticks(time, k) == if k == 0 then time else Max(time - k, 0)
    decreases k
  {
    if k > 0 {
      TicksClosedForm(NextTime(time), k - 1);
    }
  }

  /** Once at zero the countdown stays at zero, however many ticks follow. */
  lemma {:induction false} TicksStayAtZero(k: nat)
    ensures Ticks(0, k) == 0
  {
    TicksClosedForm(0, k);
  }

  /** The state of one running `Timer` component. */
  class Timer {
    var time: int

    /** The state starts at the start time it is given. */
    constructor (startTime: int)
      ensures time == startTime
    {
      time := startTime;
    }

    /** One firing of the one-second interval. */
    method Tick()
      modifies this
      ensures time == NextTime(old(time))
    {
      if time >= 1 {
        time := time - 1;
      } else {
        time := 0;
      }
    }

    /** A new start time overwrites whatever the countdown has reached. */
    method Reset(startTime: int)
      modifies this
      ensures time == startTime
    {
      time := startTime;
    }

    /** The text the component renders. */
    function Display(): string
      reads this
    {
      FormatTime(time)
    }
  }

  /**
   * Last write wins: after two ticks the state is where the ticks took it,
   * and a reset then installs the polled start time whether it lies above or
   * below that value.
   */
  method ResetAfterTicks(startTime: int, polled: int) returns (ticked: int, shown: int)
    ensures ticked == Max(startTime - 2, 0)
    ensures shown == polled
  {
    var timer := new Timer(startTime);
    timer.Tick();
    timer.Tick();
    ticked := timer.time;
    timer.Reset(polled);
    shown := timer.time;
  }
}
