/**
 * The countdown of startTimer (neetMockTest/script.js, lines 160-172): a
 * counter starting at the test duration, decremented once per interval tick;
 * when it reaches 0 or less the interval is cleared and the test is submitted.
 * submitTest also clears the interval (line 192), which is cancel() here.
 * Wall-clock scheduling is replaced by explicit calls to Tick.
 */
module Countdown {
  import opened Config
  import TimeFormat

  /** timeLeft, and whether the interval is still scheduled. */
  datatype Clock = Clock(timeLeft: int, running: bool)

  /** A tick's new clock, and whether it triggered submitTest. */
  datatype TickResult = TickResult(clock: Clock, submits: bool)

  /** One interval callback; a cleared interval fires no more callbacks. */
  function TickStep(c: Clock): (r: TickResult)
    ensures !c.running ==> r == TickResult(c, false)
    ensures c.running ==> r.clock.timeLeft == c.timeLeft - 1
    ensures r.submits ==> c.running && !r.clock.running
    ensures c.timeLeft >= 0 && (c.running ==> c.timeLeft >= 1) ==>
      r.clock.timeLeft >= 0 && (r.clock.running ==> r.clock.timeLeft >= 1)
  {
    if !c.running then TickResult(c, false)
    else
      var t := c.timeLeft - 1;
      if t <= 0 then TickResult(Clock(t, false), true)
      else TickResult(Clock(t, true), false)
  }

  /** clearInterval: stops further ticks; harmless on a stopped clock. */
  function CancelStep(c: Clock): (r: Clock)
    ensures !r.running && r.timeLeft == c.timeLeft
    ensures TickStep(r) == TickResult(r, false)
  {
    c.(running := false)
  }

  /** The clock after k more ticks, and how many of them triggered submitTest. */
  datatype RunResult = RunResult(clock: Clock, submissions: nat)

  function Run(c: Clock, k: nat): RunResult
    decreases k
  {
    if k == 0 then RunResult(c, 0)
    else
      var r := TickStep(c);
      var rest := Run(r.clock, k - 1);
      RunResult(rest.clock, rest.submissions + if r.submits then 1 else 0)
  }

  /** A stopped clock never changes and never submits. */
  lemma {:induction false} RunStopped(c: Clock, k: nat)
    requires !c.running
    ensures Run(c, k) == RunResult(c, 0)
    decreases k
  {
    if k > 0 {
      RunStopped(c, k - 1);
    }
  }

  /** Before expiry: after k < d ticks the counter reads d - k and nothing has been submitted. */
  lemma {:induction false} RunBeforeExpiry(d: int, k: nat)
    requires k < d
    ensures Run(Clock(d, true), k) == RunResult(Clock(d - k, true), 0)
    decreases k
  {
    if k > 0 {
      RunBeforeExpiry(d - 1, k - 1);
    }
  }

  /** Expiry: the d-th tick stops the clock at 0 and submits, exactly once. */
  lemma RunAtExpiry(d: nat)
    requires d >= 1
    ensures Run(Clock(d, true), d) == RunResult(Clock(0, false), 1)
  {
    TicksAfterStart(d, d);
  }

  /**
   * From a running clock at d >= 1, any number k >= d of ticks ends stopped at 0
   * with exactly one submission: no tick runs after the interval is cleared.
   */
  lemma {:induction false} TicksAfterStart(d: nat, k: nat)
    requires 1 <= d <= k
    ensures Run(Clock(d, true), k) == RunResult(Clock(0, false), 1)
    decreases k
  {
    if d == 1 {
      RunStopped(Clock(0, false), k - 1);
    } else {
      TicksAfterStart(d - 1, k - 1);
    }
  }

  /** Cancelling before expiry means the expiry submission never fires. */
  lemma CancelPreventsSubmit(c: Clock, k: nat)
    ensures Run(CancelStep(c), k).submissions == 0
    ensures Run(CancelStep(c), k).clock.timeLeft == c.timeLeft
  {
    RunStopped(CancelStep(c), k);
  }

  /** The full three-hour budget: 10799 quiet ticks, then one submission at the 10800th. */
  lemma TestDurationRun(k: nat)
    ensures k < TEST_DURATION_SECONDS ==>
      Run(Clock(TEST_DURATION_SECONDS, true), k) == RunResult(Clock(TEST_DURATION_SECONDS - k, true), 0)
    ensures k >= TEST_DURATION_SECONDS ==>
      Run(Clock(TEST_DURATION_SECONDS, true), k) == RunResult(Clock(0, false), 1)
  {
    if k < TEST_DURATION_SECONDS {
      RunBeforeExpiry(TEST_DURATION_SECONDS, k);
    } else {
      TicksAfterStart(TEST_DURATION_SECONDS, k);
    }
  }

  /** The interval started by startTimer, with its closure variable timeLeft. */
  class Timer {
    var timeLeft: int
    var running: bool

    function State(): Clock
      reads this
    {
      Clock(timeLeft, running)
    }

    /** The counter never goes negative, and is positive while ticking. */
    ghost predicate Valid()
      reads this
    {
      timeLeft >= 0 && (running ==> timeLeft >= 1)
    }

    /** The text shown in the timer element after every update; timeLeft is never negative here. */
    function Display(): (text: string)
      reads this
      requires Valid()
      ensures TimeFormat.ParseTime(text) == TimeFormat.Parsed(timeLeft)
    {
      TimeFormat.FormatTimeRoundTrip(timeLeft);
      TimeFormat.FormatTime(timeLeft)
    }

    /** startTimer: timeLeft := TEST_DURATION_SECONDS and schedule the interval. */
    constructor Start()
      ensures Valid() && State() == Clock(TEST_DURATION_SECONDS, true)
    {
      timeLeft := TEST_DURATION_SECONDS;
      running := true;
    }

    /**
     * One interval callback: decrement, redisplay, and on reaching 0 clear the
     * interval and report that submitTest must run (Display() is what is shown). A cleared interval does nothing.
     */
    method Tick() returns (submits: bool)
      requires Valid()
      modifies this
      ensures Valid()
      ensures TickResult(State(), submits) == TickStep(old(State()))
    {
      submits := false;
      if running {
        timeLeft := timeLeft - 1;
        if timeLeft <= 0 {
          running := false;
          submits := true;
        }
      }
    }

    /** clearInterval(timerInterval). */
    method Cancel()
      requires Valid()
      modifies this
      ensures Valid()
      ensures State() == CancelStep(old(State()))
    {
      running := false;
    }
  }
}
