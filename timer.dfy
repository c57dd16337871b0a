/**
 * The background timer service: a countdown that turns into an
 * open-ended overtime count when it reaches zero. Its commands are start,
 * pause, restart and set; two tickers drive it (the countdown's ticks and
 * finish, and the overtime's one-second ticks); every change observers
 * must see is published as a broadcast of the displayed time and the
 * overtime flag.
 */
module Timer {

  /** `INITIAL_TIME_MS` when the process starts: one hour and fifteen minutes. */
  const DefaultInitialTimeMs: int := 4_500_000

  /** What each overtime tick adds to the overtime counter. */
  const OvertimeStepMs: int := 1000

  /** Which `CountDownTimer` is live and may deliver callbacks. */
  datatype Ticker = Stopped | Countdown | Overtime

  /** The extras of one `TIMER_BR` broadcast: `time_left` and `is_overtime`. */
  datatype Broadcast = Broadcast(timeLeft: int, isOvertime: bool)

  /**
   * What starting a fresh countdown of `d` publishes: `d` itself, or the
   * zero overtime counter when `d` is not positive.
   */
  function StartBroadcast(d: int): Broadcast {
    if d > 0 then Broadcast(d, false) else Broadcast(0, true)
  }

  class TimerService {
    /** `INITIAL_TIME_MS`: the duration a restart counts down from. */
    var initialTimeMs: int
    var timeRemaining: int
    var overtimeCounter: int
    var isRunning: bool
    var isOvertime: bool
    /** The live ticker: `mainTimer` (Countdown), `overtimeTimer` (Overtime) or neither. */
    var ticker: Ticker
    /** Every broadcast sent so far, oldest first. */
    var sent: seq<Broadcast>

    /**
     * A ticker is live exactly while the timer runs, and it is the one
     * that matches the mode; overtime has no remaining time left; the
     * overtime counter is a whole number of steps and is zero outside
     * overtime.
     */
    predicate Valid()
      reads this
    {
      && (isRunning <==> ticker != Stopped)
      && (ticker == Countdown ==> !isOvertime)
      && (ticker == Overtime ==> isOvertime)
      && (isOvertime ==> timeRemaining == 0)
      && (!isOvertime ==> overtimeCounter == 0)
      && overtimeCounter >= 0 && overtimeCounter % OvertimeStepMs == 0
    }

    /** The value published to observers: the overtime counter in overtime, else the remaining time. */
    function Published(): Broadcast
      reads this
    {
      Broadcast(if isOvertime then overtimeCounter else timeRemaining, isOvertime)
    }

    /**
     * The state right after a fresh countdown of `d` milliseconds starts:
     * counting down from `d` when it is positive; otherwise
     * `CountDownTimer.start()` has already run `onFinish`, so the service
     * is in overtime with nothing remaining and the counter at zero.
     */
    predicate FreshStart(d: int)
      reads this
    {
      && isRunning && overtimeCounter == 0
      && if d > 0 then timeRemaining == d && !isOvertime && ticker == Countdown
         else timeRemaining == 0 && isOvertime && ticker == Overtime
    }

    /** The service as created: paused, counting down from the current initial duration. */
    constructor (initialTimeMs: int)
      ensures Valid()
      ensures this.initialTimeMs == initialTimeMs && timeRemaining == initialTimeMs
      ensures overtimeCounter == 0 && !isRunning && !isOvertime && ticker == Stopped
      ensures sent == []
    {
      this.initialTimeMs := initialTimeMs;
      timeRemaining := initialTimeMs;
      overtimeCounter := 0;
      isRunning := false;
      isOvertime := false;
      ticker := Stopped;
      sent := [];
    }

    /**
     * `startTimer`: nothing when already running; otherwise runs the
     * ticker of the current mode (overtime resumes counting up, not the
     * countdown) and publishes the state. A countdown with nothing left
     * finishes inside `CountDownTimer.start()`, so the service enters
     * overtime before it publishes.
     */
    method StartTimer()
      requires Valid()
      modifies this
      ensures Valid()
      ensures initialTimeMs == old(initialTimeMs)
      ensures old(isRunning) ==> unchanged(this)
      ensures !old(isRunning) ==> isRunning && sent == old(sent) + [Published()]
      ensures !old(isRunning) && old(isOvertime) ==>
        && isOvertime && ticker == Overtime
        && timeRemaining == 0 && overtimeCounter == old(overtimeCounter)
      ensures !old(isRunning) && !old(isOvertime) ==> FreshStart(old(timeRemaining))
    {
      if isRunning {
        return;
      }
      isRunning := true;
      if isOvertime {
        ticker := Overtime;
      } else if timeRemaining <= 0 {
        isOvertime := true;
        timeRemaining := 0;
        overtimeCounter := 0;
        ticker := Overtime;
      } else {
        ticker := Countdown;
      }
      sent := sent + [Published()];
    }

    /** `pauseTimer`: stops whichever ticker is live and publishes the unchanged values. */
    method PauseTimer()
      requires Valid()
      modifies this
      ensures Valid()
      ensures !isRunning && ticker == Stopped
      ensures timeRemaining == old(timeRemaining) && overtimeCounter == old(overtimeCounter)
      ensures isOvertime == old(isOvertime) && initialTimeMs == old(initialTimeMs)
      ensures sent == old(sent) + [old(Published())]
    {
      isRunning := false;
      ticker := Stopped;
      sent := sent + [Published()];
    }

    /**
     * `restartTimer`: pause, then count down again from the initial
     * duration with overtime cleared (straight into overtime when that
     * duration is not positive). Two broadcasts: the paused state, then
     * the fresh start.
     */
    method RestartTimer()
      requires Valid()
      modifies this
      ensures Valid()
      ensures initialTimeMs == old(initialTimeMs)
      ensures FreshStart(initialTimeMs)
      ensures sent == old(sent) + [old(Published()), StartBroadcast(initialTimeMs)]
    {
      PauseTimer();
      timeRemaining := initialTimeMs;
      isOvertime := false;
      overtimeCounter := 0;
      StartTimer();
    }

    /**
     * `setTimer(newTimeMs)`: pause, count down from `newTimeMs` with
     * overtime cleared (straight into overtime when it is not positive).
     * Three broadcasts: the paused state, the new value, and the fresh
     * start.
     */
    method SetTimer(newTimeMs: int)
      requires Valid()
      modifies this
      ensures Valid()
      ensures FreshStart(newTimeMs)
      ensures initialTimeMs == old(initialTimeMs)
      ensures sent == old(sent) + [old(Published()), Broadcast(newTimeMs, false), StartBroadcast(newTimeMs)]
    {
      PauseTimer();
      timeRemaining := newTimeMs;
      isOvertime := false;
      overtimeCounter := 0;
      sent := sent + [Published()];
      StartTimer();
    }

    /** The countdown's `onTick(millisUntilFinished)`: records the time left and publishes it. */
    method OnMainTick(millisUntilFinished: int)
      requires Valid() && ticker == Countdown
      modifies this
      ensures Valid()
      ensures timeRemaining == millisUntilFinished
      ensures isRunning && !isOvertime && ticker == Countdown
      ensures overtimeCounter == 0 && initialTimeMs == old(initialTimeMs)
      ensures sent == old(sent) + [Broadcast(millisUntilFinished, false)]
    {
      timeRemaining := millisUntilFinished;
      sent := sent + [Published()];
    }

    /**
     * The countdown's `onFinish`: switches to overtime with nothing
     * remaining and the counter at zero, and starts the overtime ticker.
     * Nothing is published until the first overtime tick.
     */
    method OnMainFinish()
      requires Valid() && ticker == Countdown
      modifies this
      ensures Valid()
      ensures isOvertime && timeRemaining == 0 && overtimeCounter == 0
      ensures isRunning && ticker == Overtime
      ensures initialTimeMs == old(initialTimeMs) && sent == old(sent)
    {
      isOvertime := true;
      timeRemaining := 0;
      overtimeCounter := 0;
      ticker := Overtime;
    }

    /** The overtime ticker's `onTick`: one more second of overtime, published. */
    method OnOvertimeTick()
      requires Valid() && ticker == Overtime
      modifies this
      ensures Valid()
      ensures overtimeCounter == old(overtimeCounter) + OvertimeStepMs
      ensures isOvertime && timeRemaining == 0 && isRunning && ticker == Overtime
      ensures initialTimeMs == old(initialTimeMs)
      ensures sent == old(sent) + [Broadcast(overtimeCounter, true)]
    {
      overtimeCounter := overtimeCounter + OvertimeStepMs;
      sent := sent + [Published()];
    }
  }
}
