/**
 * The activity's side of the timer: the saved end time, the catch-up
 * rule applied when the service connects, the restart that the entry
 * buttons trigger, and applying the "Set Timer (MMSS)" dialog. Wall-clock
 * time is passed in as `now`; the `endTime` preference is a field.
 * Deadlines are JVM `Long` sums and differences, so they wrap around.
 */
module TimerBinding {
  import opened Wrappers
  import opened Numbers
  import opened EditTimer
  import opened Timer

  class TimerScreen {
    /** The service this activity binds to. */
    const service: TimerService
    var isBound: bool
    /** `endTimeMillis`: the wall-clock deadline of the current countdown, 0 when none. */
    var endTimeMillis: int
    /** The `endTime` entry of the `TimerPrefs` preferences (0 when absent). */
    var savedEndTime: int

    /** `onCreate`'s `loadEndTime`: the deadline comes back from the preferences. */
    constructor (service: TimerService, savedEndTime: int)
      ensures this.service == service && !isBound
      ensures endTimeMillis == savedEndTime && this.savedEndTime == savedEndTime
    {
      this.service := service;
      isBound := false;
      endTimeMillis := savedEndTime;
      this.savedEndTime := savedEndTime;
    }

    /**
     * `onServiceConnected`: when the service is idle and the saved deadline
     * lies ahead, the countdown resumes with what is left of it (a `Long`
     * difference); otherwise the service is left as it is.
     */
    method OnServiceConnected(now: int)
      requires service.Valid()
      modifies this, service
      ensures service.Valid() && isBound
      ensures endTimeMillis == old(endTimeMillis) && savedEndTime == old(savedEndTime)
      ensures var catchUp := !old(service.isRunning) && old(endTimeMillis) > now;
        var remaining := WrapLong(endTimeMillis - now);
        && (catchUp ==>
              && service.FreshStart(remaining)
              && service.initialTimeMs == old(service.initialTimeMs)
              && service.sent == old(service.sent) + [old(service.Published()),
                   Broadcast(remaining, false), StartBroadcast(remaining)])
        && (catchUp && InLong(endTimeMillis) && InLong(now) && now >= 0 ==>
              && service.timeRemaining == endTimeMillis - now > 0
              && !service.isOvertime && service.ticker == Countdown)
        && (!catchUp ==> unchanged(service))
    {
      isBound := true;
      if !service.isRunning && endTimeMillis > now {
        var remaining := WrapLong(endTimeMillis - now);
        service.SetTimer(remaining);
        service.StartTimer();
      }
    }

    /** `onServiceDisconnected`. */
    method OnServiceDisconnected()
      modifies this
      ensures !isBound
      ensures endTimeMillis == old(endTimeMillis) && savedEndTime == old(savedEndTime)
    {
      isBound := false;
    }

    /**
     * The activity's `restartTimer` (run after every entry button): when
     * bound, the deadline becomes the `Long` sum `now + INITIAL_TIME_MS`, is
     * saved, and the service restarts from `INITIAL_TIME_MS`; unbound, it
     * does nothing. Without wrap-around the deadline and the remaining time
     * agree at `now`.
     */
    method RestartTimer(now: int)
      requires service.Valid()
      modifies this, service
      ensures service.Valid() && isBound == old(isBound)
      ensures !isBound ==> unchanged(this) && unchanged(service)
      ensures isBound ==>
        && endTimeMillis == savedEndTime == WrapLong(now + old(service.initialTimeMs))
        && service.initialTimeMs == old(service.initialTimeMs)
        && service.FreshStart(service.initialTimeMs)
        && service.sent == old(service.sent) + [old(service.Published()),
             StartBroadcast(service.initialTimeMs)]
      ensures isBound && service.initialTimeMs > 0 && InLong(now + service.initialTimeMs) ==>
        endTimeMillis - now == service.timeRemaining
    {
      if isBound {
        endTimeMillis := WrapLong(now + service.initialTimeMs);
        savedEndTime := endTimeMillis;
        service.RestartTimer();
      }
    }

    /**
     * What the dialog's Set button does with the parser's outcome: a
     * duration becomes the service's fresh start (when bound; overtime at
     * once when it is not positive), the new `INITIAL_TIME_MS` and the new
     * deadline, the `Long` sum `now + duration`; a refused input changes
     * nothing.
     */
    method ApplyDuration(parsed: Result<int, InputError>, now: int)
      requires service.Valid()
      modifies this, service
      ensures service.Valid() && isBound == old(isBound)
      ensures parsed.Err? ==> unchanged(this) && unchanged(service)
      ensures parsed.Ok? ==>
        && service.initialTimeMs == parsed.value
        && endTimeMillis == savedEndTime == WrapLong(now + parsed.value)
      ensures parsed.Ok? && isBound ==>
        && service.FreshStart(parsed.value)
        && service.sent == old(service.sent) + [old(service.Published()),
             Broadcast(parsed.value, false), StartBroadcast(parsed.value)]
      ensures parsed.Ok? && !isBound ==>
        && service.timeRemaining == old(service.timeRemaining)
        && service.isRunning == old(service.isRunning)
        && service.isOvertime == old(service.isOvertime)
        && service.overtimeCounter == old(service.overtimeCounter)
        && service.ticker == old(service.ticker)
        && service.sent == old(service.sent)
    {
      if parsed.Ok? {
        var ms := parsed.value;
        if isBound {
          service.SetTimer(ms);
        }
        service.initialTimeMs := ms;
        endTimeMillis := WrapLong(now + ms);
        savedEndTime := endTimeMillis;
      }
    }

    /**
     * The dialog's Set button as written: the input goes through the
     * parser that wraps around, so an oversized entry gives a negative
     * duration: the service goes straight into overtime and the deadline
     * lies in the past.
     */
    method ApplyEditTimer(input: string, now: int)
      requires service.Valid()
      modifies this, service
      ensures service.Valid() && isBound == old(isBound)
      ensures ParseMmssAsWritten(input).Err? ==> unchanged(this) && unchanged(service)
      ensures ParseMmssAsWritten(input).Ok? ==>
        var ms := ParseMmssAsWritten(input).value;
        && service.initialTimeMs == ms
        && endTimeMillis == savedEndTime == WrapLong(now + ms)
        && (isBound ==>
              && service.FreshStart(ms)
              && service.sent == old(service.sent) + [old(service.Published()),
                   Broadcast(ms, false), StartBroadcast(ms)])
        && (!isBound ==>
              && service.timeRemaining == old(service.timeRemaining)
              && service.isRunning == old(service.isRunning)
              && service.isOvertime == old(service.isOvertime)
              && service.overtimeCounter == old(service.overtimeCounter)
              && service.ticker == old(service.ticker)
              && service.sent == old(service.sent))
    {
      ApplyDuration(ParseMmssAsWritten(input), now);
    }

    /**
     * The Set button with the intended parser: an entry whose duration
     * leaves the `Long` range is refused and changes nothing.
     */
    method ApplyEditTimerCorrected(input: string, now: int)
      requires service.Valid()
      modifies this, service
      ensures service.Valid() && isBound == old(isBound)
      ensures ParseMmss(input).Err? ==> unchanged(this) && unchanged(service)
      ensures ParseMmss(input).Ok? ==>
        var ms := ParseMmss(input).value;
        && service.initialTimeMs == ms
        && endTimeMillis == savedEndTime == WrapLong(now + ms)
        && (isBound ==>
              && service.FreshStart(ms)
              && service.sent == old(service.sent) + [old(service.Published()),
                   Broadcast(ms, false), StartBroadcast(ms)])
        && (!isBound ==>
              && service.timeRemaining == old(service.timeRemaining)
              && service.isRunning == old(service.isRunning)
              && service.isOvertime == old(service.isOvertime)
              && service.overtimeCounter == old(service.overtimeCounter)
              && service.ticker == old(service.ticker)
              && service.sent == old(service.sent))
    {
      ApplyDuration(ParseMmss(input), now);
    }
  }
}
