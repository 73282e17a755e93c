/**
 * The direction button (components/input): two enable flags that share one
 * GPIO interrupt, the interrupt routine that starts a debounce period, the
 * debounce callback that turns settled levels into button events, and the
 * hold timer that reports a long press.
 */
module Input {
  import opened EspErrors

  datatype MainCommand = QuickDirBtn | HoldDirBtn

  /** What one settled reading does, given whether the previous accepted
      edge was a press. */
  datatype DebounceEffect = DebounceEffect(prevRising: bool, quickPress: bool, stopHoldTimer: bool)

  /** The debounce rule: a press after a release is a quick press (and arms
      the hold timer), a release after a press stops the hold timer, and a
      repeat of the previous level is ignored. */
  function Debounce(prevRising: bool, rising: bool): DebounceEffect {
    if rising && !prevRising then DebounceEffect(true, true, false)
    else if !rising && prevRising then DebounceEffect(false, false, true)
    else DebounceEffect(prevRising, false, false)
  }

  /** The debounce state after a series of settled readings. */
  function StateAfter(prevRising: bool, readings: seq<bool>): bool
    decreases |readings|
  {
    if readings == [] then prevRising
    else StateAfter(Debounce(prevRising, readings[0]).prevRising, readings[1..])
  }

  /** The number of quick presses a series of settled readings queues. */
  function QuickPresses(prevRising: bool, readings: seq<bool>): nat
    decreases |readings|
  {
    if readings == [] then 0
    else
      var e := Debounce(prevRising, readings[0]);
      (if e.quickPress then 1 else 0) + QuickPresses(e.prevRising, readings[1..])
  }

  /** The reading before position `i`, or the starting state at 0. */
  function Before(prevRising: bool, readings: seq<bool>, i: int): bool
    requires 0 <= i <= |readings|
  {
    if i == 0 then prevRising else readings[i - 1]
  }

  /** Pressed readings that follow a released one, counted up to `n`. */
  function PressEdges(prevRising: bool, readings: seq<bool>, n: int): nat
    requires 0 <= n <= |readings|
  {
    if n == 0 then 0
    else
      var edge := readings[n - 1] && !Before(prevRising, readings, n - 1);
      PressEdges(prevRising, readings, n - 1) + (if edge then 1 else 0)
  }

  /** After any readings, the debounce state is the last reading. */
  lemma {:induction false} StateFollowsLastReading(prevRising: bool, readings: seq<bool>)
    ensures StateAfter(prevRising, readings) == Before(prevRising, readings, |readings|)
    decreases |readings|
  {
    if readings != [] {
      StateFollowsLastReading(readings[0], readings[1..]);
      if |readings| > 1 {
        assert readings[1..][|readings| - 2] == readings[|readings| - 1];
      }
    }
  }

  /** One quick press is queued per press that follows a release, and no
      other reading queues one. */
  lemma {:induction false} QuickPressesAreEdges(prevRising: bool, readings: seq<bool>)
    ensures QuickPresses(prevRising, readings) == PressEdges(prevRising, readings, |readings|)
    decreases |readings|
  {
    if readings != [] {
      var t := readings[1..];
      QuickPressesAreEdges(readings[0], t);
      ShiftEdges(prevRising, readings, |t|);
    }
  }

  /** Counting edges of `readings` after its first reading is counting
      edges of the rest from that reading on. */
  lemma {:induction false} ShiftEdges(prevRising: bool, readings: seq<bool>, n: int)
    requires 0 <= n < |readings|
    ensures PressEdges(prevRising, readings, n + 1) ==
      (if readings[0] && !prevRising then 1 else 0) + PressEdges(readings[0], readings[1..], n)
  {
    if n > 0 {
      ShiftEdges(prevRising, readings, n - 1);
      assert Before(readings[0], readings[1..], n - 1) == Before(prevRising, readings, n);
    }
  }

  /** The direction button's static state. `intrEnabled` is the GPIO
      interrupt of the button pin; `queue` is what was sent to the input
      queue. */
  class DirButton {
    var shortEnable: bool
    var longEnable: bool
    var intrEnabled: bool
    var prevRising: bool
    var holdTimerArmed: bool
    var debounceTimerArmed: bool
    var abortCount: int
    var queue: seq<MainCommand>

    constructor ()
      ensures !shortEnable && !longEnable && !prevRising && queue == []
    {
      shortEnable, longEnable, intrEnabled, prevRising := false, false, false, false;
      holdTimerArmed, debounceTimerArmed, abortCount, queue := false, false, 0, [];
    }

    /** enableQuickDirButton: the interrupt is turned on only when both
        flags were off; `gpioErr` is what the GPIO driver reports. */
    method EnableQuickDirButton(gpioErr: EspErr) returns (err: EspErr)
      modifies this`shortEnable, this`intrEnabled
      ensures shortEnable
      ensures !old(shortEnable) && !old(longEnable) ==> intrEnabled && err == gpioErr
      ensures old(shortEnable) || old(longEnable) ==> intrEnabled == old(intrEnabled) && err == Ok
    {
      err := Ok;
      if !shortEnable && !longEnable {
        shortEnable := true;
        intrEnabled := true;
        err := gpioErr;
      } else {
        shortEnable := true;
      }
    }

    /** disableQuickDirButton: the interrupt is turned off only when the
        hold flag is off too. */
    method DisableQuickDirButton(gpioErr: EspErr) returns (err: EspErr)
      modifies this`shortEnable, this`intrEnabled
      ensures !shortEnable
      ensures !longEnable ==> !intrEnabled && err == gpioErr
      ensures longEnable ==> intrEnabled == old(intrEnabled) && err == Ok
    {
      err := Ok;
      shortEnable := false;
      if !longEnable {
        intrEnabled := false;
        err := gpioErr;
      }
    }

    method EnableHoldDirButton(gpioErr: EspErr) returns (err: EspErr)
      modifies this`longEnable, this`intrEnabled
      ensures longEnable
      ensures !old(shortEnable) && !old(longEnable) ==> intrEnabled && err == gpioErr
      ensures old(shortEnable) || old(longEnable) ==> intrEnabled == old(intrEnabled) && err == Ok
    {
      err := Ok;
      if !shortEnable && !longEnable {
        longEnable := true;
        intrEnabled := true;
        err := gpioErr;
      } else {
        longEnable := true;
      }
    }

    method DisableHoldDirButton(gpioErr: EspErr) returns (err: EspErr)
      modifies this`longEnable, this`intrEnabled
      ensures !longEnable
      ensures !shortEnable ==> !intrEnabled && err == gpioErr
      ensures shortEnable ==> intrEnabled == old(intrEnabled) && err == Ok
    {
      err := Ok;
      longEnable := false;
      if !shortEnable {
        intrEnabled := false;
        err := gpioErr;
      }
    }

    /** dirButtonISR: always masks the interrupt and starts the debounce
        timer, whatever the flags. */
    method DirButtonISR()
      modifies this`intrEnabled, this`debounceTimerArmed
      ensures !intrEnabled && debounceTimerArmed
    {
      intrEnabled := false;
      debounceTimerArmed := true;
    }

    /** timerDirButtonCallback: a long press is reported only while hold
        presses are enabled. */
    method TimerDirButtonCallback()
      modifies this`queue
      ensures queue == old(queue) + (if longEnable then [HoldDirBtn] else [])
    {
      if !longEnable {
        return;
      }
      queue := queue + [HoldDirBtn];
    }

    /** timerDebounceDirButtonCallback with the settled pin level (the pin
        reads 0 while pressed). The interrupt is re-enabled whatever the
        flags. */
    method TimerDebounceDirButtonCallback(level: int)
      modifies this`prevRising, this`holdTimerArmed, this`abortCount, this`queue,
        this`intrEnabled, this`debounceTimerArmed
      ensures var e := Debounce(old(prevRising), level == 0);
        prevRising == e.prevRising &&
        queue == old(queue) + (if e.quickPress then [QuickDirBtn] else []) &&
        abortCount == old(abortCount) + (if e.quickPress then 1 else 0) &&
        holdTimerArmed == (if e.quickPress then true else if e.stopHoldTimer then false else old(holdTimerArmed))
      ensures intrEnabled && !debounceTimerArmed
    {
      debounceTimerArmed := false;
      var rising := level == 0;
      if rising && !prevRising {
        holdTimerArmed := true;
        abortCount := abortCount + 1;
        queue := queue + [QuickDirBtn];
        prevRising := true;
      } else if !rising && prevRising {
        holdTimerArmed := false;
        prevRising := false;
      }
      intrEnabled := true;
    }
  }
}
