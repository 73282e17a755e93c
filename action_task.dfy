/**
 * Scheduling of the daily actions (components/actions): how many seconds
 * the action timer waits for the next scheduled time of day, and which
 * actions re-arm it.
 */
module ActionTask {
  import opened Wrappers

  const SECONDS_IN_DAY: int := 24 * 60 * 60

  /** The broken-down local time the firmware reads the clock as. */
  datatype TimeOfDay = TimeOfDay(hour: int, min: int, sec: int)

  datatype Action =
    | UpdateData
    | UpdateBrightness
    | QueryOta
    | StartNighttimeMode
    | EndNighttimeMode

  /** Seconds since midnight. */
  function SecondsOfDay(t: TimeOfDay): (r: int)
    ensures 0 <= t.hour && 0 <= t.min < 60 && 0 <= t.sec < 60 ==>
      r / 60 == t.hour * 60 + t.min && r % 60 == t.sec
  {
    t.hour * 3600 + t.min * 60 + t.sec
  }

  /** The smallest of `bound` and the job times, taken left to right as the
      scan does. */
  function EarliestJob(jobs: seq<int>, bound: int): (r: int)
    ensures r <= bound && forall i :: 0 <= i < |jobs| ==> r <= jobs[i]
    ensures r == bound || exists i :: 0 <= i < |jobs| && jobs[i] == r
  {
    if jobs == [] then bound
    else
      var r := EarliestJob(jobs[..|jobs| - 1], bound);
      assert forall i :: 0 <= i < |jobs| - 1 ==> jobs[..|jobs| - 1][i] == jobs[i];
      if jobs[|jobs| - 1] < r then jobs[|jobs| - 1] else r
  }

  /** The smallest job time strictly after `now` and below `bound`, or
      `bound` when there is none. */
  function EarliestJobAfter(jobs: seq<int>, now: int, bound: int): (r: int)
    ensures r <= bound && forall i :: 0 <= i < |jobs| && now < jobs[i] ==> r <= jobs[i]
    ensures r == bound || exists i :: 0 <= i < |jobs| && now < jobs[i] && jobs[i] == r
  {
    if jobs == [] then bound
    else
      var r := EarliestJobAfter(jobs[..|jobs| - 1], now, bound);
      assert forall i :: 0 <= i < |jobs| - 1 ==> jobs[..|jobs| - 1][i] == jobs[i];
      if now < jobs[|jobs| - 1] < r then jobs[|jobs| - 1] else r
  }

  /** The delay for a schedule when the clock reads `now` seconds into the
      day: to the next job later today if there is one, else to the earliest
      job tomorrow. */
  function NextActionDelay(now: int, jobs: seq<int>): int {
    var after := EarliestJobAfter(jobs, now, SECONDS_IN_DAY);
    if after < SECONDS_IN_DAY then after - now
    else SECONDS_IN_DAY - (now - EarliestJob(jobs, SECONDS_IN_DAY))
  }

  /** secsUntilNextAction: -1 when the clock cannot be read, 0 when there is
      no schedule, otherwise the delay computed by one scan of the job
      times. */
  method SecsUntilNextAction(clock: Option<TimeOfDay>, jobs: Option<seq<int>>) returns (r: int)
    ensures clock.None? ==> r == -1
    ensures clock.Some? && jobs.None? ==> r == 0
    ensures clock.Some? && jobs.Some? ==> r == NextActionDelay(SecondsOfDay(clock.value), jobs.value)
  {
    if clock.None? {
      return -1;
    }
    var currTime := SecondsOfDay(clock.value);
    if jobs.None? {
      return 0;
    }
    var times := jobs.value;
    var earliestJobOfDay, earliestJobAfterCurrTime := SECONDS_IN_DAY, SECONDS_IN_DAY;
    var foundAfter := false;
    var i := 0;
    while i < |times|
      invariant 0 <= i <= |times|
      invariant earliestJobOfDay == EarliestJob(times[..i], SECONDS_IN_DAY)
      invariant earliestJobAfterCurrTime == EarliestJobAfter(times[..i], currTime, SECONDS_IN_DAY)
      invariant foundAfter <==> earliestJobAfterCurrTime < SECONDS_IN_DAY
    {
      var jobTime := times[i];
      assert times[..i + 1][..i] == times[..i];
      if jobTime < earliestJobOfDay {
        earliestJobOfDay := jobTime;
      }
      if jobTime > currTime && jobTime < earliestJobAfterCurrTime {
        foundAfter := true;
        earliestJobAfterCurrTime := jobTime;
      }
      i := i + 1;
    }
    assert times[..i] == times;
    if !foundAfter {
      return SECONDS_IN_DAY - (currTime - earliestJobOfDay);
    }
    return earliestJobAfterCurrTime - currTime;
  }

  /** When a later job exists today the delay reaches exactly the earliest
      such job; otherwise it reaches the earliest job of the next day. */
  lemma {:induction false} DelayReachesNextJob(now: int, jobs: seq<int>)
    requires 0 <= now < SECONDS_IN_DAY && forall i :: 0 <= i < |jobs| ==> 0 <= jobs[i] < SECONDS_IN_DAY
    ensures (exists i :: 0 <= i < |jobs| && jobs[i] > now) ==>
      (exists i :: 0 <= i < |jobs| && jobs[i] > now && now + NextActionDelay(now, jobs) == jobs[i]) &&
      forall i :: 0 <= i < |jobs| && jobs[i] > now ==> now + NextActionDelay(now, jobs) <= jobs[i]
    ensures |jobs| > 0 && (forall i :: 0 <= i < |jobs| ==> jobs[i] <= now) ==>
      (exists i :: 0 <= i < |jobs| && now + NextActionDelay(now, jobs) == jobs[i] + SECONDS_IN_DAY) &&
      forall i :: 0 <= i < |jobs| ==> now + NextActionDelay(now, jobs) <= jobs[i] + SECONDS_IN_DAY
  {
    var after := EarliestJobAfter(jobs, now, SECONDS_IN_DAY);
    if exists i :: 0 <= i < |jobs| && jobs[i] > now {
      var k :| 0 <= k < |jobs| && jobs[k] > now;
      assert after <= jobs[k] < SECONDS_IN_DAY;
    } else if |jobs| > 0 {
      assert after == SECONDS_IN_DAY;
      var e := EarliestJob(jobs, SECONDS_IN_DAY);
      assert e <= jobs[0] < SECONDS_IN_DAY;
    }
  }

  /** For a non-empty schedule of times within the day and a clock within
      the day, the delay lies in (0, SECONDS_IN_DAY]; a job at exactly
      `now` is not later today, so a schedule of that one job waits a full
      day. */
  lemma {:induction false} DelayWithinDay(now: int, jobs: seq<int>)
    requires 0 <= now < SECONDS_IN_DAY && |jobs| > 0
    requires forall i :: 0 <= i < |jobs| ==> 0 <= jobs[i] < SECONDS_IN_DAY
    ensures 0 < NextActionDelay(now, jobs) <= SECONDS_IN_DAY
    ensures jobs == [now] ==> NextActionDelay(now, jobs) == SECONDS_IN_DAY
  {
    var after := EarliestJobAfter(jobs, now, SECONDS_IN_DAY);
    var e := EarliestJob(jobs, SECONDS_IN_DAY);
    assert e <= jobs[0] < SECONDS_IN_DAY;
    if after == SECONDS_IN_DAY {
      assert e >= 0;
    }
  }

  /** The action timer's next deadline after handling `action`, in
      microseconds: data updates run on their own periodic timer and do
      not re-arm it. */
  function ReArmAfter(action: Action, secs: int): (r: Option<int>)
    ensures r.None? <==> action == UpdateData
    ensures r.Some? ==> r.value == secs * 1000000
  {
    if action == UpdateData then None else Some(secs * 1000000)
  }
}
