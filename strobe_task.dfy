/**
 * The strobe task's registry of strobed LEDs (components/animations): an
 * array of entries with a length, updated in place by register, unregister
 * (swap with the last entry) and unregister-all commands, and a brightness
 * oscillator stepped once per period for every entry.
 */
module StrobeTask {

  const UINT16_MAX: int := 0xFFFF

  /** One strobed LED. `caller` is the registering task's handle, 0 for
      NULL; the scale fields are uint8_t. */
  datatype StrobeLED = StrobeLED(
    caller: int,
    ledNum: int,
    maxScale: int,
    minScale: int,
    currScale: int,
    stepSizeHigh: int,
    stepSizeLow: int,
    stepCutoff: int,
    scalingUp: bool)

  /** A command taken off the strobe queue. An LED number of UINT16_MAX
      means "unregister everything this caller registered". */
  datatype StrobeTaskCommand = StrobeTaskCommand(
    caller: int,
    ledNum: int,
    initScale: int,
    initStrobeUp: bool,
    maxScale: int,
    minScale: int,
    stepSizeHigh: int,
    stepSizeLow: int,
    stepCutoff: int,
    registerLED: bool)

  predicate IsByte(x: int) {
    0 <= x < 256
  }

  /** The scale fields hold uint8_t values. */
  predicate ByteFields(e: StrobeLED) {
    IsByte(e.maxScale) && IsByte(e.minScale) && IsByte(e.currScale) &&
    IsByte(e.stepSizeHigh) && IsByte(e.stepSizeLow) && IsByte(e.stepCutoff)
  }

  /** The brightness lies between the two limits. */
  predicate InRange(e: StrobeLED) {
    e.minScale <= e.currScale <= e.maxScale
  }

  /** The entry a register command creates: an initial scale at or beyond a
      limit starts at that limit heading back, otherwise it starts where
      the command says. */
  function RegisteredEntry(c: StrobeTaskCommand): StrobeLED {
    var e := StrobeLED(c.caller, c.ledNum, c.maxScale, c.minScale, 0,
                       c.stepSizeHigh, c.stepSizeLow, c.stepCutoff, false);
    if c.initScale >= c.maxScale then e.(currScale := c.maxScale, scalingUp := false)
    else if c.initScale <= c.minScale then e.(currScale := c.minScale, scalingUp := true)
    else e.(currScale := c.initScale, scalingUp := c.initStrobeUp)
  }

  /** A registered entry starts within its limits when the limits are in
      order, and keeps the command's settings. */
  lemma RegisteredEntryInRange(c: StrobeTaskCommand)
    requires c.minScale <= c.maxScale
    ensures InRange(RegisteredEntry(c))
    ensures RegisteredEntry(c).ledNum == c.ledNum && RegisteredEntry(c).caller == c.caller
    ensures c.minScale < c.initScale < c.maxScale ==>
      RegisteredEntry(c).currScale == c.initScale && RegisteredEntry(c).scalingUp == c.initStrobeUp
  {
  }

  /** The step size: the high step above the cutoff, the low one below it,
      and at the cutoff the high one on the way up and the low one on the
      way down. */
  function StepSize(e: StrobeLED): int {
    if e.currScale > e.stepCutoff then e.stepSizeHigh
    else if e.currScale < e.stepCutoff then e.stepSizeLow
    else if e.scalingUp then e.stepSizeHigh
    else e.stepSizeLow
  }

  /** One strobe period for one entry. The scale fields are uint8_t and
      the sums are taken in int, so the firmware's overflow tests never
      fire: reaching or passing a limit caps the scale there and turns. */
  function Step(e: StrobeLED): StrobeLED {
    var step := StepSize(e);
    if e.scalingUp then
      if e.currScale + step < e.currScale || e.currScale + step >= e.maxScale then
        e.(currScale := e.maxScale, scalingUp := false)
      else
        e.(currScale := e.currScale + step)
    else
      if e.currScale - step > e.currScale || e.currScale - step <= e.minScale then
        e.(currScale := e.minScale, scalingUp := true)
      else
        e.(currScale := e.currScale - step)
  }

  /** Stepping keeps the scale within its limits and every setting other
      than the scale and the direction; it moves the scale in the current
      direction, and turns only at the limit it was heading for. */
  lemma StepStaysInRange(e: StrobeLED)
    requires ByteFields(e) && InRange(e)
    ensures InRange(Step(e)) && ByteFields(Step(e))
    ensures Step(e).(currScale := e.currScale, scalingUp := e.scalingUp) == e
    ensures e.scalingUp && Step(e).scalingUp ==> Step(e).currScale >= e.currScale
    ensures e.scalingUp && !Step(e).scalingUp ==> Step(e).currScale == e.maxScale
    ensures !e.scalingUp && !Step(e).scalingUp ==> Step(e).currScale <= e.currScale
    ensures !e.scalingUp && Step(e).scalingUp ==> Step(e).currScale == e.minScale
  {
  }

  /** A non-zero step on the way up never stalls below the maximum: the
      scale either grows or reaches the maximum and turns. */
  lemma StepProgresses(e: StrobeLED)
    requires ByteFields(e) && InRange(e) && StepSize(e) > 0
    ensures e.scalingUp ==> Step(e).currScale > e.currScale || Step(e) == e.(currScale := e.maxScale, scalingUp := false)
    ensures !e.scalingUp ==> Step(e).currScale < e.currScale || Step(e) == e.(currScale := e.minScale, scalingUp := true)
  {
  }

  /** Removing position `i` by moving the last element into it removes
      exactly that element. */
  lemma {:induction false} SwapRemove<T>(s: seq<T>, i: int)
    requires 0 <= i < |s|
    ensures multiset(s[i := s[|s| - 1]][..|s| - 1]) == multiset(s) - multiset{s[i]}
  {
    var n := |s|;
    if i == n - 1 {
      assert s[i := s[n - 1]] == s;
      assert s == s[..n - 1] + [s[n - 1]];
    } else {
      assert s == s[..i] + [s[i]] + s[i + 1..n - 1] + [s[n - 1]];
      assert s[i := s[n - 1]][..n - 1] == s[..i] + [s[n - 1]] + s[i + 1..n - 1];
    }
  }

  /** `a` and `b` hold the same entries of every caller other than `caller`. */
  ghost predicate SameOthers(a: seq<StrobeLED>, b: seq<StrobeLED>, caller: int) {
    forall x: StrobeLED :: x.caller != caller ==> multiset(a)[x] == multiset(b)[x]
  }

  /** Removing one entry of `caller` keeps the entries of every other
      caller. */
  lemma RemoveKeepsOthers(before: seq<StrobeLED>, after: seq<StrobeLED>, s0: seq<StrobeLED>, e: StrobeLED, caller: int)
    requires multiset(after) == multiset(before) - multiset{e} && e.caller == caller
    requires SameOthers(before, s0, caller)
    ensures SameOthers(after, s0, caller)
  {
  }

  /** A sequence with no entry of `caller` counts none of them. */
  lemma NoneOfCaller(s: seq<StrobeLED>, caller: int)
    requires forall j :: 0 <= j < |s| ==> s[j].caller != caller
    ensures forall x: StrobeLED :: x.caller == caller ==> multiset(s)[x] == 0
  {
    forall x: StrobeLED | x.caller == caller
      ensures multiset(s)[x] == 0
    {
      assert x !in s;
    }
  }

  /** The registry: `strobeInfo[..strobeInfoLen]` are the strobed LEDs;
      `maxStrobeLeds` is the array's capacity. */
  class StrobeRegistry {
    const strobeInfo: array<StrobeLED>
    const maxStrobeLeds: int
    var strobeInfoLen: int

    ghost predicate Valid()
      reads this
    {
      strobeInfo.Length == maxStrobeLeds && 0 <= strobeInfoLen <= maxStrobeLeds
    }

    ghost function Contents(): seq<StrobeLED>
      reads this, strobeInfo
      requires Valid()
    {
      strobeInfo[..strobeInfoLen]
    }

    constructor (capacity: int)
      requires capacity >= 0
      ensures Valid() && maxStrobeLeds == capacity && Contents() == []
    {
      strobeInfo := new StrobeLED[capacity](_ => StrobeLED(0, 0, 0, 0, 0, 0, 0, 0, false));
      maxStrobeLeds := capacity;
      strobeInfoLen := 0;
    }

    /** receiveCommand. A fatal condition (a NULL caller, or a register
        command on a full registry even for a present LED) is reported as
        `fatal` and changes nothing; the firmware does not return from it. */
    method ReceiveCommand(command: StrobeTaskCommand) returns (fatal: bool)
      requires Valid()
      modifies this`strobeInfoLen, strobeInfo
      ensures Valid()
      ensures fatal == (command.caller == 0 || (old(strobeInfoLen) == maxStrobeLeds && command.registerLED))
      ensures fatal ==> Contents() == old(Contents())
      ensures !fatal && command.ledNum == UINT16_MAX ==>
        forall x: StrobeLED :: multiset(Contents())[x] == if x.caller == command.caller then 0 else multiset(old(Contents()))[x]
      ensures !fatal && command.ledNum != UINT16_MAX && command.registerLED ==>
        Contents() == if FindIn(old(Contents()), command.ledNum) >= 0 then old(Contents())
                      else old(Contents()) + [RegisteredEntry(command)]
      ensures !fatal && command.ledNum != UINT16_MAX && !command.registerLED ==>
        var k := FindIn(old(Contents()), command.ledNum);
        if k < 0 then Contents() == old(Contents())
        else multiset(Contents()) == multiset(old(Contents())) - multiset{old(Contents())[k]}
    {
      if command.caller == 0 || (strobeInfoLen == maxStrobeLeds && command.registerLED) {
        return true;
      }
      if command.ledNum == UINT16_MAX {
        UnregisterAll(command.caller);
        return false;
      }
      var ndx := FindStrobeLED(strobeInfo, strobeInfoLen, command.ledNum);
      if command.registerLED {
        if ndx != -1 {
          return false;
        }
        Append(RegisteredEntry(command));
      } else {
        if ndx == -1 {
          return false;
        }
        RemoveAt(ndx);
      }
      return false;
    }

    /** Adds an entry at the end of the registry. */
    method Append(e: StrobeLED)
      requires Valid() && strobeInfoLen < maxStrobeLeds
      modifies this`strobeInfoLen, strobeInfo
      ensures Valid() && Contents() == old(Contents()) + [e]
    {
      strobeInfo[strobeInfoLen] := e;
      strobeInfoLen := strobeInfoLen + 1;
    }

    /** Removes entry `ndx` by moving the last entry into its place. */
    method RemoveAt(ndx: int)
      requires Valid() && 0 <= ndx < strobeInfoLen
      modifies this`strobeInfoLen, strobeInfo
      ensures Valid() && strobeInfoLen == old(strobeInfoLen) - 1
      ensures multiset(Contents()) == multiset(old(Contents())) - multiset{old(Contents())[ndx]}
      ensures forall j :: 0 <= j < ndx ==> strobeInfo[j] == old(strobeInfo[j])
    {
      ghost var before := Contents();
      strobeInfo[ndx] := strobeInfo[strobeInfoLen - 1];
      strobeInfoLen := strobeInfoLen - 1;
      assert Contents() == before[ndx := before[|before| - 1]][..|before| - 1];
      SwapRemove(before, ndx);
    }

    /** The unregister-all loop: an entry of `caller` is replaced by the
        last entry, and the same index is examined again. */
    method UnregisterAll(caller: int)
      requires Valid()
      modifies this`strobeInfoLen, strobeInfo
      ensures Valid()
      ensures forall x: StrobeLED :: multiset(Contents())[x] == if x.caller == caller then 0 else multiset(old(Contents()))[x]
    {
      ghost var s0 := Contents();
      var ndx := 0;
      while ndx < strobeInfoLen
        invariant Valid() && 0 <= ndx <= strobeInfoLen
        invariant forall j :: 0 <= j < ndx ==> strobeInfo[j].caller != caller
        invariant SameOthers(Contents(), s0, caller)
        decreases strobeInfoLen - ndx
      {
        if strobeInfo[ndx].caller != caller {
          ndx := ndx + 1;
        } else {
          ghost var before := Contents();
          RemoveAt(ndx);
          assert SameOthers(Contents(), s0, caller) by {
            RemoveKeepsOthers(before, Contents(), s0, before[ndx], caller);
          }
        }
      }
      NoneOfCaller(Contents(), caller);
    }

    /** strobeLEDs: one period of the oscillator for every entry (the I2C
        writes of the new scale are not modelled). */
    method StrobeLEDs()
      requires Valid()
      modifies strobeInfo
      ensures Valid() && strobeInfoLen == old(strobeInfoLen)
      ensures forall j :: 0 <= j < strobeInfoLen ==> strobeInfo[j] == Step(old(strobeInfo[j]))
      ensures forall j :: strobeInfoLen <= j < strobeInfo.Length ==> strobeInfo[j] == old(strobeInfo[j])
    {
      var ndx := 0;
      while ndx < strobeInfoLen
        invariant 0 <= ndx <= strobeInfoLen
        invariant forall j :: 0 <= j < ndx ==> strobeInfo[j] == Step(old(strobeInfo[j]))
        invariant forall j :: ndx <= j < strobeInfo.Length ==> strobeInfo[j] == old(strobeInfo[j])
      {
        var e := strobeInfo[ndx];
        var strobeStep: int;
        if e.currScale > e.stepCutoff {
          strobeStep := e.stepSizeHigh;
        } else if e.currScale < e.stepCutoff {
          strobeStep := e.stepSizeLow;
        } else if e.scalingUp {
          strobeStep := e.stepSizeHigh;
        } else {
          strobeStep := e.stepSizeLow;
        }
        if e.scalingUp {
          if e.currScale + strobeStep < e.currScale || e.currScale + strobeStep >= e.maxScale {
            strobeInfo[ndx] := e.(currScale := e.maxScale, scalingUp := false);
          } else {
            strobeInfo[ndx] := e.(currScale := e.currScale + strobeStep);
          }
        } else {
          if e.currScale - strobeStep > e.currScale || e.currScale - strobeStep <= e.minScale {
            strobeInfo[ndx] := e.(currScale := e.minScale, scalingUp := true);
          } else {
            strobeInfo[ndx] := e.(currScale := e.currScale - strobeStep);
          }
        }
        ndx := ndx + 1;
      }
    }
  }

  /** The index findStrobeLED returns on a sequence of entries. */
  function FindIn(s: seq<StrobeLED>, target: int): (r: int)
    ensures -1 <= r < |s|
    ensures r == -1 <==> forall j :: 0 <= j < |s| ==> s[j].ledNum != target
    ensures r >= 0 ==> s[r].ledNum == target && forall j :: 0 <= j < r ==> s[j].ledNum != target
  {
    if s == [] then -1
    else if s[0].ledNum == target then 0
    else
      var r := FindIn(s[1..], target);
      if r == -1 then -1 else r + 1
  }

  /** findStrobeLED: the first index among the first `len` entries whose
      LED number is `target`, or -1 (also for a NULL array). */
  method FindStrobeLED(strobeInfo: array?<StrobeLED>, len: int, target: int) returns (ndx: int)
    requires strobeInfo != null ==> 0 <= len <= strobeInfo.Length
    ensures strobeInfo == null ==> ndx == -1
    ensures strobeInfo != null ==> ndx == FindIn(strobeInfo[..len], target)
  {
    if strobeInfo == null {
      return -1;
    }
    ndx := 0;
    while ndx < len
      invariant 0 <= ndx <= len
      invariant forall j :: 0 <= j < ndx ==> strobeInfo[j].ledNum != target
    {
      if strobeInfo[ndx].ledNum == target {
        FindInFirst(strobeInfo[..len], target, ndx);
        return ndx;
      }
      ndx := ndx + 1;
    }
    FindInFirst(strobeInfo[..len], target, -1);
    return -1;
  }

  /** FindIn is determined by where the first match is. */
  lemma FindInFirst(s: seq<StrobeLED>, target: int, k: int)
    requires -1 <= k < |s|
    requires k >= 0 ==> s[k].ledNum == target
    requires forall j :: 0 <= j < (if k == -1 then |s| else k) ==> s[j].ledNum != target
    ensures FindIn(s, target) == k
  {
  }
}
