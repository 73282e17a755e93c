/**
 * tomtomRequest.py, the first server script: it checks the LED locations
 * of one direction, then asks TomTom's flow-segment service for the
 * current speed of each LED, lets an LED whose "Free Flow Speed" is -r
 * borrow LED r's location and speed, and dumps the speeds as one JSON list
 * indexed by LED number.
 *
 * The service is a function `fetch(entry, k)`: the reply to the k-th
 * request of the run (counting from 0), made for the location of `entry`;
 * None stands for a status other than 200.
 */
module TomtomRequest {
  import opened Wrappers
  import opened Records

  // ---------------------------------------------------------------------
  // ledDict
  // ---------------------------------------------------------------------

  /** The rows among the first `i` of the file that are in the run's
      direction, in file order. */
  function RowsBefore(entries: seq<Entry>, direction: Direction, i: nat): (r: seq<Entry>)
    requires i <= |entries|
    ensures |r| <= i
  {
    if i == 0 then []
    else
      var e := entries[i - 1];
      RowsBefore(entries, direction, i - 1) + (if InDirection(e, direction) then [e] else [])
  }

  /** The rows main looks at. */
  function Rows(entries: seq<Entry>, direction: Direction): seq<Entry> {
    RowsBefore(entries, direction, |entries|)
  }

  /** The rows main looks at are the rows of the run's direction. */
  lemma {:induction false} RowsAreActive(entries: seq<Entry>, direction: Direction, i: nat)
    requires i <= |entries|
    ensures RowsBefore(entries, direction, i) == Active(entries[..i], direction)
  {
    if i > 0 {
      RowsAreActive(entries, direction, i - 1);
      assert entries[..i][..i - 1] == entries[..i - 1];
    }
  }

  /** ledDict: each LED number with the first row that carries it. */
  function LedDict(rows: seq<Entry>): (m: map<nat, Entry>)
    ensures forall n :: n in m ==> m[n] in rows && m[n].ledNum == n
  {
    if |rows| == 0 then map[]
    else
      var m := LedDict(rows[..|rows| - 1]);
      var e := rows[|rows| - 1];
      if e.ledNum in m then m else m[e.ledNum := e]
  }

  /** The keys of ledDict in insertion order, the order of ledDict.items(). */
  function LedOrder(rows: seq<Entry>): seq<nat> {
    if |rows| == 0 then []
    else
      var e := rows[|rows| - 1];
      LedOrder(rows[..|rows| - 1]) + (if e.ledNum in LedDict(rows[..|rows| - 1]) then [] else [e.ledNum])
  }

  /** The key order lists every key of ledDict exactly once. */
  lemma {:induction false} LedOrderKeys(rows: seq<Entry>)
    ensures Distinct(LedOrder(rows))
    ensures forall n :: n in LedOrder(rows) <==> n in LedDict(rows)
  {
    if |rows| > 0 {
      LedOrderKeys(rows[..|rows| - 1]);
    }
  }

  /** Some LED number occurs on two rows. */
  predicate HasDuplicateLed(rows: seq<Entry>) {
    exists i, j :: 0 <= i < j < |rows| && rows[i].ledNum == rows[j].ledNum
  }

  /** A number is a key of ledDict exactly when some row carries it. */
  lemma {:induction false} LedDictKeys(rows: seq<Entry>, n: nat)
    ensures n in LedDict(rows) <==> exists i :: 0 <= i < |rows| && rows[i].ledNum == n
  {
    if |rows| > 0 {
      var init := rows[..|rows| - 1];
      LedDictKeys(init, n);
      if exists i :: 0 <= i < |init| && init[i].ledNum == n {
        var i :| 0 <= i < |init| && init[i].ledNum == n;
        assert rows[i].ledNum == n;
      }
      if exists i :: 0 <= i < |rows| && rows[i].ledNum == n {
        var i :| 0 <= i < |rows| && rows[i].ledNum == n;
        if i < |init| {
          assert init[i].ledNum == n;
        }
      }
    }
  }

  lemma DuplicateSnoc(rows: seq<Entry>, e: Entry)
    ensures HasDuplicateLed(rows + [e]) <==> HasDuplicateLed(rows) || e.ledNum in LedDict(rows)
  {
    var s := rows + [e];
    if e.ledNum in LedDict(rows) {
      LedDictKeys(rows, e.ledNum);
      var i :| 0 <= i < |rows| && rows[i].ledNum == e.ledNum;
      assert s[i].ledNum == s[|rows|].ledNum;
    }
    if HasDuplicateLed(rows) {
      var i, j :| 0 <= i < j < |rows| && rows[i].ledNum == rows[j].ledNum;
      assert s[i].ledNum == s[j].ledNum;
    }
    if HasDuplicateLed(s) && !HasDuplicateLed(rows) {
      var i, j :| 0 <= i < j < |s| && s[i].ledNum == s[j].ledNum;
      assert j == |rows|;
      LedDictKeys(rows, e.ledNum);
    }
  }

  /** maxLEDNum: the largest LED number, 0 for no rows. */
  function MaxLed(rows: seq<Entry>): (max: nat)
    ensures forall e :: e in rows ==> e.ledNum <= max
  {
    if |rows| == 0 then 0
    else
      var m := MaxLed(rows[..|rows| - 1]);
      var n := rows[|rows| - 1].ledNum;
      if n > m then n else m
  }

  /** What one more row does to ledDict, its key order, the duplicate flag
      and maxLEDNum. */
  lemma SnocFacts(rows: seq<Entry>, e: Entry)
    ensures LedDict(rows + [e]) == if e.ledNum in LedDict(rows) then LedDict(rows) else LedDict(rows)[e.ledNum := e]
    ensures LedOrder(rows + [e]) == LedOrder(rows) + (if e.ledNum in LedDict(rows) then [] else [e.ledNum])
    ensures HasDuplicateLed(rows + [e]) == (HasDuplicateLed(rows) || e.ledNum in LedDict(rows))
    ensures MaxLed(rows + [e]) == if e.ledNum > MaxLed(rows) then e.ledNum else MaxLed(rows)
  {
    assert (rows + [e])[..|rows|] == rows;
    DuplicateSnoc(rows, e);
  }

  /** The state of main's first loop after `rows`. */
  predicate Collected(rows: seq<Entry>, m: map<nat, Entry>, order: seq<nat>, bad: bool, max: nat) {
    m == LedDict(rows) && order == LedOrder(rows) && bad == HasDuplicateLed(rows) && max == MaxLed(rows)
  }

  /** main's first loop: ledDict, its key order, badLocations as far as
      duplicates go, and maxLEDNum. */
  method CollectLeds(entries: seq<Entry>, direction: Direction)
    returns (m: map<nat, Entry>, order: seq<nat>, bad: bool, max: nat)
    ensures Collected(Rows(entries, direction), m, order, bad, max)
  {
    m, order, bad, max := map[], [], false, 0;
    for i := 0 to |entries|
      invariant Collected(RowsBefore(entries, direction, i), m, order, bad, max)
    {
      m, order, bad, max := CollectStep(entries, direction, i, m, order, bad, max);
    }
  }

  /** One pass of the first loop: rows of the other direction are skipped. */
  method CollectStep(entries: seq<Entry>, direction: Direction, i: nat, m: map<nat, Entry>, order: seq<nat>, bad: bool, max: nat)
    returns (m': map<nat, Entry>, order': seq<nat>, bad': bool, max': nat)
    requires i < |entries|
    requires Collected(RowsBefore(entries, direction, i), m, order, bad, max)
    ensures Collected(RowsBefore(entries, direction, i + 1), m', order', bad', max')
  {
    ghost var rows := RowsBefore(entries, direction, i);
    var entry := entries[i];
    if !InDirection(entry, direction) {
      assert RowsBefore(entries, direction, i + 1) == rows + [] == rows;
      return m, order, bad, max;
    }
    assert RowsBefore(entries, direction, i + 1) == rows + [entry];
    SnocFacts(rows, entry);
    if entry.ledNum in m {
      m', order', bad' := m, order, true;
    } else {
      m', order', bad' := m[entry.ledNum := entry], order + [entry.ledNum], bad;
    }
    max' := if entry.ledNum > max then entry.ledNum else max;
  }

  // ---------------------------------------------------------------------
  // The speed loop
  // ---------------------------------------------------------------------

  /** The LED a row borrows from: r for a "Free Flow Speed" of -r. */
  function Reference(e: Entry): (r: Option<nat>)
    ensures r.Some? <==> e.freeFlowSpeed < 0
    ensures r.Some? ==> r.value >= 1 && r.value as int == -e.freeFlowSpeed
  {
    if e.freeFlowSpeed < 0 then Some(-e.freeFlowSpeed) else None
  }

  /** Every LED 1..max has a row: what the missing-number check leaves. */
  predicate Complete(m: map<nat, Entry>, max: nat) {
    forall n :: 1 <= n <= max ==> n in m
  }

  /** A reference past maxLEDNum, or to a row that itself refers on: main
      logs it and will return False. */
  predicate BadReference(e: Entry, m: map<nat, Entry>, max: nat)
    requires Complete(m, max)
  {
    match Reference(e)
    case None => false
    case Some(r) => r > max || m[r].freeFlowSpeed < 0
  }

  /** currentSpeeds, the number of requests made so far, invalidReference. */
  datatype Pass = Pass(speeds: seq<int>, calls: nat, invalid: bool)

  /** [-1] * (maxLEDNum + 1) */
  function Unknown(max: nat): (s: seq<int>)
    ensures |s| == max + 1 && forall j :: 0 <= j <= max ==> s[j] == -1
  {
    seq(max + 1, _ => -1)
  }

  /** The request for LED n, at target's location; on success n's slot and,
      for a reference whose target slot is still -1, the target's slot get
      the speed. */
  function Fetch(p: Pass, n: nat, reference: Option<nat>, target: Entry, fetch: (Entry, nat) -> Option<int>): Pass
    requires n < |p.speeds|
    requires reference.Some? ==> reference.value < |p.speeds|
  {
    match fetch(target, p.calls)
    case None => p.(calls := p.calls + 1)
    case Some(v) =>
      var s := p.speeds[n := v];
      Pass(if reference.Some? && s[reference.value] == -1 then s[reference.value := v] else s, p.calls + 1, p.invalid)
  }

  /** One pass of the loop over ledDict.items(), for LED n. */
  function Step(p: Pass, n: nat, m: map<nat, Entry>, max: nat, fetch: (Entry, nat) -> Option<int>): (q: Pass)
    requires n in m && n <= max && |p.speeds| == max + 1 && Complete(m, max)
    ensures |q.speeds| == max + 1
  {
    var e := m[n];
    match Reference(e)
    case None => Fetch(p, n, None, e, fetch)
    case Some(r) =>
      if r > max then p.(invalid := true)
      else
        var current := if p.speeds[r] != -1 then p.speeds[r] else -1;
        var target := m[r];
        if target.freeFlowSpeed < 0 then p.(invalid := true)
        else if current == -1 then Fetch(p, n, Some(r), target, fetch)
        else p.(speeds := p.speeds[n := current])
  }

  /** The conditions under which the speed loop runs. */
  predicate Ready(order: seq<nat>, m: map<nat, Entry>, max: nat) {
    (forall i :: 0 <= i < |order| ==> order[i] in m) && (forall n :: n in m ==> n <= max) && Complete(m, max)
  }

  /** The loop's state after the first k LEDs of `order`. */
  function After(order: seq<nat>, m: map<nat, Entry>, max: nat, fetch: (Entry, nat) -> Option<int>, k: nat): (p: Pass)
    requires k <= |order| && Ready(order, m, max)
    ensures |p.speeds| == max + 1
  {
    if k == 0 then Pass(Unknown(max), 0, false)
    else Step(After(order, m, max, fetch, k - 1), order[k - 1], m, max, fetch)
  }

  /** main's second loop, over ledDict in insertion order. */
  method RequestAll(order: seq<nat>, m: map<nat, Entry>, max: nat, fetch: (Entry, nat) -> Option<int>)
    returns (speeds: seq<int>, invalid: bool)
    requires Ready(order, m, max)
    ensures var p := After(order, m, max, fetch, |order|); speeds == p.speeds && invalid == p.invalid
  {
    speeds := Unknown(max);
    var calls := 0;
    invalid := false;
    for k := 0 to |order|
      invariant Pass(speeds, calls, invalid) == After(order, m, max, fetch, k)
    {
      speeds, calls, invalid := RequestOne(speeds, calls, invalid, order[k], m, max, fetch);
    }
  }

  /** One LED of the second loop. */
  method RequestOne(speeds: seq<int>, calls: nat, invalid: bool, ledNum: nat, m: map<nat, Entry>, max: nat,
                    fetch: (Entry, nat) -> Option<int>)
    returns (speeds': seq<int>, calls': nat, invalid': bool)
    requires ledNum in m && ledNum <= max && |speeds| == max + 1 && Complete(m, max)
    ensures Pass(speeds', calls', invalid') == Step(Pass(speeds, calls, invalid), ledNum, m, max, fetch)
  {
    speeds', calls', invalid' := speeds, calls, invalid;
    var entry := m[ledNum];
    var currentSpeed := -1;
    var isReference := false;
    var reference := -1;
    if entry.freeFlowSpeed < 0 {
      isReference := true;
      reference := -entry.freeFlowSpeed;
      if reference > max {
        invalid' := true;
        return;
      }
      entry := m[reference];
      if speeds[reference] != -1 {
        currentSpeed := speeds[reference];
      }
    }
    if entry.freeFlowSpeed < 0 {
      invalid' := true;
      return;
    }
    if currentSpeed == -1 {
      var reply := fetch(entry, calls);
      calls' := calls + 1;
      if reply.None? {
        return;
      }
      currentSpeed := reply.value;
      speeds' := speeds'[ledNum := currentSpeed];
      if isReference && speeds'[reference] == -1 {
        speeds' := speeds'[reference := currentSpeed];
      }
    } else {
      speeds' := speeds'[ledNum := currentSpeed];
    }
  }

  /** A row logged as a bad reference sets invalidReference, and every
      other row leaves it as it was. */
  lemma StepInvalid(p: Pass, n: nat, m: map<nat, Entry>, max: nat, fetch: (Entry, nat) -> Option<int>)
    requires n in m && n <= max && |p.speeds| == max + 1 && Complete(m, max)
    ensures Step(p, n, m, max, fetch).invalid == (p.invalid || BadReference(m[n], m, max))
  {
  }

  /** invalidReference ends up set exactly when some LED of the loop has a
      bad reference, whatever the service answers. */
  lemma {:induction false} InvalidIffBadReference(order: seq<nat>, m: map<nat, Entry>, max: nat,
                                                 fetch: (Entry, nat) -> Option<int>, k: nat)
    requires k <= |order| && Ready(order, m, max)
    ensures After(order, m, max, fetch, k).invalid <==> exists i :: 0 <= i < k && BadReference(m[order[i]], m, max)
  {
    if k > 0 {
      InvalidIffBadReference(order, m, max, fetch, k - 1);
      StepInvalid(After(order, m, max, fetch, k - 1), order[k - 1], m, max, fetch);
      if exists i :: 0 <= i < k && BadReference(m[order[i]], m, max) {
        var i :| 0 <= i < k && BadReference(m[order[i]], m, max);
        if i < k - 1 {
          assert exists i' :: 0 <= i' < k - 1 && BadReference(m[order[i']], m, max);
        }
      }
    }
  }

  /** A reference whose target already has a speed takes it over without a
      request. */
  lemma ReuseMakesNoRequest(p: Pass, n: nat, m: map<nat, Entry>, max: nat, fetch: (Entry, nat) -> Option<int>)
    requires n in m && n <= max && |p.speeds| == max + 1 && Complete(m, max)
    requires Reference(m[n]).Some? && !BadReference(m[n], m, max)
    requires p.speeds[Reference(m[n]).value] != -1
    ensures var q := Step(p, n, m, max, fetch);
      q.calls == p.calls && q.speeds == p.speeds[n := p.speeds[Reference(m[n]).value]] && q.invalid == p.invalid
  {
  }

  /** A reference whose target has no speed yet makes a request at the
      target's location; a speed it gets goes to both slots. */
  lemma FetchFillsTarget(p: Pass, n: nat, m: map<nat, Entry>, max: nat, fetch: (Entry, nat) -> Option<int>)
    requires n in m && n <= max && |p.speeds| == max + 1 && Complete(m, max)
    requires Reference(m[n]).Some? && !BadReference(m[n], m, max)
    requires p.speeds[Reference(m[n]).value] == -1
    ensures var r := Reference(m[n]).value;
      var q := Step(p, n, m, max, fetch);
      && q.calls == p.calls + 1
      && q.speeds == match fetch(m[r], p.calls)
                     case None => p.speeds
                     case Some(v) => p.speeds[n := v][r := v]
  {
  }

  /** One LED's pass writes no slot but its own and its target's, and a
      failed request writes none. */
  lemma StepWrites(p: Pass, n: nat, m: map<nat, Entry>, max: nat, fetch: (Entry, nat) -> Option<int>, j: nat)
    requires n in m && n <= max && |p.speeds| == max + 1 && Complete(m, max) && j <= max
    requires j != n && Reference(m[n]) != Some(j)
    ensures Step(p, n, m, max, fetch).speeds[j] == p.speeds[j]
  {
  }

  /** Slot 0 stays -1 unless some row carries LED number 0: no reference
      can point at it. */
  lemma {:induction false} ZeroStaysUnknown(order: seq<nat>, m: map<nat, Entry>, max: nat,
                                           fetch: (Entry, nat) -> Option<int>, k: nat)
    requires k <= |order| && Ready(order, m, max) && 0 !in m
    ensures After(order, m, max, fetch, k).speeds[0] == -1
  {
    if k > 0 {
      ZeroStaysUnknown(order, m, max, fetch, k - 1);
      StepWrites(After(order, m, max, fetch, k - 1), order[k - 1], m, max, fetch, 0);
    }
  }

  // ---------------------------------------------------------------------
  // The speeds under a service that always gives the same answer
  // ---------------------------------------------------------------------

  /** The service answers each location the same way every time. */
  ghost predicate Consistent(fetch: (Entry, nat) -> Option<int>) {
    forall e, c :: fetch(e, c) == fetch(e, 0)
  }

  /** The row whose location LED j's speed is asked for: its target's for a
      reference, its own otherwise. */
  function Location(j: nat, m: map<nat, Entry>): Entry
    requires j in m
  {
    match Reference(m[j])
    case Some(r) => if r in m then m[r] else m[j]
    case None => m[j]
  }

  /** LED j's speed as the service gives it for its location; -1 when the
      request fails. */
  function Expected(j: nat, m: map<nat, Entry>, fetch: (Entry, nat) -> Option<int>): int
    requires j in m
  {
    match fetch(Location(j, m), 0)
    case None => -1
    case Some(v) => v
  }

  /** The LEDs whose slots the first k passes may have written: each LED
      processed and each LED referred to. */
  ghost function Touched(order: seq<nat>, m: map<nat, Entry>, k: nat): set<nat>
    requires k <= |order| && forall i :: 0 <= i < |order| ==> order[i] in m
  {
    if k == 0 then {}
    else
      var n := order[k - 1];
      Touched(order, m, k - 1) + {n} + (match Reference(m[n]) case Some(r) => {r} case None => {})
  }

  /** The loop's invariant: a touched slot holds the expected speed, any
      other slot -1. */
  ghost predicate Settled(speeds: seq<int>, touched: set<nat>, m: map<nat, Entry>, max: nat, fetch: (Entry, nat) -> Option<int>)
    requires |speeds| == max + 1
  {
    (forall j :: j in touched ==> j in m)
    && forall j :: 0 <= j <= max ==> speeds[j] == if j in touched && j in m then Expected(j, m, fetch) else -1
  }

  lemma StepSettles(p: Pass, n: nat, m: map<nat, Entry>, max: nat, fetch: (Entry, nat) -> Option<int>, touched: set<nat>)
    requires n in m && n <= max && |p.speeds| == max + 1 && Complete(m, max)
    requires Consistent(fetch) && !BadReference(m[n], m, max)
    requires Settled(p.speeds, touched, m, max, fetch)
    ensures Settled(Step(p, n, m, max, fetch).speeds,
                    touched + {n} + (match Reference(m[n]) case Some(r) => {r} case None => {}), m, max, fetch)
  {
    var q := Step(p, n, m, max, fetch);
    var t := touched + {n} + (match Reference(m[n]) case Some(r) => {r} case None => {});
    assert fetch(Location(n, m), p.calls) == fetch(Location(n, m), 0);
    match Reference(m[n])
    case None =>
    case Some(r) =>
      assert Reference(m[r]).None?;
      assert Expected(r, m, fetch) == Expected(n, m, fetch);
  }

  lemma {:induction false} ConsistentPass(order: seq<nat>, m: map<nat, Entry>, max: nat,
                                         fetch: (Entry, nat) -> Option<int>, k: nat)
    requires k <= |order| && Ready(order, m, max) && Consistent(fetch)
    requires forall i :: 0 <= i < |order| ==> !BadReference(m[order[i]], m, max)
    ensures Settled(After(order, m, max, fetch, k).speeds, Touched(order, m, k), m, max, fetch)
  {
    if k > 0 {
      ConsistentPass(order, m, max, fetch, k - 1);
      StepSettles(After(order, m, max, fetch, k - 1), order[k - 1], m, max, fetch, Touched(order, m, k - 1));
    }
  }

  lemma {:induction false} OrderTouched(order: seq<nat>, m: map<nat, Entry>, k: nat, i: nat)
    requires k <= |order| && forall i :: 0 <= i < |order| ==> order[i] in m
    requires i < k
    ensures order[i] in Touched(order, m, k)
  {
    if i < k - 1 {
      OrderTouched(order, m, k - 1, i);
    }
  }

  // ---------------------------------------------------------------------
  // main
  // ---------------------------------------------------------------------

  /** main's result: None for an unknown direction, False for bad locations
      or bad references, True with the list it dumps otherwise. */
  datatype Outcome = NoDirection | Refused | Dumped(speeds: seq<int>)

  function RequestOutcome(direction: Direction, entries: seq<Entry>, fetch: (Entry, nat) -> Option<int>): Outcome {
    if direction == UnknownDirection then NoDirection
    else
      var rows := Rows(entries, direction);
      if HasDuplicateLed(rows) || HasMissingLed(LedDict(rows), MaxLed(rows)) then Refused
      else RowsOutcome(rows, fetch)
  }

  /** The verdict once the location checks pass. */
  function RowsOutcome(rows: seq<Entry>, fetch: (Entry, nat) -> Option<int>): Outcome
    requires !HasMissingLed(LedDict(rows), MaxLed(rows))
  {
    LedOrderKeys(rows);
    var p := After(LedOrder(rows), LedDict(rows), MaxLed(rows), fetch, |LedOrder(rows)|);
    if p.invalid then Refused else Dumped(p.speeds)
  }

  /** main(direction, key, csvDict, outFile) */
  method RunMain(direction: Direction, entries: seq<Entry>, fetch: (Entry, nat) -> Option<int>) returns (outcome: Outcome)
    ensures outcome == RequestOutcome(direction, entries, fetch)
  {
    if direction == UnknownDirection {
      return NoDirection;
    }
    var m, order, bad, max := CollectLeds(entries, direction);
    outcome := CheckAndRequest(Rows(entries, direction), m, order, bad, max, fetch);
  }

  /** main after its first loop: the missing-number check, the speed loop
      and the final verdict. */
  method CheckAndRequest(ghost rows: seq<Entry>, m: map<nat, Entry>, order: seq<nat>, bad: bool, max: nat,
                         fetch: (Entry, nat) -> Option<int>)
    returns (outcome: Outcome)
    requires Collected(rows, m, order, bad, max)
    ensures outcome == if HasDuplicateLed(rows) || HasMissingLed(LedDict(rows), MaxLed(rows)) then Refused
                       else RowsOutcome(rows, fetch)
  {
    var missing := FindMissing(m, max);
    if bad || missing {
      return Refused;
    }
    LedOrderKeys(rows);
    var speeds, invalid := RequestAll(order, m, max, fetch);
    if invalid {
      return Refused;
    }
    return Dumped(speeds);
  }

  /** A duplicate or a missing LED number refuses the run, whatever the
      service would answer. */
  lemma LocationChecksComeFirst(direction: Direction, entries: seq<Entry>, fetch: (Entry, nat) -> Option<int>)
    requires direction != UnknownDirection
    requires var rows := Rows(entries, direction); HasDuplicateLed(rows) || HasMissingLed(LedDict(rows), MaxLed(rows))
    ensures RequestOutcome(direction, entries, fetch) == Refused
  {
  }

  /**
   * A run that dumps its list returns max+1 speeds; under a service that
   * answers each location the same way every time, slot j holds the speed
   * of LED j's location (its target's for a reference), -1 where that
   * request fails, and -1 in a slot no row carries.
   */
  lemma DumpedSpeeds(direction: Direction, entries: seq<Entry>, fetch: (Entry, nat) -> Option<int>)
    requires RequestOutcome(direction, entries, fetch).Dumped?
    ensures var rows := Rows(entries, direction);
      var s := RequestOutcome(direction, entries, fetch).speeds;
      && |s| == MaxLed(rows) + 1
      && (0 !in LedDict(rows) ==> s[0] == -1)
      && (Consistent(fetch) ==> forall j :: 0 <= j < |s| ==> s[j] == if j in LedDict(rows) then Expected(j, LedDict(rows), fetch) else -1)
  {
    DumpedRowSpeeds(Rows(entries, direction), fetch);
  }

  lemma DumpedRowSpeeds(rows: seq<Entry>, fetch: (Entry, nat) -> Option<int>)
    requires !HasMissingLed(LedDict(rows), MaxLed(rows))
    requires RowsOutcome(rows, fetch).Dumped?
    ensures var s := RowsOutcome(rows, fetch).speeds;
      && |s| == MaxLed(rows) + 1
      && (0 !in LedDict(rows) ==> s[0] == -1)
      && (Consistent(fetch) ==> forall j :: 0 <= j < |s| ==> s[j] == if j in LedDict(rows) then Expected(j, LedDict(rows), fetch) else -1)
  {
    LedOrderKeys(rows);
    DumpedPass(LedOrder(rows), LedDict(rows), MaxLed(rows), fetch);
  }

  lemma DumpedPass(order: seq<nat>, m: map<nat, Entry>, max: nat, fetch: (Entry, nat) -> Option<int>)
    requires Ready(order, m, max) && forall n :: n in m ==> n in order
    requires !After(order, m, max, fetch, |order|).invalid
    ensures var s := After(order, m, max, fetch, |order|).speeds;
      && (0 !in m ==> s[0] == -1)
      && (Consistent(fetch) ==> forall j :: 0 <= j < |s| ==> s[j] == if j in m then Expected(j, m, fetch) else -1)
  {
    InvalidIffBadReference(order, m, max, fetch, |order|);
    if 0 !in m {
      ZeroStaysUnknown(order, m, max, fetch, |order|);
    }
    if Consistent(fetch) {
      ConsistentPass(order, m, max, fetch, |order|);
      forall j | j in m
        ensures j in Touched(order, m, |order|)
      {
        var i :| 0 <= i < |order| && order[i] == j;
        OrderTouched(order, m, |order|, i);
      }
    }
  }
}
