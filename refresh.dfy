/**
 * The board refresh of the firmware (components/refresh): choosing the data
 * URL, fetching speeds with the non-volatile-storage fallback, lighting the
 * LEDs one by one in animation order, and clearing the board while leaving
 * the indicator LEDs alone.
 *
 * The matrix driver, the strobe task, the traffic-data mutexes, NVS and the
 * HTTP client are outside this model: their results are parameters, and what
 * the refresh asks of the LEDs is returned as a list of updates.
 */
module Refresh {
  import opened Wrappers
  import opened EspErrors
  import AppErrors

  /** The two codes refresh.h adds to esp_err_t. */
  const REFRESH_ABORT: EspErr := Other(0x3578)
  const REFRESH_ABORT_NO_CLEAR: EspErr := Other(0x3592)

  /** The C enums; the `Other…` cases stand for any value outside the enum. */
  datatype Direction = North | South | OtherDirection(code: int)
  datatype SpeedCategory = Live | Typical | OtherCategory(code: int)

  /** One entry of the speed arrays: LED number and speed, negative speeds
      being special markers. */
  datatype LedData = LedData(ledNum: int, speed: int)

  // ---------------------------------------------------------------------
  // Data URLs
  // ---------------------------------------------------------------------

  /** The path between the server prefix and the version string. */
  function UrlPath(dir: Direction, category: SpeedCategory): (path: string)
    requires (dir.North? || dir.South?) && (category.Live? || category.Typical?)
    ensures |path| > 0
  {
    match (dir, category)
    case (North, Live) => "/current_data/data_north_"
    case (South, Live) => "/current_data/data_south_"
    case (North, Typical) => "/current_data/typical_north_"
    case (South, Typical) => "/current_data/typical_south_"
  }

  /** getCorrectURL: the CSV file of one direction and category on the data
      server `server`, for server version `version`; no URL for a value
      outside either enum. */
  function GetCorrectUrl(server: string, version: string, dir: Direction, category: SpeedCategory): (url: Option<string>)
    ensures url.Some? <==> (dir.North? || dir.South?) && (category.Live? || category.Typical?)
    ensures url.Some? ==> url.value == server + UrlPath(dir, category) + version + ".csv"
  {
    match dir
    case North =>
      (match category
       case Live => Some(server + "/current_data/data_north_" + version + ".csv")
       case Typical => Some(server + "/current_data/typical_north_" + version + ".csv")
       case OtherCategory(_) => None)
    case South =>
      (match category
       case Live => Some(server + "/current_data/data_south_" + version + ".csv")
       case Typical => Some(server + "/current_data/typical_south_" + version + ".csv")
       case OtherCategory(_) => None)
    case OtherDirection(_) => None
  }

  /** Equal URLs built around the same prefix and suffix have equal paths. */
  lemma PathOfUrl(server: string, p1: string, p2: string, version: string)
    requires server + p1 + version + ".csv" == server + p2 + version + ".csv"
    ensures p1 == p2
  {
    var u1 := server + p1 + version + ".csv";
    var u2 := server + p2 + version + ".csv";
    assert |p1| == |p2| by {
      assert |u1| == |server| + |p1| + |version| + 4;
      assert |u2| == |server| + |p2| + |version| + 4;
    }
    assert p1 == u1[|server|..|server| + |p1|];
    assert p2 == u2[|server|..|server| + |p2|];
  }

  /** The four URLs are distinct: a URL names its direction and category. */
  lemma UrlsAreDistinct(server: string, version: string,
                        d1: Direction, c1: SpeedCategory, d2: Direction, c2: SpeedCategory)
    requires GetCorrectUrl(server, version, d1, c1).Some?
    requires GetCorrectUrl(server, version, d1, c1) == GetCorrectUrl(server, version, d2, c2)
    ensures d1 == d2 && c1 == c2
  {
    PathOfUrl(server, UrlPath(d1, c1), UrlPath(d2, c2), version);
  }

  // ---------------------------------------------------------------------
  // Fetching data
  // ---------------------------------------------------------------------

  /** Where refreshData took the speeds from. */
  datatype DataSource = FromNvs | FromServer | NoSource

  /**
   * refreshData: without an HTTP client only NVS is read; a direction or
   * category without a URL fails; a server failure raises the
   * no-connection error and falls back to NVS; a success resolves it.
   * `serverErr` is the result of getServerSpeeds and `nvsErr` that of
   * refreshSpeedsFromNVS.
   */
  method RefreshData(errRes: AppErrors.ErrorResources, hasClient: bool, server: string, version: string,
                     dir: Direction, category: SpeedCategory, serverErr: EspErr, nvsErr: EspErr)
    returns (err: EspErr, source: DataSource)
    modifies errRes
    ensures !hasClient ==> err == nvsErr && source == FromNvs && unchanged(errRes)
    ensures hasClient && GetCorrectUrl(server, version, dir, category).None? ==>
      err == Fail && source == NoSource && unchanged(errRes)
    ensures hasClient && GetCorrectUrl(server, version, dir, category).Some? && serverErr != Ok ==>
      err == nvsErr && source == FromNvs &&
      AppErrors.Status(errRes.err, errRes.flashing) == AppErrors.ThrowNoConn(old(AppErrors.Status(errRes.err, errRes.flashing)))
    ensures hasClient && GetCorrectUrl(server, version, dir, category).Some? && serverErr == Ok ==>
      err == Ok && source == FromServer &&
      AppErrors.Status(errRes.err, errRes.flashing) == AppErrors.ResolveNoConn(old(AppErrors.Status(errRes.err, errRes.flashing)), true)
  {
    if !hasClient {
      return nvsErr, FromNvs;
    }
    var url := GetCorrectUrl(server, version, dir, category);
    if url.None? {
      return Fail, NoSource;
    }
    if serverErr != Ok {
      errRes.ThrowNoConnError();
      return nvsErr, FromNvs;
    }
    errRes.ResolveNoConnError(true);
    return Ok, FromServer;
  }

  /** After a fetch from a non-fatal state, the no-connection flag records
      whether the server answered, and the handleable flag is kept. */
  lemma FetchSetsConnectionFlag(s: AppErrors.Status, serverOk: bool)
    requires s.err != AppErrors.FatalErr
    ensures var t := if serverOk then AppErrors.ResolveNoConn(s, true) else AppErrors.ThrowNoConn(s);
      AppErrors.HasNoConn(t.err) == !serverOk && AppErrors.HasHandleable(t.err) == AppErrors.HasHandleable(s.err)
  {
    AppErrors.ThrowNoConnSetsFlag(s);
    AppErrors.ResolveNoConnClearsFlag(s, true);
  }

  // ---------------------------------------------------------------------
  // Colours
  // ---------------------------------------------------------------------

  datatype Colour = SlowColour | MediumColour | FastColour

  /** The order of the colours from slow to fast. */
  function Rank(c: Colour): nat {
    match c
    case SlowColour => 0
    case MediumColour => 1
    case FastColour => 2
  }

  /** setColor: slow below the slow cutoff, medium below the medium cutoff,
      fast otherwise (the cutoffs are build-time settings). */
  function SetColor(percentFlow: int, slowCutoff: int, mediumCutoff: int): (c: Colour)
    ensures c == SlowColour <==> percentFlow < slowCutoff
    ensures c == MediumColour <==> slowCutoff <= percentFlow < mediumCutoff
    ensures c == FastColour <==> slowCutoff <= percentFlow && mediumCutoff <= percentFlow
  {
    if percentFlow < slowCutoff then SlowColour
    else if percentFlow < mediumCutoff then MediumColour
    else FastColour
  }

  /** A higher percentage never shows a slower colour. */
  lemma ColourIsMonotone(p: int, q: int, slowCutoff: int, mediumCutoff: int)
    requires p <= q
    ensures Rank(SetColor(p, slowCutoff, mediumCutoff)) <= Rank(SetColor(q, slowCutoff, mediumCutoff))
  {
  }

  /** Multiplying by a positive factor keeps strict order. */
  lemma MulCancelsLess(d: int, x: int, y: int)
    requires 0 < d && d * x < d * y
    ensures x < y
  {
  }

  /** Integer division by a positive divisor is monotone. */
  lemma DivIsMonotone(a: int, b: int, d: int)
    requires 0 <= a <= b && 0 < d
    ensures a / d <= b / d
  {
    assert d * (a / d) <= a;
    assert b < d * (b / d) + d;
    assert d * (b / d) + d == d * (b / d + 1);
    MulCancelsLess(d, a / d, b / d + 1);
  }

  /** The percentage refreshBoard computes, `100 * current / typical` in
      uint32, handed to updateLED's uint8_t parameter: it wraps modulo 256. */
  function PercentAsWritten(current: int, typical: int): (p: int)
    requires 0 <= current && 0 < typical
    ensures 0 <= p < 256
    ensures 100 * current / typical < 256 ==> p == 100 * current / typical
  {
    (100 * current / typical) % 256
  }

  /** A road faster than 2.56 times its typical speed wraps round to a
      small percentage: 63 against 25 shows fast, 64 against 25 slow. */
  lemma AsWrittenColourNotMonotone(slowCutoff: int, mediumCutoff: int)
    requires 0 < slowCutoff <= mediumCutoff <= 252
    ensures SetColor(PercentAsWritten(63, 25), slowCutoff, mediumCutoff) == FastColour
    ensures SetColor(PercentAsWritten(64, 25), slowCutoff, mediumCutoff) == SlowColour
  {
    assert PercentAsWritten(63, 25) == 252;
    assert PercentAsWritten(64, 25) == 0;
  }

  /** The percentage saturated at the largest uint8_t value, as the colour
      choice needs it. */
  function PercentFlow(current: int, typical: int): (p: int)
    requires 0 <= current && 0 < typical
    ensures 0 <= p <= 255
    ensures 100 * current / typical <= 255 ==> p == 100 * current / typical
    ensures 100 * current / typical > 255 ==> p == 255
  {
    var percent := 100 * current / typical;
    if percent > 255 then 255 else percent
  }

  /** With the saturated percentage a faster road never shows a slower
      colour. */
  lemma ColourFollowsSpeed(c1: int, c2: int, typical: int, slowCutoff: int, mediumCutoff: int)
    requires 0 <= c1 <= c2 && 0 < typical
    ensures Rank(SetColor(PercentFlow(c1, typical), slowCutoff, mediumCutoff))
         <= Rank(SetColor(PercentFlow(c2, typical), slowCutoff, mediumCutoff))
  {
    DivIsMonotone(100 * c1, 100 * c2, typical);
    ColourIsMonotone(PercentFlow(c1, typical), PercentFlow(c2, typical), slowCutoff, mediumCutoff);
  }

  // ---------------------------------------------------------------------
  // One LED of a refresh
  // ---------------------------------------------------------------------

  /** What the refresh does with one LED: nothing, strobe it (a closed road:
      the slow colour at full scale, then a strobe registration), or paint
      it by the percentage of typical speed. */
  datatype LedAction = Skip | Strobe | Paint(percent: int)

  /** An LED the refresh may touch: in range, with a positive typical speed,
      both entries carrying its number, and a non-negative current speed. */
  predicate Displayable(ledNum: int, current: seq<LedData>, typical: seq<LedData>)
    requires |current| == |typical|
  {
    && 1 <= ledNum <= |current|
    && typical[ledNum - 1].speed > 0
    && current[ledNum - 1].ledNum == ledNum
    && typical[ledNum - 1].ledNum == ledNum
    && current[ledNum - 1].speed >= 0
  }

  /**
   * The body of refreshBoard's loop for one LED number: the five skip
   * conditions, then the strobe path for a speed of 0 (only where
   * `strobeClosed`; the older copy paints it instead), else a paint at the
   * percentage as the code hands it over, which agrees with the saturated
   * one below 256 %.
   * The arrays have MAX_NUM_LEDS_REG entries, entry i for LED i + 1.
   */
  function ActionFor(ledNum: int, current: seq<LedData>, typical: seq<LedData>, strobeClosed: bool): (a: LedAction)
    requires |current| == |typical|
    ensures a != Skip <==> Displayable(ledNum, current, typical)
    ensures a == Strobe <==> a != Skip && strobeClosed && current[ledNum - 1].speed == 0
    ensures a.Paint? ==> a.percent == PercentAsWritten(current[ledNum - 1].speed, typical[ledNum - 1].speed)
    ensures a.Paint? && 100 * current[ledNum - 1].speed / typical[ledNum - 1].speed < 256 ==>
      a.percent == PercentFlow(current[ledNum - 1].speed, typical[ledNum - 1].speed)
  {
    if ledNum > |current| || ledNum <= 0 then Skip
    else if typical[ledNum - 1].speed <= 0 then Skip
    else if ledNum != current[ledNum - 1].ledNum then Skip
    else if ledNum != typical[ledNum - 1].ledNum then Skip
    else if current[ledNum - 1].speed < 0 then Skip
    else if strobeClosed && current[ledNum - 1].speed == 0 then Strobe
    else Paint(PercentAsWritten(current[ledNum - 1].speed, typical[ledNum - 1].speed))
  }

  // ---------------------------------------------------------------------
  // A whole refresh
  // ---------------------------------------------------------------------

  /** The refresh's view of the world: the animation order, whether a task
      notification is pending after each position, the two speed arrays,
      and whether closed roads strobe. */
  datatype Pass = Pass(order: seq<int>, abortAfter: seq<bool>, current: seq<LedData>, typical: seq<LedData>,
                       strobeClosed: bool)
  {
    predicate Valid() {
      |abortAfter| == |order| == |current| == |typical|
    }
  }

  /** An LED update the refresh asked for. */
  datatype Update = Update(ledNum: int, action: LedAction)

  /** The updates of a refresh and whether a notification cut it short. */
  datatype Run = Run(aborted: bool, updates: seq<Update>)

  /** The refresh from position `i` of the order on: skipped LEDs do not
      look for notifications; any other LED is updated and then stops the
      refresh when a notification is pending. */
  function RunFrom(p: Pass, i: nat): Run
    requires p.Valid()
    decreases |p.order| - i
  {
    if i >= |p.order| then Run(false, [])
    else
      var a := ActionFor(p.order[i], p.current, p.typical, p.strobeClosed);
      if a == Skip then RunFrom(p, i + 1)
      else if p.abortAfter[i] then Run(true, [Update(p.order[i], a)])
      else
        var rest := RunFrom(p, i + 1);
        Run(rest.aborted, [Update(p.order[i], a)] + rest.updates)
  }

  /** One step of the refresh: the unfolding of RunFrom at position `i`,
      stated for the loops that walk the order. */
  lemma RunStep(p: Pass, i: nat, done: seq<Update>)
    requires p.Valid() && i < |p.order|
    ensures var a := ActionFor(p.order[i], p.current, p.typical, p.strobeClosed);
      var here := Run(RunFrom(p, i).aborted, done + RunFrom(p, i).updates);
      if a == Skip then here == Run(RunFrom(p, i + 1).aborted, done + RunFrom(p, i + 1).updates)
      else if p.abortAfter[i] then here == Run(true, done + [Update(p.order[i], a)])
      else here == Run(RunFrom(p, i + 1).aborted, (done + [Update(p.order[i], a)]) + RunFrom(p, i + 1).updates)
  {
    var a := ActionFor(p.order[i], p.current, p.typical, p.strobeClosed);
    if a != Skip && !p.abortAfter[i] {
      assert done + ([Update(p.order[i], a)] + RunFrom(p, i + 1).updates)
          == (done + [Update(p.order[i], a)]) + RunFrom(p, i + 1).updates;
    }
  }

  /** Every LED of the order from `i` on that may be touched, in order:
      the refresh when no notification arrives. */
  function Planned(p: Pass, i: nat): seq<Update>
    requires p.Valid()
    decreases |p.order| - i
  {
    if i >= |p.order| then []
    else
      var a := ActionFor(p.order[i], p.current, p.typical, p.strobeClosed);
      if a == Skip then Planned(p, i + 1) else [Update(p.order[i], a)] + Planned(p, i + 1)
  }

  /** A notification only cuts the planned refresh short; without one the
      refresh is exactly the plan. */
  lemma {:induction false} AbortTruncatesPlan(p: Pass, i: nat)
    requires p.Valid()
    ensures RunFrom(p, i).updates <= Planned(p, i)
    ensures !RunFrom(p, i).aborted ==> RunFrom(p, i).updates == Planned(p, i)
    decreases |p.order| - i
  {
    if i < |p.order| {
      AbortTruncatesPlan(p, i + 1);
    }
  }

  /** The run stops early exactly when some touched LED found a
      notification pending. */
  lemma {:induction false} AbortedIffNotified(p: Pass, i: nat)
    requires p.Valid()
    ensures RunFrom(p, i).aborted <==>
      exists k :: i <= k < |p.order| && p.abortAfter[k] && Displayable(p.order[k], p.current, p.typical)
    decreases |p.order| - i
  {
    if i < |p.order| {
      AbortedIffNotified(p, i + 1);
      if !Displayable(p.order[i], p.current, p.typical) || !p.abortAfter[i] {
        if RunFrom(p, i).aborted {
          var k :| i + 1 <= k < |p.order| && p.abortAfter[k] && Displayable(p.order[k], p.current, p.typical);
        } else {
          assert forall k :: i < k < |p.order| ==> !(p.abortAfter[k] && Displayable(p.order[k], p.current, p.typical));
        }
      }
    }
  }

  /** No skipped LED is ever updated: every update names a displayable LED
      with the action the per-LED rule gives it. */
  lemma {:induction false} PlannedUpdatesAreDisplayable(p: Pass, i: nat)
    requires p.Valid()
    ensures forall u :: u in Planned(p, i) ==>
      Displayable(u.ledNum, p.current, p.typical) && u.action == ActionFor(u.ledNum, p.current, p.typical, p.strobeClosed)
    decreases |p.order| - i
  {
    if i < |p.order| {
      PlannedUpdatesAreDisplayable(p, i + 1);
    }
  }

  /** Every displayable LED of the order is planned. */
  lemma {:induction false} DisplayableLedsArePlanned(p: Pass, i: nat, k: nat)
    requires p.Valid() && i <= k < |p.order|
    requires Displayable(p.order[k], p.current, p.typical)
    ensures Update(p.order[k], ActionFor(p.order[k], p.current, p.typical, p.strobeClosed)) in Planned(p, i)
    decreases k - i
  {
    if i < k {
      DisplayableLedsArePlanned(p, i + 1, k);
    }
  }

  /** Everything a refresh does besides the LED loop: the notification check
      before it, orderLEDs, borrowing and releasing the two traffic-data
      sets, pausing and resuming strobe registration. */
  datatype BoardIo = BoardIo(abortBefore: bool, orderErr: EspErr,
                             borrowTypicalErr: EspErr, releaseTypicalErr: EspErr,
                             borrowLiveErr: EspErr, releaseLiveErr: EspErr,
                             pauseErr: EspErr, resumeErr: EspErr)

  /** The error that ends refreshBoard before any LED is touched. */
  function SetupError(io: BoardIo): (r: Option<EspErr>)
    ensures io.abortBefore ==> r == Some(REFRESH_ABORT_NO_CLEAR)
    ensures r.None? <==>
      !io.abortBefore && io.orderErr == Ok && io.borrowTypicalErr == Ok &&
      io.releaseTypicalErr == Ok && io.borrowLiveErr == Ok && io.releaseLiveErr == Ok && io.pauseErr == Ok
  {
    if io.abortBefore then Some(REFRESH_ABORT_NO_CLEAR)
    else if io.orderErr != Ok then Some(io.orderErr)
    else if io.borrowTypicalErr != Ok then Some(io.borrowTypicalErr)
    else if io.releaseTypicalErr != Ok then Some(io.releaseTypicalErr)
    else if io.borrowLiveErr != Ok then Some(io.borrowLiveErr)
    else if io.releaseLiveErr != Ok then Some(io.releaseLiveErr)
    else if io.pauseErr != Ok then Some(Fail)
    else None
  }

  /**
   * refreshBoard: after the set-up, each LED of the order in turn is
   * skipped or updated, and a pending notification after an update
   * resumes strobe registration and aborts. The arrays are those the
   * traffic-data copies produced.
   */
  method RefreshBoard(io: BoardIo, p: Pass) returns (err: EspErr, updates: seq<Update>)
    requires p.Valid() && p.strobeClosed
    ensures SetupError(io).Some? ==> err == SetupError(io).value && updates == []
    ensures SetupError(io).None? ==>
      updates == RunFrom(p, 0).updates &&
      err == (if io.resumeErr != Ok then Fail else if RunFrom(p, 0).aborted then REFRESH_ABORT else Ok)
  {
    var setup := SetupError(io);
    if setup.Some? {
      return setup.value, [];
    }
    updates := [];
    var ndx := 0;
    while ndx < |p.order|
      invariant 0 <= ndx <= |p.order|
      invariant RunFrom(p, 0) == Run(RunFrom(p, ndx).aborted, updates + RunFrom(p, ndx).updates)
      decreases |p.order| - ndx
    {
      RunStep(p, ndx, updates);
      var ledNum := p.order[ndx];
      var action := ActionFor(ledNum, p.current, p.typical, p.strobeClosed);
      if action != Skip {
        updates := updates + [Update(ledNum, action)];
        if p.abortAfter[ndx] {
          if io.resumeErr != Ok {
            return Fail, updates;
          }
          return REFRESH_ABORT, updates;
        }
      }
      ndx := ndx + 1;
    }
    if io.resumeErr != Ok {
      return Fail, updates;
    }
    return Ok, updates;
  }

  // ---------------------------------------------------------------------
  // Clearing the board
  // ---------------------------------------------------------------------

  /**
   * contains: is `ele` among the first `arrLen` entries of `arr`?
   */
  method Contains(arr: seq<int>, arrLen: int, ele: int) returns (found: bool)
    requires arrLen <= |arr|
    ensures found <==> exists i :: 0 <= i < arrLen && arr[i] == ele
  {
    var i := 0;
    while i < arrLen
      invariant 0 <= i <= if arrLen < 0 then 0 else arrLen
      invariant forall j :: 0 <= j < i ==> arr[j] != ele
    {
      if arr[i] == ele {
        return true;
      }
      i := i + 1;
    }
    return false;
  }

  /** How a clear ended, and the LEDs it switched off in order. */
  datatype Clear = Clear(err: EspErr, cleared: seq<int>)

  /**
   * The clearing loop from position `i` of the order on: indicator LEDs
   * (those in `noRefresh`) are passed over; any other LED is switched off,
   * where `colourOk` says whether matSetColor succeeded within its
   * retries, and a pending notification after it aborts the clear.
   */
  function ClearFrom(order: seq<int>, noRefresh: seq<int>, colourOk: int -> bool, abortAfter: seq<bool>, i: nat): Clear
    requires |abortAfter| == |order|
    decreases |order| - i
  {
    if i >= |order| then Clear(Ok, [])
    else if order[i] in noRefresh then ClearFrom(order, noRefresh, colourOk, abortAfter, i + 1)
    else if !colourOk(order[i]) then Clear(Fail, [])
    else if abortAfter[i] then Clear(REFRESH_ABORT, [order[i]])
    else
      var rest := ClearFrom(order, noRefresh, colourOk, abortAfter, i + 1);
      Clear(rest.err, [order[i]] + rest.cleared)
  }

  /** The LEDs of `order[i..]` that are not indicators, in order. */
  function NonIndicators(order: seq<int>, noRefresh: seq<int>, i: nat): seq<int>
    decreases |order| - i
  {
    if i >= |order| then []
    else if order[i] in noRefresh then NonIndicators(order, noRefresh, i + 1)
    else [order[i]] + NonIndicators(order, noRefresh, i + 1)
  }

  /** A clear only ever switches off a prefix of the non-indicator LEDs,
      and all of them when it succeeds; so it never touches an indicator
      LED. */
  lemma {:induction false} ClearSparesIndicators(order: seq<int>, noRefresh: seq<int>, colourOk: int -> bool,
                                                 abortAfter: seq<bool>, i: nat)
    requires |abortAfter| == |order|
    ensures var c := ClearFrom(order, noRefresh, colourOk, abortAfter, i);
      c.cleared <= NonIndicators(order, noRefresh, i) &&
      (c.err == Ok ==> c.cleared == NonIndicators(order, noRefresh, i)) &&
      (forall n :: n in c.cleared ==> n !in noRefresh)
    decreases |order| - i
  {
    if i < |order| {
      ClearSparesIndicators(order, noRefresh, colourOk, abortAfter, i + 1);
    }
  }

  /** Every LED of the order that is not an indicator is among the
      non-indicators. */
  lemma {:induction false} NonIndicatorsCover(order: seq<int>, noRefresh: seq<int>, i: nat, k: nat)
    requires i <= k < |order| && order[k] !in noRefresh
    ensures order[k] in NonIndicators(order, noRefresh, i)
    decreases k - i
  {
    if i < k {
      NonIndicatorsCover(order, noRefresh, i + 1, k);
    }
  }

  /**
   * clearBoard (hardware version 2): strobing registered by the task is
   * removed, then the LEDs of the reverse curved-line order for `dir`
   * are switched off around the indicators; a direction outside the enum
   * clears nothing. `quick` only drops the delay between LEDs.
   */
  method ClearBoard(dir: Direction, quick: bool, unregisterErr: EspErr, orderErr: EspErr,
                    order: seq<int>, noRefresh: seq<int>, colourOk: int -> bool, abortAfter: seq<bool>)
    returns (err: EspErr, cleared: seq<int>)
    requires |abortAfter| == |order|
    ensures unregisterErr != Ok ==> err == Fail && cleared == []
    ensures unregisterErr == Ok && dir.OtherDirection? ==> err == Ok && cleared == []
    ensures unregisterErr == Ok && !dir.OtherDirection? && orderErr != Ok ==> err == orderErr && cleared == []
    ensures unregisterErr == Ok && !dir.OtherDirection? && orderErr == Ok ==>
      Clear(err, cleared) == ClearFrom(order, noRefresh, colourOk, abortAfter, 0)
  {
    if unregisterErr != Ok {
      return Fail, [];
    }
    if dir.OtherDirection? {
      return Ok, [];
    }
    if orderErr != Ok {
      return orderErr, [];
    }
    cleared := [];
    var i := 0;
    while i < |order|
      invariant 0 <= i <= |order|
      invariant ClearFrom(order, noRefresh, colourOk, abortAfter, 0) ==
        Clear(ClearFrom(order, noRefresh, colourOk, abortAfter, i).err,
              cleared + ClearFrom(order, noRefresh, colourOk, abortAfter, i).cleared)
    {
      var ndx := order[i];
      var indicator := Contains(noRefresh, |noRefresh|, ndx);
      if !indicator {
        if !colourOk(ndx) {
          return Fail, cleared;
        }
        cleared := cleared + [ndx];
        if abortAfter[i] {
          return REFRESH_ABORT, cleared;
        }
      }
      i := i + 1;
    }
    return Ok, cleared;
  }

  /** quickClearBoard: clearBoard without the delays. */
  method QuickClearBoard(dir: Direction, unregisterErr: EspErr, orderErr: EspErr,
                         order: seq<int>, noRefresh: seq<int>, colourOk: int -> bool, abortAfter: seq<bool>)
    returns (err: EspErr, cleared: seq<int>)
    requires |abortAfter| == |order|
    ensures unregisterErr != Ok ==> err == Fail && cleared == []
    ensures unregisterErr == Ok && dir.OtherDirection? ==> err == Ok && cleared == []
    ensures unregisterErr == Ok && !dir.OtherDirection? && orderErr != Ok ==> err == orderErr && cleared == []
    ensures unregisterErr == Ok && !dir.OtherDirection? && orderErr == Ok ==>
      Clear(err, cleared) == ClearFrom(order, noRefresh, colourOk, abortAfter, 0)
  {
    err, cleared := ClearBoard(dir, true, unregisterErr, orderErr, order, noRefresh, colourOk, abortAfter);
  }
}
