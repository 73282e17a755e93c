/**
 * The older copy of the refresh in the application's main component
 * (main/src/refresh.c). It shares the URL choice, the per-LED skip rules
 * and the colour rule with the component copy; it differs in storing
 * fetched speeds to NVS, in having no strobe path and no notification
 * check before the loop, and in clearing the board by LED number.
 */
module MainRefresh {
  import opened EspErrors
  import AppErrors
  import opened Refresh

  /**
   * refreshData of the older copy: as the component copy, and a successful
   * server fetch is also stored to NVS, whose result is returned.
   * `stored` says whether storeSpeedsToNVS was called.
   */
  method RefreshData(errRes: AppErrors.ErrorResources, hasClient: bool, server: string, version: string,
                     dir: Direction, category: SpeedCategory, serverErr: EspErr, nvsErr: EspErr, storeErr: EspErr)
    returns (err: EspErr, source: DataSource, stored: bool)
    modifies errRes
    ensures stored <==> hasClient && GetCorrectUrl(server, version, dir, category).Some? && serverErr == Ok
    ensures !hasClient ==> err == nvsErr && source == FromNvs && unchanged(errRes)
    ensures hasClient && GetCorrectUrl(server, version, dir, category).None? ==>
      err == Fail && source == NoSource && unchanged(errRes)
    ensures hasClient && GetCorrectUrl(server, version, dir, category).Some? && serverErr != Ok ==>
      err == nvsErr && source == FromNvs &&
      AppErrors.Status(errRes.err, errRes.flashing) == AppErrors.ThrowNoConn(old(AppErrors.Status(errRes.err, errRes.flashing)))
    ensures stored ==>
      err == storeErr && source == FromServer &&
      AppErrors.Status(errRes.err, errRes.flashing) == AppErrors.ResolveNoConn(old(AppErrors.Status(errRes.err, errRes.flashing)), true)
  {
    stored := false;
    if !hasClient {
      return nvsErr, FromNvs, stored;
    }
    var url := GetCorrectUrl(server, version, dir, category);
    if url.None? {
      return Fail, NoSource, stored;
    }
    if serverErr != Ok {
      errRes.ThrowNoConnError();
      return nvsErr, FromNvs, stored;
    }
    errRes.ResolveNoConnError(true);
    stored := true;
    return storeErr, FromServer, stored;
  }

  /**
   * refreshBoard of the older copy: orderLEDs, then the LED loop with the
   * same skip rules; a closed road (speed 0) is painted like any other,
   * and a pending notification after an update aborts.
   */
  method RefreshBoard(orderErr: EspErr, p: Pass) returns (err: EspErr, updates: seq<Update>)
    requires p.Valid() && !p.strobeClosed
    ensures orderErr != Ok ==> err == orderErr && updates == []
    ensures orderErr == Ok ==>
      updates == RunFrom(p, 0).updates && err == (if RunFrom(p, 0).aborted then REFRESH_ABORT else Ok)
  {
    if orderErr != Ok {
      return orderErr, [];
    }
    updates := [];
    var ndx := 0;
    while ndx < |p.order|
      invariant 0 <= ndx <= |p.order|
      invariant RunFrom(p, 0) == Run(RunFrom(p, ndx).aborted, updates + RunFrom(p, ndx).updates)
      decreases |p.order| - ndx
    {
      RunStep(p, ndx, updates);
      var ledNum := p.order[ndx];
      var action := ActionFor(ledNum, p.current, p.typical, p.strobeClosed);
      if action != Skip {
        // updateLED is handed the number stored in the current-speed entry,
        // which the skip rules made equal to ledNum.
        var stored := p.current[ledNum - 1].ledNum;
        assert stored == ledNum;
        updates := updates + [Update(stored, action)];
        if p.abortAfter[ndx] {
          return REFRESH_ABORT, updates;
        }
      }
      ndx := ndx + 1;
    }
    return Ok, updates;
  }

  /** Without the strobe path, a closed road shows the slow colour whenever
      the slow cutoff is positive. */
  lemma ClosedRoadShowsSlow(ledNum: int, current: seq<LedData>, typical: seq<LedData>, slowCutoff: int, mediumCutoff: int)
    requires |current| == |typical| && Displayable(ledNum, current, typical)
    requires current[ledNum - 1].speed == 0 && 0 < slowCutoff
    ensures ActionFor(ledNum, current, typical, false) == Paint(0)
    ensures SetColor(ActionFor(ledNum, current, typical, false).percent, slowCutoff, mediumCutoff) == SlowColour
  {
  }

  /** The LED numbers 1..maxLeds, the order of the older quickClearBoard. */
  function LedNumbers(maxLeds: nat): (r: seq<int>)
    ensures |r| == maxLeds && forall i :: 0 <= i < maxLeds ==> r[i] == i + 1
  {
    seq(maxLeds, i => i + 1)
  }

  /** No notification is looked at while quick-clearing. */
  function NoAborts(maxLeds: nat): (r: seq<bool>)
    ensures |r| == maxLeds && forall i :: 0 <= i < maxLeds ==> !r[i]
  {
    seq(maxLeds, i => false)
  }

  /**
   * quickClearBoard of the older copy (hardware version 2): every LED
   * 1..MAX_NUM_LEDS_REG that is not an indicator is switched off; the
   * first one that cannot be fails the clear.
   */
  method QuickClearBoard(maxLeds: nat, noRefresh: seq<int>, colourOk: int -> bool)
    returns (err: EspErr, cleared: seq<int>)
    ensures Clear(err, cleared) == ClearFrom(LedNumbers(maxLeds), noRefresh, colourOk, NoAborts(maxLeds), 0)
  {
    ghost var order, aborts := LedNumbers(maxLeds), NoAborts(maxLeds);
    cleared := [];
    var num := 1;
    while num <= maxLeds
      invariant 1 <= num <= maxLeds + 1
      invariant ClearFrom(order, noRefresh, colourOk, aborts, 0) ==
        Clear(ClearFrom(order, noRefresh, colourOk, aborts, num - 1).err,
              cleared + ClearFrom(order, noRefresh, colourOk, aborts, num - 1).cleared)
    {
      assert order[num - 1] == num && !aborts[num - 1];
      var indicator := Contains(noRefresh, |noRefresh|, num);
      if !indicator {
        if !colourOk(num) {
          return Fail, cleared;
        }
        cleared := cleared + [num];
      }
      num := num + 1;
    }
    return Ok, cleared;
  }

  /** A successful quick clear switches off exactly the LEDs 1..maxLeds
      that are not indicators. */
  lemma QuickClearCoversBoard(maxLeds: nat, noRefresh: seq<int>, colourOk: int -> bool, n: int)
    requires ClearFrom(LedNumbers(maxLeds), noRefresh, colourOk, NoAborts(maxLeds), 0).err == Ok
    requires 1 <= n <= maxLeds
    ensures n in ClearFrom(LedNumbers(maxLeds), noRefresh, colourOk, NoAborts(maxLeds), 0).cleared <==> n !in noRefresh
  {
    var order := LedNumbers(maxLeds);
    ClearSparesIndicators(order, noRefresh, colourOk, NoAborts(maxLeds), 0);
    if n !in noRefresh {
      assert order[n - 1] == n;
      NonIndicatorsCover(order, noRefresh, 0, n - 1);
    }
  }
}
