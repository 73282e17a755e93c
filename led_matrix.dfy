/**
 * The LED matrix driver (components/led_matrix, hardware version 2): the
 * bit-field update of a matrix configuration register, the decoding of an
 * LED's register location, the per-device page cache of the page switch,
 * the mutex bookkeeping after a failed page switch, and the argument guards
 * of the setters. The I2C transactions themselves are parameters: their
 * results are passed in, their effect on the bus is not modelled.
 *
 * Devices are numbered 0..3 for the four matrix ICs (sMat1Handle ..
 * sMat4Handle).
 */
module LedMatrix {
  import opened Wrappers
  import opened EspErrors

  const NUM_MATRICES: nat := 4

  /** Register pages of a matrix IC. */
  const PWM0_PAGE: nat := 0
  const PWM1_PAGE: nat := 1
  const SCALING0_PAGE: nat := 2
  const SCALING1_PAGE: nat := 3
  const CONFIG_PAGE: nat := 4

  /** The key that unlocks the command register, read back to confirm. */
  const CMD_REG_WRITE_KEY: bv8 := 0xC5

  /** The cached page before any page switch (UINT8_MAX). */
  const UNKNOWN_PAGE: int := 255

  /** Registers of the configuration page. */
  const CONFIG_REG_ADDR: bv8 := 0x00
  const PULL_SEL_REG_ADDR: bv8 := 0x02

  /** Bit fields of the configuration register and the pull-select register. */
  const SOFTWARE_SHUTDOWN_BITS: bv8 := 0x01
  const OPEN_SHORT_DETECT_EN_BITS: bv8 := 0x06
  const LOGIC_LEVEL_CNTRL_BITS: bv8 := 0x08
  const SWX_SETTING_BITS: bv8 := 0xF0
  const PUR_BITS: bv8 := 0x07
  const PDR_BITS: bv8 := 0x70

  /** MAT1_PAGE0 .. MAT4_PAGE1 are 0..7; MAT_NONE and above are invalid. */
  const MAT_NONE: nat := 8

  const MATRIX_PWMFREQ_MAX: nat := 12

  // ---------------------------------------------------------------------
  // matSetBits

  /** `reg` with the bits of `mask` replaced by those of `field`. */
  function SetMasked(reg: bv8, mask: bv8, field: bv8): (r: bv8)
    ensures r & !mask == reg & !mask
    ensures r & mask == field & mask
  {
    (reg & !mask) | (mask & field)
  }

  /** Index of the lowest set bit of `mask`, 8 for the empty mask. */
  function Lowest(mask: bv8): (k: bv8)
    ensures k <= 8
    ensures k < 8 ==> mask & (1 << k) != 0
    ensures mask == 0 <==> k == 8
  {
    if mask & 0x01 != 0 then 0
    else if mask & 0x02 != 0 then 1
    else if mask & 0x04 != 0 then 2
    else if mask & 0x08 != 0 then 3
    else if mask & 0x10 != 0 then 4
    else if mask & 0x20 != 0 then 5
    else if mask & 0x40 != 0 then 6
    else if mask & 0x80 != 0 then 7
    else 8
  }

  /** The value of the field `mask` of `reg`, shifted down to bit 0. */
  function ReadField(reg: bv8, mask: bv8): bv8 {
    (reg & mask) >> Lowest(mask)
  }

  /** The alignment loop of matSetBits as written, from shift `c` on: it
      stops at the first shift whose power of two divides the mask and
      otherwise shifts the value left by the loop counter. */
  function AlignAsWritten(mask: bv8, value: bv8, c: bv8): bv8
    requires c <= 8
    decreases 8 - c as int
  {
    if c == 8 then value
    else if mask % (1 << c) == 0 then value
    else AlignAsWritten(mask, value << c, c + 1)
  }

  /** Every mask is divisible by 1 << 0, so the loop as written stops before
      shifting anything: the value is never aligned to the mask. */
  lemma AlignAsWrittenIsIdentity(mask: bv8, value: bv8)
    ensures AlignAsWritten(mask, value, 0) == value
  {
  }

  /** The alignment the loop evidently intends: move the value up to the
      lowest bit of the mask. */
  function Align(value: bv8, mask: bv8): bv8 {
    value << Lowest(mask)
  }

  /** The alignment loop of matSetBits as written. */
  method AlignValueAsWritten(bitMask: bv8, value: bv8) returns (v: bv8)
    ensures v == AlignAsWritten(bitMask, value, 0)
  {
    v := value;
    var currShift: bv8 := 0;
    while currShift < 8
      invariant currShift <= 8
      invariant AlignAsWritten(bitMask, v, currShift) == AlignAsWritten(bitMask, value, 0)
    {
      if bitMask % (1 << currShift) == 0 {
        break;
      }
      v := v << currShift;
      currShift := currShift + 1;
    }
  }

  /** matSetBits as written: the bits outside the mask keep their value
      and the masked bits take the value as given, unaligned. */
  method MatSetBits(reg: bv8, bitMask: bv8, value: bv8) returns (r: bv8)
    ensures r == SetMasked(reg, bitMask, value)
  {
    var v := AlignValueAsWritten(bitMask, value);
    assert v == value by { AlignAsWrittenIsIdentity(bitMask, value); }
    r := reg & !bitMask;
    r := r | (bitMask & v);
  }

  /** The alignment loop as intended: shift the value up one bit at a time
      until the lowest bit of the mask is reached. */
  method AlignValue(bitMask: bv8, value: bv8) returns (v: bv8)
    ensures v == Align(value, bitMask)
  {
    v := value;
    var currShift: bv8 := 0;
    while currShift < 8 && bitMask & (1 << currShift) == 0
      invariant currShift <= Lowest(bitMask)
      invariant v == value << currShift
    {
      v := v << 1;
      currShift := currShift + 1;
    }
  }

  /** matSetBits with the alignment it intends. */
  method MatSetBitsAligned(reg: bv8, bitMask: bv8, value: bv8) returns (r: bv8)
    ensures r == SetMasked(reg, bitMask, Align(value, bitMask))
  {
    var v := AlignValue(bitMask, value);
    r := reg & !bitMask;
    r := r | (bitMask & v);
  }

  // ---------------------------------------------------------------------
  // Setter guards and the configuration fields

  /** The settings written through a configuration bit field. */
  datatype ConfigField =
    | OperatingMode
    | OpenShortDetection
    | LogicLevel
    | SwxSetting
    | ResistorPullup
    | ResistorPulldown

  function Mask(f: ConfigField): (m: bv8)
    ensures m != 0
  {
    match f
    case OperatingMode => SOFTWARE_SHUTDOWN_BITS
    case OpenShortDetection => OPEN_SHORT_DETECT_EN_BITS
    case LogicLevel => LOGIC_LEVEL_CNTRL_BITS
    case SwxSetting => SWX_SETTING_BITS
    case ResistorPullup => PUR_BITS
    case ResistorPulldown => PDR_BITS
  }

  /** The first invalid value of each setting's enum. */
  function Limit(f: ConfigField): nat {
    match f
    case OperatingMode => 2
    case OpenShortDetection => 4
    case LogicLevel => 2
    case SwxSetting => 9
    case ResistorPullup => 8
    case ResistorPulldown => 8
  }

  /** The register each setter writes as written: matSetConfig always
      targets the configuration register, the pull-resistor setters
      included. */
  function RegisterAsWritten(f: ConfigField): bv8 {
    CONFIG_REG_ADDR
  }

  /** The register each field lives in: the pull resistors in the
      pull-select register, the rest in the configuration register. */
  function Register(f: ConfigField): bv8 {
    if f == ResistorPullup || f == ResistorPulldown then PULL_SEL_REG_ADDR else CONFIG_REG_ADDR
  }

  /** The argument guard of an enum setter. */
  function CheckSetting(f: ConfigField, setting: nat): (err: EspErr)
    ensures err == Ok <==> setting < Limit(f)
    ensures err != Ok ==> err == InvalidArg
  {
    if setting >= Limit(f) then InvalidArg else Ok
  }

  /** The argument guard of matSetPWMFrequency. */
  function CheckPwmFrequency(freq: nat): (err: EspErr)
    ensures err == Ok <==> freq < MATRIX_PWMFREQ_MAX
    ensures err != Ok ==> err == InvalidArg
  {
    if freq >= MATRIX_PWMFREQ_MAX then InvalidArg else Ok
  }

  /** initLedMatrix refuses to initialise twice. */
  function InitLedMatrixGuard(alreadyInitialised: bool): (r: Option<EspErr>)
    ensures r.Some? <==> alreadyInitialised
    ensures r.Some? ==> r.value == InvalidState
  {
    if alreadyInitialised then Some(InvalidState) else None
  }

  /** Every valid setting written with the intended alignment reads back
      unchanged from its field, and the other bits of the register keep
      their value. */
  lemma SettingRoundTrip(f: ConfigField, reg: bv8, setting: nat)
    requires setting < Limit(f)
    ensures ReadField(SetMasked(reg, Mask(f), Align(setting as bv8, Mask(f))), Mask(f)) == setting as bv8
    ensures SetMasked(reg, Mask(f), Align(setting as bv8, Mask(f))) & !Mask(f) == reg & !Mask(f)
  {
    match f
    case OperatingMode =>
    case OpenShortDetection =>
    case LogicLevel =>
    case SwxSetting =>
    case ResistorPullup =>
    case ResistorPulldown =>
  }

  /** Two fields that share a register do not overlap, so writing one never
      changes the other. */
  lemma FieldsAreIsolated(f: ConfigField, g: ConfigField, reg: bv8, field: bv8)
    requires f != g && Register(f) == Register(g)
    ensures Mask(f) & Mask(g) == 0
    ensures ReadField(SetMasked(reg, Mask(f), field), Mask(g)) == ReadField(reg, Mask(g))
  {
  }

  /** As written, matSetSWxSetting(EIGHT) leaves the SWx field at 0 (NINE):
      the unaligned value 1 has no bit inside the mask 0xF0. */
  lemma AsWrittenLosesSwxSetting(reg: bv8)
    ensures ReadField(SetMasked(reg, Mask(SwxSetting), AlignAsWritten(Mask(SwxSetting), 1, 0)), Mask(SwxSetting)) == 0
    ensures ReadField(SetMasked(reg, Mask(SwxSetting), Align(1, Mask(SwxSetting))), Mask(SwxSetting)) == 1
  {
    AlignAsWrittenIsIdentity(Mask(SwxSetting), 1);
  }

  /** As written, the pull-up field shares the configuration register with
      the software-shutdown bit: setting the pull-up to RES_NONE puts a
      running matrix into software shutdown. */
  lemma AsWrittenPullupShutsDown(reg: bv8)
    requires reg & SOFTWARE_SHUTDOWN_BITS != 0
    ensures RegisterAsWritten(ResistorPullup) == RegisterAsWritten(OperatingMode)
    ensures ReadField(SetMasked(reg, Mask(ResistorPullup), Align(0, Mask(ResistorPullup))), Mask(OperatingMode)) == 0
    ensures Register(ResistorPullup) != Register(OperatingMode)
  {
  }

  /**
   * A config setter as written: the guard, then matSetConfig, which reads
   * each matrix's configuration register (`current`, or the read error),
   * updates it with matSetBits as written and writes it back to the
   * configuration register (`writeErr` is the write's result), whatever
   * register the field lives in. Returns the register address and the
   * values written. Where the field starts at bit 0 the value needs no
   * alignment, and where it lives in the configuration register the
   * address is the right one.
   */
  method MatSetConfigField(f: ConfigField, setting: nat, current: seq<bv8>, readErr: EspErr, writeErr: EspErr)
    returns (err: EspErr, addr: bv8, written: seq<bv8>)
    requires |current| == NUM_MATRICES
    ensures setting >= Limit(f) ==> err == InvalidArg && written == []
    ensures setting < Limit(f) && readErr != Ok ==> err == (if readErr == InvalidArg then Fail else readErr) && written == []
    ensures setting < Limit(f) && readErr == Ok ==>
      err == (if writeErr == InvalidArg then Fail else writeErr) && addr == RegisterAsWritten(f) &&
      written == seq(NUM_MATRICES, i requires 0 <= i < NUM_MATRICES => SetMasked(current[i], Mask(f), setting as bv8))
    ensures setting < Limit(f) && readErr == Ok && Lowest(Mask(f)) == 0 ==>
      written == seq(NUM_MATRICES, i requires 0 <= i < NUM_MATRICES =>
        SetMasked(current[i], Mask(f), Align(setting as bv8, Mask(f))))
    ensures setting < Limit(f) && readErr == Ok && Register(f) == CONFIG_REG_ADDR ==> addr == Register(f)
  {
    addr, written := RegisterAsWritten(f), [];
    err := CheckSetting(f, setting);
    if err != Ok {
      return;
    }
    if readErr != Ok {
      err := if readErr == InvalidArg then Fail else readErr;
      return;
    }
    var mat1Cfg := MatSetBits(current[0], Mask(f), setting as bv8);
    var mat2Cfg := MatSetBits(current[1], Mask(f), setting as bv8);
    var mat3Cfg := MatSetBits(current[2], Mask(f), setting as bv8);
    var mat4Cfg := MatSetBits(current[3], Mask(f), setting as bv8);
    written := [mat1Cfg, mat2Cfg, mat3Cfg, mat4Cfg];
    err := if writeErr == InvalidArg then Fail else writeErr;
  }

  // ---------------------------------------------------------------------
  // matParseLEDRegisterInfo, matSetColor, matSetScaling

  /** The registers of one LED: three channels on one matrix page. */
  datatype LEDReg = LEDReg(red: bv8, green: bv8, blue: bv8, matrix: nat)

  /** The device and the requested pages of an LED's registers; a page that
      was not asked for is not written. */
  datatype RegisterInfo = RegisterInfo(device: nat, pwmPage: Option<nat>, scalingPage: Option<nat>)

  datatype ParseResult = Parsed(info: RegisterInfo) | ParseError(err: EspErr)

  function Pages(device: nat, wantPwm: bool, wantScaling: bool, pwm: nat, scaling: nat): ParseResult {
    Parsed(RegisterInfo(device, if wantPwm then Some(pwm) else None, if wantScaling then Some(scaling) else None))
  }

  /** matParseLEDRegisterInfo; `wantHandle`, `wantPwm` and `wantScaling`
      say which output pointers are non-null. */
  function MatParseLEDRegisterInfo(wantHandle: bool, wantPwm: bool, wantScaling: bool, matrix: nat): (r: ParseResult)
    ensures r.ParseError? <==> !wantHandle || (!wantPwm && !wantScaling) || matrix >= MAT_NONE
    ensures r.ParseError? ==>
      r.err == (if !wantHandle || (!wantPwm && !wantScaling) then InvalidArg else AppInvalidPage)
    ensures r.Parsed? ==>
      r.info.device == matrix / 2 &&
      (r.info.pwmPage.Some? <==> wantPwm) && (r.info.scalingPage.Some? <==> wantScaling) &&
      (wantPwm ==> r.info.pwmPage.value == PWM0_PAGE + matrix % 2) &&
      (wantScaling ==> r.info.scalingPage.value == SCALING0_PAGE + matrix % 2)
  {
    if !wantHandle || (!wantPwm && !wantScaling) then ParseError(InvalidArg)
    else if matrix >= MAT_NONE then ParseError(AppInvalidPage)
    else match matrix
      case 0 => Pages(0, wantPwm, wantScaling, PWM0_PAGE, SCALING0_PAGE)
      case 1 => Pages(0, wantPwm, wantScaling, PWM1_PAGE, SCALING1_PAGE)
      case 2 => Pages(1, wantPwm, wantScaling, PWM0_PAGE, SCALING0_PAGE)
      case 3 => Pages(1, wantPwm, wantScaling, PWM1_PAGE, SCALING1_PAGE)
      case 4 => Pages(2, wantPwm, wantScaling, PWM0_PAGE, SCALING0_PAGE)
      case 5 => Pages(2, wantPwm, wantScaling, PWM1_PAGE, SCALING1_PAGE)
      case 6 => Pages(3, wantPwm, wantScaling, PWM0_PAGE, SCALING0_PAGE)
      case 7 => Pages(3, wantPwm, wantScaling, PWM1_PAGE, SCALING1_PAGE)
      case _ => ParseError(Fail)
  }

  /** Distinct matrix locations decode to distinct (device, page) pairs, and
      the location is recovered from them. */
  lemma ParseIsInjective(m: nat, n: nat)
    requires m < MAT_NONE && n < MAT_NONE
    ensures var r := MatParseLEDRegisterInfo(true, true, true, m);
      r.Parsed? && m == 2 * r.info.device + r.info.pwmPage.value &&
      r.info.scalingPage.value == r.info.pwmPage.value + 2
    ensures MatParseLEDRegisterInfo(true, true, true, m) == MatParseLEDRegisterInfo(true, true, true, n) ==> m == n
  {
  }

  /** Where matSetColor (`scaling` false) or matSetScaling (`scaling` true)
      writes an LED's three channels. */
  datatype LedTarget = LedTarget(device: nat, page: nat, reg: LEDReg)

  datatype Located = Located(target: LedTarget) | LocateError(err: EspErr)

  /** The guards and the register lookup of matSetColor / matSetScaling;
      `table` is LEDNumToReg, of which the first `maxNumLedsReg` entries are
      in use. */
  function LocateLed(ledNum: nat, maxNumLedsReg: nat, table: seq<LEDReg>, scaling: bool): (r: Located)
    requires maxNumLedsReg <= |table|
    ensures r == LocateError(InvalidArg) <==> ledNum == 0 || ledNum > maxNumLedsReg
    ensures 1 <= ledNum <= maxNumLedsReg ==>
      (r == LocateError(AppInvalidPage) <==> table[ledNum - 1].matrix >= MAT_NONE)
    ensures r.Located? ==>
      1 <= ledNum <= maxNumLedsReg && r.target.reg == table[ledNum - 1] &&
      r.target.device == table[ledNum - 1].matrix / 2 < NUM_MATRICES &&
      r.target.page == (if scaling then SCALING0_PAGE else PWM0_PAGE) + table[ledNum - 1].matrix % 2
  {
    if ledNum == 0 || ledNum > maxNumLedsReg then LocateError(InvalidArg)
    else
      var ledReg := table[ledNum - 1];
      match MatParseLEDRegisterInfo(true, !scaling, scaling, ledReg.matrix)
      case ParseError(e) => LocateError(if e == InvalidArg then Fail else e)
      case Parsed(info) =>
        var page := if scaling then info.scalingPage else info.pwmPage;
        if page.None? then LocateError(Fail)
        else Located(LedTarget(info.device, page.value, ledReg))
  }

  /** An LED in range is located or reported with an invalid page; the colour
      and the scaling of one LED live on the same device, two pages apart. */
  lemma ColorAndScalingShareDevice(ledNum: nat, maxNumLedsReg: nat, table: seq<LEDReg>)
    requires maxNumLedsReg <= |table| && 1 <= ledNum <= maxNumLedsReg
    requires table[ledNum - 1].matrix < MAT_NONE
    ensures var c := LocateLed(ledNum, maxNumLedsReg, table, false);
      var s := LocateLed(ledNum, maxNumLedsReg, table, true);
      c.Located? && s.Located? && c.target.device == s.target.device &&
      s.target.page == c.target.page + 2
  {
  }

  // ---------------------------------------------------------------------
  // matSetPage and handleMatSetPageErr

  /** An I2C error as the page switch reports it. */
  function BusErr(e: EspErr): (r: EspErr)
    ensures r == Ok <==> e == Ok
  {
    if e == InvalidArg then Fail else e
  }

  /** The result of matSetPage, given the results of taking the device mutex
      and of the three transactions, the value read back from the write
      lock, whether the cache already holds the page, and whether the device
      is one of the four matrices. */
  function SetPageResult(page: nat, takeErr: EspErr, cacheHit: bool, known: bool,
                         unlockErr: EspErr, confirmErr: EspErr, readBack: bv8, pageErr: EspErr): (r: EspErr)
    ensures r == InvalidArg <==> page > CONFIG_PAGE
    ensures r == Ok <==>
      page <= CONFIG_PAGE && takeErr == Ok &&
      (cacheHit || (unlockErr == Ok && confirmErr == Ok && readBack == CMD_REG_WRITE_KEY && pageErr == Ok && known))
  {
    if page > CONFIG_PAGE then InvalidArg
    else if takeErr != Ok then (if takeErr == InvalidArg || takeErr == Timeout then AppMutexFail else takeErr)
    else if cacheHit then Ok
    else if unlockErr != Ok then BusErr(unlockErr)
    else if confirmErr != Ok then BusErr(confirmErr)
    else if readBack != CMD_REG_WRITE_KEY then InvalidResponse
    else if pageErr != Ok then BusErr(pageErr)
    else if known then Ok
    else Fail
  }

  /** The result of handleMatSetPageErr and whether it gave the mutex back. */
  datatype Handled = Handled(result: EspErr, released: bool)

  /** handleMatSetPageErr; `releaseOk` is whether giving the mutex back
      succeeds. */
  function HandleMatSetPageErr(err: EspErr, releaseOk: bool): (h: Handled)
    ensures h.released <==> err in {InvalidResponse, Timeout, Fail}
    ensures err in {InvalidArg, InvalidState, AppMutexFail} ==> h.result == err
    ensures h.released ==> h.result == (if releaseOk then err else AppMutexRelease)
    ensures err == Ok ==> h.result == Fail
    ensures h.result == AppUnhandled <==>
      err !in {InvalidArg, InvalidState, AppMutexFail, InvalidResponse, Timeout, Fail, Ok}
  {
    match err
    case InvalidArg => Handled(err, false)
    case InvalidState => Handled(err, false)
    case AppMutexFail => Handled(err, false)
    case InvalidResponse => Handled(if releaseOk then err else AppMutexRelease, true)
    case Timeout => Handled(if releaseOk then err else AppMutexRelease, true)
    case Fail => Handled(if releaseOk then err else AppMutexRelease, true)
    case Ok => Handled(Fail, false)
    case _ => Handled(AppUnhandled, false)
  }

  /** With the error codes the mutex and the I2C driver document, every
      failure of matSetPage is handled, and the handler gives the mutex back
      exactly when matSetPage took it. */
  lemma SetPageErrorsAreHandled(page: nat, takeErr: EspErr, cacheHit: bool, known: bool,
                                unlockErr: EspErr, confirmErr: EspErr, readBack: bv8, pageErr: EspErr,
                                releaseOk: bool)
    requires takeErr in {Ok, InvalidArg, Timeout, InvalidState}
    requires unlockErr in {Ok, InvalidArg, Timeout} && confirmErr in {Ok, InvalidArg, Timeout}
    requires pageErr in {Ok, InvalidArg, Timeout}
    ensures var e := SetPageResult(page, takeErr, cacheHit, known, unlockErr, confirmErr, readBack, pageErr);
      e != Ok ==>
        HandleMatSetPageErr(e, releaseOk).result != AppUnhandled &&
        (HandleMatSetPageErr(e, releaseOk).released <==> page <= CONFIG_PAGE && takeErr == Ok)
  {
  }

  /** Does the cache say `device` is already on `page`? */
  predicate CacheHit(pages: seq<int>, device: int, page: nat) {
    0 <= device < |pages| && pages[device] == page
  }

  /** The cache after a page switch that returned `err`: only a switch
      that went to the bus and succeeded records the new page. */
  function CacheAfter(pages: seq<int>, device: int, page: nat, err: EspErr): (r: seq<int>)
    ensures |r| == |pages|
  {
    if err == Ok && !CacheHit(pages, device, page) && 0 <= device < |pages| then pages[device := page]
    else pages
  }

  /** After a successful switch the cache holds the target page, and no
      other device's entry changes. */
  lemma SwitchedPageIsCached(pages: seq<int>, device: int, page: nat, takeErr: EspErr, unlockErr: EspErr,
                             confirmErr: EspErr, readBack: bv8, pageErr: EspErr)
    requires |pages| == NUM_MATRICES
    requires SetPageResult(page, takeErr, CacheHit(pages, device, page), 0 <= device < NUM_MATRICES,
                           unlockErr, confirmErr, readBack, pageErr) == Ok
    ensures 0 <= device < NUM_MATRICES
    ensures CacheHit(CacheAfter(pages, device, page, Ok), device, page)
    ensures forall d :: 0 <= d < NUM_MATRICES && d != device ==> CacheAfter(pages, device, page, Ok)[d] == pages[d]
  {
  }

  /** The pages the four matrices were last switched to (sMat1State ..
      sMat4State). */
  class PageCache {
    var pages: seq<int>

    predicate Valid()
      reads this
    {
      |pages| == NUM_MATRICES
    }

    constructor ()
      ensures Valid() && forall d :: 0 <= d < NUM_MATRICES ==> pages[d] == UNKNOWN_PAGE
    {
      pages := [UNKNOWN_PAGE, UNKNOWN_PAGE, UNKNOWN_PAGE, UNKNOWN_PAGE];
    }

    /** The bus initialisation forces every matrix back to the first PWM
        page so that the cache matches the hardware. */
    method SyncAfterInit()
      requires Valid()
      modifies this
      ensures Valid() && forall d :: 0 <= d < NUM_MATRICES ==> pages[d] == PWM0_PAGE
    {
      pages := [PWM0_PAGE, PWM0_PAGE, PWM0_PAGE, PWM0_PAGE];
    }

    /** matSetPage: the result follows SetPageResult (no transaction when
        the cache already holds the page); the cache changes only after the
        page write succeeded.
        `mutexHeld` is whether the caller now holds the device mutex. */
    method MatSetPage(device: int, page: nat, takeErr: EspErr, unlockErr: EspErr, confirmErr: EspErr,
                      readBack: bv8, pageErr: EspErr)
      returns (err: EspErr, mutexHeld: bool)
      requires Valid()
      modifies this`pages
      ensures Valid()
      ensures err == SetPageResult(page, takeErr, CacheHit(old(pages), device, page), 0 <= device < NUM_MATRICES,
                                   unlockErr, confirmErr, readBack, pageErr)
      ensures pages == CacheAfter(old(pages), device, page, err)
      ensures mutexHeld <==> page <= CONFIG_PAGE && takeErr == Ok
    {
      mutexHeld := page <= CONFIG_PAGE && takeErr == Ok;
      var hit := CacheHit(pages, device, page);
      err := SetPageResult(page, takeErr, hit, 0 <= device < NUM_MATRICES,
                           unlockErr, confirmErr, readBack, pageErr);
      if err == Ok && !hit {
        pages := pages[device := page];
      }
    }
  }
}
