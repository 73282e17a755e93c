/**
 * The firmware-version check of the OTA component (components/ota): reading
 * the server's small flat JSON file of version numbers, chunk by chunk,
 * through a circular buffer, and deciding whether the server's image is
 * newer than the installed one.
 *
 * The HTTP client is the sequence of replies its reads give. The circular
 * buffer is represented by its marked text, the characters from the mark to
 * the newest one, which is what its contracts in circular_buffer.dfy
 * establish for Store, Mark and ReadFromMark.
 */
module Ota {
  import opened Wrappers
  import opened EspErrors
  import opened Text
  import CircularBuffer
  import RingArith

  /** ota_config.h */
  const OTA_RECV_BUF_SIZE: int := 128
  /** The circular buffer's backing array has twice the receive buffer. */
  const CIRC_SIZE: int := 2 * OTA_RECV_BUF_SIZE
  /** `long` on the 32-bit target: strtol's saturation bounds. */
  const LONG_MAX: int := 0x7FFF_FFFF
  const LONG_MIN: int := -0x8000_0000
  const UINT_LIMIT: int := 0x1_0000_0000

  const HARDWARE_VERSION_KEY: string := "hardware_version"
  const HARDWARE_REVISION_KEY: string := "hardware_revision"
  const FIRMWARE_MAJOR_KEY: string := "firmware_major_version"
  const FIRMWARE_MINOR_KEY: string := "firmware_minor_version"
  const FIRMWARE_PATCH_KEY: string := "firmware_patch_version"

  /** ota_types.h; VerTypeUnknown marks the end of the enum. */
  datatype VersionType = Hardware | Revision | Major | Minor | Patch | VerTypeUnknown

  /** A firmware identity: hardware version and revision, then the
      firmware's major.minor.patch. */
  datatype Versions = Versions(hardware: int, revision: int, major: int, minor: int, patch: int)

  const NO_VERSIONS: Versions := Versions(0, 0, 0, 0, 0)

  // ---------------------------------------------------------------------
  // versionFromKey
  // ---------------------------------------------------------------------

  /** The key string of each version type. */
  function KeyName(t: VersionType): string
    requires t != VerTypeUnknown
  {
    match t
    case Hardware => HARDWARE_VERSION_KEY
    case Revision => HARDWARE_REVISION_KEY
    case Major => FIRMWARE_MAJOR_KEY
    case Minor => FIRMWARE_MINOR_KEY
    case Patch => FIRMWARE_PATCH_KEY
  }

  /** The version type a key names: an exact match of length and content
      against one of the five keys, anything else unknown. */
  function KeyType(key: string): (t: VersionType)
    ensures t != VerTypeUnknown ==> key == KeyName(t)
  {
    if key == FIRMWARE_PATCH_KEY then Patch
    else if key == FIRMWARE_MINOR_KEY then Minor
    else if key == FIRMWARE_MAJOR_KEY then Major
    else if key == HARDWARE_REVISION_KEY then Revision
    else if key == HARDWARE_VERSION_KEY then Hardware
    else VerTypeUnknown
  }

  /** Every key names its own type back. */
  lemma KeyTypeOfName(t: VersionType)
    requires t != VerTypeUnknown
    ensures KeyType(KeyName(t)) == t
  {
  }

  /** The first index at or after `from` holding `c`. */
  function IndexOf(s: string, c: char, from: nat): (r: Option<nat>)
    decreases |s| - from
    ensures r.Some? ==> from <= r.value < |s| && s[r.value] == c
    ensures r.Some? ==> forall j :: from <= j < r.value ==> s[j] != c
    ensures r.None? ==> forall j :: from <= j < |s| ==> s[j] != c
  {
    if from >= |s| then None
    else if s[from] == c then Some(from)
    else IndexOf(s, c, from + 1)
  }

  /** The text between the first quote and the next one, if both exist. */
  function QuotedKey(s: string): Option<string>
  {
    match IndexOf(s, '"', 0)
    case None => None
    case Some(open) =>
      match IndexOf(s, '"', open + 1)
      case None => None
      case Some(close) => Some(s[open + 1..close])
  }

  /** Text before the first quote does not matter. */
  lemma QuotedKeyIgnoresPrefix(prefix: string, s: string)
    requires '"' !in prefix
    ensures QuotedKey(prefix + s) == QuotedKey(s)
  {
    var t := prefix + s;
    FirstQuoteShift(prefix, s);
    var open := IndexOf(s, '"', 0);
    if open.Some? {
      IndexOfShift(prefix, s, open.value + 1);
      var close := IndexOf(s, '"', open.value + 1);
      if close.Some? {
        assert t[|prefix| + open.value + 1..|prefix| + close.value] == s[open.value + 1..close.value];
      }
    }
  }

  /** The first quote of `prefix + s` is the first quote of `s`, shifted. */
  lemma FirstQuoteShift(prefix: string, s: string)
    requires '"' !in prefix
    ensures IndexOf(prefix + s, '"', 0)
         == (match IndexOf(s, '"', 0) case None => None case Some(i) => Some(|prefix| + i))
  {
    var t := prefix + s;
    assert forall j :: 0 <= j < |prefix| ==> t[j] == prefix[j];
    IndexOfSkipsQuoteFree(t, 0, |prefix|);
    IndexOfShift(prefix, s, 0);
  }

  /** A stretch without quotes does not change where the next quote is. */
  lemma {:induction false} IndexOfSkipsQuoteFree(t: string, from: nat, to: nat)
    requires from <= to <= |t|
    requires forall j :: from <= j < to ==> t[j] != '"'
    ensures IndexOf(t, '"', from) == IndexOf(t, '"', to)
    decreases (to as int) - (from as int)
  {
    if from < to {
      IndexOfSkipsQuoteFree(t, from + 1, to);
    }
  }

  /** IndexOf over `prefix + s` from inside `s` is IndexOf over `s`,
      shifted by the prefix. */
  lemma {:induction false} IndexOfShift(prefix: string, s: string, from: nat)
    ensures IndexOf(prefix + s, '"', |prefix| + from)
         == (match IndexOf(s, '"', from) case None => None case Some(i) => Some(|prefix| + i))
    decreases |s| - from
  {
    if from < |s| {
      assert (prefix + s)[|prefix| + from] == s[from];
      if s[from] != '"' {
        IndexOfShift(prefix, s, from + 1);
      }
    }
  }

  /**
   * versionFromKey: `verType` and `str` are None for NULL pointers. The key
   * is the text between the first two quotes of `str[..strLen]`; the result
   * type is written only when both quotes are found.
   */
  method VersionFromKey(verType: Option<VersionType>, str: Option<string>, strLen: int)
    returns (err: EspErr, verTypeOut: Option<VersionType>)
    requires str.Some? ==> strLen <= |str.value|
    ensures verType.None? || str.None? || strLen == 0 ==> err == InvalidArg && verTypeOut == verType
    ensures verType.Some? && str.Some? && strLen != 0 ==>
      var key := QuotedKey(str.value[..if strLen < 0 then 0 else strLen]);
      (key.None? ==> err == NotFound && verTypeOut == verType) &&
      (key.Some? ==> err == Ok && verTypeOut == Some(KeyType(key.value)))
  {
    if verType.None? || str.None? || strLen == 0 {
      return InvalidArg, verType;
    }
    var s := str.value;
    ghost var text := s[..if strLen < 0 then 0 else strLen];
    var currNdx := 0;
    var keyStartNdx := 0;
    var keyEndNdx := 0;
    ghost var quoteOpened := false;
    while currNdx < strLen
      invariant 0 <= currNdx <= |text|
      invariant !quoteOpened ==> keyStartNdx == 0 && forall j :: 0 <= j < currNdx ==> text[j] != '"'
      invariant quoteOpened ==> IndexOf(text, '"', 0) == Some(currNdx - 1) && keyStartNdx == currNdx
    {
      if s[currNdx] == '"' {
        keyStartNdx := currNdx + 1;
        currNdx := currNdx + 1;
        quoteOpened := true;
        break;
      }
      currNdx := currNdx + 1;
    }
    assert !quoteOpened ==> currNdx == |text| && IndexOf(text, '"', 0).None?;
    ghost var keyStart: nat := keyStartNdx;
    ghost var closed := false;
    while currNdx < strLen
      invariant keyStart <= currNdx <= |text|
      invariant !quoteOpened ==> currNdx == |text|
      invariant !closed ==> keyEndNdx == 0 && forall j :: keyStart <= j < currNdx ==> text[j] != '"'
      invariant closed ==> quoteOpened && IndexOf(text, '"', keyStart) == Some(currNdx) && keyEndNdx == currNdx
    {
      if s[currNdx] == '"' {
        keyEndNdx := currNdx;
        closed := true;
        assert quoteOpened;
        break;
      }
      currNdx := currNdx + 1;
    }
    if keyEndNdx == 0 {
      assert quoteOpened ==> IndexOf(text, '"', keyStartNdx).None?;
      return NotFound, verType;
    }
    assert text[keyStartNdx..keyEndNdx] == s[keyStartNdx..keyEndNdx];
    assert QuotedKey(text) == Some(s[keyStartNdx..keyEndNdx]);
    var t := VerTypeUnknown;
    if s[keyStartNdx..keyEndNdx] == HARDWARE_VERSION_KEY {
      t := Hardware;
    }
    if s[keyStartNdx..keyEndNdx] == HARDWARE_REVISION_KEY {
      t := Revision;
    }
    if s[keyStartNdx..keyEndNdx] == FIRMWARE_MAJOR_KEY {
      t := Major;
    }
    if s[keyStartNdx..keyEndNdx] == FIRMWARE_MINOR_KEY {
      t := Minor;
    }
    if s[keyStartNdx..keyEndNdx] == FIRMWARE_PATCH_KEY {
      t := Patch;
    }
    return Ok, Some(t);
  }

  // ---------------------------------------------------------------------
  // compareVersions
  // ---------------------------------------------------------------------

  /** Every field fits the `uint` the firmware keeps it in. */
  predicate FitsUint(v: Versions) {
    && 0 <= v.hardware < UINT_LIMIT && 0 <= v.revision < UINT_LIMIT
    && 0 <= v.major < UINT_LIMIT && 0 <= v.minor < UINT_LIMIT && 0 <= v.patch < UINT_LIMIT
  }

  /** The firmware version as one number, major digits first. */
  function FirmwareNumber(v: Versions): int {
    v.major * UINT_LIMIT * UINT_LIMIT + v.minor * UINT_LIMIT + v.patch
  }

  /**
   * compareVersions against the installed identity `installed`: a
   * different hardware version or revision is never an update; otherwise
   * the firmware version must be strictly greater.
   */
  function CompareVersions(found: Versions, installed: Versions): (newer: bool)
    ensures newer ==> found.hardware == installed.hardware && found.revision == installed.revision
    ensures FitsUint(found) && FitsUint(installed) ==>
      (newer <==> found.hardware == installed.hardware && found.revision == installed.revision &&
                  FirmwareNumber(found) > FirmwareNumber(installed))
  {
    if found.hardware != installed.hardware then false
    else if found.revision != installed.revision then false
    else if found.major > installed.major then true
    else if found.major < installed.major then false
    else if found.minor > installed.minor then true
    else if found.minor < installed.minor then false
    else if found.patch > installed.patch then true
    else if found.patch < installed.patch then false
    else false
  }

  /** The installed version is never an update to itself, and "newer" is a
      strict order. */
  lemma CompareIsStrictOrder(a: Versions, b: Versions, c: Versions)
    ensures !CompareVersions(a, a)
    ensures CompareVersions(a, b) ==> !CompareVersions(b, a)
    ensures CompareVersions(a, b) && CompareVersions(b, c) ==> CompareVersions(a, c)
  {
  }

  // ---------------------------------------------------------------------
  // strtol
  // ---------------------------------------------------------------------

  /** isspace in the C locale. */
  predicate IsSpace(c: char) {
    c == ' ' || ('\t' as int <= c as int <= '\r' as int)
  }


  function TrimSpaces(s: string): (t: string)
    ensures |t| <= |s| && t == s[|s| - |t|..]
    ensures |t| > 0 ==> !IsSpace(t[0])
  {
    if |s| > 0 && IsSpace(s[0]) then TrimSpaces(s[1..]) else s
  }

  function DigitPrefix(s: string): (d: string)
    ensures |d| <= |s| && d == s[..|d|]
    ensures forall i :: 0 <= i < |d| ==> IsDigit(d[i])
    ensures |d| < |s| ==> !IsDigit(s[|d|])
  {
    if |s| > 0 && IsDigit(s[0]) then [s[0]] + DigitPrefix(s[1..]) else []
  }

  /**
   * strtol(s, NULL, 10) on the 32-bit target: leading white space, an
   * optional sign, then as many digits as there are; no digits gives 0, and
   * a value out of range saturates at LONG_MIN or LONG_MAX.
   */
  function StrToL(s: string): (v: int)
    ensures LONG_MIN <= v <= LONG_MAX
  {
    var t := TrimSpaces(s);
    var negative := |t| > 0 && t[0] == '-';
    var body := if |t| > 0 && (t[0] == '-' || t[0] == '+') then t[1..] else t;
    var magnitude: int := DigitsValue(DigitPrefix(body));
    if negative then (if magnitude > -LONG_MIN then LONG_MIN else -magnitude)
    else (if magnitude > LONG_MAX then LONG_MAX else magnitude)
  }

  lemma {:induction false} DigitPrefixOfDigits(s: string)
    requires forall i :: 0 <= i < |s| ==> IsDigit(s[i])
    ensures DigitPrefix(s) == s
  {
    if |s| > 0 {
      DigitPrefixOfDigits(s[1..]);
    }
  }

  /** strtol of a plain string of digits is its value, within range. */
  lemma StrToLOfDigits(d: string)
    requires |d| > 0 && forall i :: 0 <= i < |d| ==> IsDigit(d[i])
    requires DigitsValue(d) <= LONG_MAX
    ensures StrToL(d) == DigitsValue(d)
  {
    NoSpaceBeforeDigits(d);
    DigitPrefixOfDigits(d);
    assert IsDigit(d[0]);
    assert d[0] != '-' && d[0] != '+';
  }

  lemma NoSpaceBeforeDigits(d: string)
    requires |d| > 0 && IsDigit(d[0])
    ensures TrimSpaces(d) == d
  {
  }

  /** strtol reads back what the decimal printer writes, within range. */
  lemma StrToLReadsDecimal(n: nat)
    requires n <= LONG_MAX
    ensures StrToL(Decimal(n)) == n
  {
    DigitsOfDecimal(n);
    StrToLOfDigits(Decimal(n));
  }

  /** Leading white space does not change the value. */
  lemma StrToLSkipsSpace(c: char, s: string)
    requires IsSpace(c)
    ensures StrToL([c] + s) == StrToL(s)
  {
    assert ([c] + s)[1..] == s;
  }

  /** A version field's value: strtol's result with negatives clamped to 0. */
  function FieldValue(text: string): (v: int)
    ensures 0 <= v <= LONG_MAX
    ensures StrToL(text) >= 0 ==> v == StrToL(text)
  {
    var value := StrToL(text);
    if value < 0 then 0 else value
  }

  // ---------------------------------------------------------------------
  // Scanning for the next formatting character
  // ---------------------------------------------------------------------

  /** The two skip states of the scan: inside a comment, inside a string. */
  datatype Skipping = Skipping(comment: bool, str: bool)

  const NOT_SKIPPING: Skipping := Skipping(false, false)

  predicate IsFormatting(c: char) {
    c == '{' || c == ':' || c == ',' || c == '}'
  }

  /** How one character moves the skip states: '#' outside a string opens a
      comment, a newline closes it, a quote outside a comment toggles the
      string when in a key and is an error (None) anywhere else. */
  function SkipStep(f: Skipping, c: char, inKey: bool): (r: Option<Skipping>)
    ensures r.None? <==> !f.comment && !(c == '#' && !f.str) && c == '"' && !inKey
  {
    if c == '#' && !f.str then Some(Skipping(true, f.str))
    else if c == '\n' && f.comment then Some(Skipping(false, f.str))
    else if f.comment then Some(f)
    else if c == '"' then (if !inKey then None else Some(Skipping(f.comment, !f.str)))
    else Some(f)
  }

  /** The skip states with which the scan of `buf` reaches index `k`,
      having started at index 1 with `f0`; None once a stray quote was met. */
  function SkipBefore(buf: string, k: nat, f0: Skipping, inKey: bool): Option<Skipping>
    requires 1 <= k <= |buf|
  {
    if k == 1 then Some(f0)
    else match SkipBefore(buf, k - 1, f0, inKey)
      case None => None
      case Some(f) => SkipStep(f, buf[k - 1], inKey)
  }

  /** A formatting character at `k` that is neither commented nor quoted. */
  predicate FormattingAt(buf: string, k: nat, f0: Skipping, inKey: bool)
    requires 1 <= k < |buf|
  {
    SkipBefore(buf, k, f0, inKey) == Some(NOT_SKIPPING) && IsFormatting(buf[k])
  }

  /** What the scan of a window finds. */
  datatype Scan = Found(ndx: nat) | StrayQuote(ndx: nat) | NoFormatting

  /**
   * The scan of `buf[k..bytesRead]` with skip states `f` on reaching `k`:
   * a formatting character outside comments and strings ends it, and so
   * does a quote outside a comment where no key is expected.
   */
  function ScanFrom(buf: string, k: nat, bytesRead: nat, f: Skipping, inKey: bool): (r: (Scan, Skipping))
    requires 1 <= k <= bytesRead <= |buf|
    decreases bytesRead - k
    ensures r.0.Found? ==> k <= r.0.ndx < bytesRead && IsFormatting(buf[r.0.ndx])
    ensures r.0.StrayQuote? ==> k <= r.0.ndx < bytesRead && buf[r.0.ndx] == '"'
  {
    if k == bytesRead then (NoFormatting, f)
    else
      var c := buf[k];
      if c == '#' && !f.str then ScanFrom(buf, k + 1, bytesRead, f.(comment := true), inKey)
      else if c == '\n' && f.comment then ScanFrom(buf, k + 1, bytesRead, f.(comment := false), inKey)
      else if f.comment then ScanFrom(buf, k + 1, bytesRead, f, inKey)
      else if c == '"' then
        if !inKey then (StrayQuote(k), f) else ScanFrom(buf, k + 1, bytesRead, f.(str := !f.str), inKey)
      else if f.str then ScanFrom(buf, k + 1, bytesRead, f, inKey)
      else if IsFormatting(c) then (Found(k), f)
      else ScanFrom(buf, k + 1, bytesRead, f, inKey)
  }

  /** Inside a string, nothing before the closing quote stops the scan. */
  lemma {:induction false} StringRunsToQuote(buf: string, k: nat, m: nat, bytesRead: nat, inKey: bool)
    requires 1 <= k <= m <= bytesRead <= |buf|
    requires forall j :: k <= j < m ==> buf[j] != '"'
    ensures ScanFrom(buf, k, bytesRead, Skipping(false, true), inKey)
         == ScanFrom(buf, m, bytesRead, Skipping(false, true), inKey)
    decreases m - k
  {
    if k < m {
      StringRunsToQuote(buf, k + 1, m, bytesRead, inKey);
    }
  }

  /**
   * The search loop of processOTAAvailableFile over `buf[1..bytesRead]`
   * (buf[0] is the previous formatting character or the start of the
   * file): the first formatting character outside comments and strings,
   * or the quote that is not allowed where it stands.
   */
  method FindFormattingChar(buf: string, bytesRead: int, f0: Skipping, inKey: bool)
    returns (scan: Scan, f: Skipping)
    requires 1 <= bytesRead <= |buf|
    ensures scan.Found? ==> 1 <= scan.ndx < bytesRead && FormattingAt(buf, scan.ndx, f0, inKey) && f == NOT_SKIPPING
    ensures scan.StrayQuote? ==>
      1 <= scan.ndx < bytesRead &&
      SkipBefore(buf, scan.ndx, f0, inKey).Some? && SkipBefore(buf, scan.ndx + 1, f0, inKey).None?
    ensures scan.NoFormatting? ==> SkipBefore(buf, bytesRead, f0, inKey) == Some(f)
    ensures forall j :: 1 <= j < (if scan.NoFormatting? then bytesRead else scan.ndx) ==>
      !FormattingAt(buf, j, f0, inKey)
    ensures (scan, f) == ScanFrom(buf, 1, bytesRead, f0, inKey)
  {
    f := f0;
    var ndx := 1;
    while ndx < bytesRead
      invariant 1 <= ndx <= bytesRead
      invariant ScanFrom(buf, ndx, bytesRead, f, inKey) == ScanFrom(buf, 1, bytesRead, f0, inKey)
      invariant SkipBefore(buf, ndx, f0, inKey) == Some(f)
      invariant forall j :: 1 <= j < ndx ==> !FormattingAt(buf, j, f0, inKey)
    {
      var c := buf[ndx];
      if c == '#' && !f.str {
        f := f.(comment := true);
      } else if c == '\n' && f.comment {
        f := f.(comment := false);
      } else if f.comment {
      } else if c == '"' {
        if !inKey {
          return StrayQuote(ndx), f;
        }
        f := f.(str := !f.str);
      } else if f.str {
      } else if IsFormatting(c) {
        return Found(ndx), f;
      }
      ndx := ndx + 1;
    }
    return NoFormatting, f;
  }

  /** A comment hides everything up to the next newline from the scan. */
  lemma {:induction false} CommentRunsToNewline(buf: string, j: nat, k: nat, f0: Skipping, inKey: bool)
    requires 1 <= j <= k < |buf|
    requires SkipBefore(buf, j, f0, inKey).Some? && SkipBefore(buf, j, f0, inKey).value.comment
    requires forall i :: j <= i < k ==> buf[i] != '\n'
    ensures SkipBefore(buf, k, f0, inKey).Some? && SkipBefore(buf, k, f0, inKey).value.comment
    ensures !FormattingAt(buf, k, f0, inKey)
    decreases k - j
  {
    if j < k {
      CommentRunsToNewline(buf, j, k - 1, f0, inKey);
    }
  }

  // ---------------------------------------------------------------------
  // Acting on a formatting character
  // ---------------------------------------------------------------------

  /** The parser's flags and what it has found so far. */
  datatype ParseState = ParseState(inKey: bool, inValue: bool, inJSON: bool, jsonParsed: bool,
                                   verType: VersionType, found: Versions)

  const START: ParseState := ParseState(false, false, false, false, VerTypeUnknown, NO_VERSIONS)

  /** The versions with the field of type `t` set to `value`. */
  function Record(v: Versions, t: VersionType, value: int): (r: Versions)
    requires t != VerTypeUnknown
  {
    match t
    case Hardware => v.(hardware := value)
    case Revision => v.(revision := value)
    case Major => v.(major := value)
    case Minor => v.(minor := value)
    case Patch => v.(patch := value)
  }

  /**
   * What a formatting character `c` does, given the text since the
   * previous one (`field`) and, for ':', versionFromKey's result on that
   * text. None is ESP_FAIL: '{' inside the object, ':' outside a key or
   * with no quoted key, ',' or '}' outside a value. A value closes with its
   * number recorded under the key's type, unknown keys being ignored.
   */
  function Handle(s: ParseState, c: char, keyErr: EspErr, keyType: VersionType, field: string): (r: Option<ParseState>)
    requires IsFormatting(c)
    ensures c == '{' ==> (r.None? <==> s.inJSON)
    ensures c == ':' ==> (r.None? <==> !s.inKey || keyErr != Ok)
    ensures (c == ',' || c == '}') ==> (r.None? <==> !s.inValue)
    ensures r.Some? && c == '}' ==> r.value.jsonParsed && !r.value.inJSON && !r.value.inValue
    ensures r.Some? && c != '}' ==> r.value.jsonParsed == s.jsonParsed
    ensures r.Some? && c == ':' ==> r.value.verType == keyType && r.value.inValue && !r.value.inKey
    ensures r.Some? && (c == ',' || c == '}') ==>
      r.value.found == if s.verType == VerTypeUnknown then s.found else Record(s.found, s.verType, FieldValue(field))
    ensures r.Some? && (c == '{' || c == ':') ==> r.value.found == s.found
  {
    if c == '{' then
      if s.inJSON then None else Some(s.(inJSON := true, inKey := true))
    else if c == ':' then
      if !s.inKey then None
      else if keyErr != Ok then None
      else Some(s.(inValue := true, inKey := false, verType := keyType))
    else
      if !s.inValue then None
      else
        var closed := s.(inValue := false,
                         inJSON := if c == '}' then false else s.inJSON,
                         jsonParsed := if c == '}' then true else s.jsonParsed,
                         inKey := if c == '}' then s.inKey else true);
        if s.verType == VerTypeUnknown then Some(closed)
        else Some(closed.(found := Record(s.found, s.verType, FieldValue(field))))
  }

  /** Found fields stay within what strtol can give after clamping. */
  predicate FoundInRange(v: Versions) {
    && 0 <= v.hardware <= LONG_MAX && 0 <= v.revision <= LONG_MAX
    && 0 <= v.major <= LONG_MAX && 0 <= v.minor <= LONG_MAX && 0 <= v.patch <= LONG_MAX
  }

  lemma HandleKeepsRange(s: ParseState, c: char, keyErr: EspErr, keyType: VersionType, field: string)
    requires IsFormatting(c) && FoundInRange(s.found)
    ensures Handle(s, c, keyErr, keyType, field).Some? ==> FoundInRange(Handle(s, c, keyErr, keyType, field).value.found)
  {
  }

  /** A key that is not a version key leaves the found versions alone. */
  lemma UnknownKeysAreIgnored(s: ParseState, c: char, field: string)
    requires (c == ',' || c == '}') && s.inValue && s.verType == VerTypeUnknown
    ensures Handle(s, c, Ok, VerTypeUnknown, field).Some?
    ensures Handle(s, c, Ok, VerTypeUnknown, field).value.found == s.found
  {
  }

  // ---------------------------------------------------------------------
  // Reading the file
  // ---------------------------------------------------------------------

  /** One answer of esp_http_client_read: some bytes (none at the end of
      the body), "try again", or a failure. */
  datatype Reply = Bytes(text: string) | Again | ReadFailed

  /** The answers of one file's reads, each at most OTA_RECV_BUF_SIZE - 1
      bytes. */
  predicate ValidReplies(replies: seq<Reply>) {
    forall i :: 0 <= i < |replies| && replies[i].Bytes? ==> |replies[i].text| < OTA_RECV_BUF_SIZE
  }

  /** The first answer from `next` on that is not "try again"; running out
      of answers is the end of the body. */
  function NextRead(replies: seq<Reply>, next: nat): (r: (Reply, nat))
    requires next <= |replies|
    decreases |replies| - next
    ensures !r.0.Again? && next <= r.1 <= |replies|
    ensures r.0.Bytes? && |r.0.text| > 0 ==> next < r.1
    ensures ValidReplies(replies) && r.0.Bytes? ==> |r.0.text| < OTA_RECV_BUF_SIZE
  {
    if next == |replies| then (Bytes([]), next)
    else if replies[next].Again? then NextRead(replies, next + 1)
    else (replies[next], next + 1)
  }

  /** The do-while loop around esp_http_client_read that retries on EAGAIN. */
  method ReadRetrying(replies: seq<Reply>, next: nat) returns (reply: Reply, after: nat)
    requires next <= |replies|
    ensures (reply, after) == NextRead(replies, next)
  {
    after := next;
    while after < |replies| && replies[after].Again?
      invariant next <= after <= |replies|
      invariant NextRead(replies, after) == NextRead(replies, next)
    {
      after := after + 1;
    }
    if after == |replies| {
      return Bytes([]), after;
    }
    return replies[after], after + 1;
  }

  /** What processOTAAvailableFile returns when a read fails in the middle
      of the file, as written: the variable `err` holds the last status
      assigned, and every path to that point has checked it to be ESP_OK. */
  function MidReadFailureAsWritten(lastErr: EspErr): (r: EspErr)
    ensures lastErr == Ok ==> r == Ok
  {
    lastErr
  }

  /** The as-written result reports success, with `available` left false,
      for a file it never finished reading. */
  lemma MidReadFailureLooksLikeSuccess()
    ensures MidReadFailureAsWritten(Ok) == Ok
    ensures MidReadFailure() != Ok
  {
  }

  /** The result the function's contract calls for instead: an error. */
  function MidReadFailure(): (r: EspErr)
    ensures r != Ok
  {
    Fail
  }

  /** versionFromKey's status and type for the text before a ':' (the
      status is all that matters when it is not ESP_OK). */
  function KeyLookup(field: string): (r: (EspErr, VersionType))
    ensures |field| == 0 ==> r.0 == InvalidArg
    ensures |field| > 0 ==> (r.0 == Ok <==> QuotedKey(field).Some?)
    ensures r.0 == Ok ==> r.1 == KeyType(QuotedKey(field).value)
  {
    if |field| == 0 then (InvalidArg, VerTypeUnknown)
    else match QuotedKey(field)
      case None => (NotFound, VerTypeUnknown)
      case Some(key) => (Ok, KeyType(key))
  }

  /** How processing a version file ends: the versions of a closed object,
      an error status, or a read that failed part way. */
  datatype FileOutcome = Parsed(versions: Versions) | Failed(status: EspErr) | Interrupted

  /** The end of the body: only a closed object counts as parsed. */
  function Finish(s: ParseState): (r: FileOutcome)
    ensures r.Parsed? <==> s.jsonParsed
    ensures r.Parsed? ==> r.versions == s.found
    ensures r.Failed? ==> r.status == Fail
  {
    if s.jsonParsed then Parsed(s.found) else Failed(Fail)
  }

  /** The marked text after circularBufferStore puts `chunk` behind it, or
      None when the store reports the mark lost. The store's test, as
      written, measures the marked text's length modulo the buffer size, so
      a full buffer marked at its oldest character keeps its mark while the
      chunk overwrites it: the marked text is then the chunk alone. */
  function StoreBehindMark(pending: string, chunk: string): (r: Option<string>)
    requires 1 <= |pending| <= CIRC_SIZE && 1 <= |chunk| <= CIRC_SIZE
    ensures r.Some? ==> 1 <= |r.value| <= CIRC_SIZE
    ensures |pending| < CIRC_SIZE ==> (r.None? <==> |pending| + |chunk| > CIRC_SIZE)
    ensures |pending| < CIRC_SIZE && r.Some? ==> r.value == pending + chunk
    ensures |pending| == CIRC_SIZE ==> r == Some(chunk)
  {
    var distance := if |pending| == CIRC_SIZE then 0 else |pending|;
    if distance + |chunk| - 1 >= CIRC_SIZE then None
    else if |pending| == CIRC_SIZE then Some(chunk)
    else Some(pending + chunk)
  }

  /** StoreBehindMark reports the mark lost exactly when circularBufferStore
      does, for a buffer of CIRC_SIZE characters whose marked text is
      `pending`. */
  lemma {:induction false} StoreBehindMarkIsStore(written: int, len: int, mark: int, pending: string, chunk: string)
    requires 0 <= len <= CIRC_SIZE && len <= written && 0 <= mark < CIRC_SIZE
    requires CircularBuffer.MarkOffset(mark, written, len, CIRC_SIZE) < len
    requires |pending| == len - CircularBuffer.MarkOffset(mark, written, len, CIRC_SIZE)
    requires 1 <= |chunk| <= CIRC_SIZE
    ensures StoreBehindMark(pending, chunk).None?
      <==> CircularBuffer.LostMarkAsWritten(RingArith.Wrap(written, CIRC_SIZE), mark, |chunk|, CIRC_SIZE)
  {
    CircularBuffer.DistanceToEnd(CIRC_SIZE, written, len, mark);
  }

  /** What circularBufferReadFromMark gives the scan: at most
      OTA_RECV_BUF_SIZE - 1 characters from the mark. */
  function Window(pending: string): (buf: string)
    requires |pending| >= 1
    ensures 1 <= |buf| <= |pending| && |buf| < OTA_RECV_BUF_SIZE && buf == pending[..|buf|]
    ensures |pending| < OTA_RECV_BUF_SIZE ==> buf == pending
  {
    pending[..if |pending| < OTA_RECV_BUF_SIZE - 1 then |pending| else OTA_RECV_BUF_SIZE - 1]
  }

  /** What a formatting character found at `buf[ndx]` does to the parse
      state, versionFromKey being asked about the text before a ':'. */
  function Act(s: ParseState, buf: string, ndx: nat): Option<ParseState>
    requires 1 <= ndx < |buf| && IsFormatting(buf[ndx])
  {
    var c := buf[ndx];
    var (keyErr, keyType) := if c == ':' && s.inKey then KeyLookup(buf[1..ndx]) else (Ok, VerTypeUnknown);
    Handle(s, c, keyErr, keyType, buf[1..ndx])
  }

  /**
   * The main loop of processOTAAvailableFile from a marked text `pending`
   * (its first character is the previous formatting character), parse
   * state `s` and skip states `skip`. When `scanned` is false the window
   * held no formatting character and the next read is stored first: a
   * failed read interrupts, the end of the body finishes, and a chunk
   * that would overwrite the mark fails.
   */
  function ParseFrom(replies: seq<Reply>, next: nat, pending: string, s: ParseState, skip: Skipping, scanned: bool): FileOutcome
    requires next <= |replies| && 1 <= |pending| <= CIRC_SIZE
    decreases |replies| - next, |pending|, if scanned then 2 else 0
  {
    if scanned then ScanText(replies, next, pending, s, skip)
    else
      var (reply, after) := NextRead(replies, next);
      if reply.ReadFailed? then Interrupted
      else if |reply.text| == 0 then Finish(s)
      else if |reply.text| > CIRC_SIZE then Failed(InvalidSize)
      else match StoreBehindMark(pending, reply.text)
        case None => Failed(Fail)
        case Some(text) => ScanText(replies, after, text, s, NOT_SKIPPING)
  }

  /** The scan of the window over the marked text `text`, and what the
      formatting character found does. */
  function ScanText(replies: seq<Reply>, next: nat, text: string, s: ParseState, skip: Skipping): FileOutcome
    requires next <= |replies| && 1 <= |text| <= CIRC_SIZE
    decreases |replies| - next, |text|, 1
  {
    var buf := Window(text);
    var (scan, f) := ScanFrom(buf, 1, |buf|, skip, s.inKey);
    match scan
    case StrayQuote(_) => Failed(Fail)
    case NoFormatting => ParseFrom(replies, next, text, s, f, false)
    case Found(ndx) =>
      match Act(s, buf, ndx)
      case None => Failed(Fail)
      case Some(s') => ParseFrom(replies, next, text[ndx..], s', f, true)
  }

  /** processOTAAvailableFile's reading of a whole version file, from the
      first read and its first character on. */
  function ParseOtaFile(replies: seq<Reply>): FileOutcome
  {
    var (reply, after) := NextRead(replies, 0);
    if !reply.Bytes? || |reply.text| == 0 then Failed(NotFound)
    else if |reply.text| > CIRC_SIZE then Failed(InvalidSize)
    else
      var first := reply.text[0];
      if first == ':' || first == ',' || first == '}' || first == '"' then Failed(Fail)
      else
        var s := if first == '{' then START.(inJSON := true, inKey := true) else START;
        var skip := if first == '#' then NOT_SKIPPING.(comment := true) else NOT_SKIPPING;
        ParseFrom(replies, after, reply.text, s, skip, true)
  }

  /** Whatever the replies, the versions a parsed file yields are in range. */
  lemma {:induction false} ParseFromKeepsRange(replies: seq<Reply>, next: nat, pending: string, s: ParseState,
                                               skip: Skipping, scanned: bool)
    requires next <= |replies| && 1 <= |pending| <= CIRC_SIZE && FoundInRange(s.found)
    ensures ParseFrom(replies, next, pending, s, skip, scanned).Parsed? ==>
      FoundInRange(ParseFrom(replies, next, pending, s, skip, scanned).versions)
    decreases |replies| - next, |pending|, if scanned then 2 else 0
  {
    if scanned {
      ScanTextKeepsRange(replies, next, pending, s, skip);
    } else {
      var (reply, after) := NextRead(replies, next);
      if reply.Bytes? && 0 < |reply.text| <= CIRC_SIZE && StoreBehindMark(pending, reply.text).Some? {
        ScanTextKeepsRange(replies, after, StoreBehindMark(pending, reply.text).value, s, NOT_SKIPPING);
      }
    }
  }

  lemma {:induction false} ScanTextKeepsRange(replies: seq<Reply>, next: nat, text: string, s: ParseState, skip: Skipping)
    requires next <= |replies| && 1 <= |text| <= CIRC_SIZE && FoundInRange(s.found)
    ensures ScanText(replies, next, text, s, skip).Parsed? ==> FoundInRange(ScanText(replies, next, text, s, skip).versions)
    decreases |replies| - next, |text|, 1
  {
    var buf := Window(text);
    var (scan, f) := ScanFrom(buf, 1, |buf|, skip, s.inKey);
    match scan
    case StrayQuote(_) =>
    case NoFormatting => ParseFromKeepsRange(replies, next, text, s, f, false);
    case Found(ndx) =>
      var c := buf[ndx];
      var (keyErr, keyType) := if c == ':' && s.inKey then KeyLookup(buf[1..ndx]) else (Ok, VerTypeUnknown);
      HandleKeepsRange(s, c, keyErr, keyType, buf[1..ndx]);
      match Act(s, buf, ndx)
      case None =>
      case Some(s') => ParseFromKeepsRange(replies, next, text[ndx..], s', f, true);
  }

  lemma ParsedVersionsInRange(replies: seq<Reply>)
    ensures ParseOtaFile(replies).Parsed? ==> FoundInRange(ParseOtaFile(replies).versions)
  {
    var (reply, after) := NextRead(replies, 0);
    if reply.Bytes? && 0 < |reply.text| <= CIRC_SIZE {
      var first := reply.text[0];
      var s := if first == '{' then START.(inJSON := true, inKey := true) else START;
      var skip := if first == '#' then NOT_SKIPPING.(comment := true) else NOT_SKIPPING;
      ParseFromKeepsRange(replies, after, reply.text, s, skip, true);
    }
  }

  // ---------------------------------------------------------------------
  // A version file as the server publishes it
  // ---------------------------------------------------------------------

  /** One `"key":d` entry of a flat version file, with its closing ',' or '}'. */
  function Entry(t: VersionType, d: char, closer: char): string
    requires t != VerTypeUnknown
  {
    "\"" + KeyName(t) + "\":" + [d] + [closer]
  }

  /** The state after the value of an entry closes. */
  function Closed(s: ParseState, t: VersionType, d: char, closer: char): (r: ParseState)
    requires t != VerTypeUnknown && (closer == ',' || closer == '}')
    ensures r.found == Record(s.found, t, FieldValue([d]))
    ensures r.jsonParsed == (closer == '}' || s.jsonParsed)
    ensures closer == ',' ==> r.inKey
  {
    Handle(s.(inValue := true, inKey := false, verType := t), closer, Ok, VerTypeUnknown, [d]).value
  }

  /** The key names hold no quote, and all fit a window with room to spare. */
  lemma KeyNameHasNoQuote(t: VersionType)
    requires t != VerTypeUnknown
    ensures forall j :: 0 <= j < |KeyName(t)| ==> KeyName(t)[j] != '"'
    ensures 16 <= |KeyName(t)| <= 22
  {
  }

  /** A one-digit value reads as that digit. */
  lemma DigitValue(d: char)
    requires IsDigit(d)
    ensures FieldValue([d]) == d as int - '0' as int
  {
    assert [d][..0] == [];
    StrToLOfDigits([d]);
  }

  /** A quoted version key from the previous formatting character up to
      the ':' makes the parser expect that key's value. */
  lemma KeyStep(r: seq<Reply>, next: nat, prev: char, t: VersionType, rest: string, s: ParseState)
    requires next <= |r| && t != VerTypeUnknown && s.inKey
    requires |[prev] + "\"" + KeyName(t) + "\"" + rest| < OTA_RECV_BUF_SIZE
    requires |rest| > 0 && rest[0] == ':'
    ensures ScanText(r, next, [prev] + "\"" + KeyName(t) + "\"" + rest, s, NOT_SKIPPING)
         == ScanText(r, next, rest, s.(inValue := true, inKey := false, verType := t), NOT_SKIPPING)
  {
    var key := KeyName(t);
    var k := |key|;
    var text := [prev] + "\"" + key + "\"" + rest;
    KeyNameHasNoQuote(t);
    assert text[1] == '"' && text[k + 2] == '"' && text[k + 3] == ':';
    assert text[2..k + 2] == key;
    assert Window(text) == text;
    StringRunsToQuote(text, 2, k + 2, |text|, true);
    assert ScanFrom(text, 1, |text|, NOT_SKIPPING, true) == (Found(k + 3), NOT_SKIPPING);
    var quoted := text[1..k + 3];
    assert quoted == "\"" + key + "\"";
    IndexOfSkipsQuoteFree(quoted, 1, k + 1);
    assert quoted[1..k + 1] == key;
    assert QuotedKey(quoted) == Some(key);
    KeyTypeOfName(t);
    assert Act(s, text, k + 3) == Some(s.(inValue := true, inKey := false, verType := t));
    assert text[k + 3..] == rest;
  }

  /** A one-digit value and its closer record the digit under the key's type. */
  lemma ValueStep(r: seq<Reply>, next: nat, t: VersionType, d: char, closer: char, rest: string, s: ParseState)
    requires next <= |r| && t != VerTypeUnknown && IsDigit(d) && (closer == ',' || closer == '}')
    requires |[':', d, closer] + rest| < OTA_RECV_BUF_SIZE
    ensures ScanText(r, next, [':', d, closer] + rest, s.(inValue := true, inKey := false, verType := t), NOT_SKIPPING)
         == ScanText(r, next, [closer] + rest, Closed(s, t, d, closer), NOT_SKIPPING)
  {
    var value := [':', d, closer] + rest;
    var sv := s.(inValue := true, inKey := false, verType := t);
    ValueScan(d, closer, rest);
    ValueAct(s, t, d, closer, value);
    FoundMovesMark(r, next, value, sv, NOT_SKIPPING, 2, NOT_SKIPPING, Closed(s, t, d, closer));
    assert value[2..] == [closer] + rest;
  }

  /** A formatting character found in the window and accepted moves the
      mark onto it, with the parse state its handler gives. */
  lemma FoundMovesMark(r: seq<Reply>, next: nat, text: string, s: ParseState, skip: Skipping,
                       ndx: nat, skip': Skipping, s': ParseState)
    requires next <= |r| && 1 <= |text| <= CIRC_SIZE
    requires ScanFrom(Window(text), 1, |Window(text)|, skip, s.inKey) == (Found(ndx), skip')
    requires Act(s, Window(text), ndx) == Some(s')
    ensures ScanText(r, next, text, s, skip) == ScanText(r, next, text[ndx..], s', skip')
  {
    assert ScanText(r, next, text, s, skip) == ParseFrom(r, next, text[ndx..], s', skip', true);
  }

  /** The scan of a value's window stops on its closer. */
  lemma ValueScan(d: char, closer: char, rest: string)
    requires IsDigit(d) && (closer == ',' || closer == '}')
    requires |[':', d, closer] + rest| < OTA_RECV_BUF_SIZE
    ensures Window([':', d, closer] + rest) == [':', d, closer] + rest
    ensures ScanFrom([':', d, closer] + rest, 1, |[':', d, closer] + rest|, NOT_SKIPPING, false) == (Found(2), NOT_SKIPPING)
  {
    var value := [':', d, closer] + rest;
    assert value[1] == d && value[2] == closer;
    assert ScanFrom(value, 2, |value|, NOT_SKIPPING, false) == (Found(2), NOT_SKIPPING);
    assert d != '#' && d != '\n' && d != '"' && !IsFormatting(d);
  }

  /** The closer of a one-digit value records it. */
  lemma ValueAct(s: ParseState, t: VersionType, d: char, closer: char, value: string)
    requires t != VerTypeUnknown && (closer == ',' || closer == '}')
    requires |value| >= 3 && value[..3] == [':', d, closer]
    ensures Act(s.(inValue := true, inKey := false, verType := t), value, 2) == Some(Closed(s, t, d, closer))
  {
    assert value[2] == closer;
    assert value[1..2] == [d];
  }

  /** A whole entry moves the mark from the previous formatting character
      to the entry's closer, with the digit recorded. */
  lemma EntryStep(r: seq<Reply>, next: nat, prev: char, t: VersionType, d: char, closer: char, rest: string, s: ParseState)
    requires next <= |r| && t != VerTypeUnknown && IsDigit(d) && (closer == ',' || closer == '}')
    requires s.inKey
    requires |[prev] + Entry(t, d, closer) + rest| < OTA_RECV_BUF_SIZE
    ensures ScanText(r, next, [prev] + Entry(t, d, closer) + rest, s, NOT_SKIPPING)
         == ScanText(r, next, [closer] + rest, Closed(s, t, d, closer), NOT_SKIPPING)
  {
    var tail := [':', d, closer] + rest;
    assert [prev] + Entry(t, d, closer) + rest == [prev] + "\"" + KeyName(t) + "\"" + tail;
    KeyStep(r, next, prev, t, tail, s);
    ValueStep(r, next, t, d, closer, rest, s);
  }

  /** A flat version file with the five keys in order and one-digit values. */
  function VersionFile(h: char, rv: char, ma: char, mi: char, pa: char): string {
    "{" + Entry(Hardware, h, ',') + Entry(Revision, rv, ',') + Entry(Major, ma, ',') + Entry(Minor, mi, ',')
        + Entry(Patch, pa, '}')
  }

  /** The value of a decimal digit character. */
  function Digit(d: char): int { d as int - '0' as int }

  /** The state after all five entries. */
  function AfterEntries(h: char, rv: char, ma: char, mi: char, pa: char): ParseState {
    var s1 := START.(inJSON := true, inKey := true);
    Closed(Closed(Closed(Closed(Closed(s1, Hardware, h, ','), Revision, rv, ','), Major, ma, ','), Minor, mi, ','), Patch, pa, '}')
  }

  /** After the five entries the object is closed with one digit per field. */
  lemma AfterEntriesFound(h: char, rv: char, ma: char, mi: char, pa: char)
    requires IsDigit(h) && IsDigit(rv) && IsDigit(ma) && IsDigit(mi) && IsDigit(pa)
    ensures AfterEntries(h, rv, ma, mi, pa).jsonParsed
    ensures AfterEntries(h, rv, ma, mi, pa).found == Versions(Digit(h), Digit(rv), Digit(ma), Digit(mi), Digit(pa))
  {
    var s1 := START.(inJSON := true, inKey := true);
    var s2 := Closed(s1, Hardware, h, ',');
    ClosedDigit(s1, Hardware, h, ',');
    var s3 := Closed(s2, Revision, rv, ',');
    ClosedDigit(s2, Revision, rv, ',');
    var s4 := Closed(s3, Major, ma, ',');
    ClosedDigit(s3, Major, ma, ',');
    var s5 := Closed(s4, Minor, mi, ',');
    ClosedDigit(s4, Minor, mi, ',');
    var s6 := Closed(s5, Patch, pa, '}');
    ClosedDigit(s5, Patch, pa, '}');
    assert s6.found == Versions(Digit(h), Digit(rv), Digit(ma), Digit(mi), Digit(pa));
  }

  /** Closing a one-digit value records the digit's value. */
  lemma ClosedDigit(s: ParseState, t: VersionType, d: char, closer: char)
    requires t != VerTypeUnknown && IsDigit(d) && (closer == ',' || closer == '}')
    ensures Closed(s, t, d, closer).found == Record(s.found, t, Digit(d))
  {
    DigitValue(d);
  }

  /** How long one entry is. */
  lemma EntryLength(t: VersionType, d: char, closer: char)
    requires t != VerTypeUnknown
    ensures |Entry(t, d, closer)| == |KeyName(t)| + 5 <= 27
  {
  }

  /** Regrouping a concatenation, to line texts up with the entry steps. */
  lemma Regroup(a: char, x: string, y: string, z: string)
    ensures [a] + (x + y + z) == [a] + x + (y + z)
    ensures [a] + (x + y) == [a] + x + y
  {
  }

  /** The file as its opening brace, the first entry and the rest. */
  lemma RegroupFile(x1: string, x2: string, x3: string, x4: string, x5: string)
    ensures "{" + x1 + x2 + x3 + x4 + x5 == ['{'] + x1 + (x2 + (x3 + x4 + x5))
  {
  }

  /** The five entries of a version file, scanned in one window from the
      opening brace, leave the mark on the closing brace. */
  lemma EntriesScan(r: seq<Reply>, h: char, rv: char, ma: char, mi: char, pa: char)
    requires IsDigit(h) && IsDigit(rv) && IsDigit(ma) && IsDigit(mi) && IsDigit(pa) && 1 <= |r|
    ensures ScanText(r, 1, VersionFile(h, rv, ma, mi, pa), START.(inJSON := true, inKey := true), NOT_SKIPPING)
         == ScanText(r, 1, "}", AfterEntries(h, rv, ma, mi, pa), NOT_SKIPPING)
  {
    var e1, e2, e3, e4, e5 := Entry(Hardware, h, ','), Entry(Revision, rv, ','), Entry(Major, ma, ','),
                              Entry(Minor, mi, ','), Entry(Patch, pa, '}');
    EntryLength(Hardware, h, ',');
    EntryLength(Revision, rv, ',');
    EntryLength(Major, ma, ',');
    EntryLength(Minor, mi, ',');
    EntryLength(Patch, pa, '}');
    var s1 := START.(inJSON := true, inKey := true);
    var tail := e3 + e4 + e5;
    RegroupFile(e1, e2, e3, e4, e5);
    EntryStep(r, 1, '{', Hardware, h, ',', e2 + tail, s1);
    var s2 := Closed(s1, Hardware, h, ',');
    Regroup(',', e2, tail, []);
    EntryStep(r, 1, ',', Revision, rv, ',', tail, s2);
    var s3 := Closed(s2, Revision, rv, ',');
    LastThreeScan(r, s3, ma, mi, pa);
  }

  /** The last three entries, from the comma before them. */
  lemma LastThreeScan(r: seq<Reply>, s3: ParseState, ma: char, mi: char, pa: char)
    requires IsDigit(ma) && IsDigit(mi) && IsDigit(pa) && 1 <= |r| && s3.inKey
    ensures ScanText(r, 1, [','] + (Entry(Major, ma, ',') + Entry(Minor, mi, ',') + Entry(Patch, pa, '}')), s3, NOT_SKIPPING)
         == ScanText(r, 1, "}", Closed(Closed(Closed(s3, Major, ma, ','), Minor, mi, ','), Patch, pa, '}'), NOT_SKIPPING)
  {
    var e3, e4, e5 := Entry(Major, ma, ','), Entry(Minor, mi, ','), Entry(Patch, pa, '}');
    EntryLength(Major, ma, ',');
    EntryLength(Minor, mi, ',');
    EntryLength(Patch, pa, '}');
    Regroup(',', e3, e4, e5);
    EntryStep(r, 1, ',', Major, ma, ',', e4 + e5, s3);
    LastTwoScan(r, Closed(s3, Major, ma, ','), mi, pa);
  }

  /** The last two entries, from the comma before them. */
  lemma LastTwoScan(r: seq<Reply>, s4: ParseState, mi: char, pa: char)
    requires IsDigit(mi) && IsDigit(pa) && 1 <= |r| && s4.inKey
    ensures ScanText(r, 1, [','] + (Entry(Minor, mi, ',') + Entry(Patch, pa, '}')), s4, NOT_SKIPPING)
         == ScanText(r, 1, "}", Closed(Closed(s4, Minor, mi, ','), Patch, pa, '}'), NOT_SKIPPING)
  {
    var e4, e5 := Entry(Minor, mi, ','), Entry(Patch, pa, '}');
    EntryLength(Minor, mi, ',');
    EntryLength(Patch, pa, '}');
    Regroup(',', e4, e5, []);
    EntryStep(r, 1, ',', Minor, mi, ',', e5, s4);
    LastOneScan(r, Closed(s4, Minor, mi, ','), pa);
  }

  /** The last entry, from the comma before it, up to the closing brace. */
  lemma LastOneScan(r: seq<Reply>, s5: ParseState, pa: char)
    requires IsDigit(pa) && 1 <= |r| && s5.inKey
    ensures ScanText(r, 1, [','] + Entry(Patch, pa, '}'), s5, NOT_SKIPPING)
         == ScanText(r, 1, "}", Closed(s5, Patch, pa, '}'), NOT_SKIPPING)
  {
    var e5 := Entry(Patch, pa, '}');
    EntryLength(Patch, pa, '}');
    assert [','] + e5 == [','] + e5 + [];
    EntryStep(r, 1, ',', Patch, pa, '}', [], s5);
    assert ['}'] + [] == "}";
  }

  /** With nothing left to read, the closing brace ends a parsed file. */
  lemma ClosingBraceEnds(r: seq<Reply>, s: ParseState)
    requires |r| == 1 && s.jsonParsed
    ensures ScanText(r, 1, "}", s, NOT_SKIPPING) == Parsed(s.found)
  {
    assert ScanText(r, 1, "}", s, NOT_SKIPPING) == ParseFrom(r, 1, "}", s, NOT_SKIPPING, false);
    assert NextRead(r, 1) == (Bytes([]), 1);
  }

  /** A single read opening with '{' starts the scan inside the object. */
  lemma OpensWithBrace(r: seq<Reply>, text: string)
    requires r == [Bytes(text)] && 0 < |text| <= CIRC_SIZE && text[0] == '{'
    ensures ParseOtaFile(r) == ScanText(r, 1, text, START.(inJSON := true, inKey := true), NOT_SKIPPING)
  {
    assert NextRead(r, 0) == (Bytes(text), 1);
  }

  /** Such a file in one read is parsed to exactly the versions it states. */
  lemma VersionFileParses(h: char, rv: char, ma: char, mi: char, pa: char)
    requires IsDigit(h) && IsDigit(rv) && IsDigit(ma) && IsDigit(mi) && IsDigit(pa)
    ensures ParseOtaFile([Bytes(VersionFile(h, rv, ma, mi, pa))])
         == Parsed(Versions(Digit(h), Digit(rv), Digit(ma), Digit(mi), Digit(pa)))
  {
    var text := VersionFile(h, rv, ma, mi, pa);
    var r := [Bytes(text)];
    RegroupFile(Entry(Hardware, h, ','), Entry(Revision, rv, ','), Entry(Major, ma, ','), Entry(Minor, mi, ','),
                Entry(Patch, pa, '}'));
    EntryLength(Hardware, h, ',');
    EntryLength(Revision, rv, ',');
    EntryLength(Major, ma, ',');
    EntryLength(Minor, mi, ',');
    EntryLength(Patch, pa, '}');
    OpensWithBrace(r, text);
    EntriesScan(r, h, rv, ma, mi, pa);
    AfterEntriesFound(h, rv, ma, mi, pa);
    ClosingBraceEnds(r, AfterEntries(h, rv, ma, mi, pa));
  }
  // ---------------------------------------------------------------------
  // The main loop
  // ---------------------------------------------------------------------

  /** How reading more of the file ends. */
  datatype Pass = KeepGoing | BodyEnded | ReadInterrupted | ParseFailed

  /**
   * The top of processOTAAvailableFile's main loop when the window held no
   * formatting character: read, retrying on EAGAIN, and store the chunk
   * behind the marked text. `s` and `skip` are the parse and skip states,
   * which only the outcome depends on.
   */
  method ReadMore(replies: seq<Reply>, next: nat, pending: string, ghost s: ParseState, ghost skip: Skipping)
    returns (pass: Pass, next': nat, pending': string)
    requires ValidReplies(replies) && next <= |replies| && 1 <= |pending| <= CIRC_SIZE
    ensures pass == ReadInterrupted ==> ParseFrom(replies, next, pending, s, skip, false) == Interrupted
    ensures pass == BodyEnded ==> ParseFrom(replies, next, pending, s, skip, false) == Finish(s)
    ensures pass == ParseFailed ==> ParseFrom(replies, next, pending, s, skip, false) == Failed(Fail)
    ensures pass == KeepGoing ==>
      && next < next' <= |replies| && 1 <= |pending'| <= CIRC_SIZE
      && ParseFrom(replies, next, pending, s, skip, false) == ScanText(replies, next', pending', s, NOT_SKIPPING)
  {
    var reply;
    reply, next' := ReadRetrying(replies, next);
    pending' := pending;
    if reply.ReadFailed? {
      return ReadInterrupted, next', pending';
    }
    if |reply.text| == 0 {
      return BodyEnded, next', pending';
    }
    // circularBufferStore: the mark is lost when the distance from it to
    // `end`, taken modulo the buffer size, leaves no room for the chunk.
    var distance := if |pending| == CIRC_SIZE then 0 else |pending|;
    if distance + |reply.text| - 1 >= CIRC_SIZE {
      return ParseFailed, next', pending';
    }
    pending' := if |pending| == CIRC_SIZE then reply.text else pending + reply.text;
    return KeepGoing, next', pending';
  }

  /**
   * The rest of the main loop: read the window from the mark, scan it for
   * a formatting character, move the mark onto it and act on it. `failed`
   * is ESP_FAIL; `scanned'` is whether a formatting character was found.
   */
  method ScanPass(ghost replies: seq<Reply>, ghost next: nat, pending: string, state: ParseState, skip: Skipping)
    returns (failed: bool, pending': string, state': ParseState, skip': Skipping, scanned': bool)
    requires next <= |replies| && 1 <= |pending| <= CIRC_SIZE && FoundInRange(state.found)
    ensures failed ==> ScanText(replies, next, pending, state, skip) == Failed(Fail)
    ensures !failed ==>
      && 1 <= |pending'| <= |pending| && FoundInRange(state'.found)
      && (scanned' ==> |pending'| < |pending|) && (!scanned' ==> pending' == pending)
      && ScanText(replies, next, pending, state, skip) == ParseFrom(replies, next, pending', state', skip', scanned')
  {
    pending', state' := pending, state;
    // circularBufferReadFromMark: at most OTA_RECV_BUF_SIZE - 1 characters
    // from the mark, then a NUL.
    var buf := Window(pending);
    var bytesRead := |buf|;
    var scan;
    scan, skip' := FindFormattingChar(buf, bytesRead, skip, state.inKey);
    scanned' := scan.Found?;
    if scan.StrayQuote? {
      return true, pending', state', skip', scanned';
    }
    if scan.NoFormatting? {
      return false, pending', state', skip', scanned';
    }
    var ndx := scan.ndx;
    var c := buf[ndx];
    // circularBufferMark(ndx, FROM_PREV_MARK): the mark moves onto c.
    pending' := pending[ndx..];
    var keyErr, keyType := Ok, VerTypeUnknown;
    if c == ':' && state.inKey {
      var t;
      keyErr, t := VersionFromKey(Some(state.verType), Some(buf[1..]), ndx - 1);
      assert buf[1..][..ndx - 1] == buf[1..ndx];
      keyType := t.GetOr(VerTypeUnknown);
    }
    var next_state := Handle(state, c, keyErr, keyType, buf[1..ndx]);
    assert next_state == Act(state, buf, ndx);
    if next_state.None? {
      return true, pending', state', skip', scanned';
    }
    HandleKeepsRange(state, c, keyErr, keyType, buf[1..ndx]);
    state' := next_state.value;
    return false, pending', state', skip', scanned';
  }

  /**
   * processOTAAvailableFile: `availableGiven` and `clientGiven` say the
   * pointers are not NULL; `installed` is the running image's identity.
   * `available` is None while untouched. The result follows the file's
   * outcome: a parsed file gives ESP_OK with `available` saying whether its
   * versions are newer than the installed ones; an error gives its status
   * with `available` false; a read failing part way gives the stale status
   * the code returns there, with `available` false.
   */
  method ProcessOtaAvailableFile(availableGiven: bool, clientGiven: bool, replies: seq<Reply>, installed: Versions)
    returns (err: EspErr, available: Option<bool>, found: Versions)
    requires ValidReplies(replies)
    ensures !availableGiven || !clientGiven ==> err == InvalidArg && available.None?
    ensures availableGiven && clientGiven && ParseOtaFile(replies).Parsed? ==>
      err == Ok && found == ParseOtaFile(replies).versions && available == Some(CompareVersions(found, installed))
    ensures availableGiven && clientGiven && ParseOtaFile(replies).Failed? ==>
      err == ParseOtaFile(replies).status && available == Some(false)
    ensures availableGiven && clientGiven && ParseOtaFile(replies).Interrupted? ==>
      err == MidReadFailureAsWritten(Ok) && available == Some(false)
    ensures (availableGiven && clientGiven && !(NextRead(replies, 0).0.Bytes? && |NextRead(replies, 0).0.text| > 0))
      ==> err == NotFound
    ensures (availableGiven && clientGiven && NextRead(replies, 0).0.Bytes? && |NextRead(replies, 0).0.text| > 0 &&
             NextRead(replies, 0).0.text[0] in [':', ',', '}', '"'])
      ==> err == Fail
    ensures FoundInRange(found)
  {
    found := NO_VERSIONS;
    if !availableGiven || !clientGiven {
      return InvalidArg, None, found;
    }
    available := Some(false);
    var reply, next := ReadRetrying(replies, 0);
    if !reply.Bytes? || |reply.text| == 0 {
      return NotFound, available, found;
    }
    // circularBufferInit, circularBufferStore and a mark on the oldest
    // character: the marked text is the first chunk, and `err` holds the
    // ESP_OK of the last of those calls.
    var pending := reply.text;
    err := Ok;
    var state := START;
    var skip := NOT_SKIPPING;
    var first := pending[0];
    if first == '{' {
      state := state.(inJSON := true, inKey := true);
    } else if first == '#' {
      skip := skip.(comment := true);
    } else if first == ':' || first == ',' || first == '}' || first == '"' {
      return Fail, available, found;
    }
    ghost var outcome := ParseOtaFile(replies);
    var foundFormattingChar := true;
    while true
      invariant next <= |replies|
      invariant 1 <= |pending| <= CIRC_SIZE
      invariant available == Some(false) && FoundInRange(state.found) && found == NO_VERSIONS && err == Ok
      invariant ParseFrom(replies, next, pending, state, skip, foundFormattingChar) == outcome
      decreases |replies| - next, |pending|, if foundFormattingChar then 2 else 0
    {
      if !foundFormattingChar {
        var pass;
        pass, next, pending := ReadMore(replies, next, pending, state, skip);
        if pass == ReadInterrupted {
          return MidReadFailureAsWritten(err), available, found;
        }
        if pass == BodyEnded {
          break;
        }
        if pass == ParseFailed {
          return Fail, available, found;
        }
        // the skip states restart, since the window is read again
        skip := NOT_SKIPPING;
      }
      var failed;
      failed, pending, state, skip, foundFormattingChar := ScanPass(replies, next, pending, state, skip);
      if failed {
        return Fail, available, found;
      }
    }
    if !state.jsonParsed {
      return Fail, available, found;
    }
    found := state.found;
    available := Some(CompareVersions(found, installed));
    return Ok, available, found;
  }
}
