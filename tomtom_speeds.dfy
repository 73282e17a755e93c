/**
 * The speed stage of fetch_tomtom_data.py and of its older lineage
 * fetch_tomtom_three.py: requestSpeeds, the sorted CSV and one-byte-per-LED
 * files main writes, and the addendum createAddendum writes.
 *
 * The TomTom endpoints are the `Network` parameter of TileDecode.
 */
module TomtomSpeeds {
  import opened Wrappers
  import opened Text
  import opened Records
  import opened TileDecode
  import opened PyBytes
  import opened CsvResolver

  /** The two scripts differ in the "Special" sentinel and the addendum header. */
  datatype Lineage = DataScript | ThreeScript

  const SPECIAL: string := "Special"
  const DOMAIN_NAME: string := "https://bearanvil.com"
  const OUTPUT_FOLDER: string := "output"

  /** The speed a "Special" freeway gets without any request. */
  function SpecialSpeed(lineage: Lineage): int {
    match lineage
    case DataScript => -2
    case ThreeScript => 0
  }

  /** One (LED number, speed) row of requestSpeeds' result. */
  datatype SpeedPair = SpeedPair(led: nat, speed: int)

  // ---------------------------------------------------------------------
  // requestSpeeds
  // ---------------------------------------------------------------------

  /** What requestTileData gives for an entry: -1 unless the tile id is
      usable, the request answers and the tile decodes to a speed. */
  function TileResult(e: Entry, reply: Option<Tile>): int {
    if ValidEntryTileData(e) && reply.Some? && TileHasSpeed(reply.value) then TileSpeed(reply.value) else -1
  }

  /** The speed requestSpeeds settles on for one entry. */
  function EntrySpeed(lineage: Lineage, e: Entry, speedType: SpeedType, net: Network, failWithZero: bool): int {
    if e.freeway == SPECIAL then SpecialSpeed(lineage)
    else
      var tile := TileResult(e, net.tiles(e));
      var speed := if tile == -1 then RequestSegmentData(e, speedType, net.segments(e, speedType)) else tile;
      if speed == -1 && failWithZero then 0 else speed
  }

  /** Every LED of a list paired with one speed. */
  function WithSpeed(leds: seq<nat>, speed: int): (r: seq<SpeedPair>)
    ensures |r| == |leds|
  {
    if |leds| == 0 then [] else WithSpeed(leds[..|leds| - 1], speed) + [SpeedPair(leds[|leds| - 1], speed)]
  }

  /** requestSpeeds' list: each pair's speed for each of its LEDs, in order. */
  function SpeedPairs(lineage: Lineage, pairs: seq<Pair>, speedType: SpeedType, net: Network, failWithZero: bool): seq<SpeedPair> {
    if |pairs| == 0 then []
    else
      var last := pairs[|pairs| - 1];
      SpeedPairs(lineage, pairs[..|pairs| - 1], speedType, net, failWithZero)
        + WithSpeed(last.leds, EntrySpeed(lineage, last.entry, speedType, net, failWithZero))
  }

  method EntrySpeedOf(lineage: Lineage, e: Entry, speedType: SpeedType, net: Network, failWithZero: bool)
    returns (speed: int)
    ensures speed == EntrySpeed(lineage, e, speedType, net, failWithZero)
  {
    if e.freeway == SPECIAL {
      speed := SpecialSpeed(lineage);
    } else {
      speed := RequestTileData(e, net.tiles(e));
      if speed == -1 {
        speed := RequestSegmentData(e, speedType, net.segments(e, speedType));
      }
      if speed == -1 && failWithZero {
        speed := 0;
      }
    }
  }

  /**
   * requestSpeeds: None for the error an empty API key raises, otherwise
   * the (LED, speed) list built pair by pair.
   */
  method RequestSpeeds(lineage: Lineage, pairs: seq<Pair>, speedType: SpeedType, apiKey: string, net: Network, failWithZero: bool)
    returns (ret: Option<seq<SpeedPair>>)
    ensures apiKey == "" ==> ret.None?
    ensures apiKey != "" ==> ret == Some(SpeedPairs(lineage, pairs, speedType, net, failWithZero))
  {
    if apiKey == "" {
      return None;
    }
    var speeds: seq<SpeedPair> := [];
    for i := 0 to |pairs|
      invariant speeds == SpeedPairs(lineage, pairs[..i], speedType, net, failWithZero)
    {
      var speed := EntrySpeedOf(lineage, pairs[i].entry, speedType, net, failWithZero);
      var leds := pairs[i].leds;
      ghost var before := speeds;
      for j := 0 to |leds|
        invariant speeds == before + WithSpeed(leds[..j], speed)
      {
        speeds := speeds + [SpeedPair(leds[j], speed)];
        assert leds[..j + 1][..j] == leds[..j];
      }
      assert leds[..|leds|] == leds;
      assert pairs[..i + 1][..i] == pairs[..i];
    }
    assert pairs[..|pairs|] == pairs;
    return Some(speeds);
  }

  // ---------------------------------------------------------------------
  // Facts about requestSpeeds
  // ---------------------------------------------------------------------

  /** A "Special" entry gets the sentinel whatever the network answers. */
  lemma SpecialMakesNoRequest(lineage: Lineage, e: Entry, speedType: SpeedType, net: Network, other: Network, failWithZero: bool)
    requires e.freeway == SPECIAL
    ensures EntrySpeed(lineage, e, speedType, net, failWithZero) == SpecialSpeed(lineage)
    ensures EntrySpeed(lineage, e, speedType, other, failWithZero) == EntrySpeed(lineage, e, speedType, net, failWithZero)
  {
  }

  /** A usable tile answer is taken as is: the segment endpoint is not consulted. */
  lemma TileComesFirst(lineage: Lineage, e: Entry, speedType: SpeedType, net: Network, failWithZero: bool,
                       segments: (Entry, SpeedType) -> Option<SegmentResponse>)
    requires e.freeway != SPECIAL && TileResult(e, net.tiles(e)) != -1
    ensures EntrySpeed(lineage, e, speedType, net, failWithZero) == TileResult(e, net.tiles(e))
    ensures EntrySpeed(lineage, e, speedType, Network(net.tiles, segments), failWithZero)
         == EntrySpeed(lineage, e, speedType, net, failWithZero)
  {
  }

  /** With fail_with_zero no entry is left at -1. */
  lemma FailWithZeroLeavesNoUnknown(lineage: Lineage, pairs: seq<Pair>, speedType: SpeedType, net: Network)
    ensures forall p :: p in SpeedPairs(lineage, pairs, speedType, net, true) ==> p.speed != -1
  {
    forall p | p in SpeedPairs(lineage, pairs, speedType, net, true)
      ensures p.speed != -1
    {
      var k := SpeedPairOrigin(lineage, pairs, speedType, net, true, p);
    }
  }

  /** The LED numbers of a list of rows, in order. */
  function LedColumn(s: seq<SpeedPair>): (r: seq<nat>)
    ensures |r| == |s| && forall i :: 0 <= i < |s| ==> r[i] == s[i].led
  {
    seq(|s|, i requires 0 <= i < |s| => s[i].led)
  }

  lemma LedColumnAppend(a: seq<SpeedPair>, b: seq<SpeedPair>)
    ensures LedColumn(a + b) == LedColumn(a) + LedColumn(b)
  {
  }

  lemma {:induction false} LedColumnOfWithSpeed(leds: seq<nat>, speed: int)
    ensures LedColumn(WithSpeed(leds, speed)) == leds
  {
    if |leds| > 0 {
      LedColumnOfWithSpeed(leds[..|leds| - 1], speed);
      LedColumnAppend(WithSpeed(leds[..|leds| - 1], speed), [SpeedPair(leds[|leds| - 1], speed)]);
    }
  }

  /** The result lists every LED of every pair once, in pair order. */
  lemma {:induction false} SpeedPairsCoverPairs(lineage: Lineage, pairs: seq<Pair>, speedType: SpeedType, net: Network, failWithZero: bool)
    ensures LedColumn(SpeedPairs(lineage, pairs, speedType, net, failWithZero)) == Flatten(pairs)
  {
    if |pairs| > 0 {
      var last := pairs[|pairs| - 1];
      var init := SpeedPairs(lineage, pairs[..|pairs| - 1], speedType, net, failWithZero);
      var speed := EntrySpeed(lineage, last.entry, speedType, net, failWithZero);
      SpeedPairsCoverPairs(lineage, pairs[..|pairs| - 1], speedType, net, failWithZero);
      LedColumnAppend(init, WithSpeed(last.leds, speed));
      LedColumnOfWithSpeed(last.leds, speed);
    }
  }

  lemma {:induction false} WithSpeedMembers(leds: seq<nat>, speed: int, p: SpeedPair)
    ensures p in WithSpeed(leds, speed) <==> p.led in leds && p.speed == speed
  {
    if |leds| > 0 {
      WithSpeedMembers(leds[..|leds| - 1], speed, p);
      assert leds == leds[..|leds| - 1] + [leds[|leds| - 1]];
    }
  }

  /** Every row of the result is an LED of some pair with that pair's speed. */
  lemma {:induction false} SpeedPairOrigin(lineage: Lineage, pairs: seq<Pair>, speedType: SpeedType, net: Network, failWithZero: bool, p: SpeedPair)
    returns (k: nat)
    requires p in SpeedPairs(lineage, pairs, speedType, net, failWithZero)
    ensures k < |pairs| && p.led in pairs[k].leds
    ensures p.speed == EntrySpeed(lineage, pairs[k].entry, speedType, net, failWithZero)
  {
    var last := pairs[|pairs| - 1];
    var speed := EntrySpeed(lineage, last.entry, speedType, net, failWithZero);
    WithSpeedMembers(last.leds, speed, p);
    if p in WithSpeed(last.leds, speed) {
      k := |pairs| - 1;
    } else {
      k := SpeedPairOrigin(lineage, pairs[..|pairs| - 1], speedType, net, failWithZero, p);
    }
  }

  /** Conversely, every LED of a pair appears with that pair's speed. */
  lemma {:induction false} PairLedsGetTheirSpeed(lineage: Lineage, pairs: seq<Pair>, speedType: SpeedType, net: Network, failWithZero: bool, k: nat, led: nat)
    requires k < |pairs| && led in pairs[k].leds
    ensures SpeedPair(led, EntrySpeed(lineage, pairs[k].entry, speedType, net, failWithZero))
         in SpeedPairs(lineage, pairs, speedType, net, failWithZero)
  {
    var speed := EntrySpeed(lineage, pairs[k].entry, speedType, net, failWithZero);
    if k == |pairs| - 1 {
      WithSpeedMembers(pairs[k].leds, speed, SpeedPair(led, speed));
    } else {
      PairLedsGetTheirSpeed(lineage, pairs[..|pairs| - 1], speedType, net, failWithZero, k, led);
    }
  }

  // ---------------------------------------------------------------------
  // sorted(speeds, key=led)
  // ---------------------------------------------------------------------

  predicate SortedByLed(s: seq<SpeedPair>) {
    forall i, j :: 0 <= i < j < |s| ==> s[i].led <= s[j].led
  }

  /** Places `p` before the first row of `s` whose LED is not smaller. */
  function Insert(p: SpeedPair, s: seq<SpeedPair>): (r: seq<SpeedPair>)
    ensures |r| == |s| + 1
  {
    if |s| == 0 || p.led <= s[0].led then [p] + s else [s[0]] + Insert(p, s[1..])
  }

  /** Python's sorted() on the LED number: an insertion sort that keeps
      rows with equal LEDs in their original order. */
  function SortByLed(s: seq<SpeedPair>): (r: seq<SpeedPair>)
    ensures |r| == |s|
  {
    if |s| == 0 then [] else Insert(s[0], SortByLed(s[1..]))
  }

  lemma {:induction false} InsertSorted(p: SpeedPair, s: seq<SpeedPair>)
    requires SortedByLed(s)
    ensures SortedByLed(Insert(p, s))
    ensures Insert(p, s)[0] == p || (|s| > 0 && Insert(p, s)[0] == s[0])
  {
    if |s| > 0 && p.led > s[0].led {
      InsertSorted(p, s[1..]);
    }
  }

  lemma {:induction false} InsertPermutes(p: SpeedPair, s: seq<SpeedPair>)
    ensures multiset(Insert(p, s)) == multiset(s) + multiset{p}
  {
    if |s| > 0 && p.led > s[0].led {
      InsertPermutes(p, s[1..]);
      assert s == [s[0]] + s[1..];
    }
  }

  /** The rows come out ordered by LED number. */
  lemma {:induction false} SortByLedSorted(s: seq<SpeedPair>)
    ensures SortedByLed(SortByLed(s))
  {
    if |s| > 0 {
      SortByLedSorted(s[1..]);
      InsertSorted(s[0], SortByLed(s[1..]));
    }
  }

  /** The rows come out as a permutation of the rows that went in. */
  lemma {:induction false} SortByLedPermutes(s: seq<SpeedPair>)
    ensures multiset(SortByLed(s)) == multiset(s)
  {
    if |s| > 0 {
      SortByLedPermutes(s[1..]);
      InsertPermutes(s[0], SortByLed(s[1..]));
      assert s == [s[0]] + s[1..];
    }
  }

  lemma {:induction false} InsertLeds(p: SpeedPair, s: seq<SpeedPair>)
    ensures multiset(LedColumn(Insert(p, s))) == multiset(LedColumn(s)) + multiset{p.led}
  {
    LedColumnAppend([p], s);
    if |s| > 0 && p.led > s[0].led {
      assert s == [s[0]] + s[1..];
      InsertLeds(p, s[1..]);
      LedColumnAppend([s[0]], s[1..]);
      LedColumnAppend([s[0]], Insert(p, s[1..]));
    }
  }

  /** Sorting moves rows, so the LED numbers stay the same multiset. */
  lemma {:induction false} SortByLedLeds(s: seq<SpeedPair>)
    ensures multiset(LedColumn(SortByLed(s))) == multiset(LedColumn(s))
  {
    if |s| > 0 {
      SortByLedLeds(s[1..]);
      InsertLeds(s[0], SortByLed(s[1..]));
      assert LedColumn(s) == [s[0].led] + LedColumn(s[1..]);
    }
  }

  /** Sorting a sorted list changes nothing, so main's second sort is a no-op. */
  lemma {:induction false} SortSortedIsIdentity(s: seq<SpeedPair>)
    requires SortedByLed(s)
    ensures SortByLed(s) == s
  {
    if |s| > 0 {
      SortSortedIsIdentity(s[1..]);
      assert s == [s[0]] + s[1..];
    }
  }

  // ---------------------------------------------------------------------
  // The one-byte-per-LED file
  // ---------------------------------------------------------------------

  /** main's raw_speeds as written: -1 becomes 0, a 0 is put in front for
      index 0, every other value is kept. */
  function RawSpeeds(sorted: seq<SpeedPair>): (r: seq<int>)
    ensures |r| == |sorted| + 1
  {
    [0] + seq(|sorted|, i requires 0 <= i < |sorted| => if sorted[i].speed == -1 then 0 else sorted[i].speed)
  }

  /** raw_speeds as evidently intended: every negative sentinel, -1 and the
      "Special" -2 alike, becomes 0 for the old firmware. */
  function LegacySpeeds(sorted: seq<SpeedPair>): (r: seq<int>)
    ensures |r| == |sorted| + 1
  {
    [0] + seq(|sorted|, i requires 0 <= i < |sorted| => if sorted[i].speed < 0 then 0 else sorted[i].speed)
  }

  /**
   * As written, a "Special" entry of fetch_tomtom_data.py puts -2 into
   * raw_speeds, and bytearray raises: no byte file, no addendum, and main
   * returns False.
   */
  lemma SpecialBreaksRawBytes(pairs: seq<Pair>, speedType: SpeedType, net: Network, k: nat, led: nat)
    requires k < |pairs| && pairs[k].entry.freeway == SPECIAL && led in pairs[k].leds
    ensures ByteArray(RawSpeeds(SortByLed(SpeedPairs(DataScript, pairs, speedType, net, false)))) == None
  {
    var speeds := SpeedPairs(DataScript, pairs, speedType, net, false);
    PairLedsGetTheirSpeed(DataScript, pairs, speedType, net, false, k, led);
    var p := SpeedPair(led, -2);
    assert p in multiset(speeds);
    SortByLedPermutes(speeds);
    RawSpeedsRejectSentinel(SortByLed(speeds), p);
  }

  /** Any speed below -1 survives into raw_speeds and makes bytearray raise. */
  lemma RawSpeedsRejectSentinel(sorted: seq<SpeedPair>, p: SpeedPair)
    requires p in multiset(sorted) && p.speed < -1
    ensures ByteArray(RawSpeeds(sorted)) == None
  {
    var i :| 0 <= i < |sorted| && sorted[i] == p;
    OutOfRangeRaises(RawSpeeds(sorted), i + 1);
  }

  /** With every sentinel mapped to 0, the byte file fails only on a speed
      above 255, and byte i+1 is the i-th sorted row's speed. */
  lemma LegacyBytesFit(sorted: seq<SpeedPair>)
    requires forall i :: 0 <= i < |sorted| ==> sorted[i].speed < 256
    ensures ByteArray(LegacySpeeds(sorted)).Some?
    ensures var b := ByteArray(LegacySpeeds(sorted)).value;
      b[0] == 0 && forall i :: 0 <= i < |sorted| ==> b[i + 1] as int == (if sorted[i].speed < 0 then 0 else sorted[i].speed)
  {
    assert AllBytes(LegacySpeeds(sorted));
  }

  /** The bytes main writes: a 0, then each sorted row's speed with the
      sentinels turned into 0. */
  lemma LegacyBytes(sorted: seq<SpeedPair>, b: seq<byte>)
    requires ByteArray(LegacySpeeds(sorted)) == Some(b)
    ensures |b| == |sorted| + 1 && b[0] == 0
    ensures forall i :: 0 <= i < |sorted| ==> b[i + 1] as int == (if sorted[i].speed < 0 then 0 else sorted[i].speed)
  {
    forall i | 0 <= i < |sorted|
      ensures b[i + 1] as int == (if sorted[i].speed < 0 then 0 else sorted[i].speed)
    {
      assert b[i + 1] as int == LegacySpeeds(sorted)[i + 1];
    }
  }

  /** Where no -2 occurs the correction changes nothing. */
  lemma LegacyAgreesWithRaw(sorted: seq<SpeedPair>)
    requires forall i :: 0 <= i < |sorted| ==> sorted[i].speed >= -1
    ensures LegacySpeeds(sorted) == RawSpeeds(sorted)
  {
  }

  /** A byte file made as written holds no speed below -1. */
  lemma BytesMeanNoSpecial(sorted: seq<SpeedPair>)
    requires ByteArray(RawSpeeds(sorted)).Some?
    ensures forall i :: 0 <= i < |sorted| ==> sorted[i].speed >= -1
  {
    forall i | 0 <= i < |sorted|
      ensures sorted[i].speed >= -1
    {
      assert RawSpeeds(sorted)[i + 1] >= 0;
    }
  }

  // ---------------------------------------------------------------------
  // CSV rows
  // ---------------------------------------------------------------------

  /** csv.writer with the excel dialect on one (LED, speed) tuple. */
  function CsvRow(p: SpeedPair): string {
    IntToString(p.led) + "," + IntToString(p.speed) + "\r\n"
  }

  function CsvText(rows: seq<SpeedPair>): string {
    if |rows| == 0 then "" else CsvText(rows[..|rows| - 1]) + CsvRow(rows[|rows| - 1])
  }

  /** The index of the first `c` in `s`, or -1. */
  function IndexOf(s: string, c: char): (r: int)
    ensures -1 <= r < |s|
    ensures r == -1 <==> c !in s
    ensures r >= 0 ==> s[r] == c && c !in s[..r]
  {
    if |s| == 0 then -1
    else if s[0] == c then 0
    else
      var r := IndexOf(s[1..], c);
      assert s == [s[0]] + s[1..];
      if r == -1 then -1 else
        assert s[..r + 1] == [s[0]] + s[1..][..r];
        r + 1
  }

  /** Reads one CSV row back with int() on both fields. */
  function ParseCsvRow(line: string): Option<SpeedPair> {
    var k := IndexOf(line, ',');
    if k < 0 then None else ParseFields(line[..k], line[k + 1..])
  }

  function ParseFields(led: string, speed: string): Option<SpeedPair> {
    match (PyInt(led), PyInt(speed))
    case (Some(n), Some(v)) => if n >= 0 then Some(SpeedPair(n, v)) else None
    case _ => None
  }

  /** The first `c` of `s + t` is the head of `t` when `s` holds none. */
  lemma {:induction false} IndexOfAfter(s: string, t: string, c: char)
    requires c !in s && |t| > 0 && t[0] == c
    ensures IndexOf(s + t, c) == |s|
  {
    if |s| > 0 {
      assert (s + t)[1..] == s[1..] + t;
      IndexOfAfter(s[1..], t, c);
    }
  }

  /** Every row written reads back as the same (LED, speed) pair. */
  lemma CsvRowRoundTrip(p: SpeedPair)
    ensures ParseCsvRow(CsvRow(p)) == Some(p)
  {
    CsvRowSplits(p);
    NumeralFields(p);
  }

  lemma NumeralFields(p: SpeedPair)
    ensures ParseFields(IntToString(p.led), IntToString(p.speed) + "\r\n") == Some(p)
  {
    var a := IntToString(p.led);
    var b := IntToString(p.speed) + "\r\n";
    assert PyInt(a) == Some(p.led as int) by {
      PyIntOfString(p.led);
    }
    assert PyInt(b) == Some(p.speed) by {
      PyIntOfString(p.speed);
      PyIntOfField(p.speed, "\r\n");
    }
    assert (PyInt(a), PyInt(b)) == (Some(p.led as int), Some(p.speed));
  }

  /** The first comma of a row ends the LED field. */
  lemma CsvRowSplits(p: SpeedPair)
    ensures ParseCsvRow(CsvRow(p)) == ParseFields(IntToString(p.led), IntToString(p.speed) + "\r\n")
  {
    var a := IntToString(p.led);
    var line := CsvRow(p);
    assert a == Decimal(p.led);
    assert line == a + ([','] + IntToString(p.speed) + "\r\n");
    assert ',' !in a by {
      forall i | 0 <= i < |a| ensures a[i] != ',' {
        assert IsDigit(a[i]);
      }
    }
    IndexOfAfter(a, [','] + IntToString(p.speed) + "\r\n", ',');
    assert line[..|a|] == a;
    assert line[|a| + 1..] == IntToString(p.speed) + "\r\n";
  }

  // ---------------------------------------------------------------------
  // createAddendum
  // ---------------------------------------------------------------------

  /** An addendum: the URL or file it amends, and its unsorted rows. */
  datatype Addendum = Addendum(prev: string, speeds: seq<SpeedPair>)

  /** The file text: "{prev}", a blank line, then the CSV rows. */
  function AddendumText(a: Addendum): string {
    ['{'] + a.prev + ['}', '\n', '\n'] + CsvText(a.speeds)
  }

  /** Reads the header back: the text up to the first '}' after a leading
      '{', followed by the blank line. */
  function ParseAddendumHeader(text: string): Option<(string, string)> {
    if |text| == 0 || text[0] != '{' then None
    else
      var t := text[1..];
      var k := IndexOf(t, '}');
      if k < 0 || |t| < k + 3 || t[k + 1] != '\n' || t[k + 2] != '\n' then None
      else Some((t[..k], t[k + 3..]))
  }

  /** A prev link without '}' is read back from the header, and the CSV
      rows follow it. */
  lemma AddendumHeaderRoundTrip(a: Addendum)
    requires '}' !in a.prev
    ensures ParseAddendumHeader(AddendumText(a)) == Some((a.prev, CsvText(a.speeds)))
  {
    HeaderRoundTrip(a.prev, CsvText(a.speeds));
  }

  lemma HeaderRoundTrip(prev: string, body: string)
    requires '}' !in prev
    ensures ParseAddendumHeader(['{'] + prev + ['}', '\n', '\n'] + body) == Some((prev, body))
  {
    var rest := ['}', '\n', '\n'] + body;
    var t := prev + rest;
    assert (['{'] + prev + ['}', '\n', '\n'] + body)[1..] == t;
    IndexOfAfter(prev, rest, '}');
    assert t[..|prev|] == prev;
    assert t[|prev| + 3..] == body;
  }

  /** What createAddendum writes: the addendum CSV pruned with gaps allowed
      and requested without fail_with_zero; None when anything raises,
      which createAddendum only logs. */
  function AddendumOutcome(lineage: Lineage, prev: string, entries: seq<Entry>, direction: Direction,
                           speedType: SpeedType, apiKey: string, net: Network): Option<Addendum> {
    if direction == UnknownDirection then None
    else
      match PruneOutcome(ReadRows(Active(entries, direction)), true)
      case Raised(_) => None
      case Pruned(pairs) =>
        if apiKey == "" then None else Some(Addendum(prev, SpeedPairs(lineage, pairs, speedType, net, false)))
  }

  method CreateAddendum(lineage: Lineage, prev: string, entries: seq<Entry>, direction: Direction,
                        speedType: SpeedType, apiKey: string, net: Network)
    returns (addendum: Option<Addendum>)
    ensures addendum == AddendumOutcome(lineage, prev, entries, direction, speedType, apiKey, net)
  {
    var pruned := PruneCsvEntries(entries, direction, true);
    if pruned.Raised? {
      return None;
    }
    var speeds := RequestSpeeds(lineage, pruned.pairs, speedType, apiKey, net, false);
    if speeds.None? {
      return None;
    }
    return Some(Addendum(prev, speeds.value));
  }

  // ---------------------------------------------------------------------
  // main
  // ---------------------------------------------------------------------

  /** The files a run leaves behind, each None when it was not written. */
  datatype Files = Files(csv: Option<seq<SpeedPair>>, bytes: Option<seq<byte>>, addendum: Option<Addendum>)

  const NO_FILES := Files(None, None, None)

  /** main returns True or False, or raises out of the script. */
  datatype Outcome = Returned(success: bool, files: Files) | Crashed

  /** The file the addendum amends: the published URL of the main output,
      or, in the older lineage, the output file name itself. */
  function PrevAddendum(lineage: Lineage, outputName: string): string {
    match lineage
    case DataScript => DOMAIN_NAME + "/" + OUTPUT_FOLDER + "/" + outputName
    case ThreeScript => outputName
  }

  /** The list main hands to bytearray: raw_speeds as written, or with
      every negative sentinel turned into 0 when `corrected`. */
  function ByteSpeeds(sorted: seq<SpeedPair>, corrected: bool): (r: seq<int>)
    ensures |r| == |sorted| + 1
  {
    if corrected then LegacySpeeds(sorted) else RawSpeeds(sorted)
  }

  /**
   * main(speed_type, direction, api_key, csv, output, output_2), with the
   * byte list as written or corrected. Without a second output
   * fetch_tomtom_data.py raises while building the path, before its try
   * block, and fetch_tomtom_three.py fails to open it after the CSV is
   * written.
   */
  function MainRun(corrected: bool, lineage: Lineage, speedType: SpeedType, direction: Direction, apiKey: string,
                   entries: seq<Entry>, addendumEntries: seq<Entry>, net: Network,
                   outputName: string, secondOutput: bool): Outcome {
    if direction == UnknownDirection then Returned(false, NO_FILES)
    else if lineage == DataScript && !secondOutput then Crashed
    else
      match PruneOutcome(ReadRows(Active(entries, direction)), false)
      case Raised(_) => Returned(false, NO_FILES)
      case Pruned(pairs) =>
        if apiKey == "" then Returned(false, NO_FILES)
        else
          var csv := SortByLed(SpeedPairs(lineage, pairs, speedType, net, false));
          var bytes := ByteArray(ByteSpeeds(SortByLed(csv), corrected));
          if bytes.None? || !secondOutput then Returned(false, Files(Some(csv), None, None))
          else
            var addendum := AddendumOutcome(lineage, PrevAddendum(lineage, outputName), addendumEntries,
                                            direction, speedType, apiKey, net);
            Returned(true, Files(Some(csv), bytes, addendum))
  }

  /** main as written. */
  function MainOutcome(lineage: Lineage, speedType: SpeedType, direction: Direction, apiKey: string,
                       entries: seq<Entry>, addendumEntries: seq<Entry>, net: Network,
                       outputName: string, secondOutput: bool): Outcome {
    MainRun(false, lineage, speedType, direction, apiKey, entries, addendumEntries, net, outputName, secondOutput)
  }

  /** main as evidently intended: a "Special" row writes a 0 byte. */
  function MainOutcomeCorrected(lineage: Lineage, speedType: SpeedType, direction: Direction, apiKey: string,
                                entries: seq<Entry>, addendumEntries: seq<Entry>, net: Network,
                                outputName: string, secondOutput: bool): Outcome {
    MainRun(true, lineage, speedType, direction, apiKey, entries, addendumEntries, net, outputName, secondOutput)
  }

  method RunMain(lineage: Lineage, speedType: SpeedType, direction: Direction, apiKey: string,
              entries: seq<Entry>, addendumEntries: seq<Entry>, net: Network,
              outputName: string, secondOutput: bool)
    returns (outcome: Outcome)
    ensures outcome == MainOutcome(lineage, speedType, direction, apiKey, entries, addendumEntries, net, outputName, secondOutput)
  {
    if direction == UnknownDirection {
      return Returned(false, NO_FILES);
    }
    if lineage == DataScript && !secondOutput {
      return Crashed;
    }
    var pruned := PruneCsvEntries(entries, direction, false);
    if pruned.Raised? {
      return Returned(false, NO_FILES);
    }
    var speeds := RequestSpeeds(lineage, pruned.pairs, speedType, apiKey, net, false);
    if speeds.None? {
      return Returned(false, NO_FILES);
    }
    var csv := SortByLed(speeds.value);
    var bytes := ByteArray(RawSpeeds(SortByLed(csv)));
    if bytes.None? || !secondOutput {
      return Returned(false, Files(Some(csv), None, None));
    }
    var addendum := CreateAddendum(lineage, PrevAddendum(lineage, outputName), addendumEntries,
                                   direction, speedType, apiKey, net);
    return Returned(true, Files(Some(csv), bytes, addendum));
  }

  // ---------------------------------------------------------------------
  // Facts about main
  // ---------------------------------------------------------------------

  /**
   * A successful run writes the rows of its direction's LEDs, each LED
   * once, sorted, with no gap between the smallest and largest; the byte
   * file has a leading 0 and then one byte per row, each row's speed with
   * the sentinels turned into 0.
   */
  lemma MainSuccess(lineage: Lineage, speedType: SpeedType, direction: Direction, apiKey: string,
                    entries: seq<Entry>, addendumEntries: seq<Entry>, net: Network,
                    outputName: string, secondOutput: bool)
    requires MainOutcome(lineage, speedType, direction, apiKey, entries, addendumEntries, net, outputName, secondOutput).Returned?
    requires MainOutcome(lineage, speedType, direction, apiKey, entries, addendumEntries, net, outputName, secondOutput).success
    ensures var files := MainOutcome(lineage, speedType, direction, apiKey, entries, addendumEntries, net, outputName, secondOutput).files;
      var rows := ReadRows(Active(entries, direction));
      && files.csv.Some? && files.bytes.Some?
      && SortedByLed(files.csv.value)
      && multiset(LedColumn(files.csv.value)) == multiset(RowNums(rows))
      && !HasDuplicate(rows) && NoGaps(LedSet(rows))
      && |files.bytes.value| == |files.csv.value| + 1 && files.bytes.value[0] == 0
      && forall i :: 0 <= i < |files.csv.value| ==>
           files.bytes.value[i + 1] as int == (if files.csv.value[i].speed < 0 then 0 else files.csv.value[i].speed)
  {
    var o := MainOutcome(lineage, speedType, direction, apiKey, entries, addendumEntries, net, outputName, secondOutput);
    var rows := ReadRows(Active(entries, direction));
    var csv := SuccessfulRun(lineage, speedType, direction, apiKey, entries, addendumEntries, net, outputName, secondOutput);
    BytesMeanNoSpecial(csv);
    LegacyAgreesWithRaw(csv);
    LegacyBytes(csv, o.files.bytes.value);
    CsvLeds(lineage, rows, speedType, net);
  }

  /** What a successful run went through: the pruning passed and the bytes
      were made from the sorted CSV rows. */
  lemma SuccessfulRun(lineage: Lineage, speedType: SpeedType, direction: Direction, apiKey: string,
                      entries: seq<Entry>, addendumEntries: seq<Entry>, net: Network,
                      outputName: string, secondOutput: bool)
    returns (csv: seq<SpeedPair>)
    requires MainOutcome(lineage, speedType, direction, apiKey, entries, addendumEntries, net, outputName, secondOutput).Returned?
    requires MainOutcome(lineage, speedType, direction, apiKey, entries, addendumEntries, net, outputName, secondOutput).success
    ensures var files := MainOutcome(lineage, speedType, direction, apiKey, entries, addendumEntries, net, outputName, secondOutput).files;
      var rows := ReadRows(Active(entries, direction));
      && !HasDuplicate(rows) && NoGaps(LedSet(rows)) && !DanglingReference(rows)
      && csv == SortByLed(SpeedPairs(lineage, Resolved(rows), speedType, net, false))
      && SortedByLed(csv)
      && files.csv == Some(csv) && files.bytes == ByteArray(RawSpeeds(csv)) && files.bytes.Some?
  {
    var rows := ReadRows(Active(entries, direction));
    assert PruneOutcome(rows, false) == Pruned(Resolved(rows));
    csv := SortByLed(SpeedPairs(lineage, Resolved(rows), speedType, net, false));
    SortByLedSorted(SpeedPairs(lineage, Resolved(rows), speedType, net, false));
    SortSortedIsIdentity(csv);
  }

  /** The CSV of a resolved run holds each LED number of its rows once. */
  lemma CsvLeds(lineage: Lineage, rows: seq<Row>, speedType: SpeedType, net: Network)
    requires !HasDuplicate(rows) && !DanglingReference(rows)
    ensures multiset(LedColumn(SortByLed(SpeedPairs(lineage, Resolved(rows), speedType, net, false)))) == multiset(RowNums(rows))
  {
    var speeds := SpeedPairs(lineage, Resolved(rows), speedType, net, false);
    SortByLedLeds(speeds);
    SpeedPairsCoverPairs(lineage, Resolved(rows), speedType, net, false);
    ResolvedPartitionsLeds(rows);
  }

  /** A run that fails writes no byte file and no addendum; only a failure
      after the sorting leaves the CSV behind. */
  lemma MainFailureWritesNoBytes(lineage: Lineage, speedType: SpeedType, direction: Direction, apiKey: string,
                                 entries: seq<Entry>, addendumEntries: seq<Entry>, net: Network,
                                 outputName: string, secondOutput: bool)
    requires MainOutcome(lineage, speedType, direction, apiKey, entries, addendumEntries, net, outputName, secondOutput).Returned?
    requires !MainOutcome(lineage, speedType, direction, apiKey, entries, addendumEntries, net, outputName, secondOutput).success
    ensures var files := MainOutcome(lineage, speedType, direction, apiKey, entries, addendumEntries, net, outputName, secondOutput).files;
      files.bytes.None? && files.addendum.None?
      && (files.csv.None? <==>
            direction == UnknownDirection || apiKey == ""
            || PruneOutcome(ReadRows(Active(entries, direction)), false).Raised?)
  {
  }

  /** The older lineage run without a second output (the "typical" runs)
      writes the CSV and then reports failure. */
  lemma ThreeWithoutSecondOutput(speedType: SpeedType, direction: Direction, apiKey: string,
                                 entries: seq<Entry>, addendumEntries: seq<Entry>, net: Network, outputName: string)
    requires direction != UnknownDirection && apiKey != ""
    requires PruneOutcome(ReadRows(Active(entries, direction)), false).Pruned?
    ensures var o := MainOutcome(ThreeScript, speedType, direction, apiKey, entries, addendumEntries, net, outputName, false);
      o == Returned(false, Files(o.files.csv, None, None)) && o.files.csv.Some?
  {
  }

  /** Every run main completes as written ends the same with the
      correction. */
  lemma CorrectionKeepsSuccessfulRuns(lineage: Lineage, speedType: SpeedType, direction: Direction, apiKey: string,
                                      entries: seq<Entry>, addendumEntries: seq<Entry>, net: Network,
                                      outputName: string, secondOutput: bool)
    requires MainOutcome(lineage, speedType, direction, apiKey, entries, addendumEntries, net, outputName, secondOutput).Returned?
    requires MainOutcome(lineage, speedType, direction, apiKey, entries, addendumEntries, net, outputName, secondOutput).success
    ensures MainOutcomeCorrected(lineage, speedType, direction, apiKey, entries, addendumEntries, net, outputName, secondOutput)
         == MainOutcome(lineage, speedType, direction, apiKey, entries, addendumEntries, net, outputName, secondOutput)
  {
    var csv := SuccessfulRun(lineage, speedType, direction, apiKey, entries, addendumEntries, net, outputName, secondOutput);
    var rows := ReadRows(Active(entries, direction));
    assert PruneOutcome(rows, false) == Pruned(Resolved(rows));
    assert SortByLed(csv) == csv by {
      SortSortedIsIdentity(csv);
    }
    BytesMeanNoSpecial(csv);
    LegacyAgreesWithRaw(csv);
    RunsAgreeOnBytes(lineage, speedType, direction, apiKey, entries, addendumEntries, net, outputName, secondOutput,
                     Resolved(rows));
  }

  /** Two runs that reach the byte file with the same bytes end the same. */
  lemma RunsAgreeOnBytes(lineage: Lineage, speedType: SpeedType, direction: Direction, apiKey: string,
                         entries: seq<Entry>, addendumEntries: seq<Entry>, net: Network,
                         outputName: string, secondOutput: bool, pairs: seq<Pair>)
    requires direction != UnknownDirection && !(lineage == DataScript && !secondOutput) && apiKey != ""
    requires PruneOutcome(ReadRows(Active(entries, direction)), false) == Pruned(pairs)
    requires var csv := SortByLed(SpeedPairs(lineage, pairs, speedType, net, false));
      ByteSpeeds(SortByLed(csv), true) == ByteSpeeds(SortByLed(csv), false)
    ensures MainOutcomeCorrected(lineage, speedType, direction, apiKey, entries, addendumEntries, net, outputName, secondOutput)
         == MainOutcome(lineage, speedType, direction, apiKey, entries, addendumEntries, net, outputName, secondOutput)
  {
  }

  /** The correction only rescues runs whose CSV holds a speed below -1,
      that is a "Special" row; those it turns into successes. */
  lemma CorrectionRescuesOnlySpecial(lineage: Lineage, speedType: SpeedType, direction: Direction, apiKey: string,
                                     entries: seq<Entry>, addendumEntries: seq<Entry>, net: Network,
                                     outputName: string, secondOutput: bool)
    ensures var o := MainOutcome(lineage, speedType, direction, apiKey, entries, addendumEntries, net, outputName, secondOutput);
      var c := MainOutcomeCorrected(lineage, speedType, direction, apiKey, entries, addendumEntries, net, outputName, secondOutput);
      c != o ==>
      && o.Returned? && !o.success && o.files.csv.Some? && c.Returned? && c.success && c.files.csv == o.files.csv
      && exists i :: 0 <= i < |o.files.csv.value| && o.files.csv.value[i].speed < -1
  {
    if direction != UnknownDirection && !(lineage == DataScript && !secondOutput) && apiKey != "" {
      var rows := ReadRows(Active(entries, direction));
      match PruneOutcome(rows, false)
      case Raised(_) =>
      case Pruned(pairs) =>
        var csv := SortByLed(SpeedPairs(lineage, pairs, speedType, net, false));
        SortByLedSorted(SpeedPairs(lineage, pairs, speedType, net, false));
        SortSortedIsIdentity(csv);
        if forall i :: 0 <= i < |csv| ==> csv[i].speed >= -1 {
          LegacyAgreesWithRaw(csv);
          assert ByteSpeeds(SortByLed(csv), true) == ByteSpeeds(SortByLed(csv), false);
        } else if ByteArray(RawSpeeds(csv)).Some? {
          BytesMeanNoSpecial(csv);
        }
    }
  }
}
