/**
 * generate_led_coordinates.py: from the pick-and-place rows of a board it
 * keeps the designators "LED<number>", one part per LED number, and writes
 * the C table LEDNumToCoord with one row per index 0..max: the part's
 * rounded Mid X and Mid Y, or {0, 0} where no LED carries the number.
 *
 * Reading "Mid X" and "Mid Y" as floats and rounding them is a parameter
 * `coord` (round(float(text))).
 */
module LedCoordinates {
  import opened Wrappers
  import opened Text

  /** One CSV row: its designator and its Mid X / Mid Y text. */
  datatype Part = Part(designator: string, midX: string, midY: string)

  // ---------------------------------------------------------------------
  // Designators
  // ---------------------------------------------------------------------

  /** re.match("LED\d+", d): "LED" and a digit at the start. */
  predicate MatchesLed(d: string) {
    |d| >= 4 && d[0] == 'L' && d[1] == 'E' && d[2] == 'D' && IsDigit(d[3])
  }

  /** The longest run of digits at the start of s. */
  function LeadingDigits(s: string): (d: string)
    ensures AllDigits(d) && |d| <= |s| && d == s[..|d|]
    ensures |d| < |s| ==> !IsDigit(s[|d|])
  {
    if |s| == 0 || !IsDigit(s[0]) then []
    else [s[0]] + LeadingDigits(s[1..])
  }

  /** re.search("\d+", d): the first run of digits anywhere in d. */
  function SearchDigits(s: string): (r: Option<string>)
    ensures r.Some? ==> |r.value| > 0 && AllDigits(r.value)
  {
    if |s| == 0 then None
    else if IsDigit(s[0]) then Some(LeadingDigits(s))
    else SearchDigits(s[1..])
  }

  /** The LED number pruneCSVEntries takes from a designator, None for a
      designator it skips. */
  function LedNumberOf(d: string): Option<nat> {
    if !MatchesLed(d) then None
    else
      match SearchDigits(d)
      case None => None
      case Some(digits) => Some(DigitsValue(digits))
  }

  /** After a match the search finds the digits right after "LED": the
      branch that reports a match without a number cannot be taken. */
  lemma SearchAfterMatch(d: string)
    requires MatchesLed(d)
    ensures SearchDigits(d) == Some(LeadingDigits(d[3..]))
    ensures LedNumberOf(d) == Some(DigitsValue(LeadingDigits(d[3..])))
  {
    assert !IsDigit(d[0]) && !IsDigit(d[1]) && !IsDigit(d[2]);
    assert SearchDigits(d) == SearchDigits(d[1..]);
    assert SearchDigits(d[1..]) == SearchDigits(d[2..]) by {
      assert d[1..][1..] == d[2..];
    }
    assert SearchDigits(d[2..]) == SearchDigits(d[3..]) by {
      assert d[2..][1..] == d[3..];
    }
  }

  /** "LED" followed by the numeral of n is LED n's designator, whatever
      follows the digits. */
  lemma DesignatorOfNumber(n: nat, rest: string)
    requires |rest| == 0 || !IsDigit(rest[0])
    ensures LedNumberOf("LED" + Decimal(n) + rest) == Some(n)
  {
    var d := "LED" + Decimal(n) + rest;
    assert d[3..] == Decimal(n) + rest;
    SearchAfterMatch(d);
    DigitsPrefix(Decimal(n), rest);
    DigitsOfDecimal(n);
  }

  lemma {:induction false} DigitsPrefix(digits: string, rest: string)
    requires AllDigits(digits)
    requires |rest| == 0 || !IsDigit(rest[0])
    ensures LeadingDigits(digits + rest) == digits
  {
    if |digits| > 0 {
      assert (digits + rest)[1..] == digits[1..] + rest;
      DigitsPrefix(digits[1..], rest);
      assert digits == [digits[0]] + digits[1..];
    } else {
      assert digits + rest == rest;
    }
  }

  /** A designator that does not start with "LED" and a digit is skipped. */
  lemma OtherDesignatorsSkipped(d: string)
    requires !MatchesLed(d)
    ensures LedNumberOf(d).None?
  {
  }

  // ---------------------------------------------------------------------
  // pruneCSVEntries
  // ---------------------------------------------------------------------

  /** A value of led_to_entry: the part kept and the comment of its row. */
  datatype Slot = Slot(part: Part, comment: string)

  const DUPLICATE_NOTE := ", duplicate detected"

  /** led_to_entry after the given rows. */
  function Pruned(parts: seq<Part>): map<nat, Slot> {
    if |parts| == 0 then map[]
    else
      var prev := Pruned(parts[..|parts| - 1]);
      var p := parts[|parts| - 1];
      match LedNumberOf(p.designator)
      case None => prev
      case Some(n) =>
        if n !in prev then prev[n := Slot(p, Decimal(n))]
        else prev[n := Slot(prev[n].part, Decimal(n) + DUPLICATE_NOTE)]
  }

  /** The part carries LED number n. */
  predicate Carries(p: Part, n: nat) {
    LedNumberOf(p.designator) == Some(n)
  }

  /** How many rows carry LED number n. */
  function Count(parts: seq<Part>, n: nat): nat {
    if |parts| == 0 then 0
    else Count(parts[..|parts| - 1], n) + (if Carries(parts[|parts| - 1], n) then 1 else 0)
  }

  /** The first row that carries LED number n. */
  function FirstPart(parts: seq<Part>, n: nat): (r: Option<Part>)
    ensures r.Some? ==> r.value in parts && Carries(r.value, n)
  {
    if |parts| == 0 then None
    else
      var f := FirstPart(parts[..|parts| - 1], n);
      if f.Some? then f
      else if Carries(parts[|parts| - 1], n) then Some(parts[|parts| - 1])
      else None
  }

  /** led_to_entry has LED n exactly when some row carries n; it keeps the
      first such row, and its comment notes a duplicate exactly when a
      second row carries n. */
  lemma {:induction false} PrunedSlot(parts: seq<Part>, n: nat)
    ensures n in Pruned(parts) <==> Count(parts, n) > 0
    ensures FirstPart(parts, n).Some? <==> Count(parts, n) > 0
    ensures n in Pruned(parts) ==>
      Pruned(parts)[n] == Slot(FirstPart(parts, n).value, if Count(parts, n) > 1 then Decimal(n) + DUPLICATE_NOTE else Decimal(n))
  {
    if |parts| > 0 {
      var init := parts[..|parts| - 1];
      PrunedSlot(init, n);
      var p := parts[|parts| - 1];
    }
  }

  /** FirstPart is the first: the part of the earliest row that carries
      the number. */
  lemma {:induction false} FirstPartIsFirst(parts: seq<Part>, n: nat, i: nat)
    requires i < |parts| && Carries(parts[i], n)
    requires forall j :: 0 <= j < i ==> !Carries(parts[j], n)
    ensures FirstPart(parts, n) == Some(parts[i])
  {
    var init := parts[..|parts| - 1];
    if i < |init| {
      FirstPartIsFirst(init, n, i);
    }
  }

  /** pruneCSVEntries(csv_reader) */
  method PruneCsvEntries(parts: seq<Part>) returns (ret: map<nat, Slot>)
    ensures ret == Pruned(parts)
  {
    ret := map[];
    for i := 0 to |parts|
      invariant ret == Pruned(parts[..i])
    {
      var entry := parts[i];
      assert parts[..i + 1][..i] == parts[..i];
      if !MatchesLed(entry.designator) {
        continue;
      }
      var found := SearchDigits(entry.designator);
      SearchAfterMatch(entry.designator);
      var ledNum := DigitsValue(found.value);
      if ledNum !in ret {
        ret := ret[ledNum := Slot(entry, Decimal(ledNum))];
      } else {
        ret := ret[ledNum := Slot(ret[ledNum].part, Decimal(ledNum) + DUPLICATE_NOTE)];
      }
    }
    assert parts[..|parts|] == parts;
  }

  // ---------------------------------------------------------------------
  // The table main writes
  // ---------------------------------------------------------------------

  const HEADER := "/* A mapping from LED number to corresponding\nx, y PCB coordinates. */\nstatic const LEDCoord LEDNumToCoord[] = {\n"
  const FOOTER := "};\n"

  /** The row for index ndx. */
  function Row(ndx: nat, table: map<nat, Slot>, coord: string -> int): string {
    if ndx !in table then "\t{0, 0}, // there is no LED with number " + Decimal(ndx) + "\n"
    else
      var slot := table[ndx];
      "\t{" + IntToString(coord(slot.part.midX)) + ", " + IntToString(coord(slot.part.midY)) + "}, // " + slot.comment + "\n"
  }

  /** The rows for indices 0..k-1. */
  function RowsUpTo(table: map<nat, Slot>, coord: string -> int, k: nat): string {
    if k == 0 then "" else RowsUpTo(table, coord, k - 1) + Row(k - 1, table, coord)
  }

  /** The largest LED number any row carries, 0 when none does. */
  function MaxNumber(parts: seq<Part>): (max: nat)
    ensures forall n: nat :: Count(parts, n) > 0 ==> n <= max
    ensures max == 0 || Count(parts, max) > 0
  {
    if |parts| == 0 then 0
    else
      var m := MaxNumber(parts[..|parts| - 1]);
      match LedNumberOf(parts[|parts| - 1].designator)
      case None => m
      case Some(n) => if n > m then n else m
  }

  /** When some row carries a number, MaxNumber is one of them. */
  lemma MaxNumberIsCarried(parts: seq<Part>)
    requires exists n :: Count(parts, n) > 0
    ensures Count(parts, MaxNumber(parts)) > 0
  {
  }

  /**
   * main(input_filename, output_filename): the text written to the file or
   * printed, None when no designator names an LED and max() raises.
   */
  ghost function Coordinates(parts: seq<Part>, coord: string -> int): Option<string> {
    var table := Pruned(parts);
    if table == map[] then None
    else Some(HEADER + RowsUpTo(table, coord, MaxNumber(parts) + 1) + FOOTER)
  }

  /** max(led_to_entry.keys()) */
  method MaxKey(table: map<nat, Slot>) returns (max: nat)
    requires table != map[]
    ensures max in table && forall k :: k in table ==> k <= max
  {
    var keys := table.Keys;
    EmptyOrKeyed(table);
    var first :| first in keys;
    max := first;
    keys := keys - {first};
    while keys != {}
      invariant max in table && keys <= table.Keys
      invariant forall k :: k in table ==> k <= max || k in keys
      decreases |keys|
    {
      var k :| k in keys;
      if k > max {
        max := k;
      }
      keys := keys - {k};
    }
  }

  lemma EmptyOrKeyed(table: map<nat, Slot>)
    ensures table == map[] || exists k :: k in table.Keys
  {
    if !exists k :: k in table.Keys {
      assert table == map[];
    }
  }

  method RunMain(parts: seq<Part>, coord: string -> int) returns (text: Option<string>)
    ensures text == Coordinates(parts, coord)
  {
    var table := PruneCsvEntries(parts);
    if table == map[] {
      return None;
    }
    var max := MaxKey(table);
    MaxKeyIsMaxNumber(parts, max);
    var rows := WriteRows(table, coord, max + 1);
    return Some(HEADER + rows + FOOTER);
  }

  lemma MaxKeyIsMaxNumber(parts: seq<Part>, max: nat)
    requires max in Pruned(parts) && forall k :: k in Pruned(parts) ==> k <= max
    ensures max == MaxNumber(parts)
  {
    PrunedSlot(parts, max);
    MaxNumberIsCarried(parts);
    PrunedSlot(parts, MaxNumber(parts));
  }

  /** The loop over range(0, max_led_num + 1). */
  method WriteRows(table: map<nat, Slot>, coord: string -> int, count: nat) returns (out: string)
    ensures out == RowsUpTo(table, coord, count)
  {
    out := "";
    for ndx := 0 to count
      invariant out == RowsUpTo(table, coord, ndx)
    {
      var row := FormatRow(ndx, table, coord);
      out := out + row;
    }
  }

  method FormatRow(ndx: nat, table: map<nat, Slot>, coord: string -> int) returns (row: string)
    ensures row == Row(ndx, table, coord)
  {
    if ndx !in table {
      row := "\t{0, 0}, // there is no LED with number " + Decimal(ndx) + "\n";
    } else {
      var slot := table[ndx];
      var x := coord(slot.part.midX);
      var y := coord(slot.part.midY);
      row := "\t{" + IntToString(x) + ", " + IntToString(y) + "}, // " + slot.comment + "\n";
    }
  }

  // ---------------------------------------------------------------------
  // Properties of the table
  // ---------------------------------------------------------------------

  /**
   * Row ndx of the table, stated from the input rows: {0, 0} and a "there
   * is no LED" comment when no designator names LED ndx, otherwise the
   * rounded coordinates of the first part that does, with the duplicate
   * note when a second one does.
   */
  lemma TableRow(parts: seq<Part>, coord: string -> int, ndx: nat)
    ensures Row(ndx, Pruned(parts), coord)
         == if FirstPart(parts, ndx).None? then "\t{0, 0}, // there is no LED with number " + Decimal(ndx) + "\n"
            else
              var p := FirstPart(parts, ndx).value;
              "\t{" + IntToString(coord(p.midX)) + ", " + IntToString(coord(p.midY)) + "}, // "
                + (if Count(parts, ndx) > 1 then Decimal(ndx) + DUPLICATE_NOTE else Decimal(ndx)) + "\n"
  {
    PrunedSlot(parts, ndx);
  }

  /**
   * The table depends only on which part comes first for each LED number
   * and on whether the number is duplicated, not on the order of the rows
   * otherwise or on the rows that are not LEDs.
   */
  lemma SameFirstsSameTable(parts1: seq<Part>, parts2: seq<Part>, coord: string -> int)
    requires forall n: nat :: FirstPart(parts1, n) == FirstPart(parts2, n)
    requires forall n: nat :: (Count(parts1, n) > 1) == (Count(parts2, n) > 1)
    ensures Coordinates(parts1, coord) == Coordinates(parts2, coord)
  {
    forall n: nat
      ensures (n in Pruned(parts1)) == (n in Pruned(parts2))
      ensures n in Pruned(parts1) ==> Pruned(parts1)[n] == Pruned(parts2)[n]
    {
      PrunedSlot(parts1, n);
      PrunedSlot(parts2, n);
    }
    assert Pruned(parts1) == Pruned(parts2);
    var m1, m2 := MaxNumber(parts1), MaxNumber(parts2);
    PrunedSlot(parts1, m1);
    PrunedSlot(parts2, m1);
    PrunedSlot(parts1, m2);
    PrunedSlot(parts2, m2);
  }
}
