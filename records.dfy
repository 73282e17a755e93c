/**
 * The rows of the LED location CSV the server scripts read, as
 * csv.DictReader gives them: every optional column is None when the column
 * is absent or the row is short.
 */
module Records {
  import opened Wrappers

  /** The direction a script runs for. */
  datatype Direction = North | South | UnknownDirection

  /** Which speed a request asks TomTom for. */
  datatype SpeedType = Current | Typical

  /**
   * One LED's row. `ledNum` is the parsed "LED Number"; "Free Flow Speed"
   * is kept parsed as well, as only tomtomRequest.py reads it.
   */
  datatype Entry = Entry(
    direction: string,
    ledNum: nat,
    freeway: string,
    reference: Option<string>,
    latitude: Option<string>,
    longitude: Option<string>,
    tile: Option<string>,
    openlr: Option<string>,
    freeFlowSpeed: int)

  /** The direction filter every script applies first: a row marked for the
      other direction is skipped, any other row is kept. */
  predicate InDirection(e: Entry, direction: Direction) {
    !(e.direction == "North" && direction == South) && !(e.direction == "South" && direction == North)
  }

  /** The rows a run for `direction` looks at, in file order. */
  function Active(entries: seq<Entry>, direction: Direction): (r: seq<Entry>)
    ensures |r| <= |entries|
  {
    if |entries| == 0 then []
    else
      var last := entries[|entries| - 1];
      Active(entries[..|entries| - 1], direction) + (if InDirection(last, direction) then [last] else [])
  }

  /** Exactly the rows of the file that are in the run's direction. */
  lemma {:induction false} ActiveMembers(entries: seq<Entry>, direction: Direction, e: Entry)
    ensures e in Active(entries, direction) <==> e in entries && InDirection(e, direction)
  {
    if |entries| > 0 {
      ActiveMembers(entries[..|entries| - 1], direction, e);
      assert entries == entries[..|entries| - 1] + [entries[|entries| - 1]];
    }
  }

  /** The LED numbers of some rows, in order. */
  function LedNums(entries: seq<Entry>): (r: seq<nat>)
    ensures |r| == |entries| && forall i :: 0 <= i < |entries| ==> r[i] == entries[i].ledNum
  {
    seq(|entries|, i requires 0 <= i < |entries| => entries[i].ledNum)
  }

  // ---------------------------------------------------------------------
  // LED tables
  // ---------------------------------------------------------------------

  predicate Distinct(s: seq<nat>) {
    forall i, j :: 0 <= i < j < |s| ==> s[i] != s[j]
  }

  /** Some number in 1..max has no row in a table keyed by LED number. */
  predicate HasMissingLed<V>(m: map<nat, V>, max: nat) {
    exists n: nat :: 1 <= n <= max && n !in m
  }

  /** The loop over 1..max that looks for a number without a row. */
  method FindMissing<V>(m: map<nat, V>, max: nat) returns (missing: bool)
    ensures missing == HasMissingLed(m, max)
  {
    missing := false;
    for n := 1 to max + 1
      invariant missing <==> exists k: nat :: 1 <= k < n && k !in m
    {
      if n !in m {
        missing := true;
      }
    }
  }
}
