/**
 * fetch_tomtom_two.py, the lineage that writes only the one-byte-per-LED
 * file: the validation of the LED location rows, decodeReferences, the
 * speeds list requestSpeeds fills, requestData's choice of endpoint, and
 * main's byte encoding.
 *
 * decodeReferences groups LEDs under the file row number of the entry
 * they resolve to; once duplicates are refused every entry has its own LED
 * number, so the model keys the groups by that LED number instead.
 */
module FetchTwo {
  import opened Wrappers
  import opened Text
  import opened Records
  import opened TileDecode
  import opened PyBytes

  const NULL_TILE: string := "NULL"

  /** validEntry: both coordinates are present. */
  predicate ValidEntry(e: Entry) {
    e.latitude.Some? && e.longitude.Some?
  }

  // ---------------------------------------------------------------------
  // requestData
  // ---------------------------------------------------------------------

  /** requestSegmentData of this lineage: the requested field, or -1. */
  function SegmentSpeed(speedType: SpeedType, reply: Option<SegmentResponse>): int {
    match reply
    case None => -1
    case Some(r) => RequestedSpeed(r, speedType)
  }

  /** The speed requestData returns for an entry, -1 for none. */
  function DataSpeed(e: Entry, speedType: SpeedType, net: Network): int {
    if !ValidEntry(e) then -1
    else if e.tile == Some(NULL_TILE) || speedType == Typical then SegmentSpeed(speedType, net.segments(e, speedType))
    else
      match net.tiles(e)
      case None => -1
      case Some(tile) => if TileHasSpeed(tile) then TileSpeed(tile) else -1
  }

  method RequestData(e: Entry, speedType: SpeedType, net: Network) returns (speed: int)
    ensures speed == DataSpeed(e, speedType, net)
  {
    if !ValidEntry(e) {
      return -1;
    }
    if e.tile == Some(NULL_TILE) || speedType == Typical {
      return SegmentSpeed(speedType, net.segments(e, speedType));
    }
    var reply := net.tiles(e);
    if reply.None? {
      return -1;
    }
    speed := DecodeTile(reply.value);
  }

  /** A "NULL" tile id or a typical request goes straight to the segment
      endpoint: the tile answer plays no part. */
  lemma SegmentOnlyWhenNoTile(e: Entry, speedType: SpeedType, net: Network, tiles: Entry -> Option<Tile>)
    requires ValidEntry(e) && (e.tile == Some(NULL_TILE) || speedType == Typical)
    ensures DataSpeed(e, speedType, net) == SegmentSpeed(speedType, net.segments(e, speedType))
    ensures DataSpeed(e, speedType, Network(tiles, net.segments)) == DataSpeed(e, speedType, net)
  {
  }

  // ---------------------------------------------------------------------
  // The location checks
  // ---------------------------------------------------------------------

  /** int(entry.get("Reference", -1)), with -1 for an unparseable value. */
  function RefOf(e: Entry): int {
    match e.reference
    case None => -1
    case Some(text) => PyInt(text).GetOr(-1)
  }

  /** A row with its Reference read once: decodeReferences reads it with
      int() whenever it looks at the row, always with the same result. */
  datatype Located = Located(entry: Entry, ref: int)

  function Led(x: Located): nat {
    x.entry.ledNum
  }

  /** The rows among the first `i` of the file that are in the run's
      direction, in file order, with their references read. */
  function LocateBefore(entries: seq<Entry>, direction: Direction, i: nat): (r: seq<Located>)
    requires i <= |entries|
    ensures |r| <= i
  {
    if i == 0 then []
    else
      var e := entries[i - 1];
      LocateBefore(entries, direction, i - 1) + (if InDirection(e, direction) then [Located(e, RefOf(e))] else [])
  }

  /** The rows requestSpeeds looks at. */
  function LocatedRows(entries: seq<Entry>, direction: Direction): seq<Located> {
    LocateBefore(entries, direction, |entries|)
  }

  /** led_to_entry: each LED number with the first row that carries it. */
  function LedMap(rows: seq<Located>): (m: map<nat, Located>)
    ensures forall n :: n in m ==> m[n] in rows && m[n].entry.ledNum == n
  {
    if |rows| == 0 then map[]
    else
      var m := LedMap(rows[..|rows| - 1]);
      var e := rows[|rows| - 1];
      if e.entry.ledNum in m then m else m[e.entry.ledNum := e]
  }

  /** The keys of led_to_entry in insertion order. */
  function Firsts(rows: seq<Located>): seq<nat> {
    if |rows| == 0 then []
    else
      var e := rows[|rows| - 1];
      Firsts(rows[..|rows| - 1]) + (if e.entry.ledNum in LedMap(rows[..|rows| - 1]) then [] else [e.entry.ledNum])
  }

  lemma {:induction false} FirstsAreKeys(rows: seq<Located>)
    ensures Distinct(Firsts(rows))
    ensures forall n :: n in Firsts(rows) <==> n in LedMap(rows)
  {
    if |rows| > 0 {
      FirstsAreKeys(rows[..|rows| - 1]);
    }
  }

  /** Some LED number occurs on two rows. */
  predicate HasDuplicateLed(rows: seq<Located>) {
    exists i, j :: 0 <= i < j < |rows| && rows[i].entry.ledNum == rows[j].entry.ledNum
  }

  lemma DuplicateLedSnoc(rows: seq<Located>, e: Located)
    ensures HasDuplicateLed(rows + [e]) <==> HasDuplicateLed(rows) || e.entry.ledNum in LedMap(rows)
  {
    var s := rows + [e];
    if e.entry.ledNum in LedMap(rows) {
      LedMapKeys(rows, e.entry.ledNum);
      var i :| 0 <= i < |rows| && rows[i].entry.ledNum == e.entry.ledNum;
      assert s[i].entry.ledNum == s[|rows|].entry.ledNum;
    }
    if HasDuplicateLed(rows) {
      var i, j :| 0 <= i < j < |rows| && rows[i].entry.ledNum == rows[j].entry.ledNum;
      assert s[i].entry.ledNum == s[j].entry.ledNum;
    }
    if HasDuplicateLed(s) && !HasDuplicateLed(rows) {
      var i, j :| 0 <= i < j < |s| && s[i].entry.ledNum == s[j].entry.ledNum;
      assert j == |rows|;
      LedMapKeys(rows, e.entry.ledNum);
    }
  }

  /** A number is a key of led_to_entry exactly when some row carries it. */
  lemma {:induction false} LedMapKeys(rows: seq<Located>, n: nat)
    ensures n in LedMap(rows) <==> exists i :: 0 <= i < |rows| && rows[i].entry.ledNum == n
  {
    if |rows| > 0 {
      var init := rows[..|rows| - 1];
      LedMapKeys(init, n);
      if exists i :: 0 <= i < |init| && init[i].entry.ledNum == n {
        var i :| 0 <= i < |init| && init[i].entry.ledNum == n;
        assert rows[i].entry.ledNum == n;
      }
      if exists i :: 0 <= i < |rows| && rows[i].entry.ledNum == n {
        var i :| 0 <= i < |rows| && rows[i].entry.ledNum == n;
        if i < |init| {
          assert init[i].entry.ledNum == n;
        }
      }
    }
  }

  /** max_led_num: the largest LED number, 0 for no rows. */
  function MaxLed(rows: seq<Located>): (max: nat)
    ensures forall x :: x in rows ==> x.entry.ledNum <= max
  {
    if |rows| == 0 then 0
    else
      var m := MaxLed(rows[..|rows| - 1]);
      var n := rows[|rows| - 1].entry.ledNum;
      if n > m then n else m
  }

  // ---------------------------------------------------------------------
  // decodeReferences
  // ---------------------------------------------------------------------

  /** How decodeReferences treats one LED's entry. */
  datatype Resolution = Own | Alias(target: nat) | Invalid | KeyMissing

  function Classify(x: Located, m: map<nat, Located>, max: nat): Resolution {
    var r := x.ref;
    if r == -1 then Own
    else
      var double := if r >= 0 && r in m then m[r].ref else -1;
      if r <= 0 || r > max || double != -1 then Invalid
      else if r !in m then KeyMissing
      else if !ValidEntry(m[r].entry) then Invalid
      else Alias(r)
  }

  /** The LED whose entry a number resolves to, when it resolves. */
  function Target(n: nat, m: map<nat, Located>, max: nat): Option<nat>
    requires n in m
  {
    match Classify(m[n], m, max)
    case Own => Some(n)
    case Alias(r) => Some(r)
    case _ => None
  }

  /** entry_to_leds after the LEDs of `order` are processed. */
  function Groups(order: seq<nat>, m: map<nat, Located>, max: nat): map<nat, seq<nat>>
    requires forall i :: 0 <= i < |order| ==> order[i] in m
  {
    if |order| == 0 then map[]
    else
      var g := Groups(order[..|order| - 1], m, max);
      var n := order[|order| - 1];
      match Target(n, m, max)
      case None => g
      case Some(t) => g[t := (if t in g then g[t] else []) + [n]]
  }

  /** The keys of entry_to_leds in insertion order. */
  function GroupKeys(order: seq<nat>, m: map<nat, Located>, max: nat): seq<nat>
    requires forall i :: 0 <= i < |order| ==> order[i] in m
  {
    if |order| == 0 then []
    else
      var n := order[|order| - 1];
      var t := Target(n, m, max);
      GroupKeys(order[..|order| - 1], m, max)
        + (if t.Some? && t.value !in Groups(order[..|order| - 1], m, max) then [t.value] else [])
  }

  predicate BadReference(order: seq<nat>, m: map<nat, Located>, max: nat)
    requires forall i :: 0 <= i < |order| ==> order[i] in m
  {
    |order| > 0
    && (BadReference(order[..|order| - 1], m, max) || Classify(m[order[|order| - 1]], m, max) == Invalid)
  }

  predicate RaisesKeyError(order: seq<nat>, m: map<nat, Located>, max: nat)
    requires forall i :: 0 <= i < |order| ==> order[i] in m
  {
    |order| > 0
    && (RaisesKeyError(order[..|order| - 1], m, max) || Classify(m[order[|order| - 1]], m, max) == KeyMissing)
  }

  datatype Decoded = Decoded(groups: map<nat, seq<nat>>, keys: seq<nat>) | BadRefs | KeyErrorRaised

  function DecodeOutcome(order: seq<nat>, m: map<nat, Located>, max: nat): Decoded
    requires forall i :: 0 <= i < |order| ==> order[i] in m
  {
    if RaisesKeyError(order, m, max) then KeyErrorRaised
    else if BadReference(order, m, max) then BadRefs
    else Decoded(Groups(order, m, max), GroupKeys(order, m, max))
  }

  /**
   * decodeReferences(led_to_entry, max_led_num), walking the LEDs in
   * `order`: every bad reference is noted before None is returned; a
   * lookup of an absent target raises KeyError.
   */
  method DecodeReferences(order: seq<nat>, m: map<nat, Located>, max: nat) returns (result: Decoded)
    requires forall i :: 0 <= i < |order| ==> order[i] in m
    ensures result == DecodeOutcome(order, m, max)
  {
    var groups: map<nat, seq<nat>> := map[];
    var keys: seq<nat> := [];
    var bad := false;
    for i := 0 to |order|
      invariant Decoding(order, m, max, i, groups, keys, bad)
    {
      var raised;
      groups, keys, bad, raised := DecodeStep(order, m, max, i, groups, keys, bad);
      if raised {
        RaisesKeyErrorGrows(order, m, max, i + 1);
        return KeyErrorRaised;
      }
    }
    assert order[..|order|] == order;
    if bad {
      return BadRefs;
    }
    return Decoded(groups, keys);
  }

  /** The state of decodeReferences' loop after the first `i` LEDs of `order`. */
  predicate Decoding(order: seq<nat>, m: map<nat, Located>, max: nat, i: nat,
                     groups: map<nat, seq<nat>>, keys: seq<nat>, bad: bool)
    requires i <= |order|
    requires forall j :: 0 <= j < |order| ==> order[j] in m
  {
    && groups == Groups(order[..i], m, max)
    && keys == GroupKeys(order[..i], m, max)
    && bad == BadReference(order[..i], m, max)
    && !RaisesKeyError(order[..i], m, max)
  }

  /** One pass of decodeReferences' loop, over LED order[i]. */
  method DecodeStep(order: seq<nat>, m: map<nat, Located>, max: nat, i: nat,
                    groups: map<nat, seq<nat>>, keys: seq<nat>, bad: bool)
    returns (groups': map<nat, seq<nat>>, keys': seq<nat>, bad': bool, raised: bool)
    requires i < |order|
    requires forall j :: 0 <= j < |order| ==> order[j] in m
    requires Decoding(order, m, max, i, groups, keys, bad)
    ensures raised ==> RaisesKeyError(order[..i + 1], m, max)
    ensures !raised ==> Decoding(order, m, max, i + 1, groups', keys', bad')
  {
    assert order[..i + 1][..i] == order[..i];
    groups', keys', bad', raised := groups, keys, bad, false;
    var n := order[i];
    var reference := m[n].ref;
    var target := n;
    if reference != -1 {
      var double := if reference >= 0 && reference in m then m[reference].ref else -1;
      if reference <= 0 || reference > max || double != -1 {
        bad' := true;
        return;
      }
      if reference !in m {
        raised := true;
        return;
      }
      if !ValidEntry(m[reference].entry) {
        bad' := true;
        return;
      }
      target := reference;
    }
    if target !in groups' {
      groups' := groups'[target := []];
      keys' := keys' + [target];
    }
    groups' := groups'[target := groups'[target] + [n]];
  }


  lemma {:induction false} RaisesKeyErrorGrows(order: seq<nat>, m: map<nat, Located>, max: nat, k: nat)
    requires forall i :: 0 <= i < |order| ==> order[i] in m
    requires k <= |order| && RaisesKeyError(order[..k], m, max)
    ensures RaisesKeyError(order, m, max)
    decreases |order| - k
  {
    if k < |order| {
      assert order[..k + 1][..k] == order[..k];
      RaisesKeyErrorGrows(order, m, max, k + 1);
    } else {
      assert order[..k] == order;
    }
  }

  // ---------------------------------------------------------------------
  // Facts about decodeReferences
  // ---------------------------------------------------------------------

  /** A bad reference anywhere among the LEDs makes decodeReferences fail,
      whatever order they come in. */
  lemma {:induction false} BadReferenceAnywhere(order: seq<nat>, m: map<nat, Located>, max: nat)
    requires forall i :: 0 <= i < |order| ==> order[i] in m
    ensures BadReference(order, m, max) <==> exists i :: 0 <= i < |order| && Classify(m[order[i]], m, max) == Invalid
  {
    if |order| > 0 {
      var init := order[..|order| - 1];
      BadReferenceAnywhere(init, m, max);
      if exists i :: 0 <= i < |init| && Classify(m[init[i]], m, max) == Invalid {
        var i :| 0 <= i < |init| && Classify(m[init[i]], m, max) == Invalid;
        assert order[i] == init[i];
      }
      if exists i :: 0 <= i < |order| && Classify(m[order[i]], m, max) == Invalid {
        var i :| 0 <= i < |order| && Classify(m[order[i]], m, max) == Invalid;
        if i < |init| {
          assert init[i] == order[i];
        }
      }
    }
  }

  /** Each group is exactly the LEDs that resolve to its key, so a
      canonical entry's group holds its own LED. */
  lemma {:induction false} GroupMembers(order: seq<nat>, m: map<nat, Located>, max: nat, t: nat, n: nat)
    requires forall i :: 0 <= i < |order| ==> order[i] in m
    requires Distinct(order)
    ensures t in Groups(order, m, max) && n in Groups(order, m, max)[t]
        <==> n in order && Target(n, m, max) == Some(t)
    ensures t in Groups(order, m, max) <==> t in GroupKeys(order, m, max)
  {
    if |order| > 0 {
      var init := order[..|order| - 1];
      var last := order[|order| - 1];
      assert Distinct(init);
      GroupMembers(init, m, max, t, n);
      assert order == init + [last];
      assert last !in init;
    }
  }

  lemma {:induction false} GroupKeysDistinct(order: seq<nat>, m: map<nat, Located>, max: nat)
    requires forall i :: 0 <= i < |order| ==> order[i] in m
    requires Distinct(order)
    ensures Distinct(GroupKeys(order, m, max))
  {
    if |order| > 0 {
      var init := order[..|order| - 1];
      assert Distinct(init);
      GroupKeysDistinct(init, m, max);
      var t := Target(order[|order| - 1], m, max);
      if t.Some? {
        GroupMembers(init, m, max, t.value, 0);
      }
    }
  }

  /** Once every number in 1..max has a row, no target lookup can fail. */
  lemma NoKeyErrorAfterChecks(order: seq<nat>, m: map<nat, Located>, max: nat)
    requires forall i :: 0 <= i < |order| ==> order[i] in m
    requires !HasMissingLed(m, max)
    ensures !RaisesKeyError(order, m, max)
  {
    if |order| > 0 {
      NoKeyErrorAfterChecks(order[..|order| - 1], m, max);
      var r := m[order[|order| - 1]].ref;
      if 1 <= r <= max {
        assert r in m;
      }
    }
  }

  // ---------------------------------------------------------------------
  // requestSpeeds
  // ---------------------------------------------------------------------

  /** The byte requestSpeeds ends with for index n: the speed of the entry
      n resolves to, 0 where there is none or a negative one. */
  function LedByte(n: nat, m: map<nat, Located>, max: nat, speedType: SpeedType, net: Network): (b: int)
    ensures b >= 0
  {
    if n !in m then 0
    else
      match Target(n, m, max)
      case None => 0
      case Some(t) =>
        if t !in m then 0
        else
          var speed := DataSpeed(m[t].entry, speedType, net);
          if speed < 0 then 0 else speed
  }

  /** The bytes of a run that passes every check, one per index 0..max. */
  function LedBytes(m: map<nat, Located>, max: nat, speedType: SpeedType, net: Network): (r: seq<int>)
    ensures |r| == max + 1
    ensures forall n :: 0 <= n <= max ==> r[n] == LedByte(n, m, max, speedType, net)
  {
    seq(max + 1, n requires 0 <= n <= max => LedByte(n, m, max, speedType, net))
  }

  /** requestSpeeds' result: False (None) on a duplicate, a missing number
      or a bad reference; otherwise max+1 bytes. */
  function SpeedsOutcome(entries: seq<Entry>, direction: Direction, speedType: SpeedType, net: Network): Option<seq<int>> {
    RowsOutcome(LocatedRows(entries, direction), speedType, net)
  }

  function RowsOutcome(rows: seq<Located>, speedType: SpeedType, net: Network): Option<seq<int>> {
    var m := LedMap(rows);
    var max := MaxLed(rows);
    if HasDuplicateLed(rows) || HasMissingLed(m, max) then None
    else if exists n :: n in m && Classify(m[n], m, max) == Invalid then None
    else Some(LedBytes(m, max, speedType, net))
  }

  /** The checks come before any request: whether the run is refused does
      not depend on what the network answers. */
  lemma RefusalMakesNoRequest(entries: seq<Entry>, direction: Direction, speedType: SpeedType, net: Network, other: Network)
    ensures SpeedsOutcome(entries, direction, speedType, net).None? <==> SpeedsOutcome(entries, direction, speedType, other).None?
  {
  }

  /** The state of requestSpeeds' first loop after `rows`. */
  predicate Collected(rows: seq<Located>, m: map<nat, Located>, order: seq<nat>, bad: bool, max: nat) {
    m == LedMap(rows) && order == Firsts(rows) && bad == HasDuplicateLed(rows) && max == MaxLed(rows)
  }

  /** The first loop of requestSpeeds: led_to_entry, its key order, the
      duplicate flag and max_led_num. */
  method CollectLocations(entries: seq<Entry>, direction: Direction)
    returns (m: map<nat, Located>, order: seq<nat>, bad: bool, max: nat)
    ensures Collected(LocatedRows(entries, direction), m, order, bad, max)
  {
    m, order, bad, max := map[], [], false, 0;
    for i := 0 to |entries|
      invariant Collected(LocateBefore(entries, direction, i), m, order, bad, max)
    {
      m, order, bad, max := CollectStep(entries, direction, i, m, order, bad, max);
    }
  }

  /** One pass of the first loop: rows of the other direction are skipped. */
  method CollectStep(entries: seq<Entry>, direction: Direction, i: nat, m: map<nat, Located>, order: seq<nat>, bad: bool, max: nat)
    returns (m': map<nat, Located>, order': seq<nat>, bad': bool, max': nat)
    requires i < |entries|
    requires Collected(LocateBefore(entries, direction, i), m, order, bad, max)
    ensures Collected(LocateBefore(entries, direction, i + 1), m', order', bad', max')
  {
    ghost var rows := LocateBefore(entries, direction, i);
    var entry := entries[i];
    if !InDirection(entry, direction) {
      assert LocateBefore(entries, direction, i + 1) == rows + [] == rows;
      return m, order, bad, max;
    }
    assert LocateBefore(entries, direction, i + 1) == rows + [Located(entry, RefOf(entry))];
    m', order', bad', max' := CollectOne(rows, entry, m, order, bad, max);
  }

  /** One pass of the first loop over a row of the run's direction. */
  method CollectOne(ghost rows: seq<Located>, entry: Entry, m: map<nat, Located>, order: seq<nat>, bad: bool, max: nat)
    returns (m': map<nat, Located>, order': seq<nat>, bad': bool, max': nat)
    requires Collected(rows, m, order, bad, max)
    ensures Collected(rows + [Located(entry, RefOf(entry))], m', order', bad', max')
  {
    var x := Located(entry, RefOf(entry));
    SnocFacts(rows, x);
    if entry.ledNum in m {
      m', order', bad' := m, order, true;
    } else {
      m', order', bad' := m[entry.ledNum := x], order + [entry.ledNum], bad;
    }
    max' := if entry.ledNum > max then entry.ledNum else max;
  }

  /** What one more row does to led_to_entry, its key order, the duplicate
      flag and max_led_num. */
  lemma SnocFacts(rows: seq<Located>, x: Located)
    ensures LedMap(rows + [x]) == if Led(x) in LedMap(rows) then LedMap(rows) else LedMap(rows)[Led(x) := x]
    ensures Firsts(rows + [x]) == Firsts(rows) + (if Led(x) in LedMap(rows) then [] else [Led(x)])
    ensures HasDuplicateLed(rows + [x]) == (HasDuplicateLed(rows) || Led(x) in LedMap(rows))
    ensures MaxLed(rows + [x]) == if Led(x) > MaxLed(rows) then Led(x) else MaxLed(rows)
  {
    assert (rows + [x])[..|rows|] == rows;
    DuplicateLedSnoc(rows, x);
  }

  /** The last loop: speeds starts at -1 everywhere, each group's LEDs get
      its entry's speed unless the request failed, then negatives become 0. */
  method FillSpeeds(groups: map<nat, seq<nat>>, keys: seq<nat>, ghost order: seq<nat>, m: map<nat, Located>, max: nat,
                    speedType: SpeedType, net: Network)
    returns (speeds: seq<int>)
    requires forall i :: 0 <= i < |order| ==> order[i] in m
    requires forall n :: n in m ==> n <= max
    requires forall n :: n in m <==> n in order
    requires Distinct(order)
    requires groups == Groups(order, m, max) && keys == GroupKeys(order, m, max)
    ensures speeds == LedBytes(m, max, speedType, net)
  {
    GroupKeysDistinct(order, m, max);
    speeds := seq(max + 1, _ => -1);
    for k := 0 to |keys|
      invariant |speeds| == max + 1
      invariant forall n :: 0 <= n <= max ==> speeds[n] == Written(n, keys[..k], m, max, speedType, net)
    {
      speeds := FillGroup(groups, keys, order, m, max, speedType, net, k, speeds);
    }
    assert keys[..|keys|] == keys;
    forall n | 0 <= n <= max
      ensures (if speeds[n] < 0 then 0 else speeds[n]) == LedByte(n, m, max, speedType, net)
    {
      if n in m && Target(n, m, max).Some? {
        GroupMembers(order, m, max, Target(n, m, max).value, n);
      }
    }
    speeds := seq(|speeds|, n requires 0 <= n < |speeds| => if speeds[n] < 0 then 0 else speeds[n]);
  }

  /** One pass of the last loop: the speed of group keys[k]'s entry, written
      to each LED of the group unless the request failed. */
  method FillGroup(groups: map<nat, seq<nat>>, keys: seq<nat>, ghost order: seq<nat>, m: map<nat, Located>, max: nat,
                   speedType: SpeedType, net: Network, k: nat, speeds: seq<int>)
    returns (speeds': seq<int>)
    requires forall i :: 0 <= i < |order| ==> order[i] in m
    requires forall n :: n in m ==> n <= max
    requires groups == Groups(order, m, max) && keys == GroupKeys(order, m, max)
    requires forall n :: n in m <==> n in order
    requires Distinct(order) && Distinct(keys) && k < |keys|
    requires |speeds| == max + 1
    requires forall n :: 0 <= n <= max ==> speeds[n] == Written(n, keys[..k], m, max, speedType, net)
    ensures |speeds'| == max + 1
    ensures forall n :: 0 <= n <= max ==> speeds'[n] == Written(n, keys[..k + 1], m, max, speedType, net)
  {
    var g := keys[k];
    assert g in groups by {
      GroupMembers(order, m, max, g, 0);
    }
    KeyIsEntry(order, m, max, g);
    var speed := RequestData(m[g].entry, speedType, net);
    assert keys[..k + 1] == keys[..k] + [g];
    if speed == -1 {
      WrittenSkip(keys[..k], g, m, max, speedType, net);
      return speeds;
    }
    var leds := groups[g];
    forall j | 0 <= j < |leds|
      ensures leds[j] < |speeds|
    {
      GroupMembers(order, m, max, g, leds[j]);
    }
    speeds' := Overwrite(speeds, leds, speed);
    assert g !in keys[..k];
    forall n | 0 <= n <= max
      ensures speeds'[n] == Written(n, keys[..k + 1], m, max, speedType, net)
    {
      WrittenStep(order, m, max, speedType, net, keys[..k], g, n);
    }
  }

  /** Filling group g writes its entry's speed to exactly its LEDs. */
  lemma WrittenStep(order: seq<nat>, m: map<nat, Located>, max: nat, speedType: SpeedType, net: Network,
                    done: seq<nat>, g: nat, n: nat)
    requires forall i :: 0 <= i < |order| ==> order[i] in m
    requires forall n :: n in m <==> n in order
    requires Distinct(order)
    requires g in m && g in Groups(order, m, max) && g !in done
    requires DataSpeed(m[g].entry, speedType, net) != -1
    ensures Written(n, done + [g], m, max, speedType, net)
         == if n in Groups(order, m, max)[g] then DataSpeed(m[g].entry, speedType, net) else Written(n, done, m, max, speedType, net)
  {
    GroupMembers(order, m, max, g, n);
  }

  /** speeds[led] = speed for each LED of a group. */
  method Overwrite(speeds: seq<int>, leds: seq<nat>, speed: int) returns (speeds': seq<int>)
    requires forall j :: 0 <= j < |leds| ==> leds[j] < |speeds|
    ensures |speeds'| == |speeds|
    ensures forall n :: 0 <= n < |speeds| ==> speeds'[n] == if n in leds then speed else speeds[n]
  {
    speeds' := speeds;
    for j := 0 to |leds|
      invariant |speeds'| == |speeds|
      invariant forall n :: 0 <= n < |speeds| ==> speeds'[n] == if n in leds[..j] then speed else speeds[n]
    {
      assert leds[..j + 1] == leds[..j] + [leds[j]];
      speeds' := speeds'[leds[j] := speed];
    }
    assert leds[..|leds|] == leds;
  }

  /** speeds[n] once the groups whose keys are in `done` have been filled. */
  function Written(n: nat, done: seq<nat>, m: map<nat, Located>, max: nat, speedType: SpeedType, net: Network): int {
    if n !in m then -1
    else
      match Target(n, m, max)
      case None => -1
      case Some(t) =>
        if t !in done || t !in m then -1
        else
          var speed := DataSpeed(m[t].entry, speedType, net);
          if speed == -1 then -1 else speed
  }

  lemma WrittenSkip(done: seq<nat>, g: nat, m: map<nat, Located>, max: nat, speedType: SpeedType, net: Network)
    requires g in m && DataSpeed(m[g].entry, speedType, net) == -1
    ensures forall n :: Written(n, done + [g], m, max, speedType, net) == Written(n, done, m, max, speedType, net)
  {
  }

  /** Every group key is a LED with an entry. */
  lemma {:induction false} KeyIsEntry(order: seq<nat>, m: map<nat, Located>, max: nat, g: nat)
    requires forall i :: 0 <= i < |order| ==> order[i] in m
    requires g in GroupKeys(order, m, max)
    ensures g in m
  {
    var init := order[..|order| - 1];
    if g in GroupKeys(init, m, max) {
      KeyIsEntry(init, m, max, g);
    }
  }

  /** The key order lists every key of led_to_entry once, every key is at
      most max_led_num, and a bad reference among the keys is one in the order. */
  lemma CollectedShape(rows: seq<Located>, m: map<nat, Located>, order: seq<nat>, max: nat)
    requires m == LedMap(rows) && order == Firsts(rows) && max == MaxLed(rows)
    ensures forall i :: 0 <= i < |order| ==> order[i] in m
    ensures forall n :: n in m ==> n <= max
    ensures forall n :: n in m <==> n in order
    ensures Distinct(order)
  {
    FirstsAreKeys(rows);
  }

  /** requestSpeeds(csv_reader, direction, speed_type, key): None for the
      False it returns on refused input. */
  method RequestSpeeds(entries: seq<Entry>, direction: Direction, speedType: SpeedType, net: Network)
    returns (speeds: Option<seq<int>>)
    ensures speeds == SpeedsOutcome(entries, direction, speedType, net)
  {
    var m, order, bad, max := CollectLocations(entries, direction);
    speeds := CheckAndFill(LocatedRows(entries, direction), m, order, bad, max, speedType, net);
  }

  /** requestSpeeds after its first loop: the checks, decodeReferences and
      the filling of the speeds. */
  method CheckAndFill(ghost rows: seq<Located>, m: map<nat, Located>, order: seq<nat>, bad: bool, max: nat,
                      speedType: SpeedType, net: Network)
    returns (speeds: Option<seq<int>>)
    requires Collected(rows, m, order, bad, max)
    ensures speeds == RowsOutcome(rows, speedType, net)
  {
    var missing := FindMissing(m, max);
    if bad || missing {
      return None;
    }
    CollectedShape(rows, m, order, max);
    assert RowsOutcome(rows, speedType, net) == if DecodeOutcome(order, m, max).Decoded?
      then Some(LedBytes(m, max, speedType, net)) else None by {
      CheckedOutcome(rows, speedType, net, m, order, max);
    }
    var decoded := DecodeReferences(order, m, max);
    if !decoded.Decoded? {
      return None;
    }
    var filled := FillSpeeds(decoded.groups, decoded.keys, order, m, max, speedType, net);
    return Some(filled);
  }

  /** Once the duplicate and missing checks pass, requestSpeeds refuses
      exactly when decodeReferences does not return its groups. */
  lemma CheckedOutcome(rows: seq<Located>, speedType: SpeedType, net: Network,
                       m: map<nat, Located>, order: seq<nat>, max: nat)
    requires Collected(rows, m, order, false, max)
    requires !HasMissingLed(m, max)
    requires forall i :: 0 <= i < |order| ==> order[i] in m
    ensures RowsOutcome(rows, speedType, net)
         == if DecodeOutcome(order, m, max).Decoded?
            then Some(LedBytes(m, max, speedType, net))
            else None
  {
    CollectedShape(rows, m, order, max);
    NoKeyErrorAfterChecks(order, m, max);
    BadReferenceAnywhere(order, m, max);
    if exists n :: n in m && Classify(m[n], m, max) == Invalid {
      var n :| n in m && Classify(m[n], m, max) == Invalid;
      var i :| 0 <= i < |order| && order[i] == n;
    }
  }

  // ---------------------------------------------------------------------
  // main
  // ---------------------------------------------------------------------

  /** What main returns and the bytes it leaves in each output file. */
  datatype TwoOutcome = TwoOutcome(success: bool, first: Option<seq<byte>>, second: Option<seq<byte>>)

  /**
   * main as written: requestSpeeds' False goes into bytearray, which makes
   * it an empty array, so a refused run writes empty files and succeeds.
   */
  function MainAsWritten(speedType: SpeedType, direction: Direction, entries: seq<Entry>, net: Network, secondOutput: bool): TwoOutcome {
    if direction == UnknownDirection then TwoOutcome(false, None, None)
    else
      var raw := match SpeedsOutcome(entries, direction, speedType, net) case None => [] case Some(s) => s;
      match ByteArray(raw)
      case None => TwoOutcome(false, None, None)
      case Some(b) => TwoOutcome(true, Some(b), if secondOutput then Some(b) else None)
  }

  lemma RefusedRunWritesEmptyFile(speedType: SpeedType, direction: Direction, entries: seq<Entry>, net: Network, secondOutput: bool)
    requires direction != UnknownDirection && SpeedsOutcome(entries, direction, speedType, net).None?
    ensures MainAsWritten(speedType, direction, entries, net, secondOutput).success
    ensures MainAsWritten(speedType, direction, entries, net, secondOutput).first == Some([])
  {
  }

  /** main as evidently intended: a refused run reports failure and leaves
      the output files alone. */
  function MainOutcome(speedType: SpeedType, direction: Direction, entries: seq<Entry>, net: Network, secondOutput: bool): TwoOutcome {
    if direction == UnknownDirection then TwoOutcome(false, None, None)
    else
      match SpeedsOutcome(entries, direction, speedType, net)
      case None => TwoOutcome(false, None, None)
      case Some(s) =>
        match ByteArray(s)
        case None => TwoOutcome(false, None, None)
        case Some(b) => TwoOutcome(true, Some(b), if secondOutput then Some(b) else None)
  }

  /** main as the script runs it: requestSpeeds' False is handed to
      bytearray like any list of speeds. */
  method RunMain(speedType: SpeedType, direction: Direction, entries: seq<Entry>, net: Network, secondOutput: bool)
    returns (outcome: TwoOutcome)
    ensures outcome == MainAsWritten(speedType, direction, entries, net, secondOutput)
  {
    if direction == UnknownDirection {
      return TwoOutcome(false, None, None);
    }
    var speeds := RequestSpeeds(entries, direction, speedType, net);
    // bytearray(False) is bytearray(0): no bytes
    var raw := if speeds.None? then [] else speeds.value;
    var bytes := ByteArray(raw);
    if bytes.None? {
      return TwoOutcome(false, None, None);
    }
    return TwoOutcome(true, bytes, if secondOutput then bytes else None);
  }

  /**
   * A successful run passed the checks and writes max_led_num+1 bytes,
   * byte n being LED n's speed as LedByte gives it, and the same bytes to
   * the second file when there is one.
   */
  lemma MainSuccess(speedType: SpeedType, direction: Direction, entries: seq<Entry>, net: Network, secondOutput: bool)
    requires MainOutcome(speedType, direction, entries, net, secondOutput).success
    ensures var rows := LocatedRows(entries, direction);
      var m := LedMap(rows);
      var o := MainOutcome(speedType, direction, entries, net, secondOutput);
      && !HasDuplicateLed(rows) && !HasMissingLed(m, MaxLed(rows))
      && o.first.Some? && |o.first.value| == MaxLed(rows) + 1
      && (forall n :: 0 <= n <= MaxLed(rows) ==> o.first.value[n] as int == LedByte(n, m, MaxLed(rows), speedType, net))
      && (secondOutput <==> o.second == o.first)
  {
  }

  /** Where requestSpeeds succeeds, the correction changes nothing. */
  lemma CorrectionKeepsSuccessfulRuns(speedType: SpeedType, direction: Direction, entries: seq<Entry>, net: Network, secondOutput: bool)
    requires SpeedsOutcome(entries, direction, speedType, net).Some?
    ensures MainOutcome(speedType, direction, entries, net, secondOutput) == MainAsWritten(speedType, direction, entries, net, secondOutput)
  {
  }

  /** The correction changes main's outcome exactly on the runs requestSpeeds
      refuses for a known direction. */
  lemma CorrectionOnlyForRefusals(speedType: SpeedType, direction: Direction, entries: seq<Entry>, net: Network, secondOutput: bool)
    ensures MainOutcome(speedType, direction, entries, net, secondOutput) != MainAsWritten(speedType, direction, entries, net, secondOutput)
      <==> direction != UnknownDirection && SpeedsOutcome(entries, direction, speedType, net).None?
  {
    if direction != UnknownDirection && SpeedsOutcome(entries, direction, speedType, net).None? {
      RefusedRunWritesEmptyFile(speedType, direction, entries, net, secondOutput);
    }
  }
}
