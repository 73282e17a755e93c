/**
 * What fetch_tomtom_data.py and fetch_tomtom_three.py do with a TomTom
 * answer once it has arrived: the vector-tile decode (section 4.4 of the
 * Mapbox Vector Tile Specification 2.1: a feature's tags are interleaved
 * key-index, value-index pairs into its layer's key and value tables) and
 * the flow-segment decision. The two scripts share this code unchanged.
 *
 * A request's outcome is a parameter: None when requests.get raised or the
 * status was not 200. A tile value's double is carried already converted
 * to mph, that is as round(v * 0.621371).
 */
module TileDecode {
  import opened Wrappers
  import opened Records

  const TRAFFIC_LEVEL: string := "traffic_level"
  const JSON_TRUE_STRING: string := "true"

  /** A layer value: only whether it holds a double matters here. */
  datatype TileValue = TileValue(doubleValue: Option<int>)
  datatype Feature = Feature(tags: seq<nat>)
  datatype Layer = Layer(keys: seq<string>, values: seq<TileValue>, features: seq<Feature>)
  datatype Tile = Tile(layers: seq<Layer>)

  /** The TomTom endpoints as the answers they would give: the decoded
      tile an entry's tile request returns and the flow-segment response a
      segment request returns, None for a failed request. */
  datatype Network = Network(
    tiles: Entry -> Option<Tile>,
    segments: (Entry, SpeedType) -> Option<SegmentResponse>)

  // ---------------------------------------------------------------------
  // Key and tag lookup
  // ---------------------------------------------------------------------

  /** The first position of `name` among the keys. */
  function FirstIndex(keys: seq<string>, name: string): (r: Option<nat>)
    ensures r.Some? <==> name in keys
    ensures r.Some? ==> r.value < |keys| && keys[r.value] == name && name !in keys[..r.value]
  {
    if |keys| == 0 then None
    else if keys[0] == name then Some(0)
    else
      var rest := FirstIndex(keys[1..], name);
      assert name in keys ==> name in keys[1..];
      if rest.None? then None
      else
        assert keys[1..][..rest.value] == keys[1..rest.value + 1];
        Some(rest.value + 1)
  }

  /** The `k`th (key, value) pair of a tag list has key `key`. */
  predicate KeyAt(tags: seq<nat>, k: nat, key: nat) {
    2 * k + 1 < |tags| && tags[2 * k] == key
  }

  /** The value index of the first pair from pair `k` on whose key index is
      `key`; a trailing unpaired tag is never a key. */
  function FirstPairValue(tags: seq<nat>, key: nat, k: nat): (r: Option<nat>)
    decreases |tags| - 2 * k
    ensures r.Some? ==> exists j :: k <= j && KeyAt(tags, j, key) && tags[2 * j + 1] == r.value
    ensures r.None? ==> forall j :: k <= j ==> !KeyAt(tags, j, key)
  {
    if 2 * k + 1 >= |tags| then None
    else if tags[2 * k] == key then
      assert KeyAt(tags, k, key);
      Some(tags[2 * k + 1])
    else FirstPairValue(tags, key, k + 1)
  }

  /** An unpaired last tag does not change the lookup. */
  lemma {:induction false} OddTagIsIgnored(tags: seq<nat>, extra: nat, key: nat, k: nat)
    requires |tags| % 2 == 0
    ensures FirstPairValue(tags + [extra], key, k) == FirstPairValue(tags, key, k)
    decreases |tags| - 2 * k
  {
    var t := tags + [extra];
    if 2 * k + 1 < |tags| {
      assert t[2 * k] == tags[2 * k] && t[2 * k + 1] == tags[2 * k + 1];
      OddTagIsIgnored(tags, extra, key, k + 1);
    }
  }

  /** The enumerate loop that looks for a key's number. */
  method FindKey(keys: seq<string>, name: string) returns (tag: int)
    ensures tag == -1 <==> name !in keys
    ensures tag != -1 ==> FirstIndex(keys, name) == Some(tag)
  {
    tag := -1;
    var num := 0;
    while num < |keys|
      invariant 0 <= num <= |keys|
      invariant name !in keys[..num]
    {
      if keys[num] == name {
        tag := num;
        assert FirstIndex(keys, name).value == num;
        return;
      }
      assert keys[..num + 1] == keys[..num] + [keys[num]];
      num := num + 1;
    }
    assert keys[..num] == keys;
  }

  /** The loop over the feature's tags taken two at a time. */
  method FindTagValue(tags: seq<nat>, key: nat) returns (val: int)
    ensures val == (match FirstPairValue(tags, key, 0) case None => -1 case Some(v) => v)
  {
    val := -1;
    var k := 0;
    while 2 * k + 1 < |tags|
      invariant FirstPairValue(tags, key, k) == FirstPairValue(tags, key, 0)
      decreases |tags| - 2 * k
    {
      if tags[2 * k] == key {
        val := tags[2 * k + 1];
        return;
      }
      k := k + 1;
    }
  }

  // ---------------------------------------------------------------------
  // The tile decode
  // ---------------------------------------------------------------------

  /** All the conditions under which a tile gives a speed: one layer, one
      feature, a traffic_level key, a tag pair for it, and a double at the
      value index it names. */
  predicate TileHasSpeed(tile: Tile) {
    && |tile.layers| == 1
    && |tile.layers[0].features| == 1
    && TRAFFIC_LEVEL in tile.layers[0].keys
    && var key := FirstIndex(tile.layers[0].keys, TRAFFIC_LEVEL).value;
       var v := FirstPairValue(tile.layers[0].features[0].tags, key, 0);
       && v.Some?
       && v.value < |tile.layers[0].values|
       && tile.layers[0].values[v.value].doubleValue.Some?
       && tile.layers[0].values[v.value].doubleValue.value != -1
  }

  /** The speed such a tile gives. */
  function TileSpeed(tile: Tile): int
    requires TileHasSpeed(tile)
  {
    var key := FirstIndex(tile.layers[0].keys, TRAFFIC_LEVEL).value;
    var v := FirstPairValue(tile.layers[0].features[0].tags, key, 0).value;
    tile.layers[0].values[v].doubleValue.value
  }

  /** The decode at the end of requestTileData: -1 on every failed check. */
  method DecodeTile(tile: Tile) returns (speed: int)
    ensures speed != -1 <==> TileHasSpeed(tile)
    ensures speed != -1 ==> speed == TileSpeed(tile)
  {
    if |tile.layers| != 1 {
      return -1;
    }
    var layer := tile.layers[0];
    if |layer.features| != 1 {
      return -1;
    }
    var feature := layer.features[0];
    var trafficLevelTag := FindKey(layer.keys, TRAFFIC_LEVEL);
    if trafficLevelTag == -1 {
      return -1;
    }
    var trafficLevelFeature := FindTagValue(feature.tags, trafficLevelTag);
    if trafficLevelFeature == -1 {
      return -1;
    }
    if |layer.values| < trafficLevelFeature + 1 {
      return -1;
    }
    var value := layer.values[trafficLevelFeature];
    if value.doubleValue.None? {
      return -1;
    }
    speed := value.doubleValue.value;
    if speed == -1 {
      return -1;
    }
  }

  /** The '/' count check on the Tile column. */
  predicate ValidEntryTileData(e: Entry) {
    e.tile.Some? && multiset(e.tile.value)['/'] == 2
  }

  /**
   * requestTileData once the arguments are accepted: -1 for an entry
   * without a usable tile id or a failed request, the decode otherwise.
   */
  method RequestTileData(e: Entry, reply: Option<Tile>) returns (speed: int)
    ensures !ValidEntryTileData(e) || reply.None? ==> speed == -1
    ensures ValidEntryTileData(e) && reply.Some? ==>
      (speed != -1 <==> TileHasSpeed(reply.value)) && (speed != -1 ==> speed == TileSpeed(reply.value))
  {
    if !ValidEntryTileData(e) {
      return -1;
    }
    if reply.None? {
      return -1;
    }
    speed := DecodeTile(reply.value);
  }

  // ---------------------------------------------------------------------
  // The flow-segment decision
  // ---------------------------------------------------------------------

  /** The fields of a flowSegmentData answer that are read; None where the
      field is absent. */
  datatype SegmentResponse = SegmentResponse(
    roadClosure: Option<string>,
    currentSpeed: Option<int>,
    freeFlowSpeed: Option<int>,
    openlr: Option<string>)

  predicate ValidEntrySegmentData(e: Entry) {
    e.latitude.Some? && e.longitude.Some? && e.openlr.Some?
  }

  /** "roadClosure" equal to the string "true"; absent means "false". */
  predicate Closed(r: SegmentResponse) {
    r.roadClosure.GetOr("false") == JSON_TRUE_STRING
  }

  /** The speed field the request's type reads, -1 when absent. */
  function RequestedSpeed(r: SegmentResponse, speedType: SpeedType): int {
    match speedType
    case Current => r.currentSpeed.GetOr(-1)
    case Typical => r.freeFlowSpeed.GetOr(-1)
  }

  /**
   * What requestSegmentData makes of an answer: a closed road is 0 for a
   * current request and -1 otherwise; then the requested speed, provided
   * it is present and the echoed openLR code is the entry's.
   */
  function SegmentDecision(e: Entry, speedType: SpeedType, r: SegmentResponse): (speed: int)
    requires ValidEntrySegmentData(e)
    ensures Closed(r) ==> speed == (if speedType == Current then 0 else -1)
    ensures !Closed(r) ==>
      (speed != -1 <==> RequestedSpeed(r, speedType) != -1 && r.openlr.GetOr("") == e.openlr.value)
    ensures !Closed(r) && speed != -1 ==> speed == RequestedSpeed(r, speedType)
  {
    if Closed(r) && speedType == Current then 0
    else if Closed(r) then -1
    else
      var speed := RequestedSpeed(r, speedType);
      if speed == -1 then -1
      else if r.openlr.GetOr("") != e.openlr.value then -1
      else speed
  }

  /** requestSegmentData once the arguments are accepted. */
  function RequestSegmentData(e: Entry, speedType: SpeedType, reply: Option<SegmentResponse>): (speed: int)
    ensures !ValidEntrySegmentData(e) || reply.None? ==> speed == -1
    ensures ValidEntrySegmentData(e) && reply.Some? ==> speed == SegmentDecision(e, speedType, reply.value)
  {
    if !ValidEntrySegmentData(e) then -1
    else if reply.None? then -1
    else SegmentDecision(e, speedType, reply.value)
  }

  /** A road reported closed never shows a typical speed, and shows 0 as its
      current speed whatever the other fields say. */
  lemma ClosureOverridesSpeed(e: Entry, r: SegmentResponse)
    requires ValidEntrySegmentData(e) && Closed(r)
    ensures SegmentDecision(e, Current, r) == 0
    ensures SegmentDecision(e, Typical, r) == -1
  {
  }
}
