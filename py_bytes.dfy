/**
 * Python's bytearray() applied to a list of integers, as the server
 * scripts use it to write the one-byte-per-LED file.
 */
module PyBytes {
  import opened Wrappers

  newtype byte = x: int | 0 <= x < 256

  predicate AllBytes(xs: seq<int>) {
    forall i :: 0 <= i < |xs| ==> 0 <= xs[i] < 256
  }

  /**
   * bytearray(xs): the bytes of the list, or None for the ValueError
   * Python raises when some element is outside 0..255.
   */
  function ByteArray(xs: seq<int>): (r: Option<seq<byte>>)
    ensures r.Some? <==> AllBytes(xs)
    ensures r.Some? ==> |r.value| == |xs| && forall i :: 0 <= i < |xs| ==> r.value[i] as int == xs[i]
  {
    if |xs| == 0 then Some([])
    else
      var last := xs[|xs| - 1];
      match ByteArray(xs[..|xs| - 1])
      case None =>
        assert !AllBytes(xs[..|xs| - 1]);
        None
      case Some(init) =>
        if 0 <= last < 256 then Some(init + [last as byte]) else None
  }

  /** One element out of range is enough to make bytearray raise. */
  lemma OutOfRangeRaises(xs: seq<int>, k: int)
    requires 0 <= k < |xs| && !(0 <= xs[k] < 256)
    ensures ByteArray(xs) == None
  {
  }
}
