/**
 * The older ring buffer of the common component: the same store and read
 * as the marked buffer, without a bookmark, with every failure reported as
 * ESP_FAIL, and with the length update done in 32-bit arithmetic.
 *
 * As in the marked buffer, the ghost field `hist` holds every character
 * stored since initialisation; absolute position `p` lives in slot
 * `Wrap(p, backingSize)`.
 */
module CommonCircularBuffer {
  import opened EspErrors
  import opened RingArith

  const TWO_TO_32: int := 0x1_0000_0000

  /** The length update as written: `len += n` on a uint32_t wraps modulo
      2^32 before the clamp sees it. */
  function LengthAfterStoreAsWritten(len: int, n: int, size: int): (r: int)
    requires 0 <= len <= size <= UINT32_MAX && 0 <= n <= size
    ensures 0 <= r <= size
  {
    var sum := (len + n) % TWO_TO_32;
    if sum > size then size else sum
  }

  /** The 32-bit update agrees with the clamped length exactly when the sum
      fits in 32 bits. */
  lemma {:induction false} LengthAsWrittenAgreesIff(len: int, n: int, size: int)
    requires 0 <= len <= size <= UINT32_MAX && 0 <= n <= size
    ensures LengthAfterStoreAsWritten(len, n, size) == ClampedLength(len, n, size) <==> len + n < TWO_TO_32
  {
    if len + n >= TWO_TO_32 {
      ModUnique(len + n, 1, len + n - TWO_TO_32, TWO_TO_32);
      assert LengthAfterStoreAsWritten(len, n, size) == len + n - TWO_TO_32;
      assert ClampedLength(len, n, size) == size;
    } else {
      ModUnique(len + n, 0, len + n, TWO_TO_32);
    }
  }

  /** The newest `m` characters of a suffix of `h` followed by `t` are the
      newest `m` of `h + t`, when the suffix is long enough to supply them. */
  lemma {:induction false} NewestOfSuffix(h: seq<char>, k: int, t: seq<char>, m: int)
    requires 0 <= k <= |h| && 0 <= m <= k + |t|
    ensures Last(h[|h| - k..] + t, m) == (h + t)[|h| + |t| - m..]
  {
    var x := h[|h| - k..] + t;
    assert Last(x, m) == x[|x| - m..];
    forall i | 0 <= i < m
      ensures Last(x, m)[i] == (h + t)[|h| + |t| - m..][i]
    {
    }
  }

  /** The text a store leaves: the newest characters of the old text and
      the input, as many as the 32-bit length update counts; all the last N
      of them when the sum fits in 32 bits. */
  lemma {:induction false} StoredText(h0: seq<char>, len0: int, input: seq<char>, size: int)
    requires 0 <= len0 <= size <= UINT32_MAX && len0 <= |h0| && 1 <= |input| <= size
    ensures LengthAfterStoreAsWritten(len0, |input|, size) <= len0 + |input|
    ensures (h0 + input)[|h0| + |input| - LengthAfterStoreAsWritten(len0, |input|, size)..]
         == Last(h0[|h0| - len0..] + input, LengthAfterStoreAsWritten(len0, |input|, size))
    ensures len0 + |input| < TWO_TO_32 ==>
      Last(h0[|h0| - len0..] + input, LengthAfterStoreAsWritten(len0, |input|, size))
        == Last(h0[|h0| - len0..] + input, size)
  {
    var l := LengthAfterStoreAsWritten(len0, |input|, size);
    LengthAsWrittenAgreesIff(len0, |input|, size);
    if len0 + |input| >= TWO_TO_32 {
      assert l == len0 + |input| - TWO_TO_32 || l == size;
    }
    NewestOfSuffix(h0, len0, input, l);
  }

  /** A full buffer of UINT32_MAX characters that takes one more character
      reports a length of 0 under the 32-bit update. */
  lemma LengthWrapsToZero()
    ensures LengthAfterStoreAsWritten(UINT32_MAX, 1, UINT32_MAX) == 0
    ensures ClampedLength(UINT32_MAX, 1, UINT32_MAX) == UINT32_MAX
  {
  }

  class CircularBuffer {
    var backing: array?<char>
    var backingSize: int
    var end: int
    var len: int
    ghost var hist: seq<char>

    /** The array and `end` agree with the history, and `len` counts at most
        the characters the array still holds. `len` is not tied to the
        history's length: the 32-bit update can leave it short. */
    ghost predicate Valid()
      reads this, backing
    {
      backing != null ==>
        backing.Length == backingSize && 0 < backingSize <= UINT32_MAX &&
        Ring(backing[..], backingSize, hist) &&
        0 <= len <= backingSize && len <= |hist| && end == Wrap(|hist|, backingSize)
    }

    /** The characters the buffer reports as stored: the newest `len`, oldest first. */
    ghost function Contents(): (t: seq<char>)
      reads this, backing
      requires Valid() && backing != null
      ensures |t| == len
    {
      hist[|hist| - len..]
    }

    /** A buffer struct before initialisation: no backing array. */
    constructor Zeroed()
      ensures Valid() && backing == null && hist == []
    {
      backing := null;
      backingSize, end, len := 0, 0, 0;
      hist := [];
    }

    method Init(b: array?<char>, size: int) returns (err: EspErr)
      requires 0 <= size <= UINT32_MAX && (b != null ==> b.Length == size)
      modifies this
      ensures err == if b == null || size == 0 then Fail else Ok
      ensures err == Ok ==> (Valid() && backing == b && backingSize == size &&
        end == 0 && len == 0 && Contents() == [])
      ensures err != Ok ==> unchanged(this)
    {
      if b == null || size == 0 {
        return Fail;
      }
      backing, backingSize := b, size;
      end, len := 0, 0;
      hist := [];
      return Ok;
    }

    method Store(str: array?<char>, n: int) returns (err: EspErr)
      requires Valid() && 0 <= n <= UINT32_MAX
      requires str != null ==> n <= str.Length && str != backing
      modifies this`end, this`len, this`hist, backing
      ensures Valid()
      ensures err == if backing == null || str == null || n == 0 || n > backingSize then Fail else Ok
      ensures err == Fail ==> unchanged(this) && (backing != null ==> unchanged(backing))
      ensures err == Ok ==>
        hist == old(hist) + str[..n] &&
        len == LengthAfterStoreAsWritten(old(len), n, backingSize) &&
        Contents() == Last(old(Contents()) + str[..n], len)
      ensures err == Ok && old(len) + n < TWO_TO_32 ==>
        Contents() == Last(old(Contents()) + str[..n], backingSize)
    {
      if backing == null || backingSize == 0 || str == null || n == 0 || n > backingSize {
        return Fail;
      }
      ghost var input := str[..n];
      ghost var h0, len0 := hist, len;
      assert old(Contents()) == h0[|h0| - len0..];
      WriteChars(str, n);
      assert str[..n] == input && hist == h0 + input;
      len := LengthAfterStoreAsWritten(len, n, backingSize);
      StoredText(h0, len0, input, backingSize);
      assert Contents() == (h0 + input)[|h0| + n - len..];
      return Ok;
    }

    method Read(strOut: array?<char>, n: int) returns (err: EspErr)
      requires Valid() && 0 <= n <= UINT32_MAX
      requires strOut != null ==> strOut.Length > n && strOut != backing
      modifies strOut
      ensures err == if backing == null || strOut == null || n == 0 || n > len then Fail else Ok
      ensures err == Fail && strOut != null ==> unchanged(strOut)
      ensures err == Ok ==> strOut[..n] == Contents()[len - n..] && strOut[n] == '\0'
    {
      if backing == null || backingSize == 0 || strOut == null || n == 0 || n > len {
        return Fail;
      }
      CopyRecent(strOut, n);
      assert Contents()[len - n..] == hist[|hist| - n..];
      strOut[n] := '\0';
      return Ok;
    }
  
    /** The copy loop of Store: writes `str[..n]` at `end` onward, moving
        `end` with C's `%`. */
    method WriteChars(str: array<char>, n: int)
      requires backing != null && backing.Length == backingSize && 0 < backingSize <= UINT32_MAX
      requires Ring(backing[..], backingSize, hist) && end == Wrap(|hist|, backingSize)
      requires 0 <= n <= str.Length && str != backing
      modifies this`end, this`hist, backing
      ensures hist == old(hist) + str[..n] && end == Wrap(|hist|, backingSize)
      ensures Ring(backing[..], backingSize, hist)
    {
      ghost var input := str[..n];
      var curr := 0;
      while curr < n
        invariant 0 <= curr <= n
        invariant hist == old(hist) + input[..curr] && end == Wrap(|hist|, backingSize)
        invariant Ring(backing[..], backingSize, hist)
      {
        var c := str[curr];
        ghost var before := backing[..];
        RingPush(before, backingSize, hist, c);
        backing[end] := c;
        assert backing[..] == before[Wrap(|hist|, backingSize) := c];
        end := Wrap(end + 1, backingSize);
        WrapShift(|hist|, 1, backingSize);
        hist := hist + [c];
        assert input[..curr + 1] == input[..curr] + [c];
        curr := curr + 1;
      }
      assert input == input[..curr];
    }

    /** The slot `n` characters before `end`: 64-bit signed arithmetic
        with C's `%`, and a correction for a negative remainder. */
    static method StartSlot(end: int, n: int, size: int) returns (start: int)
      requires 0 < size
      ensures start == Wrap(end - n, size)
    {
      start := CRem(end - n, size);
      if start < 0 {
        start := size + start;
      }
    }

    /** The index `ndxBeforeMod % backingSize` of the copy loop. */
    static method IndexOf(ndxBeforeMod: int, size: int) returns (r: int)
      requires 0 <= ndxBeforeMod && 0 < size
      ensures r == Wrap(ndxBeforeMod, size)
    {
      r := ndxBeforeMod % size;
    }

    /** The copy loop of Read: the newest `n` characters into `strOut`. */
    method CopyRecent(strOut: array<char>, n: int)
      requires backing != null && backing.Length == backingSize && 0 < backingSize <= UINT32_MAX
      requires Ring(backing[..], backingSize, hist) && end == Wrap(|hist|, backingSize)
      requires 0 < n <= backingSize && n <= |hist| && n < strOut.Length && strOut != backing
      modifies strOut
      ensures strOut[..n] == hist[|hist| - n..]
    {
      var start := StartSlot(end, n, backingSize);
      ghost var b0, h, size := backing[..], hist, backingSize;
      ghost var first := |h| - n;
      assert start == Wrap(first, size) by {
        WrapShift(|h|, -n, size);
      }
      var curr := 0;
      while curr < n
        invariant 0 <= curr <= n && backing[..] == b0
        invariant forall j :: 0 <= j < curr ==> strOut[j] == h[first + j]
      {
        var ndx := IndexOf(start + curr, backingSize);
        RecentAt(b0, size, h, first, start, curr);
        strOut[curr] := backing[ndx];
        curr := curr + 1;
      }
      assert strOut[..n] == h[first..];
    }
  }
}
