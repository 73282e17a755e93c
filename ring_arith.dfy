/**
 * Index arithmetic shared by the two ring buffers of the firmware: positions
 * are counted from the first character ever stored (an unbounded "absolute"
 * position) and folded into the backing array with `Wrap`.
 */
module RingArith {
  const UINT32_MAX: int := 0xFFFF_FFFF

  /** The slot of the backing array that absolute position `p` lands in. */
  function Wrap(p: int, n: int): (r: int)
    requires n > 0
    ensures 0 <= r < n
  {
    p % n
  }

  /** The last `n` elements of `s` (all of `s` when it is shorter). */
  function Last<T>(s: seq<T>, n: nat): (r: seq<T>)
    ensures |r| == if |s| <= n then |s| else n
  {
    if |s| <= n then s else s[|s| - n..]
  }

  lemma LastOfLast<T>(s: seq<T>, c: T, n: nat)
    requires n > 0
    ensures Last(Last(s, n) + [c], n) == Last(s + [c], n)
  {
  }

  lemma LastAppend<T>(s: seq<T>, t: seq<T>, c: T, n: nat)
    requires n > 0
    ensures Last(Last(s + t, n) + [c], n) == Last(s + (t + [c]), n)
  {
    LastOfLast(s + t, c, n);
    assert (s + t) + [c] == s + (t + [c]);
  }

  lemma MulAtLeast(k: int, n: int)
    requires k >= 1 && n > 0
    ensures k * n >= n
  {
    assert k * n == (k - 1) * n + n;
  }

  /** Division with remainder is unique. */
  lemma ModUnique(a: int, q: int, r: int, n: int)
    requires n > 0 && 0 <= r < n && a == q * n + r
    ensures a % n == r
  {
    var d, m := a / n, a % n;
    assert a == d * n + m;
    assert (q - d) * n == m - r;
    if q > d {
      MulAtLeast(q - d, n);
    } else if q < d {
      MulAtLeast(d - q, n);
    }
  }

  /** Two absolute positions less than `n` apart never share a slot. */
  lemma WrapDistinct(x: int, y: int, n: int)
    requires n > 0 && x < y < x + n
    ensures Wrap(x, n) != Wrap(y, n)
  {
    var qx, rx := x / n, x % n;
    assert x == qx * n + rx;
    if y % n == rx {
      var qy := y / n;
      assert y == qy * n + rx;
      assert (qy - qx) * n == y - x;
      if qy - qx >= 1 {
        MulAtLeast(qy - qx, n);
      } else {
        MulAtLeast(qx - qy, n);
      }
    }
  }

  /** Adding `k` to a slot lands where adding `k` to the position would. */
  lemma WrapShift(p: int, k: int, n: int)
    requires n > 0
    ensures Wrap(Wrap(p, n) + k, n) == Wrap(p + k, n)
  {
    var q, r := p / n, p % n;
    assert p == q * n + r;
    var q2, r2 := (r + k) / n, (r + k) % n;
    assert r + k == q2 * n + r2;
    assert p + k == (q + q2) * n + r2;
    ModUnique(p + k, q + q2, r2, n);
  }

  /** A slot is a position in [0, n) congruent to the position. */
  lemma WrapOfSlot(p: int, n: int)
    requires n > 0 && 0 <= p < n
    ensures Wrap(p, n) == p
  {
  }

  /** Positions `q * n` apart share a slot. */
  lemma WrapPeriodic(x: int, q: int, n: int)
    requires n > 0
    ensures Wrap(x + q * n, n) == Wrap(x, n)
  {
    var d, r := x / n, x % n;
    assert x == d * n + r;
    assert x + q * n == (d + q) * n + r;
    ModUnique(x + q * n, d + q, r, n);
  }

  /** A slot taken back by `base` and forward again is the same slot. */
  lemma SlotRoundTrip(slot: int, base: int, n: int)
    requires n > 0 && 0 <= slot < n
    ensures Wrap(base + Wrap(slot - base, n), n) == slot
  {
    WrapShift(slot - base, base, n);
    assert base + Wrap(slot - base, n) == Wrap(slot - base, n) + base;
    assert slot - base + base == slot;
    WrapOfSlot(slot, n);
  }

  /** If `slot` is the slot of position `p`, then `slot - k` and `p - k` agree. */
  lemma WrapCongruent(p: int, slot: int, k: int, n: int)
    requires n > 0 && slot == Wrap(p, n)
    ensures Wrap(slot + k, n) == Wrap(p + k, n)
  {
    WrapShift(p, k, n);
  }

  /** The difference of two slots, taken mod n. */
  lemma SlotDifference(x: int, y: int, n: int)
    requires n > 0 && 0 <= x < n && 0 <= y < n
    ensures Wrap(x - y, n) == if x >= y then x - y else x - y + n
  {
    if x >= y {
      ModUnique(x - y, 0, x - y, n);
    } else {
      ModUnique(x - y, -1, x - y + n, n);
    }
  }

  /** The length after storing `n` characters: computed in 64 bits, so it
      never wraps, then clamped to the backing size. */
  function ClampedLength(len: int, n: int, size: int): (r: int)
    requires 0 <= len <= size && 0 <= n <= size
    ensures r == if len + n <= size then len + n else size
    ensures len <= r <= size
  {
    var len64 := len + n;
    if len64 > size then size else len64
  }

  /** C's `%` for a positive divisor: the remainder of truncating
      division, which has the sign of the dividend. */
  function CRem(a: int, n: int): (r: int)
    requires n > 0
    ensures r == Wrap(a, n) || r == Wrap(a, n) - n
    ensures a >= 0 ==> r >= 0
    ensures a <= 0 ==> r <= 0
  {
    if a >= 0 then
      a % n
    else
      var q := (-a) / n;
      var m := (-a) % n;
      if m == 0 then
        ModUnique(a, -q, 0, n);
        0
      else
        ModUnique(a, -q - 1, n - m, n);
        -m
  }

  /** The last characters of the history, up to `size` of them, sit at the
      slots of their absolute positions. */
  ghost predicate Ring(b: seq<char>, size: int, hist: seq<char>)
    requires size > 0
  {
    |b| == size &&
    forall p {:trigger b[Wrap(p, size)]} :: 0 <= p < |hist| && |hist| - size <= p ==> b[Wrap(p, size)] == hist[p]
  }

  /** Writing a character at the slot of the next absolute position keeps
      the ring in step with the history. */
  lemma {:induction false} RingPush(b: seq<char>, size: int, hist: seq<char>, c: char)
    requires size > 0 && Ring(b, size, hist)
    ensures Ring(b[Wrap(|hist|, size) := c], size, hist + [c])
  {
    var b2 := b[Wrap(|hist|, size) := c];
    var h2 := hist + [c];
    forall p | 0 <= p < |h2| && |h2| - size <= p
      ensures b2[Wrap(p, size)] == h2[p]
    {
      if p < |hist| {
        WrapDistinct(p, |hist|, size);
        assert b2[Wrap(p, size)] == b[Wrap(p, size)];
        assert h2[p] == hist[p];
      }
    }
  }

  lemma RingAt(b: seq<char>, size: int, hist: seq<char>, p: int)
    requires size > 0 && Ring(b, size, hist) && 0 <= p < |hist| && |hist| - size <= p
    ensures b[Wrap(p, size)] == hist[p]
  {
  }

  /** The newest `n` stored characters are the newest `n` of the history. */
  lemma {:induction false} LastSuffix<T>(h: seq<T>, size: nat, n: int)
    requires 0 <= n <= |Last(h, size)|
    ensures Last(h, size)[|Last(h, size)| - n..] == h[|h| - n..]
  {
    var a, b := Last(h, size)[|Last(h, size)| - n..], h[|h| - n..];
    forall j | 0 <= j < n
      ensures a[j] == b[j]
    {
      LastAt(h, size, |Last(h, size)| - n + j);
    }
  }

  /** A run of kept characters starting at kept offset `mp`, read back from the history. */
  lemma {:induction false} LastSlice<T>(h: seq<T>, size: nat, mp: int, count: int)
    requires 0 <= mp && 0 <= count && mp + count <= |Last(h, size)|
    ensures Last(h, size)[mp..][..count] == h[|h| - |Last(h, size)| + mp..][..count]
  {
    var a, b := Last(h, size)[mp..][..count], h[|h| - |Last(h, size)| + mp..][..count];
    forall j | 0 <= j < count
      ensures a[j] == b[j]
    {
      LastAt(h, size, mp + j);
    }
  }

  lemma LastAt<T>(s: seq<T>, n: nat, i: int)
    requires 0 <= i < |Last(s, n)|
    ensures Last(s, n)[i] == s[|s| - |Last(s, n)| + i]
  {
  }

  /** Keeping only the last `size` characters and then appending is the
      same as appending and then keeping the last `size`. */
  lemma {:induction false} LastConcat<T>(h: seq<T>, s: seq<T>, size: nat)
    ensures Last(Last(h, size) + s, size) == Last(h + s, size)
  {
    var l := Last(h, size);
    var a, b := Last(l + s, size), Last(h + s, size);
    assert |a| == |b|;
    forall i | 0 <= i < |a|
      ensures a[i] == b[i]
    {
      LastAt(l + s, size, i);
      LastAt(h + s, size, i);
      var j := |s| - |a| + i;
      if j < 0 {
        LastAt(h, size, |l| + j);
        assert (l + s)[|l| + j] == l[|l| + j];
        assert (h + s)[|h| + j] == h[|h| + j];
      } else {
        assert (l + s)[|l| + j] == s[j];
        assert (h + s)[|h| + j] == s[j];
      }
    }
  }

  /** The slot `k` places after the slot of history position `first`
      holds history position `first + k`, while that is among the last N. */
  lemma RecentAt(b: seq<char>, size: int, h: seq<char>, first: int, start: int, k: int)
    requires size > 0 && Ring(b, size, h) && 0 <= k && 0 <= first && first + k < |h| && |h| - size <= first
    requires start == Wrap(first, size)
    ensures b[Wrap(start + k, size)] == h[first + k]
  {
    WrapShift(first, k, size);
    RingAt(b, size, h, first + k);
  }
}
