/**
 * The ring buffer with a bookmark used by the OTA version-file parser
 * (components/circular_buffer). Characters are appended at `end`, wrapping
 * around the backing array; `len` counts the stored characters, capped at
 * the backing size; `mark` is the slot of one stored character, or
 * UINT32_MAX when there is none.
 *
 * The model keeps one ghost field beside the C fields: `hist`, every
 * character stored since initialisation, oldest first. Absolute position
 * `p` of the history lives in slot `Wrap(p, backingSize)`; `Valid` ties
 * the history to the array and the C fields.
 */
module CircularBuffer {
  import opened EspErrors
  import opened RingArith

  /** (a - b) mod n, computed as the firmware does: a 64-bit difference,
      C's `%`, then a correction for a negative remainder. */
  method ModularSubtraction(a: int, b: int, n: int) returns (r: int)
    requires 0 <= a <= UINT32_MAX && 0 <= b <= UINT32_MAX && 0 < n <= UINT32_MAX
    ensures r == Wrap(a - b, n) && r != UINT32_MAX
  {
    var val64 := a - b;
    val64 := CRem(val64, n);
    if val64 < 0 {
      val64 := n + val64;
    }
    return val64;
  }

  /** (a + b) mod n, as the firmware computes it in 64 bits. */
  method ModularAddition(a: int, b: int, n: int) returns (r: int)
    requires 0 <= a <= UINT32_MAX && 0 <= b <= UINT32_MAX && 0 < n <= UINT32_MAX
    ensures r == Wrap(a + b, n) && r != UINT32_MAX
  {
    var val64 := a + b;
    val64 := CRem(val64, n);
    return val64;
  }

  /** Store's rule, as written, for whether storing `n` characters
      destroys the mark: the distance from the mark to `end` is taken
      mod N, so a mark equal to `end` counts as distance 0. */
  predicate LostMarkAsWritten(end: int, mark: int, n: int, size: int)
    requires 0 <= end < size <= UINT32_MAX && 0 <= mark <= UINT32_MAX && 0 <= n <= UINT32_MAX
  {
    mark != UINT32_MAX && Wrap(end - mark, size) + n - 1 >= size
  }

  /** The rule the comment at the check states: the mark is lost exactly
      when writing wraps onto it. The distance from the mark to `end` is
      counted in [1, N], so a mark equal to `end` lies N characters back. */
  predicate LostMarkIntended(end: int, mark: int, n: int, size: int)
    requires 0 <= end < size <= UINT32_MAX && 0 <= mark <= UINT32_MAX && 0 <= n <= UINT32_MAX
  {
    mark != UINT32_MAX && Wrap(Wrap(end - mark, size) - 1, size) + 1 + n - 1 >= size
  }

  /** The history position `written - len + MarkOffset(..)` lies in the mark's slot. */
  lemma MarkSlot(mark: int, written: int, len: int, size: int)
    requires size > 0 && 0 <= mark < size
    ensures Wrap(written - len + MarkOffset(mark, written, len, size), size) == mark
  {
    SlotRoundTrip(mark, written - len, size);
  }

  /** The offset, within the stored characters, of the character at `mark`. */
  function MarkOffset(mark: int, written: int, len: int, size: int): (r: int)
    requires size > 0
    ensures 0 <= r < size
  {
    Wrap(mark - (written - len), size)
  }

  /** Distance from the mark to `end` in the buffer's own arithmetic: the
      number of stored characters from the marked one on, except that a
      full buffer marked at its oldest character gives 0 instead of N. */
  lemma {:induction false} DistanceToEnd(size: int, written: int, len: int, mark: int)
    requires 0 < size <= UINT32_MAX && 0 <= len <= size && len <= written
    requires 0 <= mark < size && MarkOffset(mark, written, len, size) < len
    ensures Wrap(Wrap(written, size) - mark, size)
      == if len - MarkOffset(mark, written, len, size) == size then 0 else len - MarkOffset(mark, written, len, size)
  {
    var mp := MarkOffset(mark, written, len, size);
    var x := mark - (written - len);
    var q := x / size;
    assert x == q * size + mp;
    WrapShift(written, -mark, size);
    assert written - mark == (len - mp) + (-q) * size;
    WrapPeriodic(len - mp, -q, size);
    if len - mp == size {
      WrapPeriodic(0, 1, size);
    } else {
      WrapOfSlot(len - mp, size);
    }
  }

  /** The intended rule loses the mark exactly when the marked character
      is overwritten: its absolute position falls out of the last N. */
  lemma {:induction false} IntendedRuleIsOverwrite(size: int, written: int, len: int, mark: int, n: int)
    requires 0 < size <= UINT32_MAX && 0 <= len <= size && len <= written
    requires 0 <= mark < size && MarkOffset(mark, written, len, size) < len
    requires 1 <= n <= size
    ensures LostMarkIntended(Wrap(written, size), mark, n, size)
      <==> written - len + MarkOffset(mark, written, len, size) < written + n - size
  {
    var mp := MarkOffset(mark, written, len, size);
    DistanceToEnd(size, written, len, mark);
    var e := Wrap(Wrap(written, size) - mark, size);
    if e == 0 {
      ModUnique(-1, -1, size - 1, size);
      assert Wrap(e - 1, size) == size - 1;
    } else {
      WrapOfSlot(e - 1, size);
      assert Wrap(e - 1, size) == e - 1;
    }
  }

  /** The rule as written lets a store overwrite the marked character:
      a full 4-character buffer marked at its oldest character (slot 0,
      with `end` also 0) keeps its mark when one more character arrives. */
  lemma AsWrittenKeepsOverwrittenMark()
    ensures !LostMarkAsWritten(0, 0, 1, 4)
    ensures LostMarkIntended(0, 0, 1, 4)
    ensures MarkOffset(0, 4, 4, 4) == 0
    ensures 4 - 4 + MarkOffset(0, 4, 4, 4) < 4 + 1 - 4
  {
    assert Wrap(0, 4) == 0;
    assert Wrap(-1, 4) == 3;
  }

  /** Away from that corner, a mark not at `end`, the two rules agree. */
  lemma {:induction false} RulesAgreeOffCorner(end: int, mark: int, n: int, size: int)
    requires 0 <= end < size <= UINT32_MAX && 0 <= mark < size && 0 <= n <= UINT32_MAX
    requires end != mark
    ensures LostMarkAsWritten(end, mark, n, size) == LostMarkIntended(end, mark, n, size)
  {
    SlotDifference(end, mark, size);
    var e := Wrap(end - mark, size);
    assert 0 < e;
    WrapOfSlot(e - 1, size);
    assert Wrap(e - 1, size) == e - 1;
  }

  /** After a store that keeps the mark, the characters from the mark on are
      the old ones followed by the new ones, provided the marked character
      itself survived. */
  lemma {:induction false} MarkedTextGrows(contents: seq<char>, s: seq<char>, mp: int, size: int)
    requires size > 0 && 0 <= mp < |contents| <= size && |s| <= size
    requires mp - |contents| - |s| + |Last(contents + s, size)| >= 0
    ensures Last(contents + s, size)[mp - |contents| - |s| + |Last(contents + s, size)|..] == contents[mp..] + s
  {
    var t := contents + s;
    var l := Last(t, size);
    var k := mp - |contents| - |s| + |l|;
    assert |l[k..]| == |contents[mp..] + s|;
    forall i | 0 <= i < |l| - k
      ensures l[k..][i] == (contents[mp..] + s)[i]
    {
      LastAt(t, size, k + i);
    }
  }

  /** A mark that survives a store under the intended rule names the same
      character as before, so the text from it on grows by the new input. */
  lemma {:induction false} KeptMark(size: int, oldWritten: int, oldContents: seq<char>, s: seq<char>, m: int)
    requires 0 < size <= UINT32_MAX && |oldContents| <= size && |oldContents| <= oldWritten
    requires 0 <= m < size && MarkOffset(m, oldWritten, |oldContents|, size) < |oldContents|
    requires 1 <= |s| <= size && !LostMarkIntended(Wrap(oldWritten, size), m, |s|, size)
    ensures MarkOffset(m, oldWritten + |s|, |Last(oldContents + s, size)|, size) < |Last(oldContents + s, size)|
    ensures Last(oldContents + s, size)[MarkOffset(m, oldWritten + |s|, |Last(oldContents + s, size)|, size)..]
      == oldContents[MarkOffset(m, oldWritten, |oldContents|, size)..] + s
  {
    var len0, len1 := |oldContents|, |Last(oldContents + s, size)|;
    var mp := MarkOffset(m, oldWritten, len0, size);
    IntendedRuleIsOverwrite(size, oldWritten, len0, m, |s|);
    assert mp >= len0 + |s| - size;
    assert len1 == if len0 + |s| <= size then len0 + |s| else size;
    var k := mp - len0 - |s| + len1;
    assert 0 <= k < len1;
    WrapShift(m - (oldWritten - len0), len1 - len0 - |s|, size);
    assert m - (oldWritten - len0) + (len1 - len0 - |s|) == m - (oldWritten + |s| - len1);
    assert MarkOffset(m, oldWritten + |s|, len1, size) == Wrap(k, size);
    WrapOfSlot(k, size);
    MarkedTextGrows(oldContents, s, mp, size);
  }

  /** The mark a store keeps, under the rule as written, still names a
      stored character: the oldest new one where the store wrote over the
      marked slot, otherwise the same character as before. */
  lemma MarkAfterStore(size: int, oldWritten: int, oldContents: seq<char>, s: seq<char>, m: int)
    requires 0 < size <= UINT32_MAX && |oldContents| <= size && |oldContents| <= oldWritten
    requires 0 <= m < size && MarkOffset(m, oldWritten, |oldContents|, size) < |oldContents|
    requires 1 <= |s| <= size && !LostMarkAsWritten(Wrap(oldWritten, size), m, |s|, size)
    ensures MarkOffset(m, oldWritten + |s|, |Last(oldContents + s, size)|, size) < |Last(oldContents + s, size)|
    ensures Last(oldContents + s, size)[MarkOffset(m, oldWritten + |s|, |Last(oldContents + s, size)|, size)..]
      == if LostMarkIntended(Wrap(oldWritten, size), m, |s|, size) then s
         else oldContents[MarkOffset(m, oldWritten, |oldContents|, size)..] + s
  {
    if LostMarkIntended(Wrap(oldWritten, size), m, |s|, size) {
      OverwrittenMark(size, oldWritten, oldContents, s, m);
    } else {
      KeptMark(size, oldWritten, oldContents, s, m);
    }
  }

  /** Where the two rules part, a store as written keeps a mark whose
      character it overwrites: the buffer was full and marked at its oldest
      character, and afterwards the mark names the first new character, so
      the text from it on is exactly the input. */
  lemma {:induction false} OverwrittenMark(size: int, oldWritten: int, oldContents: seq<char>, s: seq<char>, m: int)
    requires 0 < size <= UINT32_MAX && |oldContents| <= size && |oldContents| <= oldWritten
    requires 0 <= m < size && MarkOffset(m, oldWritten, |oldContents|, size) < |oldContents|
    requires 1 <= |s| <= size
    requires LostMarkIntended(Wrap(oldWritten, size), m, |s|, size)
    requires !LostMarkAsWritten(Wrap(oldWritten, size), m, |s|, size)
    ensures |oldContents| == size && MarkOffset(m, oldWritten, size, size) == 0
    ensures |Last(oldContents + s, size)| == size
    ensures MarkOffset(m, oldWritten + |s|, size, size) == size - |s|
    ensures Last(oldContents + s, size)[size - |s|..] == s
  {
    MarkedOldest(size, oldWritten, |oldContents|, m, |s|);
    MarkBackOf(size, oldWritten, m, |s|);
    LastSuffix(oldContents + s, size, |s|);
    assert (oldContents + s)[|oldContents + s| - |s|..] == s;
  }

  /** The rules part only for a full buffer marked at its oldest character. */
  lemma {:induction false} MarkedOldest(size: int, written: int, len: int, m: int, n: int)
    requires 0 < size <= UINT32_MAX && 0 <= len <= size && len <= written
    requires 0 <= m < size && MarkOffset(m, written, len, size) < len && 1 <= n <= size
    requires LostMarkIntended(Wrap(written, size), m, n, size)
    requires !LostMarkAsWritten(Wrap(written, size), m, n, size)
    ensures len == size && MarkOffset(m, written, len, size) == 0
  {
    DistanceToEnd(size, written, len, m);
    var e := Wrap(Wrap(written, size) - m, size);
    if e != 0 {
      WrapOfSlot(e - 1, size);
      assert false;
    }
  }

  /** A slot at offset 0 of a full buffer lies at offset N - n once n more
      characters are stored. */
  lemma {:induction false} MarkBackOf(size: int, written: int, m: int, n: int)
    requires 0 < size && 1 <= n <= size && MarkOffset(m, written, size, size) == 0
    ensures MarkOffset(m, written + n, size, size) == size - n
  {
    var x := m - (written - size);
    assert Wrap(x, size) == 0;
    WrapShift(x, -n, size);
    assert x - n == m - (written + n - size);
    if n < size {
      ModUnique(-n, -1, size - n, size);
    } else {
      ModUnique(-n, -1, 0, size);
    }
  }

  /** Moving the mark `dist` slots forward, within the limit FROM_PREV_MARK
      allows, keeps it on a stored character `dist` places further on,
      except in the corner where the mark sat at `end`. */
  lemma {:induction false} MarkMovesForward(size: int, written: int, len: int, mark: int, dist: int)
    requires 0 < size <= UINT32_MAX && 0 <= len <= size && len <= written
    requires 0 <= mark < size && MarkOffset(mark, written, len, size) < len
    requires 0 <= dist <= UINT32_MAX
    requires Wrap(Wrap(written, size) - mark, size) == 0
      || dist < Wrap(Wrap(written, size) - mark, size)
    ensures MarkOffset(Wrap(mark + dist, size), written, len, size) < len
    ensures Wrap(written, size) != mark ==>
      (MarkOffset(Wrap(mark + dist, size), written, len, size)
        == MarkOffset(mark, written, len, size) + dist)
  {
    var mp := MarkOffset(mark, written, len, size);
    DistanceToEnd(size, written, len, mark);
    var ndx := Wrap(mark + dist, size);
    WrapShift(mark + dist, -(written - len), size);
    WrapShift(mark - (written - len), dist, size);
    assert mark + dist - (written - len) == mark - (written - len) + dist;
    assert MarkOffset(ndx, written, len, size) == Wrap(mp + dist, size);
    if len - mp == size {
      SlotDifference(Wrap(written, size), mark, size);
      assert Wrap(written, size) == mark;
    } else {
      assert mp + dist < len;
      WrapOfSlot(mp + dist, size);
    }
  }

  /** The slot of the stored character at `offset` (0 is the oldest). */
  lemma {:induction false} MarkAtOffset(size: int, written: int, len: int, slot: int, offset: int)
    requires size > 0 && 0 <= offset < len <= size
    requires slot == Wrap(written - len + offset, size)
    ensures MarkOffset(slot, written, len, size) == offset
  {
    WrapCongruent(written - len + offset, slot, -(written - len), size);
    WrapOfSlot(offset, size);
  }

  datatype DistSetting = FromPrevMark | FromRecentChar | FromOldestChar | DistSettingUnknown

  /** What the two read functions return: a character count, or the
      negated error code. */
  datatype ReadResult = Count(n: nat) | Error(err: EspErr)

  class CircularBuffer {
    var backing: array?<char>
    var backingSize: int
    var end: int
    var len: int
    var mark: int
    /** Every character stored since initialisation, oldest first. */
    ghost var hist: seq<char>

    /** The array, `len` and `end` agree with the history. */
    ghost predicate RingValid()
      reads this`backing, this`backingSize, this`hist, this`len, this`end, backing
    {
      backing != null ==>
        backing.Length == backingSize && 0 < backingSize <= UINT32_MAX &&
        Ring(backing[..], backingSize, hist) &&
        len == |Last(hist, backingSize)| && end == Wrap(|hist|, backingSize)
    }

    /** ... and the mark, when there is one, is the slot of a stored character. */
    ghost predicate Valid()
      reads this, backing
    {
      RingValid() &&
      (backing != null && mark != UINT32_MAX ==>
        0 <= mark < backingSize && MarkOffset(mark, |hist|, len, backingSize) < len)
    }

    /** The stored characters, oldest first. */
    ghost function Contents(): (t: seq<char>)
      reads this`backing, this`backingSize, this`hist, this`len, this`end, backing
      requires RingValid() && backing != null
      ensures |t| == len
    {
      Last(hist, backingSize)
    }

    /** The stored characters from the marked one to the newest. */
    ghost function MarkedText(): (t: seq<char>)
      reads this, backing
      requires Valid() && backing != null && mark != UINT32_MAX
      ensures 0 < |t| <= len
    {
      Contents()[MarkOffset(mark, |hist|, len, backingSize)..]
    }

    /** A zero-filled `CircularBuffer` struct: no backing array yet. */
    constructor Zeroed()
      ensures Valid() && backing == null && hist == []
    {
      backing := null;
      backingSize, end, len, mark := 0, 0, 0, 0;
      hist := [];
    }

    method Init(b: array?<char>, size: int) returns (err: EspErr)
      requires 0 <= size <= UINT32_MAX && (b != null ==> b.Length == size)
      modifies this
      ensures err == if b == null || size == 0 then InvalidArg else Ok
      ensures err == Ok ==> (Valid() && backing == b && backingSize == size &&
        end == 0 && len == 0 && mark == UINT32_MAX && Contents() == [])
      ensures err != Ok ==> unchanged(this)
    {
      if b == null || size == 0 {
        return InvalidArg;
      }
      backing, backingSize := b, size;
      end, len, mark := 0, 0, UINT32_MAX;
      hist := [];
      return Ok;
    }

    method Store(str: array?<char>, n: int) returns (err: EspErr)
      requires Valid() && 0 <= n <= UINT32_MAX
      requires str != null ==> n <= str.Length && str != backing
      modifies this`end, this`len, this`mark, this`hist, backing
      ensures Valid() && backing == old(backing) && backingSize == old(backingSize)
      ensures err == if str == null || n == 0 then InvalidArg
        else if backing == null then AppUninitialized
        else if n > backingSize then InvalidSize
        else if LostMarkAsWritten(old(end), old(mark), n, backingSize) then AppLostMark
        else Ok
      ensures err !in {Ok, AppLostMark} ==> unchanged(this) && (backing != null ==> unchanged(backing))
      ensures err in {Ok, AppLostMark} ==>
        hist == old(hist) + str[..n] &&
        Contents() == Last(old(Contents()) + str[..n], backingSize) &&
        mark == (if err == AppLostMark then UINT32_MAX else old(mark))
      ensures err == Ok && mark != UINT32_MAX ==>
        MarkedText() == if LostMarkIntended(old(end), old(mark), n, old(backingSize)) then str[..n]
          else old(MarkedText()) + str[..n]
    {
      if str == null || n == 0 {
        return InvalidArg;
      }
      if backing == null {
        return AppUninitialized;
      }
      if n > backingSize {
        return InvalidSize;
      }
      err := StoreChecked(str, n);
    }

    /** Store once its argument checks have passed. */
    method StoreChecked(str: array<char>, n: int) returns (err: EspErr)
      requires Valid() && backing != null && 1 <= n <= backingSize && n <= str.Length && str != backing
      modifies this`end, this`len, this`mark, this`hist, backing
      ensures Valid()
      ensures err == if LostMarkAsWritten(old(end), old(mark), n, backingSize) then AppLostMark else Ok
      ensures hist == old(hist) + str[..n]
      ensures Contents() == Last(old(Contents()) + str[..n], backingSize)
      ensures mark == if err == AppLostMark then UINT32_MAX else old(mark)
      ensures err == Ok && mark != UINT32_MAX ==>
        MarkedText() == if LostMarkIntended(old(end), old(mark), n, backingSize) then str[..n]
          else old(MarkedText()) + str[..n]
    {
      var lostMark := WillLoseMark(n);
      ghost var oldHist, oldContents, input := hist, Contents(), str[..n];
      ghost var oldEnd := end;
      Append(str, n);
      if lostMark {
        mark := UINT32_MAX;
        return AppLostMark;
      }
      if mark != UINT32_MAX {
        assert len == |Last(oldContents + input, backingSize)| && |hist| == |oldHist| + |input|;
        assert oldEnd == Wrap(|oldHist|, backingSize);
        MarkAfterStore(backingSize, |oldHist|, oldContents, input, mark);
        assert MarkOffset(mark, |hist|, len, backingSize) < len;
        assert Valid();
      }
      return Ok;
    }

    /** The bookmark test of circStore: is the marked slot among the `n`
        slots about to be written, measured as written from `end`? */
    method WillLoseMark(n: int) returns (lostMark: bool)
      requires Valid() && backing != null && 1 <= n <= backingSize
      ensures lostMark == LostMarkAsWritten(end, mark, n, backingSize)
    {
      lostMark := false;
      if mark != UINT32_MAX {
        var endPrime := ModularSubtraction(end, mark, backingSize);
        if endPrime + n - 1 >= backingSize {
          lostMark := true;
        }
      }
    }

    /** The characters of Store proper: written at `end` onward, then the
        length grown and clamped. */
    method Append(str: array<char>, n: int)
      requires Valid() && backing != null && 1 <= n <= backingSize && n <= str.Length && str != backing
      modifies this`end, this`hist, this`len, backing
      ensures RingValid() && hist == old(hist) + str[..n]
      ensures Contents() == Last(old(Contents()) + str[..n], backingSize)
      ensures len == |Last(old(Contents()) + str[..n], backingSize)| && |hist| == |old(hist)| + n
    {
      ghost var input := str[..n];
      WriteChars(str, n);
      LastConcat(old(hist), input, backingSize);
      len := ClampedLength(len, n, backingSize);
    }

    /** The copy loop of Store: writes `str[..n]` at `end` onward. */
    method WriteChars(str: array<char>, n: int)
      requires backing != null && backing.Length == backingSize && 0 < backingSize <= UINT32_MAX
      requires Ring(backing[..], backingSize, hist) && end == Wrap(|hist|, backingSize)
      requires 0 <= n <= str.Length && str != backing
      modifies this`end, this`hist, backing
      ensures hist == old(hist) + str[..n] && end == Wrap(|hist|, backingSize)
      ensures Ring(backing[..], backingSize, hist)
    {
      ghost var input := str[..n];
      var curr := 0;
      while curr < n
        invariant 0 <= curr <= n
        invariant hist == old(hist) + input[..curr] && end == Wrap(|hist|, backingSize)
        invariant Ring(backing[..], backingSize, hist)
      {
        var c := str[curr];
        ghost var before := backing[..];
        RingPush(before, backingSize, hist, c);
        backing[end] := c;
        assert backing[..] == before[Wrap(|hist|, backingSize) := c];
        end := ModularAddition(end, 1, backingSize);
        WrapShift(|hist|, 1, backingSize);
        hist := hist + [c];
        assert input[..curr + 1] == input[..curr] + [c];
        curr := curr + 1;
      }
      assert input == input[..curr];
    }

    method Mark(dist: int, setting: DistSetting) returns (err: EspErr)
      requires Valid() && 0 <= dist <= UINT32_MAX
      modifies this`mark
      ensures Valid()
      ensures backing == null ==> err == AppUninitialized
      ensures err != Ok ==> mark == old(mark)
      ensures err == Ok ==> mark != UINT32_MAX
      ensures backing != null && setting == FromPrevMark ==>
        err == (if old(mark) == UINT32_MAX then AppLostMark
                else if dist > PrevMarkLimit(old(mark)) then InvalidSize
                else Ok) &&
        (err == Ok ==> mark == Wrap(old(mark) + dist, backingSize))
      ensures backing != null && setting == FromPrevMark && err == Ok && old(mark) != end ==>
        MarkOffset(mark, |hist|, len, backingSize) == MarkOffset(old(mark), |hist|, len, backingSize) + dist
      ensures backing != null && setting in {FromRecentChar, FromOldestChar} ==>
        err == (if dist >= len then InvalidSize else Ok)
      ensures backing != null && setting == FromRecentChar && err == Ok ==>
        MarkedText() == Contents()[len - 1 - dist..]
      ensures backing != null && setting == FromOldestChar && err == Ok ==>
        MarkedText() == Contents()[dist..]
      ensures backing != null && setting == DistSettingUnknown ==> err == AppUninitialized
    {
      if backing == null {
        return AppUninitialized;
      }
      var ndx: int;
      match setting {
        case FromPrevMark =>
          err, ndx := PrevMarkIndex(dist);
        case FromRecentChar =>
          err, ndx := RecentCharIndex(dist);
        case FromOldestChar =>
          err, ndx := OldestCharIndex(dist);
        case DistSettingUnknown =>
          return AppUninitialized;
      }
      if err == Ok {
        mark := ndx;
      }
    }

    /** The FROM_PREV_MARK case of Mark: `dist` slots after the current
        mark, refused when that passes the newest character. */
    method PrevMarkIndex(dist: int) returns (err: EspErr, ndx: int)
      requires Valid() && backing != null && 0 <= dist <= UINT32_MAX
      ensures err == (if mark == UINT32_MAX then AppLostMark
                      else if dist > PrevMarkLimit(mark) then InvalidSize
                      else Ok)
      ensures err == Ok ==> ndx == Wrap(mark + dist, backingSize)
      ensures err == Ok ==> MarkOffset(ndx, |hist|, len, backingSize) < len
      ensures err == Ok && mark != end ==>
        MarkOffset(ndx, |hist|, len, backingSize) == MarkOffset(mark, |hist|, len, backingSize) + dist
    {
      if mark == UINT32_MAX {
        return AppLostMark, 0;
      }
      ghost var toEnd := Wrap(end - mark, backingSize);
      var prevMarkDist := ModularSubtraction(end, mark, backingSize);
      prevMarkDist := if prevMarkDist == 0 then UINT32_MAX else prevMarkDist - 1;
      assert prevMarkDist == PrevMarkLimit(mark);
      if dist > prevMarkDist {
        return InvalidSize, 0;
      }
      assert toEnd == 0 || dist < toEnd;
      ndx := ModularAddition(mark, dist, backingSize);
      MarkMovesForward(backingSize, |hist|, len, mark, dist);
      return Ok, ndx;
    }

    /** The FROM_RECENT_CHAR case of Mark: the character `dist` places
        before the newest one. */
    method RecentCharIndex(dist: int) returns (err: EspErr, ndx: int)
      requires Valid() && backing != null && 0 <= dist <= UINT32_MAX
      ensures err == (if dist >= len then InvalidSize else Ok)
      ensures err == Ok ==> 0 <= ndx < backingSize && MarkOffset(ndx, |hist|, len, backingSize) == len - 1 - dist
    {
      if dist >= len {
        return InvalidSize, 0;
      }
      ndx := ModularSubtraction(end, dist, backingSize);
      WrapShift(|hist|, -dist, backingSize);
      ndx := ModularSubtraction(ndx, 1, backingSize);
      WrapShift(|hist| - dist, -1, backingSize);
      assert |hist| - dist - 1 == |hist| - len + (len - 1 - dist);
      MarkAtOffset(backingSize, |hist|, len, ndx, len - 1 - dist);
      return Ok, ndx;
    }

    /** The FROM_OLDEST_CHAR case of Mark: the character `dist` places
        after the oldest one. */
    method OldestCharIndex(dist: int) returns (err: EspErr, ndx: int)
      requires Valid() && backing != null && 0 <= dist <= UINT32_MAX
      ensures err == (if dist >= len then InvalidSize else Ok)
      ensures err == Ok ==> 0 <= ndx < backingSize && MarkOffset(ndx, |hist|, len, backingSize) == dist
    {
      if dist >= len {
        return InvalidSize, 0;
      }
      ndx := ModularSubtraction(end, len, backingSize);
      WrapShift(|hist|, -len, backingSize);
      ndx := ModularAddition(ndx, dist, backingSize);
      WrapShift(|hist| - len, dist, backingSize);
      MarkAtOffset(backingSize, |hist|, len, ndx, dist);
      return Ok, ndx;
    }

    /** `prevMarkDist` of FROM_PREV_MARK: one less than the distance from
        the mark to `end`, in 32-bit unsigned arithmetic, so a distance of
        0 wraps to UINT32_MAX. */
    ghost function PrevMarkLimit(m: int): (r: int)
      reads this, backing
      requires Valid() && backing != null && 0 <= m < backingSize
      ensures 0 <= r <= UINT32_MAX
      ensures r == UINT32_MAX <==> Wrap(end - m, backingSize) == 0
    {
      var d := Wrap(end - m, backingSize) - 1;
      if d < 0 then d + UINT32_MAX + 1 else d
    }

    method Read(strOut: array?<char>, n: int) returns (r: ReadResult)
      requires Valid() && 0 <= n <= UINT32_MAX
      requires strOut != null ==> strOut.Length > n && strOut != backing
      modifies strOut
      ensures r == if strOut == null || n == 0 then Error(InvalidArg)
        else if backing == null then Error(AppUninitialized)
        else if n > len then Error(InvalidSize)
        else Count(n)
      ensures r.Error? && strOut != null ==> unchanged(strOut)
      ensures r.Count? ==> strOut[..n] == Contents()[len - n..] && strOut[n] == '\0'
    {
      if strOut == null || n == 0 {
        return Error(InvalidArg);
      }
      if backing == null {
        return Error(AppUninitialized);
      }
      if n > len {
        return Error(InvalidSize);
      }
      CopyRecent(strOut, n);
      strOut[n] := '\0';
      LastSuffix(hist, backingSize, n);
      return Count(n);
    }

    /** The copy loop of Read: the newest `n` characters into `strOut`. */
    method CopyRecent(strOut: array<char>, n: int)
      requires backing != null && backing.Length == backingSize && 0 < backingSize <= UINT32_MAX
      requires Ring(backing[..], backingSize, hist) && end == Wrap(|hist|, backingSize)
      requires 0 < n <= backingSize && n <= |hist| && n < strOut.Length && strOut != backing
      modifies strOut
      ensures strOut[..n] == hist[|hist| - n..]
    {
      var start := ModularSubtraction(end, n, backingSize);
      ghost var b0, h, size := backing[..], hist, backingSize;
      ghost var first := |h| - n;
      assert start == Wrap(first, size) by {
        WrapShift(|h|, -n, size);
      }
      var curr := 0;
      while curr < n
        invariant 0 <= curr <= n && backing[..] == b0
        invariant forall j :: 0 <= j < curr ==> strOut[j] == h[first + j]
      {
        var ndx := ModularAddition(start, curr, backingSize);
        RecentAt(b0, size, h, first, start, curr);
        strOut[curr] := backing[ndx];
        curr := curr + 1;
      }
      assert strOut[..n] == h[first..];
    }

    method ReadFromMark(strOut: array?<char>, maxLen: int) returns (r: ReadResult)
      requires Valid() && 0 <= maxLen <= UINT32_MAX
      requires strOut != null ==> strOut.Length > maxLen && strOut != backing
      modifies strOut
      ensures r == if strOut == null || maxLen == 0 then Error(InvalidArg)
        else if backing == null then Error(AppUninitialized)
        else if mark == UINT32_MAX then Error(AppLostMark)
        else Count(if maxLen < |MarkedText()| then maxLen else |MarkedText()|)
      ensures r.Error? && strOut != null ==> unchanged(strOut)
      ensures r.Count? ==> 1 <= r.n && strOut[..r.n] == MarkedText()[..r.n] && strOut[r.n] == '\0'
    {
      if strOut == null || maxLen == 0 {
        return Error(InvalidArg);
      }
      if backing == null {
        return Error(AppUninitialized);
      }
      if mark == UINT32_MAX {
        return Error(AppLostMark);
      }
      ghost var h, size := hist, backingSize;
      ghost var mp := MarkOffset(mark, |h|, len, size);
      ghost var start := |h| - len + mp;
      ghost var text := MarkedText();
      assert text == Last(h, size)[mp..];
      MarkSlot(mark, |h|, len, size);
      assert 0 <= start < |h| && |h| - size <= start;
      assert Ring(backing[..], size, h);
      var count := CopyFromMark(strOut, maxLen, start);
      LastSlice(h, size, mp, count);
      ghost var copied := strOut[..count];
      strOut[count] := '\0';
      assert strOut[..count] == copied;
      return Count(count);
    }

    /** The copy loop of ReadFromMark: from the mark (history position
        `start`) up to the newest character, at most `maxLen` of them. */
    method CopyFromMark(strOut: array<char>, maxLen: int, ghost start: int) returns (count: int)
      requires backing != null && backing.Length == backingSize && 0 < backingSize <= UINT32_MAX
      requires Ring(backing[..], backingSize, hist) && end == Wrap(|hist|, backingSize)
      requires 0 <= start < |hist| && |hist| - backingSize <= start && mark == Wrap(start, backingSize)
      requires 0 < maxLen <= UINT32_MAX && maxLen < strOut.Length && strOut != backing
      modifies strOut
      ensures count == if maxLen < |hist| - start then maxLen else |hist| - start
      ensures strOut[..count] == hist[start..start + count]
    {
      var size := backingSize;
      ghost var b0, h := backing[..], hist;
      var strOutNdx := 0;
      var bufNdx := mark;
      while strOutNdx < maxLen
        invariant 0 <= strOutNdx <= maxLen && strOutNdx < |h| - start
        invariant bufNdx == Wrap(start + strOutNdx, size) && backing[..] == b0
        invariant forall j :: 0 <= j < strOutNdx ==> strOut[j] == h[start + j]
        decreases maxLen - strOutNdx
      {
        ghost var p := start + strOutNdx;
        assert backing[bufNdx] == h[p] by {
          RingAt(b0, size, h, p);
        }
        strOut[strOutNdx] := backing[bufNdx];
        strOutNdx := strOutNdx + 1;
        bufNdx := ModularAddition(bufNdx, 1, size);
        assert bufNdx == Wrap(p + 1, size) by {
          WrapShift(p, 1, size);
        }
        if bufNdx == end {
          assert p + 1 == |h| by {
            if p + 1 < |h| {
              WrapDistinct(p + 1, |h|, size);
            }
          }
          break;
        }
      }
      assert strOut[..strOutNdx] == h[start..start + strOutNdx];
      return strOutNdx;
    }
  }
}
