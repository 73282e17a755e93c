/**
 * Decimal text shared by the firmware and the server scripts: digit
 * strings, their values, the decimal numeral of a number, and Python's
 * int() applied to a string.
 */
module Text {
  import opened Wrappers

  predicate IsDigit(c: char) {
    '0' as int <= c as int <= '9' as int
  }

  predicate AllDigits(d: string) {
    forall i :: 0 <= i < |d| ==> IsDigit(d[i])
  }

  /** The value of a string of decimal digits, most significant first. */
  function DigitsValue(d: string): (n: nat)
    requires AllDigits(d)
  {
    if |d| == 0 then 0
    else
      assert IsDigit(d[|d| - 1]);
      DigitsValue(d[..|d| - 1]) * 10 + (d[|d| - 1] as int - '0' as int)
  }

  /** The decimal numeral of `n`, without sign or leading zeros. */
  function Decimal(n: nat): (s: string)
    ensures |s| > 0 && AllDigits(s)
    ensures n > 0 ==> s[0] != '0'
  {
    if n < 10 then [('0' as int + n) as char]
    else Decimal(n / 10) + [('0' as int + n % 10) as char]
  }

  /** The numeral of an integer as Python's str() writes it. */
  function IntToString(n: int): (s: string)
    ensures |s| > 0
  {
    if n < 0 then "-" + Decimal(-n) else Decimal(n)
  }

  lemma {:induction false} DigitsOfDecimal(n: nat)
    ensures DigitsValue(Decimal(n)) == n
  {
    if n >= 10 {
      DigitsOfDecimal(n / 10);
      assert Decimal(n)[..|Decimal(n)| - 1] == Decimal(n / 10);
    }
  }

  /** Different numbers have different numerals. */
  lemma DecimalIsInjective(m: nat, n: nat)
    requires Decimal(m) == Decimal(n)
    ensures m == n
  {
    DigitsOfDecimal(m);
    DigitsOfDecimal(n);
  }

  // ---------------------------------------------------------------------
  // Python int()
  // ---------------------------------------------------------------------

  /** White space as str.strip and int() skip it, within ASCII. */
  predicate IsPySpace(c: char) {
    c == ' ' || (9 <= c as int <= 13) || (28 <= c as int <= 31)
  }

  function TrimLeft(s: string): string {
    if |s| > 0 && IsPySpace(s[0]) then TrimLeft(s[1..]) else s
  }

  function TrimRight(s: string): string {
    if |s| > 0 && IsPySpace(s[|s| - 1]) then TrimRight(s[..|s| - 1]) else s
  }

  /** Digits with single underscores between them, as int() accepts. */
  predicate DigitGroups(b: string) {
    && |b| > 0 && IsDigit(b[0]) && IsDigit(b[|b| - 1])
    && forall i :: 0 <= i < |b| ==> IsDigit(b[i]) || (b[i] == '_' && i + 1 < |b| && IsDigit(b[i + 1]))
  }

  function RemoveUnderscores(b: string): (d: string)
    ensures AllDigits(b) ==> d == b
  {
    if |b| == 0 then []
    else (if b[0] == '_' then [] else [b[0]]) + RemoveUnderscores(b[1..])
  }

  lemma GroupsAreDigitsOrUnderscores(b: string)
    requires DigitGroups(b)
    ensures AllDigits(RemoveUnderscores(b))
  {
    forall i | 0 <= i < |b|
      ensures IsDigit(b[i]) || b[i] == '_'
    {
      assert IsDigit(b[i]) || (b[i] == '_' && i + 1 < |b| && IsDigit(b[i + 1]));
    }
    RemoveUnderscoresOfGroups(b);
  }

  lemma {:induction false} RemoveUnderscoresOfGroups(b: string)
    requires forall i :: 0 <= i < |b| ==> IsDigit(b[i]) || b[i] == '_'
    ensures AllDigits(RemoveUnderscores(b))
  {
    if |b| > 0 {
      RemoveUnderscoresOfGroups(b[1..]);
    }
  }

  /**
   * int(s) for a string: surrounding white space, an optional sign, then
   * digits possibly grouped by single underscores. None is the ValueError
   * int() raises on anything else.
   */
  function PyInt(s: string): Option<int> {
    PyIntTrimmed(TrimRight(TrimLeft(s)))
  }

  /** int() once the surrounding white space is gone. */
  function PyIntTrimmed(t: string): Option<int> {
    var negative := |t| > 0 && t[0] == '-';
    var body := if |t| > 0 && (t[0] == '-' || t[0] == '+') then t[1..] else t;
    if !DigitGroups(body) then None
    else
      GroupsAreDigitsOrUnderscores(body);
      var magnitude: int := DigitsValue(RemoveUnderscores(body));
      Some(if negative then -magnitude else magnitude)
  }

  /** Neither the empty string nor white space is a number. */
  lemma PyIntRejectsBlank(s: string)
    requires forall i :: 0 <= i < |s| ==> IsPySpace(s[i])
    ensures PyInt(s).None?
  {
    TrimLeftOfBlank(s);
  }

  lemma {:induction false} TrimLeftOfBlank(s: string)
    requires forall i :: 0 <= i < |s| ==> IsPySpace(s[i])
    ensures TrimLeft(s) == []
  {
    if |s| > 0 {
      TrimLeftOfBlank(s[1..]);
    }
  }

  /** int() reads back what str() writes. */
  lemma PyIntOfString(n: int)
    ensures PyInt(IntToString(n)) == Some(n)
  {
    var s := IntToString(n);
    NumeralEnds(n);
    assert TrimLeft(s) == s;
    assert TrimRight(s) == s;
    ReadNumeral(n);
  }

  lemma ReadNumeral(n: int)
    ensures PyIntTrimmed(IntToString(n)) == Some(n)
  {
    var m: nat := if n < 0 then -n else n;
    var d := Decimal(m);
    DigitsOfDecimal(m);
    assert DigitGroups(d);
    assert RemoveUnderscores(d) == d;
    if n < 0 {
      assert IntToString(n)[1..] == d;
    } else {
      assert IsDigit(d[0]);
    }
  }

  /** int() also reads a numeral back with the line break after it, as a
      CSV field at the end of a row holds it. */
  lemma PyIntOfField(n: int, tail: string)
    requires forall i :: 0 <= i < |tail| ==> IsPySpace(tail[i])
    ensures PyInt(IntToString(n) + tail) == PyInt(IntToString(n))
  {
    var s := IntToString(n);
    NumeralEnds(n);
    assert (s + tail)[0] == s[0];
    assert TrimLeft(s + tail) == s + tail;
    assert TrimLeft(s) == s;
    TrimRightOfSpaces(s, tail);
  }

  /** A numeral starts with a sign or a digit and ends with a digit. */
  lemma NumeralEnds(n: int)
    ensures !IsPySpace(IntToString(n)[0]) && !IsPySpace(IntToString(n)[|IntToString(n)| - 1])
  {
    var m: nat := if n < 0 then -n else n;
    assert IsDigit(Decimal(m)[0]) && IsDigit(Decimal(m)[|Decimal(m)| - 1]);
  }

  lemma {:induction false} TrimRightOfSpaces(s: string, tail: string)
    requires forall i :: 0 <= i < |tail| ==> IsPySpace(tail[i])
    ensures TrimRight(s + tail) == TrimRight(s)
  {
    if |tail| > 0 {
      var t := tail[..|tail| - 1];
      assert (s + tail)[..|s + tail| - 1] == s + t;
      TrimRightOfSpaces(s, t);
    } else {
      assert s + tail == s;
    }
  }
}
