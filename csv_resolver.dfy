/**
 * pruneCSVEntries as fetch_tomtom_data.py and fetch_tomtom_three.py share
 * it: the LED rows of one direction are folded into (row, LED numbers)
 * pairs, a row whose "Reference" names another LED adding its number to
 * that LED's list instead of making a pair of its own.
 *
 * The rows are the already-read CSV (see Records); the log lines are not
 * modelled, only the flags they come with.
 */
module CsvResolver {
  import opened Wrappers
  import opened Text
  import opened Records

  /** The exceptions pruneCSVEntries raises, in the order it checks them. */
  datatype PruneError = UnknownDirectionArgument | DuplicateEntries | MissingEntries | BadReferences

  /** A canonical row and the LED numbers it stands for. */
  datatype Pair = Pair(entry: Entry, leds: seq<nat>)

  datatype Pruned = Pruned(pairs: seq<Pair>) | Raised(error: PruneError)

  // ---------------------------------------------------------------------
  // References
  // ---------------------------------------------------------------------

  /** getReference: int() of the column; an absent column or a failed
      parse is None. */
  function GetReference(e: Entry): (r: Option<int>)
    ensures e.reference.None? ==> r.None?
  {
    match e.reference
    case None => None
    case Some(text) => PyInt(text)
  }

  /** A row of the run with its reference read once, as the loop does. */
  datatype Row = Row(entry: Entry, reference: Option<int>)

  function ReadRows(entries: seq<Entry>): (rows: seq<Row>)
    ensures |rows| == |entries|
  {
    if |entries| == 0 then []
    else
      var last := entries[|entries| - 1];
      ReadRows(entries[..|entries| - 1]) + [Row(last, GetReference(last))]
  }

  function LedNum(r: Row): nat {
    r.entry.ledNum
  }

  /** A row with no reference, or reference 0, stands for itself. */
  predicate IsCanonical(r: Row) {
    r.reference.None? || r.reference.value == 0
  }

  /** The LED number an aliasing row points at. */
  function Target(r: Row): int
    requires !IsCanonical(r)
  {
    r.reference.value
  }

  /** A blank or absent Reference makes a canonical row. */
  lemma BlankReferenceIsCanonical(e: Entry)
    requires e.reference.Some? ==> forall i :: 0 <= i < |e.reference.value| ==> IsPySpace(e.reference.value[i])
    ensures IsCanonical(Row(e, GetReference(e)))
  {
    if e.reference.Some? {
      PyIntRejectsBlank(e.reference.value);
    }
  }

  /** A Reference holding a numeral is read as that number, and only the
      numeral 0 leaves the row canonical. */
  lemma NumericReference(e: Entry, n: int)
    requires e.reference == Some(IntToString(n))
    ensures GetReference(e) == Some(n)
    ensures IsCanonical(Row(e, GetReference(e))) <==> n == 0
  {
    PyIntOfString(n);
  }

  // ---------------------------------------------------------------------
  // What the rows of one direction resolve to
  // ---------------------------------------------------------------------

  /** The LED numbers present among the rows. */
  function LedSet(rows: seq<Row>): (s: set<nat>)
    ensures forall e :: e in rows ==> LedNum(e) in s
  {
    if |rows| == 0 then {}
    else LedSet(rows[..|rows| - 1]) + {LedNum(rows[|rows| - 1])}
  }

  /** Two rows carry the same LED number. */
  predicate HasDuplicate(rows: seq<Row>) {
    exists i, j :: 0 <= i < j < |rows| && LedNum(rows[i]) == LedNum(rows[j])
  }

  /** The canonical rows, in file order. */
  function Canonicals(rows: seq<Row>): (c: seq<Row>)
    ensures |c| <= |rows|
  {
    if |rows| == 0 then []
    else
      var last := rows[|rows| - 1];
      Canonicals(rows[..|rows| - 1]) + (if IsCanonical(last) then [last] else [])
  }

  /** The LED numbers of the rows pointing at `n`, in file order. */
  function Aliases(rows: seq<Row>, n: int): seq<nat> {
    if |rows| == 0 then []
    else
      var last := rows[|rows| - 1];
      Aliases(rows[..|rows| - 1], n) + (if !IsCanonical(last) && Target(last) == n then [LedNum(last)] else [])
  }

  /** The LED numbers of some rows, as a set. */
  function NumSet(c: seq<Row>): set<nat> {
    set e | e in c :: LedNum(e)
  }

  /** Some row points at an LED number no canonical row carries: at a
      missing LED, at an aliasing row, or at itself. */
  predicate DanglingReference(rows: seq<Row>) {
    exists e :: e in rows && !IsCanonical(e) && Target(e) !in NumSet(Canonicals(rows))
  }

  /** No number between two present numbers is absent. */
  predicate NoGaps(s: set<nat>) {
    forall a, b, n :: a in s && b in s && a <= n <= b ==> n in s
  }

  /** The pairs of a successful run: each canonical row with its own
      number followed by the numbers of the rows pointing at it. */
  function Resolved(rows: seq<Row>): (r: seq<Pair>)
    ensures |r| == |Canonicals(rows)|
  {
    var c := Canonicals(rows);
    seq(|c|, k requires 0 <= k < |c| => Pair(c[k].entry, [LedNum(c[k])] + Aliases(rows, LedNum(c[k]))))
  }

  /** What pruneCSVEntries returns or raises for the rows of its direction. */
  function PruneOutcome(rows: seq<Row>, allowMissing: bool): Pruned {
    if HasDuplicate(rows) then Raised(DuplicateEntries)
    else if !allowMissing && !NoGaps(LedSet(rows)) then Raised(MissingEntries)
    else if DanglingReference(rows) then Raised(BadReferences)
    else Pruned(Resolved(rows))
  }

  // ---------------------------------------------------------------------
  // Facts about the specification
  // ---------------------------------------------------------------------

  lemma {:induction false} LedSetMembers(rows: seq<Row>, n: nat)
    ensures n in LedSet(rows) <==> exists e :: e in rows && LedNum(e) == n
  {
    if |rows| > 0 {
      var init := rows[..|rows| - 1];
      LedSetMembers(init, n);
      assert rows == init + [rows[|rows| - 1]];
    }
  }

  lemma {:induction false} CanonicalMembers(rows: seq<Row>, e: Row)
    ensures e in Canonicals(rows) <==> e in rows && IsCanonical(e)
  {
    if |rows| > 0 {
      var init := rows[..|rows| - 1];
      CanonicalMembers(init, e);
      assert rows == init + [rows[|rows| - 1]];
    }
  }

  /** Without duplicate rows, canonical rows carry distinct numbers. */
  lemma {:induction false} CanonicalsDistinct(rows: seq<Row>)
    requires !HasDuplicate(rows)
    ensures forall j, k :: 0 <= j < k < |Canonicals(rows)| ==> LedNum(Canonicals(rows)[j]) != LedNum(Canonicals(rows)[k])
  {
    if |rows| > 0 {
      var init := rows[..|rows| - 1];
      var last := rows[|rows| - 1];
      assert !HasDuplicate(init);
      CanonicalsDistinct(init);
      if IsCanonical(last) {
        var c := Canonicals(rows);
        var ci := Canonicals(init);
        assert c == ci + [last];
        forall j | 0 <= j < |ci|
          ensures LedNum(ci[j]) != LedNum(last)
        {
          CanonicalMembers(init, ci[j]);
          var i :| 0 <= i < |init| && init[i] == ci[j];
          assert rows[i] == init[i] && rows[|rows| - 1] == last;
        }
      }
    }
  }

  /** Some row points at `n` exactly when the alias list of `n` is not empty. */
  lemma {:induction false} AliasesNonEmpty(rows: seq<Row>, n: int)
    ensures Aliases(rows, n) != [] <==> exists e :: e in rows && !IsCanonical(e) && Target(e) == n
  {
    if |rows| > 0 {
      var init := rows[..|rows| - 1];
      AliasesNonEmpty(init, n);
      assert rows == init + [rows[|rows| - 1]];
    }
  }

  /** The LED numbers of the aliasing rows, in file order. */
  function AliasLeds(rows: seq<Row>): seq<nat> {
    if |rows| == 0 then []
    else
      var last := rows[|rows| - 1];
      AliasLeds(rows[..|rows| - 1]) + (if !IsCanonical(last) then [LedNum(last)] else [])
  }

  /** The LED numbers of the rows pointing into `targets`, in file order. */
  function AliasesInto(rows: seq<Row>, targets: set<int>): seq<nat> {
    if |rows| == 0 then []
    else
      var last := rows[|rows| - 1];
      AliasesInto(rows[..|rows| - 1], targets) + (if !IsCanonical(last) && Target(last) in targets then [LedNum(last)] else [])
  }

  /** All the LED numbers of some pairs, pair after pair. */
  function Flatten(pairs: seq<Pair>): seq<nat> {
    if |pairs| == 0 then [] else Flatten(pairs[..|pairs| - 1]) + pairs[|pairs| - 1].leds
  }

  /** The LED numbers of some rows, in order. */
  function RowNums(rows: seq<Row>): (r: seq<nat>)
    ensures |r| == |rows|
  {
    if |rows| == 0 then [] else RowNums(rows[..|rows| - 1]) + [LedNum(rows[|rows| - 1])]
  }

  lemma RowNumsSnoc(s: seq<Row>, x: Row)
    ensures RowNums(s + [x]) == RowNums(s) + [LedNum(x)]
  {
    assert (s + [x])[..|s|] == s;
  }

  lemma LastSplit<T>(s: seq<T>)
    requires |s| > 0
    ensures s == s[..|s| - 1] + [s[|s| - 1]]
  {
  }

  /** The rows split into canonical ones and aliasing ones. */
  lemma {:induction false} RowsSplit(rows: seq<Row>)
    ensures multiset(RowNums(rows)) == multiset(RowNums(Canonicals(rows))) + multiset(AliasLeds(rows))
  {
    if |rows| > 0 {
      var init := rows[..|rows| - 1];
      var last := rows[|rows| - 1];
      RowsSplit(init);
      var ci := Canonicals(init);
      LastSplit(rows);
      RowNumsSnoc(init, last);
      if IsCanonical(last) {
        assert Canonicals(rows) == ci + [last];
        RowNumsSnoc(ci, last);
        assert AliasLeds(rows) == AliasLeds(init);
      } else {
        assert Canonicals(rows) == ci;
        assert AliasLeds(rows) == AliasLeds(init) + [LedNum(last)];
      }
    }
  }

  /** Adding a target not yet among the targets adds its alias list. */
  lemma {:induction false} AliasesIntoOneMore(rows: seq<Row>, targets: set<int>, n: int, more: set<int>)
    requires n !in targets && forall t :: t in more <==> t in targets || t == n
    ensures multiset(AliasesInto(rows, more)) == multiset(AliasesInto(rows, targets)) + multiset(Aliases(rows, n))
  {
    if |rows| > 0 {
      var init := rows[..|rows| - 1];
      var last := rows[|rows| - 1];
      AliasesIntoOneMore(init, targets, n, more);
      var a, b, c := AliasesInto(init, more), AliasesInto(init, targets), Aliases(init, n);
      if IsCanonical(last) || (Target(last) != n && Target(last) !in targets) {
        assert AliasesInto(rows, more) == a && AliasesInto(rows, targets) == b && Aliases(rows, n) == c;
      } else if Target(last) == n {
        assert AliasesInto(rows, more) == a + [LedNum(last)];
        assert AliasesInto(rows, targets) == b && Aliases(rows, n) == c + [LedNum(last)];
      } else {
        assert AliasesInto(rows, more) == a + [LedNum(last)];
        assert AliasesInto(rows, targets) == b + [LedNum(last)] && Aliases(rows, n) == c;
      }
    }
  }

  lemma {:induction false} AliasesIntoNothing(rows: seq<Row>)
    ensures AliasesInto(rows, {}) == []
  {
    if |rows| > 0 {
      AliasesIntoNothing(rows[..|rows| - 1]);
    }
  }

  /** When every aliasing row points into `targets`, all of them are found. */
  lemma {:induction false} AliasesIntoAll(rows: seq<Row>, targets: set<int>)
    requires forall e :: e in rows && !IsCanonical(e) ==> Target(e) in targets
    ensures AliasesInto(rows, targets) == AliasLeds(rows)
  {
    if |rows| > 0 {
      var init := rows[..|rows| - 1];
      assert forall e :: e in init ==> e in rows;
      AliasesIntoAll(init, targets);
    }
  }

  /** What one more element adds to a prefix. */
  lemma PrefixSteps(r: seq<Pair>, c: seq<Row>, m: nat)
    requires 0 < m <= |r| && m <= |c|
    ensures Flatten(r[..m]) == Flatten(r[..m - 1]) + r[m - 1].leds
    ensures RowNums(c[..m]) == RowNums(c[..m - 1]) + [LedNum(c[m - 1])]
    ensures NumSet(c[..m]) == NumSet(c[..m - 1]) + {LedNum(c[m - 1])}
  {
    assert r[..m][..m - 1] == r[..m - 1];
    assert c[..m] == c[..m - 1] + [c[m - 1]];
    RowNumsSnoc(c[..m - 1], c[m - 1]);
  }

  lemma DistinctLast(c: seq<Row>, m: nat)
    requires 0 < m <= |c|
    requires forall j, k :: 0 <= j < k < |c| ==> LedNum(c[j]) != LedNum(c[k])
    ensures LedNum(c[m - 1]) !in NumSet(c[..m - 1])
  {
  }

  /** The pairs built over the first canonical rows. */
  lemma {:induction false} FlattenResolvedPrefix(rows: seq<Row>, c: seq<Row>, m: nat)
    requires m <= |c| == |Canonicals(rows)| && c == Canonicals(rows)
    requires forall j, k :: 0 <= j < k < |c| ==> LedNum(c[j]) != LedNum(c[k])
    ensures multiset(Flatten(Resolved(rows)[..m])) == multiset(RowNums(c[..m])) + multiset(AliasesInto(rows, NumSet(c[..m])))
  {
    if m > 0 {
      var r := Resolved(rows);
      var n := LedNum(c[m - 1]);
      var before := c[..m - 1];
      FlattenResolvedPrefix(rows, c, m - 1);
      PrefixSteps(r, c, m);
      assert r[m - 1].leds == [n] + Aliases(rows, n);
      DistinctLast(c, m);
      AliasesIntoOneMore(rows, NumSet(before), n, NumSet(c[..m]));
    } else {
      assert NumSet(c[..0]) == {};
      AliasesIntoNothing(rows);
    }
  }

  /**
   * On success the lists together hold exactly the LED numbers of the
   * rows, each as often as it occurs among them; with no duplicate rows,
   * each exactly once.
   */
  lemma ResolvedPartitionsLeds(rows: seq<Row>)
    requires !HasDuplicate(rows) && !DanglingReference(rows)
    ensures multiset(Flatten(Resolved(rows))) == multiset(RowNums(rows))
  {
    var c := Canonicals(rows);
    CanonicalsDistinct(rows);
    FlattenResolvedPrefix(rows, c, |c|);
    assert Resolved(rows)[..|c|] == Resolved(rows) && c[..|c|] == c;
    AliasesIntoAll(rows, NumSet(c));
    RowsSplit(rows);
  }

  /** A row pointing at an aliasing row is rejected: references do not chain. */
  lemma ChainedReferenceDangles(rows: seq<Row>, a: Row, b: Row)
    requires !HasDuplicate(rows)
    requires a in rows && b in rows && !IsCanonical(a) && !IsCanonical(b) && Target(a) == LedNum(b)
    ensures DanglingReference(rows)
  {
    if Target(a) in NumSet(Canonicals(rows)) {
      var e :| e in Canonicals(rows) && LedNum(e) == LedNum(b);
      CanonicalMembers(rows, e);
      assert false;
    }
  }

  // ---------------------------------------------------------------------
  // The missing-number check over sorted(seen_leds)
  // ---------------------------------------------------------------------

  /** The smallest element of a non-empty set. */
  ghost function Min(s: set<nat>): (m: nat)
    requires s != {}
    ensures m in s && forall y :: y in s ==> m <= y
    decreases s
  {
    var x :| x in s;
    assert forall y :: y in s ==> y == x || y in s - {x};
    if s - {x} == {} then x
    else
      var m := Min(s - {x});
      if x < m then x else m
  }

  predicate Increasing(r: seq<nat>) {
    forall i, j :: 0 <= i < j < |r| ==> r[i] < r[j]
  }

  /** sorted() of a set: its elements in increasing order. */
  method SortedSet(s: set<nat>) returns (r: seq<nat>)
    ensures forall x :: x in r <==> x in s
    ensures Increasing(r)
  {
    r := [];
    var rest := s;
    while rest != {}
      invariant forall x :: x in s <==> x in r || x in rest
      invariant forall x, y :: x in r && y in rest ==> x < y
      invariant Increasing(r)
      decreases |rest|
    {
      assert Min(rest) in rest;
      var m :| m in rest && forall x :: x in rest ==> m <= x;
      forall i | 0 <= i < |r|
        ensures r[i] < m
      {
        assert r[i] in r;
      }
      forall x, y | x in r + [m] && y in rest - {m}
        ensures x < y
      {
        if x !in r {
          assert x == m;
        }
      }
      r := r + [m];
      rest := rest - {m};
    }
  }

  /** Each element one more than the one before it. */
  predicate Consecutive(r: seq<nat>) {
    forall k :: 0 < k < |r| ==> r[k] == r[k - 1] + 1
  }

  lemma {:induction false} ConsecutiveOffsets(r: seq<nat>, k: nat)
    requires Consecutive(r) && k < |r|
    ensures r[k] == r[0] + k
  {
    if k > 0 {
      ConsecutiveOffsets(r, k - 1);
    }
  }

  lemma ConsecutiveHasNoGaps(r: seq<nat>, s: set<nat>)
    requires Consecutive(r) && forall x :: x in r <==> x in s
    ensures NoGaps(s)
  {
    forall a, b, n | a in s && b in s && a <= n <= b
      ensures n in s
    {
      var i :| 0 <= i < |r| && r[i] == a;
      var j :| 0 <= j < |r| && r[j] == b;
      ConsecutiveOffsets(r, i);
      ConsecutiveOffsets(r, j);
      ConsecutiveOffsets(r, n - r[0]);
    }
  }

  lemma SkipIsGap(r: seq<nat>, s: set<nat>, k: nat)
    requires Increasing(r) && forall x :: x in r <==> x in s
    requires 0 < k < |r| && r[k] != r[k - 1] + 1
    ensures !NoGaps(s)
  {
    var n := r[k - 1] + 1;
    forall m | 0 <= m < |r|
      ensures r[m] != n
    {
      if m < k {
        assert r[m] <= r[k - 1];
      } else {
        assert r[k] <= r[m];
      }
    }
    assert r[k - 1] in s && r[k] in s && r[k - 1] <= n <= r[k] && n !in s;
  }

  /** Sorted numbers follow one another exactly when their set has no gap. */
  lemma ConsecutiveIffNoGaps(r: seq<nat>, s: set<nat>)
    requires Increasing(r) && forall x :: x in r <==> x in s
    ensures Consecutive(r) <==> NoGaps(s)
  {
    if Consecutive(r) {
      ConsecutiveHasNoGaps(r, s);
    } else {
      var k :| 0 < k < |r| && r[k] != r[k - 1] + 1;
      SkipIsGap(r, s, k);
    }
  }

  /**
   * The loop over sorted(seen_leds) that flags a number that does not
   * follow the one before it (the inner loop only logs the numbers
   * skipped).
   */
  method FindMissing(seen: set<nat>) returns (bad: bool)
    ensures bad <==> !NoGaps(seen)
  {
    var sorted := SortedSet(seen);
    bad := false;
    var prev: Option<nat> := None;
    for j := 0 to |sorted|
      invariant prev == (if j == 0 then None else Some(sorted[j - 1]))
      invariant bad <==> exists k :: 0 < k < j && sorted[k] != sorted[k - 1] + 1
    {
      var num := sorted[j];
      if prev.Some? && num != prev.value + 1 {
        bad := true;
      }
      prev := Some(num);
    }
    ConsecutiveIffNoGaps(sorted, seen);
  }

  // ---------------------------------------------------------------------
  // pruneCSVEntries
  // ---------------------------------------------------------------------

  /** The rows of the run among the first `i` of the file. */
  ghost function RowsBefore(entries: seq<Entry>, direction: Direction, i: nat): seq<Row>
    requires i <= |entries|
  {
    ReadRows(Active(entries[..i], direction))
  }

  lemma RowsStep(entries: seq<Entry>, direction: Direction, i: nat)
    requires i < |entries|
    ensures InDirection(entries[i], direction) ==>
      RowsBefore(entries, direction, i + 1) == RowsBefore(entries, direction, i) + [Row(entries[i], GetReference(entries[i]))]
    ensures !InDirection(entries[i], direction) ==> RowsBefore(entries, direction, i + 1) == RowsBefore(entries, direction, i)
  {
    var prefix := entries[..i + 1];
    assert prefix[..i] == entries[..i] && prefix[i] == entries[i];
    var a := Active(entries[..i], direction);
    var e := entries[i];
    assert Active(prefix, direction) == a + (if InDirection(e, direction) then [e] else []);
    if InDirection(e, direction) {
      assert (a + [e])[..|a|] == a;
      assert ReadRows(a + [e]) == ReadRows(a) + [Row(e, GetReference(e))];
    } else {
      assert a + [] == a;
    }
  }

  /** What one more row does to each specification function. */
  lemma SnocFacts(rows: seq<Row>, x: Row)
    ensures LedSet(rows + [x]) == LedSet(rows) + {LedNum(x)}
    ensures HasDuplicate(rows + [x]) <==> HasDuplicate(rows) || LedNum(x) in LedSet(rows)
    ensures Canonicals(rows + [x]) == Canonicals(rows) + (if IsCanonical(x) then [x] else [])
    ensures forall r :: Aliases(rows + [x], r) == Aliases(rows, r) + (if !IsCanonical(x) && Target(x) == r then [LedNum(x)] else [])
  {
    SnocPrefix(rows, x);
    DuplicateSnoc(rows, x);
  }

  lemma SnocPrefix(rows: seq<Row>, x: Row)
    ensures (rows + [x])[..|rows|] == rows
  {
  }

  lemma DuplicateSnoc(rows: seq<Row>, x: Row)
    ensures HasDuplicate(rows + [x]) <==> HasDuplicate(rows) || LedNum(x) in LedSet(rows)
  {
    var t := rows + [x];
    LedSetMembers(rows, LedNum(x));
    if HasDuplicate(rows) {
      var i, j :| 0 <= i < j < |rows| && LedNum(rows[i]) == LedNum(rows[j]);
      assert t[i] == rows[i] && t[j] == rows[j];
    }
    if HasDuplicate(t) && !HasDuplicate(rows) {
      var i, j :| 0 <= i < j < |t| && LedNum(t[i]) == LedNum(t[j]);
      assert j == |rows| && t[i] in rows;
    }
    if LedNum(x) in LedSet(rows) {
      var e :| e in rows && LedNum(e) == LedNum(x);
      var i :| 0 <= i < |rows| && rows[i] == e;
      assert t[i] == e && t[|rows|] == x;
      assert 0 <= i < |rows| < |t| && LedNum(t[i]) == LedNum(t[|rows|]);
    }
  }

  /** The pairs of the canonical rows before their lists are extended. */
  predicate IsSingles(ret: seq<Pair>, c: seq<Row>) {
    |ret| == |c| && forall k :: 0 <= k < |c| ==> ret[k] == Pair(c[k].entry, [LedNum(c[k])])
  }

  lemma NumSetStep(c: seq<Row>, k: nat)
    requires k < |c|
    requires forall i, j :: 0 <= i < j < |c| ==> LedNum(c[i]) != LedNum(c[j])
    ensures NumSet(c[..k + 1]) == NumSet(c[..k]) + {LedNum(c[k])}
    ensures LedNum(c[k]) !in NumSet(c[..k])
  {
    assert c[..k + 1] == c[..k] + [c[k]];
  }

  /** What the first loop has built from the rows it has kept so far. */
  ghost predicate Collected(rows: seq<Row>, ret: seq<Pair>, refToLeds: map<int, seq<nat>>, seenLeds: set<nat>, badEntries: bool) {
    && seenLeds == LedSet(rows)
    && (badEntries <==> HasDuplicate(rows))
    && (!badEntries ==> IsSingles(ret, Canonicals(rows)))
    && (!badEntries ==> forall r :: Aliases(rows, r) == (if r in refToLeds then refToLeds[r] else []))
    && (forall r :: r in refToLeds ==> refToLeds[r] != [])
  }

  /** A row whose number was seen already only raises the flag. */
  lemma CollectDuplicate(rows: seq<Row>, x: Row, ret: seq<Pair>, refToLeds: map<int, seq<nat>>, seenLeds: set<nat>, badEntries: bool)
    requires Collected(rows, ret, refToLeds, seenLeds, badEntries) && LedNum(x) in seenLeds
    ensures Collected(rows + [x], ret, refToLeds, seenLeds, true)
  {
    SnocFacts(rows, x);
  }

  /** A canonical row makes a pair of its own. */
  lemma CollectCanonical(rows: seq<Row>, x: Row, ret: seq<Pair>, refToLeds: map<int, seq<nat>>, seenLeds: set<nat>, badEntries: bool)
    requires Collected(rows, ret, refToLeds, seenLeds, badEntries) && LedNum(x) !in seenLeds && IsCanonical(x)
    ensures Collected(rows + [x], ret + [Pair(x.entry, [LedNum(x)])], refToLeds, seenLeds + {LedNum(x)}, badEntries)
  {
    SnocFacts(rows, x);
  }

  /** An aliasing row joins the list of the number it points at. */
  lemma CollectAlias(rows: seq<Row>, x: Row, ret: seq<Pair>, refToLeds: map<int, seq<nat>>, seenLeds: set<nat>, badEntries: bool,
                     refToLeds': map<int, seq<nat>>)
    requires Collected(rows, ret, refToLeds, seenLeds, badEntries) && LedNum(x) !in seenLeds && !IsCanonical(x)
    requires refToLeds' == if Target(x) in refToLeds then refToLeds[Target(x) := refToLeds[Target(x)] + [LedNum(x)]]
                           else refToLeds[Target(x) := [LedNum(x)]]
    ensures Collected(rows + [x], ret, refToLeds', seenLeds + {LedNum(x)}, badEntries)
  {
    SnocFacts(rows, x);
  }

  /** The first loop's body for a row of the run's direction. */
  method CollectRow(ghost rows: seq<Row>, entry: Entry, ret: seq<Pair>, refToLeds: map<int, seq<nat>>, seenLeds: set<nat>, badEntries: bool)
    returns (ret': seq<Pair>, refToLeds': map<int, seq<nat>>, seenLeds': set<nat>, badEntries': bool)
    requires Collected(rows, ret, refToLeds, seenLeds, badEntries)
    ensures Collected(rows + [Row(entry, GetReference(entry))], ret', refToLeds', seenLeds', badEntries')
  {
    ghost var x := Row(entry, GetReference(entry));
    ret', refToLeds', seenLeds', badEntries' := ret, refToLeds, seenLeds, badEntries;
    var ledNum := entry.ledNum;
    if ledNum in seenLeds {
      badEntries' := true;
      CollectDuplicate(rows, x, ret, refToLeds, seenLeds, badEntries);
      return;
    }
    seenLeds' := seenLeds + {ledNum};
    var reference := GetReference(entry);
    if reference.None? || reference.value == 0 {
      ret' := ret + [Pair(entry, [ledNum])];
      CollectCanonical(rows, x, ret, refToLeds, seenLeds, badEntries);
      return;
    }
    if reference.value !in refToLeds {
      refToLeds' := refToLeds[reference.value := [ledNum]];
    } else {
      refToLeds' := refToLeds[reference.value := refToLeds[reference.value] + [ledNum]];
    }
    CollectAlias(rows, x, ret, refToLeds, seenLeds, badEntries, refToLeds');
  }

  /** What the second loop has done after the first `k` pairs. */
  ghost predicate Extended(rows: seq<Row>, k: nat, ret: seq<Pair>, refToLeds: map<int, seq<nat>>)
    requires k <= |Canonicals(rows)|
  {
    var c := Canonicals(rows);
    && |ret| == |c|
    && (forall j :: 0 <= j < k ==> ret[j] == Resolved(rows)[j])
    && (forall j :: k <= j < |c| ==> ret[j] == Pair(c[j].entry, [LedNum(c[j])]))
    && (forall r :: r in refToLeds <==> Aliases(rows, r) != [] && r !in NumSet(c[..k]))
    && (forall r :: r in refToLeds ==> refToLeds[r] == Aliases(rows, r))
  }

  /** A pair nobody points at keeps its list. */
  lemma ExtendNone(rows: seq<Row>, k: nat, ret: seq<Pair>, refToLeds: map<int, seq<nat>>)
    requires !HasDuplicate(rows) && k < |Canonicals(rows)|
    requires Extended(rows, k, ret, refToLeds) && LedNum(Canonicals(rows)[k]) !in refToLeds
    ensures Extended(rows, k + 1, ret, refToLeds)
  {
    CanonicalsDistinct(rows);
    NumSetStep(Canonicals(rows), k);
  }

  /** A pair somebody points at takes their numbers, and its number leaves the map. */
  lemma ExtendOne(rows: seq<Row>, k: nat, ret: seq<Pair>, refToLeds: map<int, seq<nat>>)
    requires !HasDuplicate(rows) && k < |Canonicals(rows)|
    requires Extended(rows, k, ret, refToLeds) && LedNum(Canonicals(rows)[k]) in refToLeds
    ensures var n := LedNum(Canonicals(rows)[k]);
      Extended(rows, k + 1, ret[k := Pair(ret[k].entry, ret[k].leds + refToLeds[n])], refToLeds - {n})
  {
    CanonicalsDistinct(rows);
    NumSetStep(Canonicals(rows), k);
  }

  /** The second loop: each canonical row's list extended by the rows
      pointing at it, whose entry then leaves ref_to_leds. */
  method ExtendLists(ghost rows: seq<Row>, ret: seq<Pair>, refToLeds: map<int, seq<nat>>)
    returns (ret': seq<Pair>, refToLeds': map<int, seq<nat>>)
    requires !HasDuplicate(rows)
    requires IsSingles(ret, Canonicals(rows))
    requires forall r :: Aliases(rows, r) == (if r in refToLeds then refToLeds[r] else [])
    requires forall r :: r in refToLeds ==> refToLeds[r] != []
    ensures ret' == Resolved(rows)
    ensures forall r :: r in refToLeds' <==> Aliases(rows, r) != [] && r !in NumSet(Canonicals(rows))
  {
    ghost var c := Canonicals(rows);
    ret', refToLeds' := ret, refToLeds;
    assert c[..0] == [];
    for k := 0 to |ret|
      invariant Extended(rows, k, ret', refToLeds')
    {
      var refNum := ret'[k].entry.ledNum;
      if refNum !in refToLeds' {
        ExtendNone(rows, k, ret', refToLeds');
        continue;
      }
      ExtendOne(rows, k, ret', refToLeds');
      var referencingLeds := refToLeds'[refNum];
      ret' := ret'[k := Pair(ret'[k].entry, ret'[k].leds + referencingLeds)];
      refToLeds' := refToLeds' - {refNum};
    }
    assert c[..|c|] == c;
  }

  /** Exactly the numbers pointed at but carried by no canonical row stay. */
  lemma LeftoverIffDangling(rows: seq<Row>, refToLeds: map<int, seq<nat>>)
    requires forall r :: r in refToLeds <==> Aliases(rows, r) != [] && r !in NumSet(Canonicals(rows))
    ensures |refToLeds| > 0 <==> DanglingReference(rows)
  {
    if DanglingReference(rows) {
      var e :| e in rows && !IsCanonical(e) && Target(e) !in NumSet(Canonicals(rows));
      AliasesNonEmpty(rows, Target(e));
      assert Target(e) in refToLeds.Keys;
    } else {
      forall r | r in refToLeds.Keys
        ensures false
      {
        AliasesNonEmpty(rows, r);
      }
      assert refToLeds.Keys == {};
    }
  }

  /** The first loop, over every row of the file. */
  method CollectRows(entries: seq<Entry>, direction: Direction)
    returns (ret: seq<Pair>, refToLeds: map<int, seq<nat>>, seenLeds: set<nat>, badEntries: bool)
    ensures Collected(ReadRows(Active(entries, direction)), ret, refToLeds, seenLeds, badEntries)
  {
    ret, refToLeds, seenLeds, badEntries := [], map[], {}, false;
    for i := 0 to |entries|
      invariant Collected(RowsBefore(entries, direction, i), ret, refToLeds, seenLeds, badEntries)
    {
      var entry := entries[i];
      RowsStep(entries, direction, i);
      if !InDirection(entry, direction) {
        continue;
      }
      ret, refToLeds, seenLeds, badEntries := CollectRow(RowsBefore(entries, direction, i), entry, ret, refToLeds, seenLeds, badEntries);
    }
    assert entries[..|entries|] == entries;
  }

  /**
   * pruneCSVEntries: the rows of the direction folded into pairs, or the
   * first of its exceptions that applies.
   */
  method PruneCsvEntries(entries: seq<Entry>, direction: Direction, allowMissing: bool) returns (result: Pruned)
    ensures direction == UnknownDirection ==> result == Raised(UnknownDirectionArgument)
    ensures direction != UnknownDirection ==> result == PruneOutcome(ReadRows(Active(entries, direction)), allowMissing)
  {
    if direction == UnknownDirection {
      return Raised(UnknownDirectionArgument);
    }
    ghost var rows := ReadRows(Active(entries, direction));
    var ret, refToLeds, seenLeds, badEntries := CollectRows(entries, direction);
    if badEntries {
      return Raised(DuplicateEntries);
    }
    if !allowMissing {
      badEntries := FindMissing(seenLeds);
    }
    if badEntries {
      return Raised(MissingEntries);
    }
    ret, refToLeds := ExtendLists(rows, ret, refToLeds);
    LeftoverIffDangling(rows, refToLeds);
    if |refToLeds| > 0 {
      return Raised(BadReferences);
    }
    return Pruned(ret);
  }
}
