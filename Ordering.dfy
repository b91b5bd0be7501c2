/**
 * The ordering step of the example controller: `OrderBy` / `OrderByDescending`
 * on the field the first order rule names. Both are stable sorts. Keys are
 * compared as integer sequences in lexicographic order: a string becomes its
 * character codes after a leading 0, a null string the empty sequence (so
 * null sorts first and strings compare ordinally), a date its year, month,
 * day and time of day, a salary its value.
 */
module Ordering {
  import opened Outcomes
  import opened TestData
  import opened DataTablesObj

  // ---------------------------------------------------------------- the key order

  /** Lexicographic order on integer sequences; a proper prefix comes first. */
  predicate LexLess(a: seq<int>, b: seq<int>)
    decreases |a|
  {
    |b| > 0 && (|a| == 0 || a[0] < b[0] || (a[0] == b[0] && LexLess(a[1..], b[1..])))
  }

  lemma {:induction false} LexLessIrreflexive(a: seq<int>)
    ensures !LexLess(a, a)
    decreases |a|
  {
    if |a| > 0 {
      LexLessIrreflexive(a[1..]);
    }
  }

  lemma {:induction false} LexLessTransitive(a: seq<int>, b: seq<int>, c: seq<int>)
    requires LexLess(a, b) && LexLess(b, c)
    ensures LexLess(a, c)
    decreases |a|
  {
    if |a| > 0 && a[0] == b[0] && b[0] == c[0] {
      LexLessTransitive(a[1..], b[1..], c[1..]);
    }
  }

  lemma {:induction false} LexLessTotal(a: seq<int>, b: seq<int>)
    requires a != b
    ensures LexLess(a, b) || LexLess(b, a)
    decreases |a|
  {
    if |a| > 0 && |b| > 0 && a[0] == b[0] {
      assert a == [a[0]] + a[1..] && b == [b[0]] + b[1..];
      LexLessTotal(a[1..], b[1..]);
    }
  }

  // ---------------------------------------------------------------- keys

  /** The key of a nullable string: null before every string, strings by character code. */
  function TextKey(s: Option<string>): seq<int> {
    match s
    case None => []
    case Some(t) => [0] + seq(|t|, i requires 0 <= i < |t| => t[i] as int)
  }

  /** A null text sorts before every string, and different texts have different keys. */
  lemma TextKeyOrder(x: Option<string>, y: Option<string>)
    ensures x.None? && y.Some? ==> LexLess(TextKey(x), TextKey(y))
    ensures TextKey(x) == TextKey(y) ==> x == y
  {
    if TextKey(x) == TextKey(y) && x.Some? && y.Some? {
      var a, b := x.value, y.value;
      assert |TextKey(x)| == |a| + 1 && |TextKey(y)| == |b| + 1;
      forall i | 0 <= i < |a| ensures a[i] == b[i] {
        assert TextKey(x)[i + 1] == TextKey(y)[i + 1];
      }
      assert a == b;
    }
  }

  /** The key the ordering switch sorts by for order column `col`. */
  function OrderKey(r: DataTableTestData, col: nat): seq<int>
    requires col < ColumnCount
  {
    match col
    case 0 => TextKey(r.firstName)
    case 1 => TextKey(r.lastName)
    case 2 => TextKey(r.company)
    case 3 => TextKey(r.city)
    case 4 => [r.startDate.year, r.startDate.month, r.startDate.day, r.startDate.timeOfDay]
    case 5 => [r.salary]
  }

  /** `a` goes strictly before `b` when sorting by `key` in direction `dir`. */
  predicate Precedes(a: DataTableTestData, b: DataTableTestData, key: DataTableTestData -> seq<int>, dir: SortDirection)
  {
    match dir
    case Asc => LexLess(key(a), key(b))
    case Desc => LexLess(key(b), key(a))
  }

  lemma EqualKeysDoNotPrecede(a: DataTableTestData, b: DataTableTestData, key: DataTableTestData -> seq<int>, dir: SortDirection)
    requires key(a) == key(b)
    ensures !Precedes(a, b, key, dir)
  {
    LexLessIrreflexive(key(a));
  }

  lemma PrecedesTransitive(a: DataTableTestData, b: DataTableTestData, c: DataTableTestData, key: DataTableTestData -> seq<int>, dir: SortDirection)
    requires Precedes(a, b, key, dir) && Precedes(b, c, key, dir)
    ensures Precedes(a, c, key, dir)
  {
    if dir == Asc {
      LexLessTransitive(key(a), key(b), key(c));
    } else {
      LexLessTransitive(key(c), key(b), key(a));
    }
  }

  lemma PrecedesTotal(a: DataTableTestData, b: DataTableTestData, key: DataTableTestData -> seq<int>, dir: SortDirection)
    requires key(a) != key(b)
    ensures Precedes(a, b, key, dir) || Precedes(b, a, key, dir)
  {
    LexLessTotal(key(a), key(b));
  }

  /** If a goes before b and c does not go before b, then a goes before c. */
  lemma PrecedesBeforeNotBefore(a: DataTableTestData, b: DataTableTestData, c: DataTableTestData, key: DataTableTestData -> seq<int>, dir: SortDirection)
    requires Precedes(a, b, key, dir) && !Precedes(c, b, key, dir)
    ensures Precedes(a, c, key, dir)
  {
    if key(b) != key(c) {
      PrecedesTotal(b, c, key, dir);
      PrecedesTransitive(a, b, c, key, dir);
    }
  }

  // ---------------------------------------------------------------- stable sort

  /** Sorted: no record goes strictly before one that comes earlier. */
  predicate Sorted(s: seq<DataTableTestData>, key: DataTableTestData -> seq<int>, dir: SortDirection)
  {
    forall i, j :: 0 <= i < j < |s| ==> !Precedes(s[j], s[i], key, dir)
  }

  /** The records of s whose key by `key` is k, in the order of s. */
  function WithKey(s: seq<DataTableTestData>, key: DataTableTestData -> seq<int>, k: seq<int>): seq<DataTableTestData>
  {
    if s == [] then []
    else (if key(s[0]) == k then [s[0]] else []) + WithKey(s[1..], key, k)
  }

  lemma {:induction false} WithKeyAppend(a: seq<DataTableTestData>, b: seq<DataTableTestData>, key: DataTableTestData -> seq<int>, k: seq<int>)
    ensures WithKey(a + b, key, k) == WithKey(a, key, k) + WithKey(b, key, k)
    decreases |a|
  {
    if a == [] {
      assert a + b == b;
    } else {
      var ab := a + b;
      assert ab[0] == a[0] && ab[1..] == a[1..] + b;
      WithKeyAppend(a[1..], b, key, k);
      var head := if key(a[0]) == k then [a[0]] else [];
      calc {
        WithKey(ab, key, k);
        head + WithKey(a[1..] + b, key, k);
        head + (WithKey(a[1..], key, k) + WithKey(b, key, k));
        (head + WithKey(a[1..], key, k)) + WithKey(b, key, k);
        WithKey(a, key, k) + WithKey(b, key, k);
      }
    }
  }

  lemma {:induction false} WithKeyNone(s: seq<DataTableTestData>, key: DataTableTestData -> seq<int>, k: seq<int>)
    requires forall j :: 0 <= j < |s| ==> key(s[j]) != k
    ensures WithKey(s, key, k) == []
    decreases |s|
  {
    if s != [] {
      WithKeyNone(s[1..], key, k);
    }
  }

  /** Inserts x after every record of t that x does not go strictly before. */
  function Insert(x: DataTableTestData, t: seq<DataTableTestData>, key: DataTableTestData -> seq<int>, dir: SortDirection): seq<DataTableTestData>
  {
    if t == [] then [x]
    else if Precedes(x, t[0], key, dir) then [x] + t
    else [t[0]] + Insert(x, t[1..], key, dir)
  }

  /** `OrderBy` (ascending) or `OrderByDescending` by `key`: a stable insertion sort. */
  function SortBy(s: seq<DataTableTestData>, key: DataTableTestData -> seq<int>, dir: SortDirection): seq<DataTableTestData>
  {
    if s == [] then [] else Insert(s[|s| - 1], SortBy(s[..|s| - 1], key, dir), key, dir)
  }

  lemma {:induction false} InsertPermutation(x: DataTableTestData, t: seq<DataTableTestData>, key: DataTableTestData -> seq<int>, dir: SortDirection)
    ensures multiset(Insert(x, t, key, dir)) == multiset(t) + multiset{x}
    decreases |t|
  {
    if t != [] && !Precedes(x, t[0], key, dir) {
      InsertPermutation(x, t[1..], key, dir);
      assert t == [t[0]] + t[1..];
    }
  }

  /** Putting in front of a sorted sequence a record that nothing in it goes before keeps it sorted. */
  lemma SortedCons(h: DataTableTestData, rest: seq<DataTableTestData>, key: DataTableTestData -> seq<int>, dir: SortDirection)
    requires Sorted(rest, key, dir)
    requires forall m :: 0 <= m < |rest| ==> !Precedes(rest[m], h, key, dir)
    ensures Sorted([h] + rest, key, dir)
  {
    var r := [h] + rest;
    forall i, j | 0 <= i < j < |r| ensures !Precedes(r[j], r[i], key, dir) {
      assert r[j] == rest[j - 1];
      if i > 0 {
        assert r[i] == rest[i - 1];
      }
    }
  }

  lemma {:induction false} InsertSorted(x: DataTableTestData, t: seq<DataTableTestData>, key: DataTableTestData -> seq<int>, dir: SortDirection)
    requires Sorted(t, key, dir)
    ensures Sorted(Insert(x, t, key, dir), key, dir)
    decreases |t|
  {
    if t == [] {
      assert Insert(x, t, key, dir) == [x];
    } else if Precedes(x, t[0], key, dir) {
      assert Insert(x, t, key, dir) == [x] + t;
      forall m | 0 <= m < |t| ensures !Precedes(t[m], x, key, dir) {
        if Precedes(t[m], x, key, dir) {
          PrecedesTransitive(t[m], x, t[0], key, dir);
          EqualKeysDoNotPrecede(t[0], t[0], key, dir);
        }
      }
      SortedCons(x, t, key, dir);
    } else {
      var rest := Insert(x, t[1..], key, dir);
      assert Insert(x, t, key, dir) == [t[0]] + rest;
      assert Sorted(t[1..], key, dir);
      InsertSorted(x, t[1..], key, dir);
      InsertPermutation(x, t[1..], key, dir);
      forall m | 0 <= m < |rest| ensures !Precedes(rest[m], t[0], key, dir) {
        assert rest[m] in multiset(rest);
        if rest[m] != x {
          assert rest[m] in multiset(t[1..]);
          var j :| 0 <= j < |t[1..]| && t[1..][j] == rest[m];
          assert t[j + 1] == rest[m];
        }
      }
      SortedCons(t[0], rest, key, dir);
    }
  }

  /** A record that goes strictly before the head of a sorted sequence shares its key with none of it. */
  lemma KeyAbsentAfter(x: DataTableTestData, t: seq<DataTableTestData>, key: DataTableTestData -> seq<int>, dir: SortDirection)
    requires Sorted(t, key, dir) && t != [] && Precedes(x, t[0], key, dir)
    ensures WithKey(t, key, key(x)) == []
  {
    forall j | 0 <= j < |t| ensures key(t[j]) != key(x) {
      if j > 0 {
        PrecedesBeforeNotBefore(x, t[0], t[j], key, dir);
      }
      if key(t[j]) == key(x) {
        EqualKeysDoNotPrecede(x, t[j], key, dir);
      }
    }
    WithKeyNone(t, key, key(x));
  }

  lemma SortedTail(t: seq<DataTableTestData>, key: DataTableTestData -> seq<int>, dir: SortDirection)
    requires Sorted(t, key, dir) && t != []
    ensures Sorted(t[1..], key, dir)
  {
    forall i, j | 0 <= i < j < |t| - 1 ensures !Precedes(t[1..][j], t[1..][i], key, dir) {
      assert t[1..][j] == t[j + 1] && t[1..][i] == t[i + 1];
    }
  }

  /** The step of InsertStable past a head record that x does not go before. */
  lemma InsertStableStep(x: DataTableTestData, t: seq<DataTableTestData>, key: DataTableTestData -> seq<int>, dir: SortDirection, k: seq<int>)
    requires t != [] && !Precedes(x, t[0], key, dir)
    requires WithKey(Insert(x, t[1..], key, dir), key, k) == WithKey(t[1..], key, k) + WithKey([x], key, k)
    ensures WithKey(Insert(x, t, key, dir), key, k) == WithKey(t, key, k) + WithKey([x], key, k)
  {
    var head, tail := [t[0]], t[1..];
    var rest := Insert(x, tail, key, dir);
    assert Insert(x, t, key, dir) == head + rest;
    WithKeyAppend(head, rest, key, k);
    WithKeyAppend(head, tail, key, k);
    assert head + tail == t;
  }

  lemma {:induction false} InsertStable(x: DataTableTestData, t: seq<DataTableTestData>, key: DataTableTestData -> seq<int>, dir: SortDirection, k: seq<int>)
    requires Sorted(t, key, dir)
    ensures WithKey(Insert(x, t, key, dir), key, k) == WithKey(t, key, k) + WithKey([x], key, k)
    decreases |t|
  {
    if t == [] {
      assert Insert(x, t, key, dir) == [x];
    } else if Precedes(x, t[0], key, dir) {
      assert Insert(x, t, key, dir) == [x] + t;
      WithKeyAppend([x], t, key, k);
      if key(x) == k {
        KeyAbsentAfter(x, t, key, dir);
      }
    } else {
      SortedTail(t, key, dir);
      InsertStable(x, t[1..], key, dir, k);
      InsertStableStep(x, t, key, dir, k);
    }
  }

  /** Sorting is a permutation of its input. */
  lemma {:induction false} SortByPermutation(s: seq<DataTableTestData>, key: DataTableTestData -> seq<int>, dir: SortDirection)
    ensures multiset(SortBy(s, key, dir)) == multiset(s)
    decreases |s|
  {
    if s != [] {
      var init, last := s[..|s| - 1], s[|s| - 1];
      SortByPermutation(init, key, dir);
      InsertPermutation(last, SortBy(init, key, dir), key, dir);
      assert s == init + [last];
    }
  }

  /** Sorting leaves the records in key order for the direction asked. */
  lemma {:induction false} SortBySorted(s: seq<DataTableTestData>, key: DataTableTestData -> seq<int>, dir: SortDirection)
    ensures Sorted(SortBy(s, key, dir), key, dir)
    decreases |s|
  {
    if s != [] {
      SortBySorted(s[..|s| - 1], key, dir);
      InsertSorted(s[|s| - 1], SortBy(s[..|s| - 1], key, dir), key, dir);
    }
  }

  /** Sorting is stable: the records that share a key keep their relative order. */
  lemma {:induction false} SortByStable(s: seq<DataTableTestData>, key: DataTableTestData -> seq<int>, dir: SortDirection, k: seq<int>)
    ensures WithKey(SortBy(s, key, dir), key, k) == WithKey(s, key, k)
    decreases |s|
  {
    if s != [] {
      var init, last := s[..|s| - 1], s[|s| - 1];
      var sortedInit := SortBy(init, key, dir);
      assert SortBy(s, key, dir) == Insert(last, sortedInit, key, dir);
      SortBySorted(init, key, dir);
      SortByStable(init, key, dir, k);
      InsertStable(last, sortedInit, key, dir, k);
      assert s == init + [last];
      WithKeyAppend(init, [last], key, k);
    }
  }

  // ---------------------------------------------------------------- the ordering step

  /** The sort key of order column `col`, as a function of the record. */
  function KeyOf(col: nat): (key: DataTableTestData -> seq<int>)
    requires col < ColumnCount
    ensures forall r :: key(r) == OrderKey(r, col)
  {
    r => OrderKey(r, col)
  }

  /** Sorts by the field of the given order rule; an order column outside 0..5 leaves s as it is. */
  function OrderRecords(s: seq<DataTableTestData>, rule: DTOrder): seq<DataTableTestData> {
    if 0 <= rule.column < ColumnCount then SortBy(s, KeyOf(rule.column), rule.dir) else s
  }

  /**
   * The ordered records are a permutation of the input; for a column in 0..5
   * they are in key order for the rule's direction, and records with equal
   * keys keep their input order; for any other column nothing moves.
   */
  lemma OrderRecordsCorrect(s: seq<DataTableTestData>, rule: DTOrder)
    ensures multiset(OrderRecords(s, rule)) == multiset(s)
    ensures 0 <= rule.column < ColumnCount ==>
      Sorted(OrderRecords(s, rule), KeyOf(rule.column), rule.dir) &&
      forall k :: WithKey(OrderRecords(s, rule), KeyOf(rule.column), k) == WithKey(s, KeyOf(rule.column), k)
    ensures !(0 <= rule.column < ColumnCount) ==> OrderRecords(s, rule) == s
  {
    if 0 <= rule.column < ColumnCount {
      var key := KeyOf(rule.column);
      SortByPermutation(s, key, rule.dir);
      SortBySorted(s, key, rule.dir);
      forall k {
        SortByStable(s, key, rule.dir, k);
      }
    }
  }

  /** Ordering neither adds nor drops records. */
  lemma OrderRecordsLength(s: seq<DataTableTestData>, rule: DTOrder)
    ensures |OrderRecords(s, rule)| == |s|
  {
    OrderRecordsCorrect(s, rule);
    assert |OrderRecords(s, rule)| == |multiset(OrderRecords(s, rule))| == |multiset(s)|;
  }
}
