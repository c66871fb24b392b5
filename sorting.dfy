/** Python's `sorted` over the keys of a dictionary, modelled as a function
    that returns the strictly ascending arrangement of a duplicate-free
    sequence. `SortKeys` orders participant keys (strings), `SortInts`
    orders dates and ISO week numbers. */
module Sorting {
  import opened Text

  predicate Distinct<T(==)>(s: seq<T>)
  {
    forall i, j :: 0 <= i < j < |s| ==> s[i] != s[j]
  }

  predicate KeysAscending(s: seq<string>)
  {
    forall i, j :: 0 <= i < j < |s| ==> StrLess(s[i], s[j])
  }

  predicate IntsAscending(s: seq<int>)
  {
    forall i, j :: 0 <= i < j < |s| ==> s[i] < s[j]
  }

  /** Inserts a new key into an ascending sequence, keeping it ascending. */
  function InsertKey(x: string, s: seq<string>): (r: seq<string>)
    requires KeysAscending(s) && x !in s
    ensures KeysAscending(r)
    ensures |r| == |s| + 1
    ensures forall y :: y in r <==> y == x || y in s
  {
    if s == [] then [x]
    else if StrLess(x, s[0]) then
      forall j | 0 < j < |s| ensures StrLess(x, s[j]) {
        StrLessTransitive(x, s[0], s[j]);
      }
      [x] + s
    else
      StrLessTotal(x, s[0]);
      var t := InsertKey(x, s[1..]);
      assert forall y :: y in s[1..] ==> StrLess(s[0], y);
      [s[0]] + t
  }

  /** `sorted(keys)`: the same keys, strictly ascending. */
  function SortKeys(s: seq<string>): (r: seq<string>)
    requires Distinct(s)
    ensures KeysAscending(r)
    ensures |r| == |s|
    ensures forall y :: y in r <==> y in s
  {
    if s == [] then []
    else
      assert forall y :: y in s[1..] ==> y != s[0];
      InsertKey(s[0], SortKeys(s[1..]))
  }

  /** Inserts a new number into an ascending sequence, keeping it ascending. */
  function InsertInt(x: int, s: seq<int>): (r: seq<int>)
    requires IntsAscending(s) && x !in s
    ensures IntsAscending(r)
    ensures |r| == |s| + 1
    ensures forall y :: y in r <==> y == x || y in s
  {
    if s == [] then [x]
    else if x < s[0] then [x] + s
    else
      assert s[0] < x;
      var t := InsertInt(x, s[1..]);
      assert forall y :: y in s[1..] ==> s[0] < y;
      assert forall j :: 0 <= j < |t| ==> t[j] in t && s[0] < t[j];
      [s[0]] + t
  }

  /** `sorted(dates)`: the same numbers, strictly ascending. */
  function SortInts(s: seq<int>): (r: seq<int>)
    requires Distinct(s)
    ensures IntsAscending(r)
    ensures |r| == |s|
    ensures forall y :: y in r <==> y in s
  {
    if s == [] then []
    else
      assert forall y :: y in s[1..] ==> y != s[0];
      InsertInt(s[0], SortInts(s[1..]))
  }

  /** An ascending sequence is duplicate-free. */
  lemma KeysAscendingDistinct(s: seq<string>)
    requires KeysAscending(s)
    ensures Distinct(s)
  {
    forall i, j | 0 <= i < j < |s| ensures s[i] != s[j] {
      StrLessIrreflexive(s[i]);
    }
  }

  /** The arrangement `sorted` yields is the only ascending one: two
      ascending key sequences with the same elements are equal. */
  lemma {:induction false} KeysAscendingUnique(a: seq<string>, b: seq<string>)
    requires KeysAscending(a) && KeysAscending(b)
    requires forall y :: y in a <==> y in b
    ensures a == b
    decreases |a|
  {
    assert a == [] <==> b == [] by {
      if a != [] { assert a[0] in b; }
      if b != [] { assert b[0] in a; }
    }
    if a != [] {
      assert a[0] in a && b[0] in b;
      if a[0] != b[0] {
        var k :| 0 <= k < |b| && b[k] == a[0];
        var m :| 0 <= m < |a| && a[m] == b[0];
        assert k > 0 && m > 0;
        StrLessAsymmetric(a[0], a[m]);
        assert false;
      }
      forall y ensures y in a[1..] <==> y in b[1..] {
        if y in a[1..] {
          StrLessIrreflexive(a[0]);
          assert y in b && y != b[0];
        }
        if y in b[1..] {
          StrLessIrreflexive(b[0]);
          assert y in a && y != a[0];
        }
      }
      KeysAscendingUnique(a[1..], b[1..]);
      assert a == [a[0]] + a[1..] && b == [b[0]] + b[1..];
    }
  }
}
