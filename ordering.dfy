/**
 * `sort_values(by=..., ascending=...)` on a table, as a function on the row
 * sequence. pandas' default sort is not stable, so the contract promises only
 * that the result is a permutation of the rows ordered by the key, and says
 * nothing about the order of rows with equal keys.
 */
module Ordering {

  /** `a` may come before `b` in the requested direction. */
  predicate InOrder(a: real, b: real, descending: bool)
  {
    if descending then a >= b else a <= b
  }

  /** The rows are ordered by `key`, non-increasing when `descending`, else non-decreasing. */
  ghost predicate SortedBy<T>(s: seq<T>, key: T -> real, descending: bool)
  {
    forall i, j :: 0 <= i < j < |s| ==> InOrder(key(s[i]), key(s[j]), descending)
  }

  /** `x` placed into the ordered `s` before the first row it may precede. */
  function Insert<T(==)>(x: T, s: seq<T>, key: T -> real, descending: bool): (r: seq<T>)
    ensures multiset(r) == multiset(s) + multiset{x}
    ensures |r| == |s| + 1
  {
    if s == [] then [x]
    else if InOrder(key(x), key(s[0]), descending) then [x] + s
    else
      assert s == [s[0]] + s[1..];
      [s[0]] + Insert(x, s[1..], key, descending)
  }

  /** Every row of `s` may come after a row with key `a`. */
  ghost predicate AllAfter<T>(a: real, s: seq<T>, key: T -> real, descending: bool)
  {
    forall j :: 0 <= j < |s| ==> InOrder(a, key(s[j]), descending)
  }

  /** A bound that holds for `x` and for all of `s` holds for all of the insertion. */
  lemma InsertAfter<T>(a: real, x: T, s: seq<T>, key: T -> real, descending: bool)
    requires InOrder(a, key(x), descending) && AllAfter(a, s, key, descending)
    ensures AllAfter(a, Insert(x, s, key, descending), key, descending)
  {
    var r := Insert(x, s, key, descending);
    forall j | 0 <= j < |r| ensures InOrder(a, key(r[j]), descending) {
      assert r[j] in multiset(r);
      if r[j] != x {
        assert r[j] in multiset(s);
        var k :| 0 <= k < |s| && s[k] == r[j];
      }
    }
  }

  /** Inserting into an ordered sequence keeps it ordered. */
  lemma {:induction false} InsertSorted<T>(x: T, s: seq<T>, key: T -> real, descending: bool)
    requires SortedBy(s, key, descending)
    ensures SortedBy(Insert(x, s, key, descending), key, descending)
  {
    if s != [] {
      if InOrder(key(x), key(s[0]), descending) {
        var r := [x] + s;
        forall j | 0 < j < |r| ensures InOrder(key(x), key(r[j]), descending) {
          if j > 1 { assert InOrder(key(s[0]), key(s[j - 1]), descending); }
        }
        assert forall i, j :: 0 < i < j < |r| ==> r[i] == s[i - 1] && r[j] == s[j - 1];
      } else {
        var t := Insert(x, s[1..], key, descending);
        InsertSorted(x, s[1..], key, descending);
        assert AllAfter(key(s[0]), s[1..], key, descending) by {
          forall j | 0 <= j < |s[1..]| ensures InOrder(key(s[0]), key(s[1..][j]), descending) {
            assert s[1..][j] == s[j + 1];
          }
        }
        InsertAfter(key(s[0]), x, s[1..], key, descending);
        var r := [s[0]] + t;
        assert forall i, j :: 0 < i < j < |r| ==> r[i] == t[i - 1] && r[j] == t[j - 1];
      }
    }
  }

  /** The rows reordered by `key` (insertion sort). */
  function SortBy<T(==)>(s: seq<T>, key: T -> real, descending: bool): (r: seq<T>)
    ensures SortedBy(r, key, descending)
    ensures multiset(r) == multiset(s)
    ensures |r| == |s|
  {
    if s == [] then []
    else
      var rest := SortBy(s[1..], key, descending);
      InsertSorted(s[0], rest, key, descending);
      MultisetHead(s);
      Insert(s[0], rest, key, descending)
  }

  lemma MultisetHead<T>(s: seq<T>)
    requires s != []
    ensures multiset(s) == multiset(s[1..]) + multiset{s[0]}
  {
    assert s == [s[0]] + s[1..];
  }
}
