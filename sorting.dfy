/** The `ORDER BY` clauses of the controllers' queries: a result is a
    permutation of the selected rows, ordered by a key of up to three columns
    compared left to right. A descending column is the negated value. */
module Sorting {

  type Key = (int, int, int)

  /** Lexicographic comparison of two keys. */
  predicate KeyLe(a: Key, b: Key) {
    a.0 < b.0 || (a.0 == b.0 && (a.1 < b.1 || (a.1 == b.1 && a.2 <= b.2)))
  }

  predicate SortedBy<T>(s: seq<T>, key: T -> Key) {
    forall i, j | 0 <= i < j < |s| :: KeyLe(key(s[i]), key(s[j]))
  }

  /** Inserts `x` in front of the first element whose key is not smaller. */
  function Insert<T>(x: T, s: seq<T>, key: T -> Key): (r: seq<T>)
    requires SortedBy(s, key)
    ensures SortedBy(r, key)
    ensures multiset(r) == multiset(s) + multiset{x}
    decreases |s|
  {
    if s == [] || KeyLe(key(x), key(s[0])) then
      LeadsAll(x, s, key);
      [x] + s
    else
      var t := Insert(x, s[1..], key);
      assert s == [s[0]] + s[1..];
      forall y | y in t ensures KeyLe(key(s[0]), key(y)) {
        assert y in multiset(t);
        assert y == x || y in multiset(s[1..]);
      }
      SortedCons(s[0], t, key);
      [s[0]] + t
  }

  lemma SortedCons<T>(h: T, t: seq<T>, key: T -> Key)
    requires SortedBy(t, key)
    requires forall y | y in t :: KeyLe(key(h), key(y))
    ensures SortedBy([h] + t, key)
  {
    var r := [h] + t;
    forall i, j | 0 <= i < j < |r| ensures KeyLe(key(r[i]), key(r[j])) {
      if i == 0 {
        assert r[j] == t[j - 1];
      } else {
        assert r[i] == t[i - 1] && r[j] == t[j - 1];
      }
    }
  }

  /** An element no greater than the head of a sorted sequence can lead it. */
  lemma LeadsAll<T>(x: T, s: seq<T>, key: T -> Key)
    requires SortedBy(s, key)
    requires s == [] || KeyLe(key(x), key(s[0]))
    ensures SortedBy([x] + s, key)
  {
    forall y | y in s ensures KeyLe(key(x), key(y)) {
      var k :| 0 <= k < |s| && s[k] == y;
      assert k == 0 || KeyLe(key(s[0]), key(s[k]));
    }
    SortedCons(x, s, key);
  }

  /** The rows of `s` in key order; rows with equal keys keep their order. */
  function SortBy<T>(s: seq<T>, key: T -> Key): (r: seq<T>)
    ensures SortedBy(r, key)
    ensures multiset(r) == multiset(s)
    ensures |r| == |s|
  {
    if s == [] then [] else
      assert s == [s[0]] + s[1..];
      Insert(s[0], SortBy(s[1..], key), key)
  }

  lemma SortByMembers<T>(s: seq<T>, key: T -> Key)
    ensures forall x :: x in SortBy(s, key) <==> x in s
  {
    var r := SortBy(s, key);
    forall x ensures x in r <==> x in s {
      assert x in r <==> x in multiset(r);
      assert x in s <==> x in multiset(s);
    }
  }

  lemma MultisetTail<T>(a: seq<T>)
    requires a != []
    ensures multiset(a[1..]) == multiset(a) - multiset{a[0]}
  {
    assert a == [a[0]] + a[1..];
  }

  /** The first element of a sorted sequence has the least key. */
  lemma HeadLeast<T>(a: seq<T>, key: T -> Key, y: T)
    requires SortedBy(a, key) && y in a
    ensures KeyLe(key(a[0]), key(y))
  {
    var k :| 0 <= k < |a| && a[k] == y;
    assert k == 0 || KeyLe(key(a[0]), key(a[k]));
  }

  /** No two distinct rows of `a` share a key. */
  ghost predicate KeysDistinct<T>(a: seq<T>, key: T -> Key) {
    forall i, j | 0 <= i < |a| && 0 <= j < |a| && key(a[i]) == key(a[j]) :: a[i] == a[j]
  }

  /** Two sorted arrangements of the same rows are the same sequence when no
      two distinct rows share a key: an `ORDER BY` on a primary key fixes the
      order of the result completely. */
  lemma {:induction false} SortedUnique<T>(a: seq<T>, b: seq<T>, key: T -> Key)
    requires SortedBy(a, key) && SortedBy(b, key)
    requires multiset(a) == multiset(b)
    requires KeysDistinct(a, key)
    ensures a == b
    decreases |a|
  {
    assert |a| == |multiset(a)| == |multiset(b)| == |b|;
    if a != [] {
      assert a[0] in multiset(b) && b[0] in multiset(a);
      HeadLeast(a, key, b[0]);
      HeadLeast(b, key, a[0]);
      var j :| 0 <= j < |a| && a[j] == b[0];
      assert key(a[0]) == key(a[j]);
      MultisetTail(a);
      MultisetTail(b);
      assert KeysDistinct(a[1..], key) by {
        forall i, k | 0 <= i < |a[1..]| && 0 <= k < |a[1..]| && key(a[1..][i]) == key(a[1..][k])
          ensures a[1..][i] == a[1..][k]
        {
          assert a[1..][i] == a[i + 1] && a[1..][k] == a[k + 1];
        }
      }
      SortedUnique(a[1..], b[1..], key);
      assert a == [a[0]] + a[1..];
      assert b == [b[0]] + b[1..];
    }
  }

  /** In a sorted sequence a row whose key is strictly smaller than another
      row's key stands before it. */
  lemma StrictlySmallerFirst<T>(s: seq<T>, key: T -> Key, i: int, j: int)
    requires SortedBy(s, key)
    requires 0 <= i < |s| && 0 <= j < |s|
    requires !KeyLe(key(s[j]), key(s[i]))
    ensures i < j
  {
  }
}
