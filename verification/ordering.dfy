/**
 * ORDER BY as a sort on keys. A row's sort key is a sequence of integers
 * compared lexicographically: `ORDER BY sort_order ASC, created_at DESC` is the
 * key [sortOrder, -createdAt], and `ORDER BY slug` is the slug's code points.
 */
module Ordering {

  /** Lexicographic order on keys; a proper prefix comes first. */
  predicate LexLe(a: seq<int>, b: seq<int>) {
    if a == [] then true
    else if b == [] then false
    else a[0] < b[0] || (a[0] == b[0] && LexLe(a[1..], b[1..]))
  }

  lemma {:induction false} LexLeTotal(a: seq<int>, b: seq<int>)
    ensures LexLe(a, b) || LexLe(b, a)
  {
    if a != [] && b != [] && a[0] == b[0] {
      LexLeTotal(a[1..], b[1..]);
    }
  }

  lemma {:induction false} LexLeTransitive(a: seq<int>, b: seq<int>, c: seq<int>)
    requires LexLe(a, b) && LexLe(b, c)
    ensures LexLe(a, c)
  {
    if a != [] && b != [] && c != [] && a[0] == b[0] && b[0] == c[0] {
      LexLeTransitive(a[1..], b[1..], c[1..]);
    }
  }

  lemma {:induction false} LexLeAntisymmetric(a: seq<int>, b: seq<int>)
    requires LexLe(a, b) && LexLe(b, a)
    ensures a == b
  {
    if a != [] && b != [] {
      LexLeAntisymmetric(a[1..], b[1..]);
      assert a == [a[0]] + a[1..] && b == [b[0]] + b[1..];
    }
  }

  /** Two-column keys: the first column ascending, ties broken by the second descending. */
  lemma PairKeyOrder(s1: int, c1: int, s2: int, c2: int)
    ensures LexLe([s1, -c1], [s2, -c2]) <==> s1 < s2 || (s1 == s2 && c1 >= c2)
  {
    assert [s1, -c1][1..] == [-c1] && [s2, -c2][1..] == [-c2];
    assert LexLe([-c1], [-c2]) <==> -c1 < -c2 || (-c1 == -c2 && LexLe([-c1][1..], [-c2][1..]));
    assert [-c1][1..] == [];
  }

  /** `s` is in non-decreasing key order. */
  ghost predicate Sorted<T>(s: seq<T>, key: T -> seq<int>) {
    forall i, j :: 0 <= i < j < |s| ==> LexLe(key(s[i]), key(s[j]))
  }

  /** Puts `x` into the sorted sequence `s` in front of the first element with a greater key. */
  function InsertSorted<T>(x: T, s: seq<T>, key: T -> seq<int>): (r: seq<T>)
    requires Sorted(s, key)
    ensures Sorted(r, key)
    ensures multiset(r) == multiset(s) + multiset{x}
    ensures |r| == |s| + 1
  {
    if s == [] then [x]
    else if LexLe(key(x), key(s[0])) then
      InsertFront(x, s, key)
    else
      LexLeTotal(key(x), key(s[0]));
      var rest := InsertSorted(x, s[1..], key);
      InsertBehind(s[0], rest, s[1..], x, key);
      assert s == [s[0]] + s[1..];
      [s[0]] + rest
  }

  /** `x` placed in front of a sorted sequence whose first key is at least its own. */
  function InsertFront<T>(x: T, s: seq<T>, key: T -> seq<int>): (r: seq<T>)
    requires Sorted(s, key) && s != [] && LexLe(key(x), key(s[0]))
    ensures r == [x] + s && Sorted(r, key)
  {
    forall j | 0 <= j < |s| ensures LexLe(key(x), key(s[j])) {
      if j > 0 { LexLeTransitive(key(x), key(s[0]), key(s[j])); }
    }
    [x] + s
  }

  /** Prepending an element whose key is at most every key of `tail`, and of `x`, keeps `[y] + rest` sorted. */
  lemma InsertBehind<T>(y: T, rest: seq<T>, tail: seq<T>, x: T, key: T -> seq<int>)
    requires Sorted(rest, key)
    requires multiset(rest) == multiset(tail) + multiset{x}
    requires forall k :: 0 <= k < |tail| ==> LexLe(key(y), key(tail[k]))
    requires LexLe(key(y), key(x))
    ensures Sorted([y] + rest, key)
  {
    forall j | 0 <= j < |rest| ensures LexLe(key(y), key(rest[j])) {
      assert rest[j] in multiset(rest);
      if rest[j] != x {
        assert rest[j] in multiset(tail);
        var k :| 0 <= k < |tail| && tail[k] == rest[j];
      }
    }
  }

  /** `ORDER BY key`: the same rows, in key order. Rows with equal keys may come in any order. */
  function SortBy<T>(s: seq<T>, key: T -> seq<int>): (r: seq<T>)
    ensures Sorted(r, key)
    ensures multiset(r) == multiset(s)
    ensures |r| == |s|
  {
    if s == [] then []
    else
      assert s == [s[0]] + s[1..];
      InsertSorted(s[0], SortBy(s[1..], key), key)
  }
}
