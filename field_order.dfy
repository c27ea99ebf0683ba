/**
 * `[...fields].sort((a, b) => a.order - b.order)`: every reader of a form
 * (validation.js:95, forms.js:30, FormRenderer.tsx:126, AdminPanel.tsx:257)
 * sorts a copy of the field list by `order`. JavaScript's sort is stable, so
 * the model is a stable insertion sort on a key function.
 */
module FieldOrder {

  ghost predicate SortedBy<T>(s: seq<T>, key: T -> int) {
    forall i, j :: 0 <= i < j < |s| ==> key(s[i]) <= key(s[j])
  }

  /** The elements of `s` whose key is `k`, in their order in `s`. */
  function WithKey<T>(s: seq<T>, key: T -> int, k: int): seq<T> {
    if s == [] then []
    else (if key(s[0]) == k then [s[0]] else []) + WithKey(s[1..], key, k)
  }

  /** Puts `x` in front of the first element whose key is not smaller than its own. */
  function Insert<T>(x: T, s: seq<T>, key: T -> int): (r: seq<T>)
    ensures |r| == |s| + 1
    ensures multiset(r) == multiset(s) + multiset{x}
  {
    if s == [] || key(x) <= key(s[0]) then [x] + s
    else
      assert s == [s[0]] + s[1..];
      [s[0]] + Insert(x, s[1..], key)
  }

  lemma {:induction false} InsertKeepsSorted<T>(x: T, s: seq<T>, key: T -> int)
    requires SortedBy(s, key)
    ensures SortedBy(Insert(x, s, key), key)
  {
    if s != [] && key(x) > key(s[0]) {
      var rest := Insert(x, s[1..], key);
      InsertKeepsSorted(x, s[1..], key);
      forall j | 0 <= j < |rest| ensures key(s[0]) <= key(rest[j]) {
        assert rest[j] in multiset(rest);
        if rest[j] != x {
          assert rest[j] in multiset(s[1..]);
          var m :| 0 <= m < |s[1..]| && s[1..][m] == rest[j];
          assert s[1 + m] == rest[j];
        }
      }
      assert Insert(x, s, key) == [s[0]] + rest;
    }
  }

  /** The stable sort: a sorted permutation of the input. */
  function SortBy<T>(s: seq<T>, key: T -> int): (r: seq<T>)
    ensures |r| == |s|
    ensures multiset(r) == multiset(s)
    ensures SortedBy(r, key)
  {
    if s == [] then []
    else
      assert s == [s[0]] + s[1..];
      InsertKeepsSorted(s[0], SortBy(s[1..], key), key);
      Insert(s[0], SortBy(s[1..], key), key)
  }

  lemma {:induction false} InsertWithKey<T>(x: T, s: seq<T>, key: T -> int, k: int)
    ensures WithKey(Insert(x, s, key), key, k) == (if key(x) == k then [x] else []) + WithKey(s, key, k)
  {
    var r := Insert(x, s, key);
    if s == [] || key(x) <= key(s[0]) {
      assert r[0] == x && r[1..] == s;
    } else {
      var t := Insert(x, s[1..], key);
      InsertWithKey(x, s[1..], key, k);
      assert r[0] == s[0] && r[1..] == t;
      assert WithKey(r, key, k) == (if key(s[0]) == k then [s[0]] else []) + WithKey(t, key, k);
      assert WithKey(s, key, k) == (if key(s[0]) == k then [s[0]] else []) + WithKey(s[1..], key, k);
      if key(x) == k {
        assert key(s[0]) != k;
      }
    }
  }

  /**
   * Stability: among fields with equal `order`, the sort keeps the input's order.
   * Together with sortedness this fixes the result completely.
   */
  lemma {:induction false} SortIsStable<T>(s: seq<T>, key: T -> int, k: int)
    ensures WithKey(SortBy(s, key), key, k) == WithKey(s, key, k)
  {
    if s != [] {
      SortIsStable(s[1..], key, k);
      InsertWithKey(s[0], SortBy(s[1..], key), key, k);
    }
  }

  /** A list that is already in order comes back unchanged. */
  lemma {:induction false} SortOfSorted<T>(s: seq<T>, key: T -> int)
    requires SortedBy(s, key)
    ensures SortBy(s, key) == s
  {
    if s != [] {
      assert SortedBy(s[1..], key);
      SortOfSorted(s[1..], key);
      assert s == [s[0]] + s[1..];
    }
  }

  /** Sorting twice is sorting once. */
  lemma SortIdempotent<T>(s: seq<T>, key: T -> int)
    ensures SortBy(SortBy(s, key), key) == SortBy(s, key)
  {
    SortOfSorted(SortBy(s, key), key);
  }
}
