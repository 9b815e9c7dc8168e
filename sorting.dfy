/**
 * Python's `sorted(xs, key=k, reverse=True)` for an integer key: a stable sort into
 * non-increasing key order (records with equal keys keep their input order).
 */
module Sorting {

  predicate SortedDesc<T>(s: seq<T>, key: T -> int)
  {
    forall i, j :: 0 <= i < j < |s| ==> key(s[i]) >= key(s[j])
  }

  /** Insert `x` in front of the first element whose key is not larger than its own. */
  function InsertDesc<T>(x: T, s: seq<T>, key: T -> int): (r: seq<T>)
    ensures |r| == |s| + 1
    ensures multiset(r) == multiset(s) + multiset{x}
    ensures r[0] == x || (s != [] && r[0] == s[0])
  {
    if s == [] || key(s[0]) <= key(x) then [x] + s
    else
      assert s == [s[0]] + s[1..];
      [s[0]] + InsertDesc(x, s[1..], key)
  }

  lemma {:induction false} InsertDescSorted<T>(x: T, s: seq<T>, key: T -> int)
    requires SortedDesc(s, key)
    ensures SortedDesc(InsertDesc(x, s, key), key)
  {
    if s != [] && key(s[0]) > key(x) {
      var r' := InsertDesc(x, s[1..], key);
      InsertDescSorted(x, s[1..], key);
      var r := [s[0]] + r';
      assert key(s[0]) >= key(r'[0]);
      forall i, j | 0 <= i < j < |r| ensures key(r[i]) >= key(r[j]) {
        if i == 0 && j > 1 { assert key(r'[0]) >= key(r'[j - 1]); }
      }
    }
  }

  /** `sorted(s, key=key, reverse=True)`: a permutation of `s` in non-increasing key order. */
  function SortDesc<T>(s: seq<T>, key: T -> int): (r: seq<T>)
    ensures |r| == |s|
    ensures multiset(r) == multiset(s)
    ensures SortedDesc(r, key)
  {
    if s == [] then []
    else
      var rest := SortDesc(s[1..], key);
      InsertDescSorted(s[0], rest, key);
      assert s == [s[0]] + s[1..];
      InsertDesc(s[0], rest, key)
  }

  /** The elements of `s` whose key is `k`, in order. */
  function WithKey<T>(s: seq<T>, key: T -> int, k: int): seq<T>
  {
    if s == [] then [] else (if key(s[0]) == k then [s[0]] else []) + WithKey(s[1..], key, k)
  }

  lemma {:induction false} InsertDescWithKey<T>(x: T, s: seq<T>, key: T -> int, k: int)
    ensures WithKey(InsertDesc(x, s, key), key, k) == (if key(x) == k then [x] else []) + WithKey(s, key, k)
  {
    var r := InsertDesc(x, s, key);
    if s == [] || key(s[0]) <= key(x) {
      assert r == [x] + s;
      assert r[0] == x && r[1..] == s;
    } else {
      var r' := InsertDesc(x, s[1..], key);
      InsertDescWithKey(x, s[1..], key, k);
      assert r == [s[0]] + r';
      assert r[0] == s[0] && r[1..] == r';
      assert WithKey(r, key, k) == (if key(s[0]) == k then [s[0]] else []) + WithKey(r', key, k);
      assert WithKey(s, key, k) == (if key(s[0]) == k then [s[0]] else []) + WithKey(s[1..], key, k);
    }
  }

  /** Stability: among records with the same key, the sorted output keeps the input order. */
  lemma {:induction false} SortDescStable<T>(s: seq<T>, key: T -> int, k: int)
    ensures WithKey(SortDesc(s, key), key, k) == WithKey(s, key, k)
  {
    if s != [] {
      SortDescStable(s[1..], key, k);
      InsertDescWithKey(s[0], SortDesc(s[1..], key), key, k);
    }
  }

  /** A prefix of a sorted sequence is sorted. */
  lemma SortedDescPrefix<T>(s: seq<T>, key: T -> int, n: nat)
    requires SortedDesc(s, key) && n <= |s|
    ensures SortedDesc(s[..n], key)
  {
    forall i, j | 0 <= i < j < n ensures key(s[..n][i]) >= key(s[..n][j]) {
      assert s[..n][i] == s[i] && s[..n][j] == s[j];
    }
  }

  /** In a sorted sequence nothing after position `n` has a larger key than anything before it. */
  lemma SortedDescSplit<T>(s: seq<T>, key: T -> int, n: nat)
    requires SortedDesc(s, key) && n <= |s|
    ensures forall p, q :: p in multiset(s[n..]) && q in s[..n] ==> key(p) <= key(q)
  {
    forall p, q | p in multiset(s[n..]) && q in s[..n] ensures key(p) <= key(q) {
      var j :| 0 <= j < |s[n..]| && s[n..][j] == p;
      var i :| 0 <= i < n && s[..n][i] == q;
      assert s[i] == q && s[n + j] == p;
    }
  }
}
