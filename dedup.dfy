/**
 * Keep-the-first-occurrence filtering by a string key, skipping empty keys: the shape
 * shared by the URL list of a paper and the de-duplication of news candidates.
 */
module Dedup {

  function DedupFrom<T>(xs: seq<T>, key: T -> string, seen: set<string>): seq<T>
  {
    if xs == [] then []
    else
      var k := key(xs[0]);
      if k == "" || k in seen then DedupFrom(xs[1..], key, seen)
      else [xs[0]] + DedupFrom(xs[1..], key, seen + {k})
  }

  /** The elements of `xs` with a non-empty key seen for the first time, in order. */
  function FirstPerKey<T>(xs: seq<T>, key: T -> string): seq<T>
  {
    DedupFrom(xs, key, {})
  }

  /** `ys` is `xs` with some elements left out. */
  predicate IsSubsequence<T(==)>(ys: seq<T>, xs: seq<T>)
  {
    ys == [] || (xs != [] && ((ys[0] == xs[0] && IsSubsequence(ys[1..], xs[1..])) || IsSubsequence(ys, xs[1..])))
  }

  lemma {:induction false} DedupFromFacts<T>(xs: seq<T>, key: T -> string, seen: set<string>)
    ensures var r := DedupFrom(xs, key, seen);
      && IsSubsequence(r, xs)
      && (forall i :: 0 <= i < |r| ==> key(r[i]) != "" && key(r[i]) !in seen)
      && (forall i, j :: 0 <= i < j < |r| ==> key(r[i]) != key(r[j]))
      && (forall i :: 0 <= i < |xs| && key(xs[i]) != "" && key(xs[i]) !in seen ==>
            exists j :: 0 <= j < |r| && key(r[j]) == key(xs[i]))
  {
    if xs != [] {
      var k := key(xs[0]);
      var r := DedupFrom(xs, key, seen);
      if k == "" || k in seen {
        DedupFromFacts(xs[1..], key, seen);
        var r' := DedupFrom(xs[1..], key, seen);
        assert r == r';
        forall i | 0 <= i < |xs| && key(xs[i]) != "" && key(xs[i]) !in seen
          ensures exists j :: 0 <= j < |r| && key(r[j]) == key(xs[i])
        {
          assert i > 0 && xs[i] == xs[1..][i - 1];
        }
      } else {
        DedupFromFacts(xs[1..], key, seen + {k});
        var r' := DedupFrom(xs[1..], key, seen + {k});
        assert r == [xs[0]] + r';
        assert r[1..] == r';
        forall i | 0 <= i < |xs| && key(xs[i]) != "" && key(xs[i]) !in seen
          ensures exists j :: 0 <= j < |r| && key(r[j]) == key(xs[i])
        {
          if key(xs[i]) == k {
            assert key(r[0]) == key(xs[i]);
          } else {
            assert i > 0 && xs[i] == xs[1..][i - 1];
            var j :| 0 <= j < |r'| && key(r'[j]) == key(xs[i]);
            assert key(r[j + 1]) == key(xs[i]);
          }
        }
      }
    }
  }

  /**
   * The output is a subsequence of the input, its keys are non-empty and pairwise
   * distinct, and every non-empty key of the input is represented.
   */
  lemma FirstPerKeyFacts<T>(xs: seq<T>, key: T -> string)
    ensures var r := FirstPerKey(xs, key);
      && IsSubsequence(r, xs)
      && (forall i :: 0 <= i < |r| ==> key(r[i]) != "")
      && (forall i, j :: 0 <= i < j < |r| ==> key(r[i]) != key(r[j]))
      && (forall i :: 0 <= i < |xs| && key(xs[i]) != "" ==> exists j :: 0 <= j < |r| && key(r[j]) == key(xs[i]))
  {
    DedupFromFacts(xs, key, {});
  }

  /** The identity key, for lists of strings de-duplicated by value. */
  function Id(s: string): string { s }

  /** The keys of the elements of `xs`. */
  function KeySet<T>(xs: seq<T>, key: T -> string): set<string>
  {
    set i | 0 <= i < |xs| :: key(xs[i])
  }

  lemma KeySetCons<T>(x: T, xs: seq<T>, key: T -> string)
    ensures KeySet([x] + xs, key) == {key(x)} + KeySet(xs, key)
  {
    var l := [x] + xs;
    forall k | k in KeySet(l, key) ensures k in {key(x)} + KeySet(xs, key) {
      var i :| 0 <= i < |l| && key(l[i]) == k;
      if i > 0 { assert l[i] == xs[i - 1]; }
    }
    forall k | k in KeySet(xs, key) ensures k in KeySet(l, key) {
      var i :| 0 <= i < |xs| && key(xs[i]) == k;
      assert l[i + 1] == xs[i];
    }
    assert key(l[0]) in KeySet(l, key);
  }

  lemma IdKeySet(xs: seq<string>)
    ensures forall k :: k in KeySet(xs, Id) <==> k in xs
  {
    forall k | k in xs ensures k in KeySet(xs, Id) {
      var i :| 0 <= i < |xs| && xs[i] == k;
      assert Id(xs[i]) == k;
    }
  }

  /**
   * Filtering one more element: it is kept exactly when its key is non-empty and
   * neither seen before nor already kept. This is the guarded-append loop form.
   */
  lemma {:induction false} DedupSnoc<T>(xs: seq<T>, y: T, key: T -> string, seen: set<string>)
    ensures var r := DedupFrom(xs, key, seen);
      DedupFrom(xs + [y], key, seen) == r + (if key(y) == "" || key(y) in seen || key(y) in KeySet(r, key) then [] else [y])
  {
    if xs == [] {
      assert [] + [y] == [y];
    } else {
      assert (xs + [y])[0] == xs[0] && (xs + [y])[1..] == xs[1..] + [y];
      var k := key(xs[0]);
      if k == "" || k in seen {
        DedupSnoc(xs[1..], y, key, seen);
      } else {
        DedupSnoc(xs[1..], y, key, seen + {k});
        var rest := DedupFrom(xs[1..], key, seen + {k});
        KeySetCons(xs[0], rest, key);
        var tail := if key(y) == "" || key(y) in seen + {k} || key(y) in KeySet(rest, key) then [] else [y];
        assert [xs[0]] + (rest + tail) == ([xs[0]] + rest) + tail;
      }
    }
  }
}
