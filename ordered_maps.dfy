/**
 * A Python dict: a finite map together with the insertion order of its keys.
 * Assigning to a present key keeps its position; a new key goes to the end.
 */
module OrderedMaps {
  import opened Wrappers
  import opened Text

  datatype OMap<V> = OMap(keys: seq<string>, values: map<string, V>)

  ghost predicate Valid<V>(m: OMap<V>)
  {
    NoDup(m.keys) && (forall k :: k in m.values <==> k in m.keys)
  }

  function Empty<V>(): (m: OMap<V>)
    ensures Valid(m) && m.keys == []
  {
    OMap([], map[])
  }

  /** `d[k] = v`. */
  function Put<V>(m: OMap<V>, k: string, v: V): (r: OMap<V>)
    requires Valid(m)
    ensures Valid(r)
    ensures r.values == m.values[k := v]
    ensures r.keys == if k in m.values then m.keys else m.keys + [k]
  {
    if k in m.values then OMap(m.keys, m.values[k := v]) else OMap(m.keys + [k], m.values[k := v])
  }

  /** `d.get(k, default)`. */
  function Get<V>(m: OMap<V>, k: string, default: V): V
  {
    if k in m.values then m.values[k] else default
  }

  /** The `(key, value)` pairs of `d.items()`, in key order. */
  function Items<V>(m: OMap<V>): (r: seq<(string, V)>)
    requires Valid(m)
    ensures |r| == |m.keys|
    ensures forall i :: 0 <= i < |r| ==> r[i].0 == m.keys[i] && r[i].1 == m.values[m.keys[i]]
  {
    seq(|m.keys|, i requires 0 <= i < |m.keys| => (m.keys[i], m.values[m.keys[i]]))
  }

  /** Each pair of `d.items()` is a key with its value. */
  lemma ItemsMember<V>(m: OMap<V>, x: (string, V))
    requires Valid(m) && x in Items(m)
    ensures x.0 in m.values && x.1 == m.values[x.0]
  {
    var i :| 0 <= i < |Items(m)| && Items(m)[i] == x;
  }

  /** The dict after `d[keys[i]] = vals[i]` for each `i < n`, in order, skipping absent values. */
  function PutSome<V>(keys: seq<string>, vals: seq<Option<V>>, n: nat): (r: OMap<V>)
    requires n <= |keys| && n <= |vals|
    ensures Valid(r)
  {
    if n == 0 then Empty()
    else
      var acc := PutSome(keys, vals, n - 1);
      if vals[n - 1].Some? then Put(acc, keys[n - 1], vals[n - 1].value) else acc
  }

  /** A key is present exactly when some present value was written under it. */
  lemma {:induction false} PutSomeKeys<V>(keys: seq<string>, vals: seq<Option<V>>, n: nat, k: string)
    requires n <= |keys| && n <= |vals|
    ensures k in PutSome(keys, vals, n).values <==> exists i :: 0 <= i < n && vals[i].Some? && keys[i] == k
  {
    if n > 0 {
      PutSomeKeys(keys, vals, n - 1, k);
      if exists i :: 0 <= i < n && vals[i].Some? && keys[i] == k {
        var i :| 0 <= i < n && vals[i].Some? && keys[i] == k;
        if i < n - 1 {
          assert exists i :: 0 <= i < n - 1 && vals[i].Some? && keys[i] == k;
        }
      }
    }
  }

  /** The value under a key is the last one written under it. */
  lemma {:induction false} PutSomeLast<V>(keys: seq<string>, vals: seq<Option<V>>, n: nat, i: nat)
    requires i < n <= |keys| && n <= |vals| && vals[i].Some?
    requires forall j :: i < j < n && keys[j] == keys[i] ==> vals[j].None?
    ensures keys[i] in PutSome(keys, vals, n).values
    ensures PutSome(keys, vals, n).values[keys[i]] == vals[i].value
  {
    if i < n - 1 {
      PutSomeLast(keys, vals, n - 1, i);
    }
  }

  /** Keys keep the position of their first write. */
  lemma {:induction false} PutSomeOrder<V>(keys: seq<string>, vals: seq<Option<V>>, n: nat, m: nat)
    requires m <= n <= |keys| && n <= |vals|
    ensures PutSome(keys, vals, m).keys <= PutSome(keys, vals, n).keys
    decreases n - m
  {
    if m < n {
      PutSomeOrder(keys, vals, n - 1, m);
    }
  }

  /** Writing a key twice is writing it once with the later value. */
  lemma PutTwice<V>(m: OMap<V>, k: string, v: V, w: V)
    requires Valid(m)
    ensures Put(Put(m, k, v), k, w) == Put(m, k, w)
  {
    assert m.values[k := v][k := w] == m.values[k := w];
  }
}
