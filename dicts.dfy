/**
 * Python dictionaries: keys are unique and iteration follows insertion order.
 * Assigning to an existing key replaces its value in place; a new key goes last.
 */
module Dicts {
  import opened Wrappers

  ghost predicate UniqueKeys<K, V>(d: seq<(K, V)>) {
    forall i, j | 0 <= i < j < |d| :: d[i].0 != d[j].0
  }

  type Dict<K, V> = d: seq<(K, V)> | UniqueKeys(d) witness []

  /** `d.keys()` as a set. */
  function KeySet<K, V>(d: seq<(K, V)>): set<K> {
    set i | 0 <= i < |d| :: d[i].0
  }

  lemma KeySetCons<K, V>(x: (K, V), t: seq<(K, V)>)
    ensures KeySet([x] + t) == {x.0} + KeySet(t)
  {
    var d := [x] + t;
    forall k | k in KeySet(d) ensures k in {x.0} + KeySet(t) {
      var i :| 0 <= i < |d| && d[i].0 == k;
      if i > 0 { assert t[i - 1].0 == k; }
    }
    forall k | k in KeySet(t) ensures k in KeySet(d) {
      var i :| 0 <= i < |t| && t[i].0 == k;
      assert d[i + 1].0 == k;
    }
    assert d[0].0 == x.0;
  }

  /** `d.values()` in iteration order. */
  function Values<K, V>(d: seq<(K, V)>): (vs: seq<V>)
    ensures |vs| == |d| && forall i | 0 <= i < |d| :: vs[i] == d[i].1
  {
    seq(|d|, i requires 0 <= i < |d| => d[i].1)
  }

  lemma NotInTail<K, V>(d: Dict<K, V>)
    requires d != []
    ensures d[0].0 !in KeySet(d[1..])
  {
    var t := d[1..];
    forall i | 0 <= i < |t| ensures t[i].0 != d[0].0 {
      assert t[i] == d[i + 1];
    }
  }

  lemma ConsUnique<K, V>(x: (K, V), t: Dict<K, V>)
    requires x.0 !in KeySet(t)
    ensures UniqueKeys([x] + t)
  {
    var d := [x] + t;
    forall i, j | 0 <= i < j < |d| ensures d[i].0 != d[j].0 {
      if i > 0 { assert d[i] == t[i - 1] && d[j] == t[j - 1]; }
      else { assert d[j] == t[j - 1]; }
    }
  }

  /** `d.get(k)` */
  function Get<K(==, !new), V>(d: seq<(K, V)>, k: K): (r: Option<V>)
    ensures r.Some? <==> k in KeySet(d)
    ensures r.Some? ==> exists i | 0 <= i < |d| :: d[i] == (k, r.value)
  {
    if d == [] then None
    else
      assert d == [d[0]] + d[1..];
      KeySetCons(d[0], d[1..]);
      if d[0].0 == k then Some(d[0].1)
      else
        var r := Get(d[1..], k);
        assert r.Some? ==> exists i | 0 <= i < |d| :: d[i] == (k, r.value) by {
          if r.Some? {
            var j :| 0 <= j < |d[1..]| && d[1..][j] == (k, r.value);
            assert d[j + 1] == (k, r.value);
          }
        }
        r
  }

  lemma GetAt<K(!new), V>(d: Dict<K, V>, i: nat)
    requires i < |d|
    ensures Get(d, d[i].0) == Some(d[i].1)
  {
    if i > 0 {
      GetAt(d[1..], i - 1);
    }
  }

  /** `d[k] = v` */
  function Put<K(==, !new), V>(d: Dict<K, V>, k: K, v: V): (r: Dict<K, V>)
    ensures KeySet(r) == KeySet(d) + {k}
    ensures |r| == if k in KeySet(d) then |d| else |d| + 1
    ensures Get(r, k) == Some(v)
    ensures forall k' | k' != k :: Get(r, k') == Get(d, k')
  {
    if d == [] then
      KeySetCons((k, v), []);
      [(k, v)]
    else
      assert d == [d[0]] + d[1..];
      KeySetCons(d[0], d[1..]);
      NotInTail(d);
      if d[0].0 == k then
        KeySetCons((k, v), d[1..]);
        [(k, v)] + d[1..]
      else
        var t := Put(d[1..], k, v);
        KeySetCons(d[0], t);
        ConsUnique(d[0], t);
        [d[0]] + t
  }

  /** `del d[k]` (the caller has checked that `k` is present). */
  function Remove<K(==, !new), V>(d: Dict<K, V>, k: K): (r: Dict<K, V>)
    ensures KeySet(r) == KeySet(d) - {k}
    ensures |r| == if k in KeySet(d) then |d| - 1 else |d|
    ensures Get(r, k) == None
    ensures forall k' | k' != k :: Get(r, k') == Get(d, k')
  {
    if d == [] then []
    else
      assert d == [d[0]] + d[1..];
      KeySetCons(d[0], d[1..]);
      NotInTail(d);
      if d[0].0 == k then d[1..]
      else
        var t := Remove(d[1..], k);
        KeySetCons(d[0], t);
        ConsUnique(d[0], t);
        [d[0]] + t
  }

  /** `d.update(e)`: the entries of `e` assigned one by one, in order. */
  function Update<K(==, !new), V>(d: Dict<K, V>, e: Dict<K, V>): (r: Dict<K, V>)
    ensures KeySet(r) == KeySet(d) + KeySet(e)
    ensures forall k :: Get(r, k) == if k in KeySet(e) then Get(e, k) else Get(d, k)
    decreases |e|
  {
    if e == [] then d
    else
      assert e == [e[0]] + e[1..];
      KeySetCons(e[0], e[1..]);
      NotInTail(e);
      Update(Put(d, e[0].0, e[0].1), e[1..])
  }

  /** Assigning a new key appends it: insertion order is kept. */
  lemma {:induction false} PutNewAppends<K(!new), V>(d: Dict<K, V>, k: K, v: V)
    requires k !in KeySet(d)
    ensures Put(d, k, v) == d + [(k, v)]
    decreases |d|
  {
    if d != [] {
      assert d == [d[0]] + d[1..];
      KeySetCons(d[0], d[1..]);
      PutNewAppends(d[1..], k, v);
    }
  }

  /** Deleting a key that was just added restores the dict. */
  lemma {:induction false} RemovePutNew<K(!new), V>(d: Dict<K, V>, k: K, v: V)
    requires k !in KeySet(d)
    ensures Remove(Put(d, k, v), k) == d
    decreases |d|
  {
    if d != [] {
      assert d == [d[0]] + d[1..];
      KeySetCons(d[0], d[1..]);
      RemovePutNew(d[1..], k, v);
    }
  }
}
