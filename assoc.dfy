/**
 * Keyed tables kept in insertion order: a JavaScript object (whose keys
 * enumerate in the order they were first set) and a database table that
 * is read back in row order are both a sequence of (key, value) rows.
 * `Put` is an upsert: it replaces the value of the row with that key where
 * it stands, or appends a new row.
 */
module Assoc {
  import opened Wrappers

  type Table<K, V> = seq<(K, V)>

  function Keys<K, V>(t: Table<K, V>): (ks: seq<K>)
    ensures |ks| == |t|
    ensures forall i :: 0 <= i < |t| ==> ks[i] == t[i].0
  {
    if t == [] then [] else [t[0].0] + Keys(t[1..])
  }

  lemma {:induction false} KeysInit<K, V>(t: Table<K, V>)
    requires t != []
    ensures Keys(t) == Keys(t[..|t| - 1]) + [t[|t| - 1].0]
  {
    if |t| > 1 {
      var tail := t[1..];
      KeysInit(tail);
      assert tail[..|tail| - 1] == t[..|t| - 1][1..];
      assert tail[|tail| - 1] == t[|t| - 1];
    }
  }

  /** Membership in a non-empty sequence: in its front part, or its last element. */
  lemma LastMember<T>(xs: seq<T>, x: T)
    requires xs != []
    ensures x in xs <==> x in xs[..|xs| - 1] || x == xs[|xs| - 1]
  {
    assert xs == xs[..|xs| - 1] + [xs[|xs| - 1]];
  }

  /** No two rows share a key. */
  predicate Unique<K(==), V>(t: Table<K, V>) {
    forall i, j :: 0 <= i < j < |t| ==> t[i].0 != t[j].0
  }

  /** The value of the first row with key `k`. */
  function Find<K(==), V>(t: Table<K, V>, k: K): (r: Option<V>)
    ensures r.None? <==> k !in Keys(t)
    ensures r.Some? ==> (k, r.value) in t
  {
    if t == [] then None
    else if t[0].0 == k then Some(t[0].1)
    else Find(t[1..], k)
  }

  /** In a table without repeated keys, every row is what `Find` gives for its key. */
  lemma {:induction false} FindUnique<K, V>(t: Table<K, V>, i: nat)
    requires Unique(t) && i < |t|
    ensures Find(t, t[i].0) == Some(t[i].1)
  {
    if i > 0 {
      assert t[1..][i - 1] == t[i];
      FindUnique(t[1..], i - 1);
    }
  }

  lemma FindCons<K, V>(x: (K, V), rest: Table<K, V>)
    ensures forall k :: Find([x] + rest, k) == if x.0 == k then Some(x.1) else Find(rest, k)
    ensures Keys([x] + rest) == [x.0] + Keys(rest)
  {
    assert ([x] + rest)[1..] == rest;
  }

  /** In a table without repeated keys, the last key does not occur before it. */
  lemma LastKeyFresh<K, V>(t: Table<K, V>)
    requires Unique(t) && t != []
    ensures t[|t| - 1].0 !in Keys(t[..|t| - 1])
  {
    var init := t[..|t| - 1];
    forall i | 0 <= i < |init| ensures Keys(init)[i] != t[|t| - 1].0 {
      assert Keys(init)[i] == init[i].0 == t[i].0;
    }
  }

  /** Dropping the last row keeps the keys distinct. */
  lemma InitUnique<K, V>(t: Table<K, V>)
    requires Unique(t) && t != []
    ensures Unique(t[..|t| - 1])
  {
    var init := t[..|t| - 1];
    forall i, j | 0 <= i < j < |init| ensures init[i].0 != init[j].0 {
      assert init[i] == t[i] && init[j] == t[j];
    }
  }

  lemma AppendAssoc<T>(a: seq<T>, b: seq<T>, c: seq<T>)
    ensures a + (b + c) == (a + b) + c
  {
  }

  lemma TakeAll<T>(s: seq<T>)
    ensures s[..|s|] == s
  {
  }

  /** Upsert: the row with key `k` gets value `v` in place, or a row is appended. */
  function Put<K(==,!new), V>(t: Table<K, V>, k: K, v: V): (r: Table<K, V>)
    ensures Find(r, k) == Some(v)
    ensures forall k' :: k' != k ==> Find(r, k') == Find(t, k')
    ensures Keys(r) == if k in Keys(t) then Keys(t) else Keys(t) + [k]
  {
    if t == [] then [(k, v)]
    else
      assert t == [t[0]] + t[1..];
      if t[0].0 == k then
        PutHead(t[0], t[1..], v);
        [(k, v)] + t[1..]
      else
        var rest := Put(t[1..], k, v);
        PutBehind(t[0], t[1..], rest, k, v);
        [t[0]] + rest
  }

  /** `Put` on the key of the first row. */
  lemma PutHead<K(!new), V>(x: (K, V), t1: Table<K, V>, v: V)
    ensures Find([(x.0, v)] + t1, x.0) == Some(v)
    ensures forall k' :: k' != x.0 ==> Find([(x.0, v)] + t1, k') == Find([x] + t1, k')
    ensures x.0 in Keys([x] + t1) && Keys([(x.0, v)] + t1) == Keys([x] + t1)
  {
    FindCons(x, t1);
    FindCons((x.0, v), t1);
  }

  /** `Put` on a key behind the first row, given what `Put` did to the rest. */
  lemma PutBehind<K(!new), V>(x: (K, V), t1: Table<K, V>, rest: Table<K, V>, k: K, v: V)
    requires x.0 != k
    requires Find(rest, k) == Some(v)
    requires forall k' :: k' != k ==> Find(rest, k') == Find(t1, k')
    requires Keys(rest) == if k in Keys(t1) then Keys(t1) else Keys(t1) + [k]
    ensures Find([x] + rest, k) == Some(v)
    ensures forall k' :: k' != k ==> Find([x] + rest, k') == Find([x] + t1, k')
    ensures Keys([x] + rest) == if k in Keys([x] + t1) then Keys([x] + t1) else Keys([x] + t1) + [k]
  {
    FindCons(x, t1);
    FindCons(x, rest);
    assert k in Keys([x] + t1) <==> k in Keys(t1);
    if k !in Keys(t1) {
      calc {
        Keys([x] + rest);
        [x.0] + Keys(rest);
        [x.0] + (Keys(t1) + [k]);
        { AppendAssoc([x.0], Keys(t1), [k]); }
        ([x.0] + Keys(t1)) + [k];
        Keys([x] + t1) + [k];
      }
    } else {
      calc {
        Keys([x] + rest);
        [x.0] + Keys(rest);
        [x.0] + Keys(t1);
        Keys([x] + t1);
      }
    }
  }

  lemma PutKeepsUnique<K(!new), V>(t: Table<K, V>, k: K, v: V)
    requires Unique(t)
    ensures Unique(Put(t, k, v))
  {
    var r := Put(t, k, v);
    var ks, kr := Keys(t), Keys(r);
    forall i, j | 0 <= i < j < |r| ensures r[i].0 != r[j].0 {
      assert r[i].0 == kr[i] && r[j].0 == kr[j];
      if j < |ks| {
        assert kr[i] == ks[i] == t[i].0 && kr[j] == ks[j] == t[j].0;
      } else {
        assert k !in ks && kr == ks + [k];
        assert kr[j] == k && kr[i] == ks[i];
      }
    }
  }

  /** `delete t[k]`: the rows without key `k`, in order. */
  function Remove<K(==,!new), V>(t: Table<K, V>, k: K): (r: Table<K, V>)
    ensures Find(r, k) == None
    ensures forall k' :: k' != k ==> Find(r, k') == Find(t, k')
  {
    if t == [] then []
    else if t[0].0 == k then Remove(t[1..], k)
    else
      var rest := Remove(t[1..], k);
      var r := [t[0]] + rest;
      assert r[1..] == rest;
      r
  }

  /** Rows in order, restricted to the keys that satisfy `p`. */
  function Select<K(!new), V(!new)>(t: Table<K, V>, p: V -> bool): (r: Table<K, V>)
    ensures forall row :: row in r <==> row in t && p(row.1)
  {
    if t == [] then []
    else if p(t[0].1) then [t[0]] + Select(t[1..], p)
    else Select(t[1..], p)
  }
  /** The value of the last pair in `kvs` whose key is `k`, if any. */
  function LastValue<K(==), V>(kvs: seq<(K, V)>, k: K): (r: Option<V>)
    ensures r.None? <==> forall i :: 0 <= i < |kvs| ==> kvs[i].0 != k
    ensures r.Some? ==> exists i :: 0 <= i < |kvs| && kvs[i] == (k, r.value) && Later(kvs, i, k)
  {
    if kvs == [] then None
    else if kvs[|kvs| - 1].0 == k then
      assert Later(kvs, |kvs| - 1, k);
      Some(kvs[|kvs| - 1].1)
    else
      var r := LastValue(kvs[..|kvs| - 1], k);
      LastValueInit(kvs, kvs[..|kvs| - 1], k, r);
      r
  }

  /** A match in the prefix is still the last one when the final pair has another key. */
  lemma LastValueInit<K, V>(kvs: seq<(K, V)>, init: seq<(K, V)>, k: K, r: Option<V>)
    requires kvs != [] && init == kvs[..|kvs| - 1] && kvs[|kvs| - 1].0 != k
    requires r.Some? ==> exists i :: 0 <= i < |init| && init[i] == (k, r.value) && Later(init, i, k)
    ensures r.Some? ==> exists i :: 0 <= i < |kvs| && kvs[i] == (k, r.value) && Later(kvs, i, k)
  {
    if r.Some? {
      var i :| 0 <= i < |init| && init[i] == (k, r.value) && Later(init, i, k);
      assert kvs[i] == (k, r.value) && Later(kvs, i, k);
    }
  }

  /** No pair after position `i` has key `k`. */
  predicate Later<K(==), V>(kvs: seq<(K, V)>, i: nat, k: K) {
    forall j :: i < j < |kvs| ==> kvs[j].0 != k
  }

  /** Setting the pairs of `kvs` on `t` one after the other. */
  function PutAll<K(==,!new), V>(t: Table<K, V>, kvs: seq<(K, V)>): Table<K, V> {
    if kvs == [] then t else Put(PutAll(t, kvs[..|kvs| - 1]), kvs[|kvs| - 1].0, kvs[|kvs| - 1].1)
  }

  /** After a run of upserts, a key holds the value it was set to last; a key never set keeps its old value. */
  lemma {:induction false} PutAllLookup<K(!new), V>(t: Table<K, V>, kvs: seq<(K, V)>, k: K)
    ensures Find(PutAll(t, kvs), k) == if LastValue(kvs, k).Some? then LastValue(kvs, k) else Find(t, k)
  {
    if kvs != [] {
      PutAllLookup(t, kvs[..|kvs| - 1], k);
    }
  }

  lemma {:induction false} PutAllKeepsUnique<K(!new), V>(t: Table<K, V>, kvs: seq<(K, V)>)
    requires Unique(t)
    ensures Unique(PutAll(t, kvs))
  {
    if kvs != [] {
      PutAllKeepsUnique(t, kvs[..|kvs| - 1]);
      PutKeepsUnique(PutAll(t, kvs[..|kvs| - 1]), kvs[|kvs| - 1].0, kvs[|kvs| - 1].1);
    }
  }

  /** One more upsert extends the run. */
  lemma PutAllStep<K(!new), V>(t: Table<K, V>, kvs: seq<(K, V)>, i: nat)
    requires i < |kvs|
    ensures PutAll(t, kvs[..i + 1]) == Put(PutAll(t, kvs[..i]), kvs[i].0, kvs[i].1)
  {
    assert kvs[..i + 1][..i] == kvs[..i];
  }
}
