/**
 * Python's insertion-ordered `dict`: the keys in the order they were first
 * inserted, and the mapping from each key to its value.
 */
module Dicts {
  import opened Wrappers

  datatype Dict<K(==,!new), V> = Dict(keys: seq<K>, vals: map<K, V>) {

    /** Each key appears once in the order, and the order lists exactly the mapped keys. */
    ghost predicate Valid() {
      && (forall i, j :: 0 <= i < j < |keys| ==> keys[i] != keys[j])
      && (forall k :: k in vals <==> k in keys)
    }

    /** `d.get(k)`. */
    function Get(k: K): Option<V> {
      if k in vals then Some(vals[k]) else None
    }

    /** `d[k] = v`: a new key goes to the end, an existing key keeps its place. */
    function Put(k: K, v: V): (r: Dict<K, V>)
      ensures Valid() ==> r.Valid()
      ensures r.Get(k) == Some(v)
      ensures forall j :: j != k ==> r.Get(j) == Get(j)
    {
      if k in vals then Dict(keys, vals[k := v]) else Dict(keys + [k], vals[k := v])
    }

    /** `del d[k]` when `k` is present; nothing otherwise. */
    function Remove(k: K): (r: Dict<K, V>)
      ensures Valid() ==> r.Valid()
      ensures r.Get(k) == None
      ensures forall j :: j != k ==> r.Get(j) == Get(j)
    {
      if k in keys then
        var i := IndexOf(keys, k);
        Dict(keys[..i] + keys[i + 1..], vals - {k})
      else Dict(keys, vals - {k})
    }

    /** `list(d.items())`. */
    function Items(): (items: seq<(K, V)>)
      requires Valid()
      ensures |items| == |keys|
      ensures forall i :: 0 <= i < |items| ==> items[i] == (keys[i], vals[keys[i]])
    {
      seq(|keys|, i requires 0 <= i < |keys| => (keys[i], vals[keys[i]]))
    }

    /** Inserting the pairs one after the other, as a loop of `d[k] = v` does. */
    function PutAll(items: seq<(K, V)>): Dict<K, V>
      decreases |items|
    {
      if items == [] then this
      else PutAll(items[..|items| - 1]).Put(items[|items| - 1].0, items[|items| - 1].1)
    }
  }

  function Empty<K(==,!new), V>(): (d: Dict<K, V>)
    ensures d.Valid()
  {
    Dict([], map[])
  }

  function IndexOf<K(==)>(s: seq<K>, k: K): (i: nat)
    requires k in s
    ensures i < |s| && s[i] == k
    ensures forall j :: 0 <= j < i ==> s[j] != k
  {
    if s[0] == k then 0 else 1 + IndexOf(s[1..], k)
  }

  /** Every stored pair is one of the rows of `list(d.items())`. */
  lemma ItemsListAll<K(!new), V>(d: Dict<K, V>)
    requires d.Valid()
    ensures forall k :: k in d.vals ==> exists i :: 0 <= i < |d.Items()| && d.Items()[i] == (k, d.vals[k])
  {
    forall k | k in d.vals
      ensures exists i :: 0 <= i < |d.Items()| && d.Items()[i] == (k, d.vals[k])
    {
      var i := IndexOf(d.keys, k);
      assert d.Items()[i] == (k, d.vals[k]);
    }
  }

  /** Overwriting a present key changes its pair in place and moves nothing. */
  lemma PutExistingInPlace<K(!new), V>(d: Dict<K, V>, k: K, v: V)
    requires d.Valid() && k in d.vals
    ensures d.Put(k, v).Items() == d.Items()[IndexOf(d.keys, k) := (k, v)]
  {
    var i := IndexOf(d.keys, k);
    forall j | 0 <= j < |d.keys| && j != i ensures d.keys[j] != k {
      if j < i {
      } else {
        assert d.keys[j] != d.keys[i];
      }
    }
  }

  /** A new key is appended after every existing pair. */
  lemma PutNewAppends<K(!new), V>(d: Dict<K, V>, k: K, v: V)
    requires d.Valid() && k !in d.vals
    ensures d.Put(k, v).Items() == d.Items() + [(k, v)]
  {
  }

  /** Putting a key twice leaves what putting it once with the second value leaves. */
  lemma PutTwice<K(!new), V>(d: Dict<K, V>, k: K, v: V, w: V)
    ensures d.Put(k, v).Put(k, w) == d.Put(k, w)
  {
    assert d.vals[k := v][k := w] == d.vals[k := w];
  }

  /** Removing a key just put for the first time gives back the dictionary before. */
  lemma PutNewThenRemove<K(!new), V>(d: Dict<K, V>, k: K, v: V)
    requires d.Valid() && k !in d.vals
    ensures d.Put(k, v).Remove(k) == d
  {
    var p := d.Put(k, v);
    var n := |d.keys|;
    assert p.keys == d.keys + [k];
    assert IndexOf(p.keys, k) == n by {
      assert k !in d.keys;
    }
    assert p.keys[..n] + p.keys[n + 1..] == d.keys;
    assert p.vals - {k} == d.vals;
  }

  /** Removing a present key drops its pair and keeps the others in order. */
  lemma RemoveDropsPair<K(!new), V>(d: Dict<K, V>, k: K)
    requires d.Valid() && k in d.vals
    ensures var i := IndexOf(d.keys, k);
            d.Remove(k).Items() == d.Items()[..i] + d.Items()[i + 1..]
  {
    var i := IndexOf(d.keys, k);
    RemovedPairs(d, k, i);
    DropIs(d.Remove(k).Items(), d.Items(), i);
  }

  /** The pairs left after removing the key at place `i`: those before it, then those after it. */
  lemma RemovedPairs<K(!new), V>(d: Dict<K, V>, k: K, i: nat)
    requires d.Valid() && k in d.vals && i == IndexOf(d.keys, k)
    ensures i < |d.Items()| && |d.Remove(k).Items()| == |d.Items()| - 1
    ensures forall j :: 0 <= j < |d.Remove(k).Items()| ==>
      d.Remove(k).Items()[j] == d.Items()[if j < i then j else j + 1]
  {
    var after := d.Remove(k).Items();
    forall j | 0 <= j < |after|
      ensures after[j] == d.Items()[if j < i then j else j + 1]
    {
      RemovedPairAt(d, k, j);
    }
  }

  /** A sequence that holds the elements of `s` other than its element `i`, in order, is `s` with it dropped. */
  lemma DropIs<T>(a: seq<T>, s: seq<T>, i: nat)
    requires i < |s| && |a| == |s| - 1
    requires forall j :: 0 <= j < |a| ==> a[j] == s[if j < i then j else j + 1]
    ensures a == s[..i] + s[i + 1..]
  {
  }

  /** Pair `j` after removing `k`: the same pair before `k`'s place, the next one from there on. */
  lemma RemovedPairAt<K(!new), V>(d: Dict<K, V>, k: K, j: nat)
    requires d.Valid() && k in d.vals && j < |d.keys| - 1
    ensures var i := IndexOf(d.keys, k);
      d.Remove(k).Items()[j] == d.Items()[if j < i then j else j + 1]
  {
    var i := IndexOf(d.keys, k);
    var r := d.Remove(k);
    assert r.keys == d.keys[..i] + d.keys[i + 1..];
    var key := r.keys[j];
    assert k !in r.keys;
    assert key == d.keys[if j < i then j else j + 1];
  }

  /** Rebuilding a dictionary from its own items, in order, gives it back. */
  lemma PutAllItems<K(!new), V>(d: Dict<K, V>)
    requires d.Valid()
    ensures Empty<K, V>().PutAll(d.Items()) == d
  {
    var items := d.Items();
    PutAllPrefix(d, |items|);
    assert items[..|items|] == items;
    PrefixFull(d);
  }

  /** Inserting the first `n` pairs gives the dictionary of the first `n` keys. */
  lemma {:induction false} PutAllPrefix<K(!new), V>(d: Dict<K, V>, n: nat)
    requires d.Valid() && n <= |d.keys|
    ensures Empty<K, V>().PutAll(d.Items()[..n]) == Prefix(d, n)
    decreases n
  {
    if n > 0 {
      var items := d.Items();
      PutAllPrefix(d, n - 1);
      PutAllStep(Empty<K, V>(), items, n);
      PrefixStep(d, n - 1);
    }
  }

  /** Inserting `n` pairs is inserting the first `n - 1`, then the last one. */
  lemma PutAllStep<K(!new), V>(e: Dict<K, V>, items: seq<(K, V)>, n: nat)
    requires 0 < n <= |items|
    ensures e.PutAll(items[..n]) == e.PutAll(items[..n - 1]).Put(items[n - 1].0, items[n - 1].1)
  {
    assert items[..n][..n - 1] == items[..n - 1];
  }

  lemma PrefixFull<K(!new), V>(d: Dict<K, V>)
    requires d.Valid()
    ensures Prefix(d, |d.keys|) == d
  {
    assert d.keys[..|d.keys|] == d.keys;
  }

  /** The dictionary holding the first `n` keys of `d`. */
  ghost function Prefix<K(!new), V>(d: Dict<K, V>, n: nat): Dict<K, V>
    requires d.Valid() && n <= |d.keys|
  {
    Dict(d.keys[..n], map k | k in d.keys[..n] :: d.vals[k])
  }

  lemma PrefixStep<K(!new), V>(d: Dict<K, V>, n: nat)
    requires d.Valid() && n < |d.keys|
    ensures Prefix(d, n).Put(d.keys[n], d.vals[d.keys[n]]) == Prefix(d, n + 1)
  {
    var k := d.keys[n];
    NotInPrefix(d, n);
    assert d.keys[..n + 1] == d.keys[..n] + [k];
    assert Prefix(d, n).vals[k := d.vals[k]] == Prefix(d, n + 1).vals;
  }

  /** Keys are distinct, so the key at place `n` is not among the first `n`. */
  lemma NotInPrefix<K(!new), V>(d: Dict<K, V>, n: nat)
    requires d.Valid() && n < |d.keys|
    ensures d.keys[n] !in d.keys[..n]
  {
    forall j | 0 <= j < n ensures d.keys[j] != d.keys[n] {
      assert d.keys[j] != d.keys[n];
    }
  }
}
