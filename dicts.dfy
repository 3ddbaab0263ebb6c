/** An insertion-ordered dictionary, the way a Python `dict` keeps its keys. */
module Dicts {
  import opened Wrappers

  /** `keys` lists every key once, in the order it was first inserted;
      `entries` holds the value of each key. */
  datatype Dict<K(==, !new), V> = Dict(keys: seq<K>, entries: map<K, V>) {

    ghost predicate Valid() {
      Distinct(keys) &&
      (forall k :: k in entries <==> k in keys)
    }

    /** `d[k]`: the value of `k`, or `KeyError` when `k` is absent. */
    function Get(k: K): (r: Result<V, K>)
      ensures r.Success? <==> k in entries
      ensures r.Success? ==> r.value == entries[k]
      ensures r.Failure? ==> r.error == k
    {
      if k in entries then Success(entries[k]) else Failure(k)
    }

    /** `d[k] = v`: an existing key keeps its place, a new key goes last. */
    function Insert(k: K, v: V): (d: Dict<K, V>)
      ensures Valid() ==> d.Valid()
      ensures d.entries == entries[k := v]
      ensures keys <= d.keys
      ensures Valid() && k in keys ==> d.keys == keys
      ensures Valid() && k !in keys ==> d.keys == keys + [k]
    {
      if k in entries then Dict(keys, entries[k := v]) else Dict(keys + [k], entries[k := v])
    }
  }

  function EmptyDict<K(==, !new), V>(): (d: Dict<K, V>)
    ensures d.Valid() && d.keys == [] && d.entries == map[]
  {
    Dict([], map[])
  }


  ghost predicate Distinct<T>(s: seq<T>) {
    forall i, j :: 0 <= i < j < |s| ==> s[i] != s[j]
  }

  /** Inserting the keys of `names` one by one, in order, lists them in that order
      and leaves the values of the earlier keys alone. */
  lemma InsertNext<K(!new), V>(d: Dict<K, V>, names: seq<K>, j: nat, v: V)
    requires Distinct(names) && j < |names|
    requires d.Valid() && d.keys == names[..j]
    ensures d.Insert(names[j], v).Valid()
    ensures d.Insert(names[j], v).keys == names[..j + 1]
    ensures d.Insert(names[j], v).entries == d.entries[names[j] := v]
    ensures forall m :: 0 <= m < j ==> d.Insert(names[j], v).entries[names[m]] == d.entries[names[m]]
  {
    assert names[j] !in names[..j];
    assert names[..j + 1] == names[..j] + [names[j]];
  }

  /** Every key of `a` is a key of `b` with the same value. */
  ghost predicate Agrees<K(!new), V>(a: Dict<K, V>, b: Dict<K, V>) {
    forall k :: k in a.entries ==> k in b.entries && a.entries[k] == b.entries[k]
  }

  /** Two dictionaries that list the same keys, hold exactly those, and agree
      on every value are the same dictionary. */
  lemma Extensional<K(!new), V>(a: Dict<K, V>, b: Dict<K, V>)
    requires a.Valid() && a.keys == b.keys
    requires forall k :: k in b.entries <==> k in b.keys
    requires Agrees(a, b)
    ensures a == b
  {
    assert a.entries.Keys == b.entries.Keys;
    assert a.entries == b.entries;
  }
}
