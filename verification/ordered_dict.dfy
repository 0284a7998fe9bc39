/** Python's `dict`: a finite map that remembers insertion order.
    Assigning to an existing key keeps its position. */
module OrderedDicts {
  import opened Wrappers

  datatype Dict<K(==,!new), V> = Dict(keys: seq<K>, entries: map<K, V>) {

    /** Keys are distinct and are exactly the map's domain. */
    predicate Valid()
    {
      && (forall i, j :: 0 <= i < j < |keys| ==> keys[i] != keys[j])
      && (forall k :: k in entries ==> k in keys)
      && (forall i :: 0 <= i < |keys| ==> keys[i] in entries)
    }

    /** `d.get(k)`. */
    function Get(k: K): (r: Option<V>)
      ensures r.Some? <==> k in entries
      ensures r.Some? ==> r.value == entries[k]
    {
      if k in entries then Some(entries[k]) else None
    }

    /** `d[k] = v`. */
    function Put(k: K, v: V): (d: Dict<K, V>)
      requires Valid()
      ensures d.Valid()
      ensures d.Get(k) == Some(v)
      ensures forall k' :: k' != k ==> d.Get(k') == Get(k')
      ensures k in keys ==> d.keys == keys
      ensures k !in keys ==> d.keys == keys + [k]
    {
      Dict(if k in keys then keys else keys + [k], entries[k := v])
    }

    /** `list(d.values())`, in insertion order. */
    function Values(): (r: seq<V>)
      requires Valid()
      ensures |r| == |keys|
      ensures forall i :: 0 <= i < |keys| ==> r[i] == entries[keys[i]]
    {
      seq(|keys|, i requires 0 <= i < |keys| => entries[keys[i]])
    }

    /** `len(d)`. */
    function Size(): nat
    {
      |keys|
    }
  }

  /** `{}`. */
  function Empty<K(==,!new), V>(): (d: Dict<K, V>)
    ensures d.Valid() && d.Size() == 0
    ensures forall k :: d.Get(k) == None
  {
    Dict([], map[])
  }

  /** Assigning to a key already present leaves the dictionary's values list with the
      new value at the key's old position and everything else unchanged. */
  lemma PutValues<K(!new), V>(d: Dict<K, V>, k: K, v: V)
    requires d.Valid() && k in d.keys
    ensures exists i :: 0 <= i < |d.keys| && d.keys[i] == k && d.Put(k, v).Values() == d.Values()[i := v]
  {
    var i :| 0 <= i < |d.keys| && d.keys[i] == k;
    var a := d.Put(k, v).Values();
    var b := d.Values()[i := v];
    assert |a| == |b|;
    forall j | 0 <= j < |a| ensures a[j] == b[j] {
      if j != i {
        assert d.keys[j] != k;
      }
    }
  }

  /** Assigning to a new key appends its value to the values list. */
  lemma PutNewValues<K(!new), V>(d: Dict<K, V>, k: K, v: V)
    requires d.Valid() && k !in d.keys
    ensures d.Put(k, v).Values() == d.Values() + [v]
  {
    var a := d.Put(k, v).Values();
    var b := d.Values() + [v];
    assert |a| == |b|;
    forall j | 0 <= j < |a| ensures a[j] == b[j] {
      if j < |d.keys| {
        assert d.keys[j] != k;
      }
    }
  }
}
