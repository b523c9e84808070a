/**
 * A JavaScript `Map` with numeric keys, as the store and the simulator use it:
 * the entries, plus the keys in insertion order, because `map.values()` and
 * `map.forEach` visit entries in the order their keys were first set.
 */
module OrderedTable {
  import Seqs

  datatype Table<V> = Table(order: seq<int>, entries: map<int, V>) {

    /** Every key is listed once, and exactly the keys of `entries` are listed. */
    ghost predicate Valid() {
      && Seqs.Distinct(order)
      && (forall k :: k in entries <==> k in order)
      && (forall i :: 0 <= i < |order| ==> order[i] in entries)
    }

    /** `Map.prototype.set`: a new key goes to the end; an existing key keeps its place. */
    function Set(k: int, v: V): (t: Table<V>)
      ensures t.entries == entries[k := v]
      ensures t.order == if k in entries then order else order + [k]
    {
      Table(if k in entries then order else order + [k], entries[k := v])
    }

    /** `Array.from(map.values())`: the values in insertion order of their keys. */
    function Values(): (vs: seq<V>)
      requires Valid()
      ensures |vs| == |order|
      ensures forall i :: 0 <= i < |order| ==> vs[i] == entries[order[i]]
    {
      seq(|order|, i requires 0 <= i < |order| => entries[order[i]])
    }
  }

  /** `new Map()`. */
  function Empty<V>(): (t: Table<V>)
    ensures t.Valid() && t.order == [] && t.entries == map[]
  {
    Table([], map[])
  }

  /** Setting a key keeps a table consistent. */
  lemma SetKeepsValid<V>(t: Table<V>, k: int, v: V)
    requires t.Valid()
    ensures t.Set(k, v).Valid()
  {
    var u := t.Set(k, v);
    if k !in t.entries {
      forall i, j | 0 <= i < j < |u.order|
        ensures u.order[i] != u.order[j]
      {
        if j == |t.order| { assert u.order[i] == t.order[i] && t.order[i] in t.entries; }
      }
    }
  }

  /** Setting a key not yet present appends its value to the values. */
  lemma SetFreshAppends<V>(t: Table<V>, k: int, v: V)
    requires t.Valid() && k !in t.entries
    ensures t.Set(k, v).Values() == t.Values() + [v]
  {
    var u := t.Set(k, v);
    assert |u.Values()| == |t.Values()| + 1;
    forall i | 0 <= i < |t.order|
      ensures u.Values()[i] == t.Values()[i]
    {
      assert t.order[i] != k;
    }
  }
}
