/** An insertion-ordered map, the value behind java.util.LinkedHashMap. */
module LinkedMaps {

  /** `keys` lists the keys in the order they were first put; `values` holds the mappings. */
  datatype LinkedMap<K(!new), V> = LinkedMap(keys: seq<K>, values: map<K, V>) {

    /** Each key is listed once, and exactly the mapped keys are listed. */
    ghost predicate Valid() {
      && (forall i, j :: 0 <= i < j < |keys| ==> keys[i] != keys[j])
      && (forall k :: k in values <==> k in keys)
    }

    /** LinkedHashMap.put: a new key goes to the end, an existing key keeps its place. */
    function Put(k: K, v: V): (r: LinkedMap<K, V>)
      requires Valid()
      ensures r.Valid()
      ensures k in values ==> r.keys == keys
      ensures k !in values ==> r.keys == keys + [k]
      ensures k in r.values && r.values[k] == v
      ensures forall x :: x in r.values <==> x in values || x == k
      ensures forall x :: x in values && x != k ==> r.values[x] == values[x]
    {
      LinkedMap(if k in values then keys else keys + [k], values[k := v])
    }
  }

  /** A new, empty LinkedHashMap. */
  function Empty<K(!new), V>(): (r: LinkedMap<K, V>)
    ensures r.Valid() && r.keys == [] && r.values == map[]
  {
    LinkedMap([], map[])
  }

  /** Putting the same key twice keeps only the second value and the original order. */
  lemma PutTwice<K(!new), V>(m: LinkedMap<K, V>, k: K, v1: V, v2: V)
    requires m.Valid()
    ensures m.Put(k, v1).Put(k, v2) == m.Put(k, v2)
  {
    var a := m.Put(k, v1).Put(k, v2);
    var b := m.Put(k, v2);
    assert a.keys == b.keys;
    assert a.values == b.values;
  }

  /** The map after putting `entries` into `m`, one after the other. */
  function PutAll<K(!new), V>(m: LinkedMap<K, V>, entries: seq<(K, V)>): (r: LinkedMap<K, V>)
    requires m.Valid()
    ensures r.Valid()
    decreases |entries|
  {
    if entries == [] then m
    else
      var n := |entries| - 1;
      PutAll(m, entries[..n]).Put(entries[n].0, entries[n].1)
  }

  /** The keys of `entries`. */
  function KeysOf<K, V>(entries: seq<(K, V)>): (r: set<K>)
    ensures forall i :: 0 <= i < |entries| ==> entries[i].0 in r
    ensures forall k :: k in r ==> exists i :: 0 <= i < |entries| && entries[i].0 == k
    decreases |entries|
  {
    if entries == [] then {}
    else
      var n := |entries| - 1;
      var r := KeysOf(entries[..n]) + {entries[n].0};
      assert forall i :: 0 <= i < n ==> entries[..n][i] == entries[i];
      r
  }

  /** The keys of `entries`, each once, in the order of their first occurrence. */
  function FirstOccurrences<K(==), V>(entries: seq<(K, V)>): seq<K>
    decreases |entries|
  {
    if entries == [] then []
    else
      var n := |entries| - 1;
      var init := FirstOccurrences(entries[..n]);
      if entries[n].0 in KeysOf(entries[..n]) then init else init + [entries[n].0]
  }

  /** After a series of puts, exactly the keys put are mapped. */
  lemma {:induction false} PutAllDomain<K(!new), V>(m: LinkedMap<K, V>, entries: seq<(K, V)>)
    requires m.Valid()
    ensures PutAll(m, entries).values.Keys == m.values.Keys + KeysOf(entries)
    decreases |entries|
  {
    if entries != [] {
      PutAllDomain(m, entries[..|entries| - 1]);
    }
  }

  /**
   * Puts into an empty LinkedHashMap list every key put, each once, in the order in which it
   * was first put.
   */
  lemma {:induction false} PutAllOrder<K(!new), V>(entries: seq<(K, V)>)
    ensures PutAll(Empty(), entries).keys == FirstOccurrences(entries)
    decreases |entries|
  {
    if entries != [] {
      var init := entries[..|entries| - 1];
      PutAllOrder(init);
      PutAllDomain(Empty(), init);
    }
  }

  /** After a series of puts, each key holds the value of the last put of that key. */
  lemma {:induction false} PutAllLastWins<K(!new), V>(m: LinkedMap<K, V>, entries: seq<(K, V)>, i: nat)
    requires m.Valid()
    requires i < |entries|
    requires forall j :: i < j < |entries| ==> entries[j].0 != entries[i].0
    ensures entries[i].0 in PutAll(m, entries).values
    ensures PutAll(m, entries).values[entries[i].0] == entries[i].1
    decreases |entries|
  {
    var n := |entries| - 1;
    if i < n {
      var init := entries[..n];
      assert init[i] == entries[i];
      PutAllLastWins(m, init, i);
    }
  }
}
