/** Maps whose entries accumulate: inserting under a present key adds to what is there. */
module Additive {
  import opened Outcomes

  function Find<K, V>(m: map<K, V>, k: K): (r: Option<V>) {
    if k in m then Some(m[k]) else None
  }

  /** The entry under k, or the default value when there is none. */
  function At<K, V>(m: map<K, V>, k: K, zero: V): (v: V) {
    if k in m then m[k] else zero
  }

  /** All entries of n added to m. */
  function Merge<K, V>(m: map<K, V>, n: map<K, V>, add: (V, V) -> V, zero: V): (r: map<K, V>)
    ensures r.Keys == m.Keys + n.Keys
    ensures forall k :: k in n ==> r[k] == add(At(m, k, zero), n[k])
    ensures forall k :: k in m && k !in n ==> r[k] == m[k]
  {
    map k | k in m.Keys + n.Keys :: if k in n then add(At(m, k, zero), n[k]) else m[k]
  }

  class AdditiveMap<K(==), V> {
    var entries: map<K, V>

    constructor (entries: map<K, V>)
      ensures this.entries == entries
    {
      this.entries := entries;
    }

    /** Adds to the entry under key, starting from the default when there is none. */
    method InsertAdd(key: K, valueToAdd: V, add: (V, V) -> V, zero: V)
      modifies this
      ensures entries == old(entries)[key := add(At(old(entries), key, zero), valueToAdd)]
    {
      var current := if key in entries then entries[key] else zero;
      entries := entries[key := add(current, valueToAdd)];
    }

    /** Adds every entry of n, in whatever order the map yields them. */
    method InsertAddAll(n: map<K, V>, add: (V, V) -> V, zero: V)
      modifies this
      ensures entries == Merge(old(entries), n, add, zero)
    {
      ghost var m := entries;
      var todo := n.Keys;
      while todo != {}
        invariant todo <= n.Keys && entries.Keys == m.Keys + (n.Keys - todo)
        invariant forall k :: k in m && (k !in n || k in todo) ==> entries[k] == m[k]
        invariant forall k :: k in n && k !in todo ==> entries[k] == add(At(m, k, zero), n[k])
        decreases todo
      {
        var key :| key in todo;
        InsertAdd(key, n[key], add, zero);
        todo := todo - {key};
      }
      assert entries == Merge(m, n, add, zero);
    }
  }
}
