/**
 The index: a multimap that lists, for a key, the distinct values filed under it, at most a
 given number of them.
 */
module KeyIndex {
  import opened Sequences
  // The values filed under a key, in the order in which they were added.
  function Entries<K, V>(m: map<K, seq<V>>, key: K): (r: seq<V>) {
    if key in m then m[key] else []
  }

  // A positive cap limits the number of values of a key.
  predicate Full(n: nat, cap: int) {
    cap > 0 && n >= cap
  }

  function Appended<V(==)>(entries: seq<V>, x: V, cap: int): (r: seq<V>) {
    if x in entries || Full(|entries|, cap) then entries else entries + [x]
  }

  function Filed<K, V(==)>(m: map<K, seq<V>>, key: K, x: V, cap: int): (r: map<K, seq<V>>) {
    if x in Entries(m, key) || Full(|Entries(m, key)|, cap) then m else m[key := Entries(m, key) + [x]]
  }

  lemma FiledEntries<K, V>(m: map<K, seq<V>>, key: K, x: V, cap: int, k: K)
    ensures Entries(Filed(m, key, x, cap), k) == if k == key then Appended(Entries(m, k), x, cap) else Entries(m, k)
  {
  }

  // No value twice under one key, and no more values than the cap allows.
  ghost predicate Proper<K, V>(m: map<K, seq<V>>, cap: int) {
    forall k :: k in m ==> Distinct(m[k]) && (cap > 0 ==> |m[k]| <= cap)
  }

  lemma FiledIsProper<K, V>(m: map<K, seq<V>>, key: K, x: V, cap: int)
    requires Proper(m, cap)
    ensures Proper(Filed(m, key, x, cap), cap)
  {
  }

  function Unfiled<K, V(==)>(m: map<K, seq<V>>, key: K, x: V): (r: map<K, seq<V>>) {
    if x in Entries(m, key) then m[key := Dropping(m[key], x)] else m
  }

  // Without a cap the index is a relation: filing adds one pair to it and taking out removes
  // exactly that pair, whatever else it holds.
  lemma FilingIsARelation<K, V>(m: map<K, seq<V>>, key: K, x: V, cap: int, k: K, y: V)
    requires Proper(m, cap)
    ensures cap <= 0 ==> (y in Entries(Filed(m, key, x, cap), k) <==> y in Entries(m, k) || (k, y) == (key, x))
    ensures y in Entries(Unfiled(m, key, x), k) <==> y in Entries(m, k) && (k, y) != (key, x)
    ensures Proper(Filed(m, key, x, cap), cap) && Proper(Unfiled(m, key, x), cap)
  {
    FiledIsProper(m, key, x, cap);
    DroppingDistinct(Entries(m, key), x);
  }

  // ---- The object ----

  class Index<K(==), V(==)> {
    var index: map<K, seq<V>>
    const maxItems: int

    ghost predicate Valid()
      reads this
    {
      Proper(index, maxItems)
    }

    constructor (maxItems: int)
      ensures Valid() && index == map[] && this.maxItems == maxItems
    {
      this.maxItems := maxItems;
      index := map[];
    }

    method Clear()
      modifies this
      ensures Valid() && index == map[]
    {
      index := map[];
    }

    // Copies the values of a key into a new list.
    method Retrieve(key: K) returns (result: seq<V>)
      requires Valid()
      ensures result == Entries(index, key) && Distinct(result)
    {
      result := [];
      var entries := Entries(index, key);
      for i := 0 to |entries|
        invariant result == entries[..i]
      {
        result := result + [entries[i]];
      }
    }

    // Files a value under a key; fails when the key is to be unique and is already in use.
    method AddKeyValueToIndex(key: K, candidate: V, uniqueKey: bool) returns (ok: bool)
      requires Valid()
      modifies this
      ensures Valid()
      ensures ok ==> index == Filed(old(index), key, candidate, maxItems)
      ensures !ok ==> index == old(index)
      ensures !ok <==>
                && uniqueKey && key in old(index) && old(index)[key] != []
                && Filed(old(index), key, candidate, maxItems) != old(index)
    {
      FiledIsProper(index, key, candidate, maxItems);
      var entries := Entries(index, key);
      var count := 0;
      for i := 0 to |entries|
        invariant count == i && candidate !in entries[..i] && (i > 0 ==> !Full(i, maxItems))
      {
        if entries[i] == candidate {
          return true;
        }
        count := count + 1;
        if maxItems > 0 && count >= maxItems {
          return true;
        }
      }
      if uniqueKey && entries != [] {
        return false;
      }
      assert entries[..|entries|] == entries;
      index := index[key := entries + [candidate]];
      ok := true;
    }

    // Takes one value out from under a key.
    method RemoveKeyValueFromIndex(key: K, candidate: V)
      requires Valid()
      modifies this
      ensures Valid() && index == Unfiled(old(index), key, candidate)
    {
      var entries := Entries(index, key);
      for i := 0 to |entries|
        invariant candidate !in entries[..i]
      {
        if entries[i] == candidate {
          DroppingAt(entries, i);
          DroppingDistinct(entries, candidate);
          index := index[key := entries[..i] + entries[i + 1..]];
          return;
        }
      }
      assert entries[..|entries|] == entries;
    }
  }
}
