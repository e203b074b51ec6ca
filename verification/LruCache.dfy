/**
 The LRU cache: a recency list and a map into its nodes.

 The specification is the recency list alone, most recently used entry first.
 */
module LruCache {
  import opened Wrappers
  import opened Sequences

  datatype Entry<+K, +V> = Entry(key: K, value: V, expires: int)

  // ---- The recency list ----

  predicate HasKey<K(==), V>(s: seq<Entry<K, V>>, k: K) {
    exists i :: 0 <= i < |s| && s[i].key == k
  }

  function Without<K(==), V>(s: seq<Entry<K, V>>, k: K): (r: seq<Entry<K, V>>) {
    if s == [] then [] else if s[0].key == k then Without(s[1..], k) else [s[0]] + Without(s[1..], k)
  }

  function Lookup<K(==), V>(s: seq<Entry<K, V>>, k: K): (e: Option<Entry<K, V>>)
    ensures e.Some? <==> HasKey(s, k)
    ensures e.Some? ==> e.value in s && e.value.key == k
  {
    if s == [] then None else if s[0].key == k then Some(s[0]) else Lookup(s[1..], k)
  }

  function Front<T>(s: seq<T>, n: nat): (r: seq<T>) {
    if |s| <= n then s else s[..n]
  }

  // Inserting makes the entry the most recent and drops what no longer fits.
  function Inserted<K(==), V>(s: seq<Entry<K, V>>, e: Entry<K, V>, max: nat): (r: seq<Entry<K, V>>) {
    Front([e] + Without(s, e.key), max)
  }

  // Finding drops an expired entry and makes any other the most recent.
  function Found<K(==), V>(s: seq<Entry<K, V>>, k: K, expire: bool, now: int): (r: seq<Entry<K, V>>) {
    match Lookup(s, k)
    case None => s
    case Some(e) => if expire && e.expires < now then Without(s, k) else [e] + Without(s, k)
  }

  function FoundValue<K(==), V>(s: seq<Entry<K, V>>, k: K, expire: bool, now: int): (v: Option<V>) {
    match Lookup(s, k)
    case None => None
    case Some(e) => if expire && e.expires < now then None else Some(e.value)
  }

  // When an entry that is inserted now expires.
  function Stamp(expire: bool, lifetime: nat, now: int): (time: int) {
    if expire then now + lifetime else 0
  }

  // ---- The cache object ----

  class ListNode<K, V> {
    const entry: Entry<K, V>

    constructor (entry: Entry<K, V>)
      ensures this.entry == entry
    {
      this.entry := entry;
    }
  }

  ghost function Entries<K, V>(list: seq<ListNode<K, V>>): (s: seq<Entry<K, V>>)
    ensures |s| == |list| && forall i :: 0 <= i < |list| ==> s[i] == list[i].entry
  {
    if list == [] then [] else [list[0].entry] + Entries(list[1..])
  }

  lemma EntriesPrefix<K, V>(list: seq<ListNode<K, V>>, n: nat)
    requires n <= |list|
    ensures Entries(list[..n]) == Entries(list)[..n]
  {
  }

  // Taking one node, known by its identity, out of a list.
  function Unlinked<K, V>(list: seq<ListNode<K, V>>, x: ListNode<K, V>): (r: seq<ListNode<K, V>>)
    ensures forall y :: y in r ==> y in list
    ensures |r| <= |list|
  {
    if list == [] then [] else if list[0] == x then Unlinked(list[1..], x) else [list[0]] + Unlinked(list[1..], x)
  }

  // Every map entry points to the one list node with its key.
  ghost predicate Linked<K, V>(list: seq<ListNode<K, V>>, index: map<K, ListNode<K, V>>) {
    && (forall k :: k in index ==> index[k] in list && index[k].entry.key == k)
    && (forall i :: 0 <= i < |list| ==> list[i].entry.key in index && index[list[i].entry.key] == list[i])
    && Distinct(list)
  }

  lemma {:induction false} UnlinkedEntries<K, V>(list: seq<ListNode<K, V>>, x: ListNode<K, V>)
    requires forall i :: 0 <= i < |list| && list[i].entry.key == x.entry.key ==> list[i] == x
    ensures Entries(Unlinked(list, x)) == Without(Entries(list), x.entry.key)
  {
    if list != [] {
      UnlinkedEntries(list[1..], x);
      assert Entries(list)[1..] == Entries(list[1..]);
    }
  }

  lemma {:induction false} UnlinkedKeeps<K, V>(list: seq<ListNode<K, V>>, x: ListNode<K, V>)
    requires Distinct(list)
    ensures var r := Unlinked(list, x);
            && x !in r
            && (forall y :: y in list && y != x ==> y in r)
            && Distinct(r)
  {
    if list != [] {
      UnlinkedKeeps(list[1..], x);
      assert list[0] !in list[1..];
      var r, t := Unlinked(list, x), Unlinked(list[1..], x);
      assert list[0] !in t;
    }
  }

  lemma UnlinkedLinked<K, V>(list: seq<ListNode<K, V>>, index: map<K, ListNode<K, V>>, k: K)
    requires Linked(list, index) && k in index
    ensures Linked(Unlinked(list, index[k]), index - {k})
    ensures Entries(Unlinked(list, index[k])) == Without(Entries(list), k)
  {
    var x := index[k];
    var r := Unlinked(list, x);
    UnlinkedKeeps(list, x);
    UnlinkedEntries(list, x);
    forall i | 0 <= i < |r| ensures r[i].entry.key in index - {k} && index[r[i].entry.key] == r[i] {
      assert r[i] in list && r[i] != x;
    }
  }

  lemma PushedLinked<K, V>(list: seq<ListNode<K, V>>, index: map<K, ListNode<K, V>>, x: ListNode<K, V>)
    requires Linked(list, index) && x.entry.key !in index
    ensures Linked([x] + list, index[x.entry.key := x])
    ensures Entries([x] + list) == [x.entry] + Entries(list)
  {
    assert ([x] + list)[1..] == list;
  }

  lemma PoppedLinked<K, V>(list: seq<ListNode<K, V>>, index: map<K, ListNode<K, V>>)
    requires Linked(list, index) && list != []
    ensures Linked(list[..|list| - 1], index - {list[|list| - 1].entry.key})
  {
  }

  lemma {:induction false} SameSize<K, V>(list: seq<ListNode<K, V>>, index: map<K, ListNode<K, V>>)
    requires Linked(list, index)
    ensures |index| == |list|
  {
    if list == [] {
      assert index == map[];
    } else {
      var n := |list| - 1;
      var k := list[n].entry.key;
      PoppedLinked(list, index);
      SameSize(list[..n], index - {k});
      assert index.Keys == (index - {k}).Keys + {k};
    }
  }

  class SharedLruCache<K(==), V> {
    const maxSize: nat
    const expire: bool
    const lifetime: nat
    var list: seq<ListNode<K, V>>
    var index: map<K, ListNode<K, V>>

    ghost predicate Valid()
      reads this
    {
      Linked(list, index) && |list| <= maxSize
    }

    ghost function Contents(): (s: seq<Entry<K, V>>)
      reads this
    {
      Entries(list)
    }

    constructor (maxSize: nat, expire: bool, lifetime: nat)
      ensures Valid() && Contents() == []
      ensures this.maxSize == maxSize && this.expire == expire && this.lifetime == lifetime
    {
      this.maxSize, this.expire, this.lifetime := maxSize, expire, lifetime;
      list, index := [], map[];
    }

    method Insert(k: K, v: V, now: int)
      requires Valid()
      modifies this
      ensures Valid()
      ensures Contents() == Inserted(old(Contents()), Entry(k, v, Stamp(expire, lifetime, now)), maxSize)
    {
      var x := new ListNode(Entry(k, v, Stamp(expire, lifetime, now)));
      WithoutAbsent(Contents(), k);
      KnownKeys(list, index);
      var _ := Erase(k);
      PushedLinked(list, index, x);
      list, index := [x] + list, index[k := x];
      EvictOversize();
    }

    method PopBack()
      requires Linked(list, index) && list != []
      modifies this
      ensures Linked(list, index) && list == old(list)[..|old(list)| - 1] && |index| == |list|
    {
      PoppedLinked(list, index);
      var n := |list| - 1;
      list, index := list[..n], index - {list[n].entry.key};
      SameSize(list, index);
    }

    // Drops least recently used entries until the cache fits.
    method EvictOversize()
      requires Linked(list, index)
      modifies this
      ensures Valid() && Contents() == Front(old(Contents()), maxSize)
    {
      ghost var all := list;
      PopWhileOversize();
      EntriesPrefix(all, |list|);
    }

    method PopWhileOversize()
      requires Linked(list, index)
      modifies this
      ensures Linked(list, index) && |list| <= |old(list)| && list == old(list)[..|list|]
      ensures |list| == if |old(list)| > maxSize then maxSize else |old(list)|
    {
      SameSize(list, index);
      while |index| > maxSize
        invariant Linked(list, index) && |index| == |list| <= |old(list)|
        invariant list == old(list)[..|list|] && (|list| < |old(list)| ==> maxSize <= |list|)
      {
        PopBack();
      }
    }

    // The number of entries erased.
    method Erase(k: K) returns (n: nat)
      requires Valid()
      modifies this
      ensures Valid() && Contents() == Without(old(Contents()), k)
      ensures n == if HasKey(old(Contents()), k) then 1 else 0
      ensures k !in index
    {
      KnownKeys(list, index);
      WithoutAbsent(Contents(), k);
      if k !in index {
        return 0;
      }
      UnlinkedLinked(list, index, k);
      list, index := Unlinked(list, index[k]), index - {k};
      n := 1;
    }

    method Find(k: K, now: int) returns (v: Option<V>)
      requires Valid()
      modifies this
      ensures Valid()
      ensures v == FoundValue(old(Contents()), k, expire, now)
      ensures var e := Lookup(old(Contents()), k);
              v == if e.Some? && (!expire || now <= e.value.expires) then Some(e.value.value) else None
      ensures Contents() == Found(old(Contents()), k, expire, now)
    {
      KnownKeys(list, index);
      if k !in index {
        return None;
      }
      var x := index[k];
      LookupNode(list, index, k);
      if expire && x.entry.expires < now {
        var _ := Erase(k);
        return None;
      }
      MovedLinked(list, index, k);
      list := [x] + Unlinked(list, x);
      v := Some(x.entry.value);
    }
  }

  lemma KnownKeys<K, V>(list: seq<ListNode<K, V>>, index: map<K, ListNode<K, V>>)
    requires Linked(list, index)
    ensures forall k :: k in index <==> HasKey(Entries(list), k)
  {
    forall k ensures k in index <==> HasKey(Entries(list), k) {
      if k in index {
        var i :| 0 <= i < |list| && list[i] == index[k];
        assert Entries(list)[i].key == k;
      }
      if HasKey(Entries(list), k) {
        var i :| 0 <= i < |list| && Entries(list)[i].key == k;
        assert list[i].entry.key in index;
      }
    }
  }

  lemma {:induction false} LookupUnique<K, V>(s: seq<Entry<K, V>>, i: nat)
    requires i < |s| && forall j :: 0 <= j < |s| && s[j].key == s[i].key ==> s[j] == s[i]
    ensures Lookup(s, s[i].key) == Some(s[i])
  {
    if i > 0 {
      LookupUnique(s[1..], i - 1);
    }
  }

  lemma LookupNode<K, V>(list: seq<ListNode<K, V>>, index: map<K, ListNode<K, V>>, k: K)
    requires Linked(list, index) && k in index
    ensures Lookup(Entries(list), k) == Some(index[k].entry)
  {
    var i :| 0 <= i < |list| && list[i] == index[k];
    LookupUnique(Entries(list), i);
  }

  lemma {:induction false} UnlinkedShrinks<K, V>(list: seq<ListNode<K, V>>, x: ListNode<K, V>)
    requires x in list
    ensures |Unlinked(list, x)| < |list|
  {
    if list[0] != x {
      UnlinkedShrinks(list[1..], x);
    }
  }

  // Moving a node to the front keeps the map pointing to it.
  lemma MovedLinked<K, V>(list: seq<ListNode<K, V>>, index: map<K, ListNode<K, V>>, k: K)
    requires Linked(list, index) && k in index
    ensures var moved := [index[k]] + Unlinked(list, index[k]);
            && Linked(moved, index)
            && |moved| <= |list|
            && Entries(moved) == [index[k].entry] + Without(Entries(list), k)
  {
    var x := index[k];
    Restored(index, k);
    UnlinkedLinked(list, index, k);
    UnlinkedShrinks(list, x);
    PushedLinked(Unlinked(list, x), index - {k}, x);
  }

  lemma Restored<K, V>(m: map<K, V>, k: K)
    requires k in m
    ensures (m - {k})[k := m[k]] == m
  {
  }

  lemma {:induction false} WithoutAbsent<K, V>(s: seq<Entry<K, V>>, k: K)
    ensures !HasKey(s, k) ==> Without(s, k) == s
    ensures !HasKey(Without(s, k), k)
    ensures forall e :: e in Without(s, k) <==> e in s && e.key != k
  {
    if s != [] {
      WithoutAbsent(s[1..], k);
      assert HasKey(s, k) <== HasKey(s[1..], k) by {
        if HasKey(s[1..], k) {
          var i :| 0 <= i < |s| - 1 && s[1..][i].key == k;
          assert s[i + 1].key == k;
        }
      }
    }
  }
}
