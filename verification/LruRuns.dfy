/**
 Runs of the LRU cache, without expiry.
 */
module LruRuns {
  import opened Wrappers
  import opened LruCache

  datatype Op<+K, +V> = InsertOp(key: K, value: V) | FindOp(key: K) | EraseOp(key: K)

  function Step<K(==), V>(s: seq<Entry<K, V>>, op: Op<K, V>, max: nat): (r: seq<Entry<K, V>>) {
    match op
    case InsertOp(k, v) => Inserted(s, Entry(k, v, 0), max)
    case FindOp(k) => Found(s, k, false, 0)
    case EraseOp(k) => Without(s, k)
  }

  function Run<K(==), V>(s: seq<Entry<K, V>>, ops: seq<Op<K, V>>, max: nat): (r: seq<Entry<K, V>>) {
    if ops == [] then s else Step(Run(s, ops[..|ops| - 1], max), ops[|ops| - 1], max)
  }

  // What one operation makes of the map.
  function PlainStep<K, V>(m: map<K, V>, op: Op<K, V>): (r: map<K, V>) {
    match op
    case InsertOp(k, v) => m[k := v]
    case FindOp(_) => m
    case EraseOp(k) => m - {k}
  }

  // What an unbounded map holds after the same operations.
  function Plain<K, V>(ops: seq<Op<K, V>>): (m: map<K, V>) {
    if ops == [] then map[] else PlainStep(Plain(ops[..|ops| - 1]), ops[|ops| - 1])
  }

  // ---- Lookups after each primitive ----

  lemma {:induction false} LookupWithout<K, V>(s: seq<Entry<K, V>>, k: K, j: K)
    ensures Lookup(Without(s, k), j) == if j == k then None else Lookup(s, j)
  {
    if s != [] {
      LookupWithout(s[1..], k, j);
    }
  }

  lemma LookupPushed<K, V>(s: seq<Entry<K, V>>, e: Entry<K, V>, j: K)
    ensures Lookup([e] + s, j) == if j == e.key then Some(e) else Lookup(s, j)
  {
    assert ([e] + s)[1..] == s;
  }

  lemma {:induction false} LookupFront<K, V>(s: seq<Entry<K, V>>, n: nat, j: K)
    ensures Lookup(Front(s, n), j).Some? ==> Lookup(Front(s, n), j) == Lookup(s, j)
  {
    if |s| > n > 0 {
      LookupFront(s[1..], n - 1, j);
      assert s[..n][1..] == s[1..][..n - 1];
    }
  }

  // ---- Every hit is current ----

  // Whatever is found in the cache is what the last insert of that key stored.
  lemma {:induction false} HitsAreCurrent<K, V>(ops: seq<Op<K, V>>, max: nat, k: K)
    ensures var v := FoundValue(Run([], ops, max), k, false, 0);
            v.Some? ==> k in Plain(ops) && Plain(ops)[k] == v.value
  {
    if ops != [] {
      var n := |ops| - 1;
      var s, op := Run([], ops[..n], max), ops[n];
      HitsAreCurrent(ops[..n], max, k);
      LookupWithout(s, op.key, k);
      if op.InsertOp? {
        var e := Entry(op.key, op.value, 0);
        LookupPushed(Without(s, op.key), e, k);
        LookupFront([e] + Without(s, op.key), max, k);
      } else if op.FindOp? && Lookup(s, op.key).Some? {
        LookupPushed(Without(s, op.key), Lookup(s, op.key).value, k);
      }
    }
  }

  // ---- Nothing is lost while the live keys fit ----

  // No key is listed twice.
  ghost predicate Unique<K, V>(s: seq<Entry<K, V>>) {
    forall i, j :: 0 <= i < j < |s| ==> s[i].key != s[j].key
  }

  // No key twice, and every key from the given set.
  ghost predicate KeysFrom<K, V>(s: seq<Entry<K, V>>, ks: set<K>) {
    && Unique(s)
    && (forall i :: 0 <= i < |s| ==> s[i].key in ks)
  }

  lemma {:induction false} AtMostKeys<K, V>(s: seq<Entry<K, V>>, ks: set<K>)
    requires KeysFrom(s, ks)
    ensures |s| <= |ks|
  {
    if s != [] {
      var n := |s| - 1;
      AtMostKeys(s[..n], ks - {s[n].key});
    }
  }

  lemma {:induction false} KeysWithout<K, V>(s: seq<Entry<K, V>>, ks: set<K>, k: K)
    requires KeysFrom(s, ks)
    ensures KeysFrom(Without(s, k), ks - {k})
  {
    if s != [] {
      var x := s[0].key;
      assert KeysFrom(s[1..], ks - {x});
      KeysWithout(s[1..], ks - {x}, k);
    }
  }

  lemma KeysPushed<K, V>(s: seq<Entry<K, V>>, ks: set<K>, e: Entry<K, V>)
    requires KeysFrom(s, ks) && e.key !in ks
    ensures KeysFrom([e] + s, ks + {e.key})
  {
  }

  lemma KeysStep<K, V>(s: seq<Entry<K, V>>, ks: set<K>, op: Op<K, V>, max: nat)
    requires KeysFrom(s, ks)
    ensures KeysFrom(Step(s, op, max), if op.InsertOp? then ks + {op.key} else ks)
  {
    KeysWithout(s, ks, op.key);
    if op.InsertOp? {
      KeysPushed(Without(s, op.key), ks - {op.key}, Entry(op.key, op.value, 0));
      assert ks - {op.key} + {op.key} == ks + {op.key};
    } else if op.FindOp? && Lookup(s, op.key).Some? {
      KeysPushed(Without(s, op.key), ks - {op.key}, Lookup(s, op.key).value);
    }
  }

  // A find returns what the map holds.
  ghost predicate LooksLike<K(!new), V>(s: seq<Entry<K, V>>, m: map<K, V>) {
    forall k :: FoundValue(s, k, false, 0) == if k in m then Some(m[k]) else None
  }

  // The cache holds the entries of the map, once each.
  ghost predicate IsMap<K(!new), V>(s: seq<Entry<K, V>>, m: map<K, V>) {
    KeysFrom(s, m.Keys) && LooksLike(s, m)
  }

  ghost predicate Fits<K, V>(ops: seq<Op<K, V>>, max: nat) {
    forall n :: 0 <= n <= |ops| ==> |Plain(ops[..n])| <= max
  }

  ghost predicate PlainSoFar<K(!new), V>(ops: seq<Op<K, V>>, max: nat) {
    forall n :: 0 <= n <= |ops| ==> LooksLike(Run([], ops[..n], max), Plain(ops[..n]))
  }

  lemma ErasedIsMap<K(!new), V>(s: seq<Entry<K, V>>, m: map<K, V>, k: K)
    requires IsMap(s, m)
    ensures IsMap(Without(s, k), m - {k})
  {
    KeysWithout(s, m.Keys, k);
    assert (m - {k}).Keys == m.Keys - {k};
    forall j
      ensures Lookup(Without(s, k), j) == if j == k then None else Lookup(s, j)
    {
      LookupWithout(s, k, j);
    }
  }

  lemma PushedIsMap<K(!new), V>(s: seq<Entry<K, V>>, m: map<K, V>, e: Entry<K, V>)
    requires IsMap(s, m) && e.key !in m
    ensures IsMap([e] + s, m[e.key := e.value])
  {
    KeysPushed(s, m.Keys, e);
    assert m[e.key := e.value].Keys == m.Keys + {e.key};
    forall j
      ensures Lookup([e] + s, j) == if j == e.key then Some(e) else Lookup(s, j)
    {
      LookupPushed(s, e, j);
    }
  }

  // Taking out an entry and pushing one with the same key replaces the value.
  lemma MovedIsMap<K(!new), V>(s: seq<Entry<K, V>>, m: map<K, V>, e: Entry<K, V>)
    requires IsMap(s, m)
    ensures IsMap([e] + Without(s, e.key), m[e.key := e.value])
  {
    ErasedIsMap(s, m, e.key);
    PushedIsMap(Without(s, e.key), m - {e.key}, e);
    assert (m - {e.key})[e.key := e.value] == m[e.key := e.value];
  }

  lemma FittingFront<K(!new), V>(s: seq<Entry<K, V>>, m: map<K, V>, max: nat)
    requires IsMap(s, m) && |m| <= max
    ensures Front(s, max) == s
  {
    AtMostKeys(s, m.Keys);
    assert |m.Keys| == |m|;
  }

  lemma FoundIsMap<K(!new), V>(s: seq<Entry<K, V>>, m: map<K, V>, k: K)
    requires IsMap(s, m)
    ensures IsMap(Found(s, k, false, 0), m)
  {
    if Lookup(s, k).Some? {
      MovedIsMap(s, m, Lookup(s, k).value);
      assert m[k := m[k]] == m;
    }
  }

  lemma FittingStep<K(!new), V>(s: seq<Entry<K, V>>, m: map<K, V>, op: Op<K, V>, max: nat)
    requires IsMap(s, m) && |PlainStep(m, op)| <= max
    ensures IsMap(Step(s, op, max), PlainStep(m, op))
  {
    match op
    case InsertOp(k, v) =>
      MovedIsMap(s, m, Entry(k, v, 0));
      FittingFront([Entry(k, v, 0)] + Without(s, k), m[k := v], max);
    case FindOp(k) => FoundIsMap(s, m, k);
    case EraseOp(k) => ErasedIsMap(s, m, k);
  }

  lemma RunNext<K, V>(s: seq<Entry<K, V>>, ops: seq<Op<K, V>>, n: nat, max: nat)
    requires 0 < n <= |ops|
    ensures Run(s, ops[..n], max) == Step(Run(s, ops[..n - 1], max), ops[n - 1], max)
    ensures Plain(ops[..n]) == PlainStep(Plain(ops[..n - 1]), ops[n - 1])
  {
    assert ops[..n][..n - 1] == ops[..n - 1];
  }

  // While the live keys fit, nothing is evicted: the cache is the map.
  lemma {:induction false} FitsMeansPlain<K(!new), V>(ops: seq<Op<K, V>>, max: nat, n: nat)
    requires Fits(ops, max) && n <= |ops|
    ensures IsMap(Run([], ops[..n], max), Plain(ops[..n]))
  {
    if n > 0 {
      FitsMeansPlain(ops, max, n - 1);
      RunNext([], ops, n, max);
      FittingStep(Run([], ops[..n - 1], max), Plain(ops[..n - 1]), ops[n - 1], max);
    }
  }

  // ---- And only then ----

  ghost function KeySet<K(!new), V>(s: seq<Entry<K, V>>): (ks: set<K>)
    ensures forall k :: k in ks <==> HasKey(s, k)
  {
    set i | 0 <= i < |s| :: s[i].key
  }

  lemma {:induction false} KeySetSize<K(!new), V>(s: seq<Entry<K, V>>)
    ensures |KeySet(s)| <= |s|
  {
    if s != [] {
      var n := |s| - 1;
      KeySetSize(s[..n]);
      assert KeySet(s) == KeySet(s[..n]) + {s[n].key};
    }
  }

  lemma {:induction false} WithoutShrinks<K, V>(s: seq<Entry<K, V>>, k: K)
    ensures |Without(s, k)| <= |s| && (HasKey(s, k) ==> |Without(s, k)| < |s|)
  {
    if s != [] {
      WithoutShrinks(s[1..], k);
      assert forall i :: 1 <= i < |s| ==> s[1..][i - 1] == s[i];
    }
  }

  lemma {:induction false} RunIsBounded<K, V>(s: seq<Entry<K, V>>, ops: seq<Op<K, V>>, n: nat, max: nat)
    requires n <= |ops| && |s| <= max
    ensures |Run(s, ops[..n], max)| <= max
  {
    if n > 0 {
      RunIsBounded(s, ops, n - 1, max);
      RunNext(s, ops, n, max);
      WithoutShrinks(Run(s, ops[..n - 1], max), ops[n - 1].key);
    }
  }

  lemma LooksLikeFits<K(!new), V>(s: seq<Entry<K, V>>, m: map<K, V>)
    requires LooksLike(s, m)
    ensures |m| <= |s|
  {
    assert m.Keys <= KeySet(s);
    SubsetSize(m.Keys, KeySet(s));
    KeySetSize(s);
  }

  // The cache is the map all along exactly if the live keys fit all along.
  lemma PlainIffFits<K(!new), V>(ops: seq<Op<K, V>>, max: nat)
    ensures PlainSoFar(ops, max) <==> Fits(ops, max)
  {
    forall n | 0 <= n <= |ops|
      ensures LooksLike(Run([], ops[..n], max), Plain(ops[..n])) ==> |Plain(ops[..n])| <= max
      ensures Fits(ops, max) ==> LooksLike(Run([], ops[..n], max), Plain(ops[..n]))
    {
      var some := ops[..n];
      RunIsBounded([], ops, n, max);
      if LooksLike(Run([], some, max), Plain(some)) {
        LooksLikeFits(Run([], some, max), Plain(some));
      }
      if Fits(ops, max) {
        FitsMeansPlain(ops, max, n);
      }
    }
  }

  lemma SubsetSize<T>(a: set<T>, b: set<T>)
    requires a <= b
    ensures |a| <= |b|
  {
    assert b == a + (b - a);
  }
}
