/**
 When the LRU cache evicts a key: exactly when as many other keys as it holds have been used
 since, and not erased again.
 */
module LruRecency {
  import opened LruCache
  import opened LruRuns

  // ---- Splitting a list at a key ----

  // The key k is listed, and the keys before it are ks.
  ghost predicate Behind<K(!new), V>(s: seq<Entry<K, V>>, k: K, ks: set<K>) {
    Unique(s) && |ks| < |s| && s[|ks|].key == k && KeySet(s[..|ks|]) == ks
  }

  lemma {:induction false} UniqueSize<K(!new), V>(s: seq<Entry<K, V>>)
    requires Unique(s)
    ensures |KeySet(s)| == |s|
  {
    if s != [] {
      var n := |s| - 1;
      UniqueSize(s[..n]);
      assert KeySet(s) == KeySet(s[..n]) + {s[n].key};
    }
  }

  lemma {:induction false} WithoutConcat<K, V>(a: seq<Entry<K, V>>, b: seq<Entry<K, V>>, j: K)
    ensures Without(a + b, j) == Without(a, j) + Without(b, j)
  {
    if a == [] {
      assert a + b == b;
    } else {
      assert (a + b)[1..] == a[1..] + b;
      WithoutConcat(a[1..], b, j);
    }
  }

  lemma WithoutUnique<K(!new), V>(s: seq<Entry<K, V>>, j: K)
    requires Unique(s)
    ensures Unique(Without(s, j)) && KeySet(Without(s, j)) == KeySet(s) - {j}
  {
    KeysWithout(s, KeySet(s), j);
    WithoutAbsent(s, j);
    forall k | k in KeySet(s) && k != j
      ensures k in KeySet(Without(s, j))
    {
      var i :| 0 <= i < |s| && s[i].key == k;
      assert s[i] in Without(s, j);
    }
  }

  lemma BehindParts<K(!new), V>(a: seq<Entry<K, V>>, e: Entry<K, V>, b: seq<Entry<K, V>>)
    requires Unique(a + [e] + b)
    ensures Behind(a + [e] + b, e.key, KeySet(a))
  {
    var s := a + [e] + b;
    assert forall i :: 0 <= i < |a| ==> s[i] == a[i];
    UniqueSize(a);
    assert s[..|a|] == a;
  }

  lemma ErasedBehind<K(!new), V>(s: seq<Entry<K, V>>, k: K, ks: set<K>, j: K)
    requires Behind(s, k, ks) && j != k
    ensures Behind(Without(s, j), k, ks - {j})
  {
    var p := |ks|;
    var a, e, b := s[..p], s[p], s[p + 1..];
    assert s == a + [e] + b;
    WithoutConcat(a + [e], b, j);
    WithoutConcat(a, [e], j);
    assert Without([e], j) == [e];
    WithoutUnique(s, j);
    WithoutUnique(a, j);
    BehindParts(Without(a, j), e, Without(b, j));
  }

  lemma KeySetPushed<K(!new), V>(a: seq<Entry<K, V>>, e: Entry<K, V>)
    ensures KeySet([e] + a) == KeySet(a) + {e.key}
  {
    var s := [e] + a;
    assert s[0] == e && forall i :: 0 < i < |s| ==> s[i] == a[i - 1];
    assert forall i :: 0 <= i < |a| ==> s[i + 1] == a[i];
  }

  lemma UniquePushed<K, V>(s: seq<Entry<K, V>>, e: Entry<K, V>)
    requires Unique(s) && !HasKey(s, e.key)
    ensures Unique([e] + s)
  {
  }

  lemma PushedBehind<K(!new), V>(s: seq<Entry<K, V>>, k: K, ks: set<K>, e: Entry<K, V>)
    requires Behind(s, k, ks) && !HasKey(s, e.key)
    ensures Behind([e] + s, k, ks + {e.key})
  {
    var a, b := s[..|ks|], s[|ks| + 1..];
    UniquePushed(s, e);
    assert [e] + s == ([e] + a) + [s[|ks|]] + b;
    BehindParts([e] + a, s[|ks|], b);
    KeySetPushed(a, e);
  }

  lemma MovedBehind<K(!new), V>(s: seq<Entry<K, V>>, k: K, ks: set<K>, e: Entry<K, V>)
    requires Behind(s, k, ks) && e.key != k
    ensures Behind([e] + Without(s, e.key), k, ks + {e.key})
  {
    ErasedBehind(s, k, ks, e.key);
    WithoutAbsent(s, e.key);
    PushedBehind(Without(s, e.key), k, ks - {e.key}, e);
    assert ks - {e.key} + {e.key} == ks + {e.key};
  }

  // The key itself, used again, is in front of all others.
  lemma UsedAgain<K(!new), V>(s: seq<Entry<K, V>>, e: Entry<K, V>)
    requires Unique(s)
    ensures Behind([e] + Without(s, e.key), e.key, {})
  {
    WithoutUnique(s, e.key);
    WithoutAbsent(s, e.key);
    UniquePushed(Without(s, e.key), e);
    assert ([e] + Without(s, e.key))[..0] == [];
  }

  // A key with fewer than max keys before it survives a cut to max, any other does not.
  lemma CutBehind<K(!new), V>(s: seq<Entry<K, V>>, k: K, ks: set<K>, max: nat)
    requires Behind(s, k, ks)
    ensures |ks| < max ==> Behind(Front(s, max), k, ks)
    ensures |ks| >= max ==> !HasKey(Front(s, max), k)
  {
    if max < |s| && |ks| < max {
      assert s[..max][..|ks|] == s[..|ks|];
    }
  }

  // ---- The keys used since ----

  // Whether an operation uses its key: an insertion, or a lookup that hits.
  ghost predicate Uses<K, V>(s: seq<Entry<K, V>>, op: Op<K, V>) {
    op.InsertOp? || (op.FindOp? && HasKey(s, op.key))
  }

  // The other keys used since k was last used, and not erased again, after the first n
  // operations on a cache with k in front.
  ghost function Ahead<K(!new), V>(s: seq<Entry<K, V>>, ops: seq<Op<K, V>>, n: nat, max: nat, k: K): (ks: set<K>)
    requires n <= |ops|
  {
    if n == 0 then {}
    else
      var ks, op := Ahead(s, ops, n - 1, max, k), ops[n - 1];
      if Uses(Run(s, ops[..n - 1], max), op) then
        if op.key == k then {} else ks + {op.key}
      else if op.EraseOp? then ks - {op.key}
      else ks
  }

  ghost predicate AlwaysRecent<K(!new), V>(s: seq<Entry<K, V>>, ops: seq<Op<K, V>>, n: nat, max: nat, k: K)
    requires n <= |ops|
  {
    forall i :: 0 <= i <= n ==> |Ahead(s, ops, i, max, k)| < max
  }

  // One operation on a cache that still holds k.
  lemma StepBehind<K(!new), V>(s: seq<Entry<K, V>>, k: K, ks: set<K>, op: Op<K, V>, max: nat, js: set<K>)
    requires Behind(s, k, ks) && op != EraseOp(k) && |s| <= max
    requires js == if Uses(s, op) then (if op.key == k then {} else ks + {op.key})
                   else if op.EraseOp? then ks - {op.key} else ks
    ensures |js| < max ==> Behind(Step(s, op, max), k, js)
    ensures |js| >= max ==> !HasKey(Step(s, op, max), k)
  {
    match op
    case InsertOp(j, v) =>
      var e := Entry(j, v, 0);
      if j == k {
        UsedAgain(s, e);
      } else {
        MovedBehind(s, k, ks, e);
      }
      CutBehind([e] + Without(s, j), k, js, max);
    case FindOp(j) => FoundBehind(s, k, ks, j);
    case EraseOp(j) => ErasedBehind(s, k, ks, j);
  }

  lemma FoundBehind<K(!new), V>(s: seq<Entry<K, V>>, k: K, ks: set<K>, j: K)
    requires Behind(s, k, ks)
    ensures Behind(Found(s, j, false, 0), k, if !HasKey(s, j) then ks else if j == k then {} else ks + {j})
    ensures |Found(s, j, false, 0)| <= |s|
  {
    WithoutShrinks(s, j);
    if HasKey(s, j) {
      var e := Lookup(s, j).value;
      if j == k {
        UsedAgain(s, e);
      } else {
        MovedBehind(s, k, ks, e);
      }
    }
  }

  // Nothing but an insertion of k brings it back.
  lemma StaysGone<K(!new), V>(s: seq<Entry<K, V>>, k: K, op: Op<K, V>, max: nat)
    requires !HasKey(s, k) && !(op.InsertOp? && op.key == k)
    ensures !HasKey(Step(s, op, max), k)
  {
    LookupWithout(s, op.key, k);
    match op
    case InsertOp(j, v) =>
      LookupPushed(Without(s, j), Entry(j, v, 0), k);
      LookupFront([Entry(j, v, 0)] + Without(s, j), max, k);
    case FindOp(j) =>
      if Lookup(s, j).Some? {
        LookupPushed(Without(s, j), Lookup(s, j).value, k);
      }
    case EraseOp(_) =>
  }

  // A key in front of the cache stays, unless erased, while fewer than max other keys have
  // been used since and not erased again: they are then exactly the keys before it.
  lemma {:induction false} KeptWhileRecent<K(!new), V>(s: seq<Entry<K, V>>, ops: seq<Op<K, V>>, n: nat, max: nat, k: K)
    requires s != [] && s[0].key == k && Unique(s) && |s| <= max
    requires n <= |ops| && EraseOp(k) !in ops && AlwaysRecent(s, ops, n, max, k)
    ensures Behind(Run(s, ops[..n], max), k, Ahead(s, ops, n, max, k))
  {
    if n == 0 {
      assert ops[..0] == [] && s[..0] == [];
    } else {
      KeptWhileRecent(s, ops, n - 1, max, k);
      RunIsBounded(s, ops, n - 1, max);
      RunNext(s, ops, n, max);
      StepBehind(Run(s, ops[..n - 1], max), k, Ahead(s, ops, n - 1, max, k), ops[n - 1], max, Ahead(s, ops, n, max, k));
    }
  }

  // It is gone from then on, unless inserted again.
  lemma {:induction false} GoneAfterwards<K(!new), V>(s: seq<Entry<K, V>>, ops: seq<Op<K, V>>, n: nat, max: nat, k: K)
    requires s != [] && s[0].key == k && Unique(s) && |s| <= max
    requires n <= |ops| && EraseOp(k) !in ops && !AlwaysRecent(s, ops, n, max, k)
    requires forall i :: 0 <= i < |ops| ==> !(ops[i].InsertOp? && ops[i].key == k)
    ensures !HasKey(Run(s, ops[..n], max), k)
  {
    if n > 0 {
      RunNext(s, ops, n, max);
      if AlwaysRecent(s, ops, n - 1, max, k) {
        PushedOut(s, ops, n, max, k);
      } else {
        GoneAfterwards(s, ops, n - 1, max, k);
        StaysGone(Run(s, ops[..n - 1], max), k, ops[n - 1], max);
      }
    }
  }

  lemma PushedOut<K(!new), V>(s: seq<Entry<K, V>>, ops: seq<Op<K, V>>, n: nat, max: nat, k: K)
    requires s != [] && s[0].key == k && Unique(s) && |s| <= max
    requires 0 < n <= |ops| && EraseOp(k) !in ops && AlwaysRecent(s, ops, n - 1, max, k)
             && !AlwaysRecent(s, ops, n, max, k)
    ensures !HasKey(Step(Run(s, ops[..n - 1], max), ops[n - 1], max), k)
  {
    KeptWhileRecent(s, ops, n - 1, max, k);
    RunIsBounded(s, ops, n - 1, max);
    StepBehind(Run(s, ops[..n - 1], max), k, Ahead(s, ops, n - 1, max, k), ops[n - 1], max, Ahead(s, ops, n, max, k));
  }

  // So a key that is not inserted again or erased is still there exactly if that never
  // happened.
  lemma KeptIffRecent<K(!new), V>(s: seq<Entry<K, V>>, ops: seq<Op<K, V>>, max: nat, k: K)
    requires s != [] && s[0].key == k && Unique(s) && |s| <= max
    requires forall i :: 0 <= i < |ops| && ops[i].key == k ==> ops[i].FindOp?
    ensures HasKey(Run(s, ops, max), k) <==> AlwaysRecent(s, ops, |ops|, max, k)
  {
    assert ops[..|ops|] == ops;
    if AlwaysRecent(s, ops, |ops|, max, k) {
      KeptWhileRecent(s, ops, |ops|, max, k);
    } else {
      GoneAfterwards(s, ops, |ops|, max, k);
    }
  }
}
