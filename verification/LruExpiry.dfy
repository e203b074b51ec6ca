/**
 Runs of the LRU cache with times: what a find returns, with or without expiry.
 */
module LruExpiry {
  import opened Wrappers
  import opened LruCache
  import opened LruRuns

  datatype Policy = Policy(max: nat, expire: bool, lifetime: nat)

  // An operation and the time it is called.
  datatype Timed<+K, +V> = Timed(now: int, op: Op<K, V>)

  function TimedStep<K(==), V>(s: seq<Entry<K, V>>, o: Timed<K, V>, p: Policy): (r: seq<Entry<K, V>>) {
    match o.op
    case InsertOp(k, v) => Inserted(s, Entry(k, v, Stamp(p.expire, p.lifetime, o.now)), p.max)
    case FindOp(k) => Found(s, k, p.expire, o.now)
    case EraseOp(k) => Without(s, k)
  }

  function TimedRun<K(==), V>(ops: seq<Timed<K, V>>, p: Policy): (s: seq<Entry<K, V>>) {
    if ops == [] then [] else TimedStep(TimedRun(ops[..|ops| - 1], p), ops[|ops| - 1], p)
  }

  // The last insertion of a key, unless it was erased after it.
  function LastInsert<K(==), V>(ops: seq<Timed<K, V>>, k: K): (o: Option<(int, V)>) {
    if ops == [] then None
    else
      var n := |ops| - 1;
      match ops[n].op
      case InsertOp(j, v) => if j == k then Some((ops[n].now, v)) else LastInsert(ops[..n], k)
      case EraseOp(j) => if j == k then None else LastInsert(ops[..n], k)
      case FindOp(_) => LastInsert(ops[..n], k)
  }

  // ---- One operation ----

  // A find that returns nothing leaves nothing of the key; any other changes no entry.
  lemma FoundDrops<K, V>(s: seq<Entry<K, V>>, k: K, expire: bool, now: int, j: K)
    ensures Lookup(Found(s, k, expire, now), j) ==
              if j == k && FoundValue(s, k, expire, now).None? then None else Lookup(s, j)
    ensures FoundValue(s, k, expire, now).Some? ==> Found(s, k, expire, now)[0].key == k
  {
    LookupWithout(s, k, j);
    if Lookup(s, k).Some? {
      LookupPushed(Without(s, k), Lookup(s, k).value, j);
    }
  }

  lemma InsertedReads<K, V>(s: seq<Entry<K, V>>, e: Entry<K, V>, max: nat, j: K)
    ensures var r := Lookup(Inserted(s, e, max), j);
            r.Some? ==> r == if j == e.key then Some(e) else Lookup(s, j)
  {
    LookupWithout(s, e.key, j);
    LookupPushed(Without(s, e.key), e, j);
    LookupFront([e] + Without(s, e.key), max, j);
  }

  // ---- What is found ----

  // What the cache lists of a key is its last insertion.
  ghost predicate IsLast<K, V>(e: Option<Entry<K, V>>, k: K, o: Option<(int, V)>, p: Policy) {
    e.Some? ==> o.Some? && e.value == Entry(k, o.value.1, Stamp(p.expire, p.lifetime, o.value.0))
  }

  lemma {:induction false} ListedIsLast<K, V>(ops: seq<Timed<K, V>>, p: Policy, k: K)
    ensures IsLast(Lookup(TimedRun(ops, p), k), k, LastInsert(ops, k), p)
  {
    if ops != [] {
      var n := |ops| - 1;
      var s := TimedRun(ops[..n], p);
      ListedIsLast(ops[..n], p, k);
      match ops[n].op
      case InsertOp(j, v) => InsertedReads(s, Entry(j, v, Stamp(p.expire, p.lifetime, ops[n].now)), p.max, k);
      case FindOp(j) => FoundDrops(s, j, p.expire, ops[n].now, k);
      case EraseOp(j) => LookupWithout(s, j, k);
    }
  }

  // A key inserted last at time t and still listed is found, with its value, exactly if the cache
  // does not expire or t lies at most a lifetime back.
  lemma FoundIffAlive<K, V>(ops: seq<Timed<K, V>>, p: Policy, k: K, now: int)
    ensures HasKey(TimedRun(ops, p), k) ==> LastInsert(ops, k).Some?
    ensures FoundValue(TimedRun(ops, p), k, p.expire, now) ==
            if !HasKey(TimedRun(ops, p), k) then None
            else
              var (t, v) := LastInsert(ops, k).value;
              if !p.expire || now <= t + p.lifetime then Some(v) else None
  {
    ListedIsLast(ops, p, k);
  }

  // ---- While the keys that were not erased fit ----

  function Untimed<K, V>(ops: seq<Timed<K, V>>): (r: seq<Op<K, V>>)
    ensures |r| == |ops| && forall i :: 0 <= i < |ops| ==> r[i] == ops[i].op
  {
    seq(|ops|, i requires 0 <= i < |ops| => ops[i].op)
  }

  ghost predicate InTime<K, V>(ops: seq<Timed<K, V>>, now: int) {
    && (forall i, j :: 0 <= i < j < |ops| ==> ops[i].now <= ops[j].now)
    && (forall i :: 0 <= i < |ops| ==> ops[i].now <= now)
  }

  lemma UntimedPrefix<K, V>(ops: seq<Timed<K, V>>, n: nat)
    requires n <= |ops|
    ensures Untimed(ops[..n]) == Untimed(ops)[..n]
  {
  }

  lemma {:induction false} PlainIsLast<K, V>(ops: seq<Timed<K, V>>, k: K)
    ensures k in Plain(Untimed(ops)) <==> LastInsert(ops, k).Some?
  {
    if ops != [] {
      PlainIsLast(ops[..|ops| - 1], k);
      UntimedPrefix(ops, |ops| - 1);
    }
  }

  ghost predicate IsAlive<V>(o: Option<(int, V)>, p: Policy, now: int) {
    o.Some? && (!p.expire || now <= o.value.0 + p.lifetime)
  }

  // A key that was inserted and not erased is listed, unless it has expired.
  ghost predicate ListsAlive<K(!new), V>(s: seq<Entry<K, V>>, ops: seq<Timed<K, V>>, p: Policy, now: int) {
    forall k :: IsAlive(LastInsert(ops, k), p, now) ==> HasKey(s, k)
  }

  // It lists no other, and none twice.
  ghost predicate IsPartOf<K(!new), V>(s: seq<Entry<K, V>>, ops: seq<Timed<K, V>>) {
    KeysFrom(s, Plain(Untimed(ops)).Keys)
  }

  lemma InsertedIsPartOf<K(!new), V>(s: seq<Entry<K, V>>, m: map<K, V>, e: Entry<K, V>, max: nat)
    requires KeysFrom(s, m.Keys) && |m[e.key := e.value]| <= max
    ensures Inserted(s, e, max) == [e] + Without(s, e.key)
    ensures KeysFrom(Inserted(s, e, max), m[e.key := e.value].Keys)
  {
    var keys := m[e.key := e.value].Keys;
    KeysWithout(s, m.Keys, e.key);
    KeysPushed(Without(s, e.key), m.Keys - {e.key}, e);
    assert keys == m.Keys - {e.key} + {e.key};
    AtMostKeys([e] + Without(s, e.key), keys);
  }

  lemma FoundIsPartOf<K(!new), V>(s: seq<Entry<K, V>>, keys: set<K>, k: K, expire: bool, now: int)
    requires KeysFrom(s, keys)
    ensures KeysFrom(Found(s, k, expire, now), keys)
  {
    KeysWithout(s, keys, k);
    if Lookup(s, k).Some? {
      KeysPushed(Without(s, k), keys - {k}, Lookup(s, k).value);
      assert keys - {k} + {k} == keys;
    }
  }

  lemma StepIsPartOf<K(!new), V>(s: seq<Entry<K, V>>, ops: seq<Timed<K, V>>, o: Timed<K, V>, p: Policy)
    requires IsPartOf(s, ops) && |Plain(Untimed(ops + [o]))| <= p.max
    ensures IsPartOf(TimedStep(s, o, p), ops + [o])
    ensures o.op.InsertOp? ==>
      TimedStep(s, o, p) == [Entry(o.op.key, o.op.value, Stamp(p.expire, p.lifetime, o.now))] + Without(s, o.op.key)
  {
    var m := Plain(Untimed(ops));
    assert Untimed(ops + [o])[..|ops|] == Untimed(ops);
    match o.op
    case InsertOp(k, v) => InsertedIsPartOf(s, m, Entry(k, v, Stamp(p.expire, p.lifetime, o.now)), p.max);
    case FindOp(k) => FoundIsPartOf(s, m.Keys, k, p.expire, o.now);
    case EraseOp(k) =>
      KeysWithout(s, m.Keys, k);
      assert (m - {k}).Keys == m.Keys - {k};
  }

  // One key, after one operation.
  lemma KeyStaysListed<K(!new), V>(ops: seq<Timed<K, V>>, o: Timed<K, V>, p: Policy, k: K)
    requires IsPartOf(TimedRun(ops, p), ops) && |Plain(Untimed(ops + [o]))| <= p.max
    requires IsAlive(LastInsert(ops, k), p, o.now) ==> HasKey(TimedRun(ops, p), k)
    requires IsAlive(LastInsert(ops + [o], k), p, o.now)
    ensures HasKey(TimedStep(TimedRun(ops, p), o, p), k)
  {
    var s, j := TimedRun(ops, p), o.op.key;
    assert (ops + [o])[..|ops|] == ops;
    LookupWithout(s, j, k);
    match o.op
    case InsertOp(_, v) =>
      StepIsPartOf(s, ops, o, p);
      LookupPushed(Without(s, j), Entry(j, v, Stamp(p.expire, p.lifetime, o.now)), k);
    case FindOp(_) =>
      FoundDrops(s, j, p.expire, o.now, k);
      FoundIffAlive(ops, p, k, o.now);
    case EraseOp(_) =>
  }

  lemma StepListsAlive<K(!new), V>(ops: seq<Timed<K, V>>, o: Timed<K, V>, p: Policy)
    requires IsPartOf(TimedRun(ops, p), ops) && |Plain(Untimed(ops + [o]))| <= p.max
    requires ListsAlive(TimedRun(ops, p), ops, p, o.now)
    ensures ListsAlive(TimedStep(TimedRun(ops, p), o, p), ops + [o], p, o.now)
  {
    forall k | IsAlive(LastInsert(ops + [o], k), p, o.now)
      ensures HasKey(TimedStep(TimedRun(ops, p), o, p), k)
    {
      KeyStaysListed(ops, o, p, k);
    }
  }

  lemma FitsBefore<K(!new), V>(ops: seq<Timed<K, V>>, n: nat, max: nat)
    requires n <= |ops| && Fits(Untimed(ops), max)
    ensures Fits(Untimed(ops[..n]), max) && |Plain(Untimed(ops))| <= max
  {
    UntimedPrefix(ops, n);
    forall i | 0 <= i <= n
      ensures |Plain(Untimed(ops)[..n][..i])| <= max
    {
      assert Untimed(ops)[..n][..i] == Untimed(ops)[..i];
    }
    assert Untimed(ops)[..|ops|] == Untimed(ops);
  }

  // One more operation.
  lemma FittingMore<K(!new), V>(first: seq<Timed<K, V>>, o: Timed<K, V>, p: Policy, now: int)
    requires IsPartOf(TimedRun(first, p), first) && ListsAlive(TimedRun(first, p), first, p, o.now)
    requires |Plain(Untimed(first + [o]))| <= p.max && o.now <= now
    ensures IsPartOf(TimedRun(first + [o], p), first + [o]) && ListsAlive(TimedRun(first + [o], p), first + [o], p, now)
  {
    assert (first + [o])[..|first|] == first;
    StepIsPartOf(TimedRun(first, p), first, o, p);
    StepListsAlive(first, o, p);
  }

  lemma InTimeBefore<K, V>(ops: seq<Timed<K, V>>, now: int)
    requires InTime(ops, now) && ops != []
    ensures InTime(ops[..|ops| - 1], ops[|ops| - 1].now) && ops[|ops| - 1].now <= now
  {
  }

  lemma {:induction false} FittingRun<K(!new), V>(ops: seq<Timed<K, V>>, p: Policy, now: int)
    requires InTime(ops, now) && Fits(Untimed(ops), p.max)
    ensures IsPartOf(TimedRun(ops, p), ops) && ListsAlive(TimedRun(ops, p), ops, p, now)
  {
    if ops != [] {
      var first, o := ops[..|ops| - 1], ops[|ops| - 1];
      FitsBefore(ops, |first|, p.max);
      InTimeBefore(ops, now);
      FittingRun(first, p, o.now);
      assert ops == first + [o];
      FittingMore(first, o, p, now);
    }
  }

  // While the keys that were not erased fit, a find returns what was inserted last, exactly if the
  // cache does not expire or that is at most a lifetime back.
  lemma FitsMeansAlive<K(!new), V>(ops: seq<Timed<K, V>>, p: Policy, k: K, now: int)
    requires InTime(ops, now) && Fits(Untimed(ops), p.max)
    ensures FoundValue(TimedRun(ops, p), k, p.expire, now) ==
            match LastInsert(ops, k)
            case None => None
            case Some((t, v)) => if !p.expire || now <= t + p.lifetime then Some(v) else None
  {
    FittingRun(ops, p, now);
    FoundIffAlive(ops, p, k, now);
  }
}
