/**
 Why the proxy cache needs room for all keys in use: with one key too many, an evicted flag
 lets a second thread compute the same key.
 */
module ProxyRoom {
  import opened Sequences
  import opened LruCache
  import opened ProxyCache
  import opened ProxyProgress

  function Busy<V>(c: Config<V>): (slot: Slot<V>) {
    Slot(0, true, c.default)
  }

  function Ask<K>(k: K): (r: Request<K>) {
    Request(k, 1, false)
  }

  // The cache after the first i keys were asked for, each by a thread that still computes it.
  function Asked<K, V>(c: Config<V>, keys: seq<K>, i: nat): (r: Cache<K, V>)
    requires i <= |keys|
    ensures |r| == if i <= c.max then i else c.max
    ensures forall j :: 0 <= j < |r| ==> r[j].key == keys[i - 1 - j]
  {
    if i == 0 then [] else Front([Entry(keys[i - 1], Busy(c), 0)] + Asked(c, keys, i - 1), c.max)
  }

  function Threads<K, V>(c: Config<V>, keys: seq<K>, n: nat, i: nat): (r: seq<Thread<K, V>>)
    requires i <= |keys| && i <= n
    ensures |r| == n && forall j :: 0 <= j < n ==> r[j] == if j < i then Running(Ask(keys[j])) else Idle
  {
    if i == 0 then seq(n, _ => Idle) else Threads(c, keys, n, i - 1)[i - 1 := Running(Ask(keys[i - 1]))]
  }

  function Stage<K, V>(c: Config<V>, keys: seq<K>, i: nat): (s: State<K, V>)
    requires i <= |keys|
  {
    State(Asked(c, keys, i), Threads(c, keys, |keys| + 1, i), [])
  }

  // A thread that asks for a key that is not cached computes it.
  function AfterMiss<K, V>(c: Config<V>, s: State<K, V>, t: nat, k: K): (s': State<K, V>)
    requires t < |s.threads|
  {
    State(Front([Entry(k, Busy(c), 0)] + s.cache, c.max), s.threads[t := Running(Ask(k))], s.completed)
  }

  lemma MissRuns<K(!new), V(!new)>(c: Config<V>, run: seq<State<K, V>>, t: nat, k: K) returns (longer: seq<State<K, V>>)
    requires IsRun(c, run) && t < |run[|run| - 1].threads| && run[|run| - 1].threads[t].Idle?
    requires !HasKey(run[|run| - 1].cache, k)
    ensures IsRun(c, longer) && longer[|longer| - 1] == AfterMiss(c, run[|run| - 1], t, k)
  {
    var s := run[|run| - 1];
    var called := s.(threads := s.threads[t := Calling(Ask(k))]);
    assert CallStep(s, called) by {
      assert called.threads[t] == Calling(Ask(k));
    }
    WithoutAbsent(s.cache, k);
    var after := AfterMiss(c, s, t, k);
    assert Enter(c, called, t) == after by {
      assert called.threads[t := Running(Ask(k))] == s.threads[t := Running(Ask(k))];
    }
    assert EnterStep(c, called, after);
    longer := run + [called, after];
  }

  lemma {:induction false} ReachStage<K(!new), V(!new)>(c: Config<V>, keys: seq<K>, i: nat)
    returns (run: seq<State<K, V>>)
    requires Distinct(keys) && i <= |keys|
    ensures IsRun(c, run) && run[|run| - 1] == Stage(c, keys, i)
  {
    if i == 0 {
      run := [Stage(c, keys, 0)];
    } else {
      run := ReachStage(c, keys, i - 1);
      run := MissRuns(c, run, i - 1, keys[i - 1]);
    }
  }

  // For every capacity and any keys one more than it holds, some interleaving has two threads
  // compute the same key at once.
  lemma CapacityIsNeeded<K(!new), V(!new)>(c: Config<V>, keys: seq<K>) returns (run: seq<State<K, V>>)
    requires Distinct(keys) && |keys| == c.max + 1
    ensures IsRun(c, run)
    ensures RunsFor(run[|run| - 1], 0, keys[0]) && RunsFor(run[|run| - 1], |keys|, keys[0])
  {
    run := ReachStage(c, keys, |keys|);
    run := MissRuns(c, run, |keys|, keys[0]);
  }
}
