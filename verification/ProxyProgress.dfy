/**
 The proxy cache: one runner per key while the keys fit, and progress.
 */
module ProxyProgress {
  import opened Wrappers
  import opened LruCache
  import opened LruRuns
  import opened ProxyCache

  // ---- One runner per key, while the cache holds all keys in use ----

  ghost predicate UsesKeys<K, V>(s: State<K, V>, keys: set<K>) {
    forall t :: 0 <= t < |s.threads| && !s.threads[t].Idle? ==> s.threads[t].request.key in keys
  }

  ghost predicate RunsFor<K, V>(s: State<K, V>, t: nat, k: K) {
    t < |s.threads| && s.threads[t].Running? && s.threads[t].request.key == k
  }

  ghost predicate InProgress<K, V>(s: State<K, V>, k: K) {
    Lookup(s.cache, k).Some? && Lookup(s.cache, k).value.value.inProgress
  }

  // The flag is set exactly while a thread computes the key, and then only one does.
  ghost predicate Exclusive<K(!new), V>(s: State<K, V>) {
    && (forall t, k {:trigger RunsFor(s, t, k)} :: RunsFor(s, t, k) ==> InProgress(s, k))
    && (forall t, u, k {:trigger RunsFor(s, t, k), RunsFor(s, u, k)} :: RunsFor(s, t, k) && RunsFor(s, u, k) ==> t == u)
    && (forall k {:trigger InProgress(s, k)} :: InProgress(s, k) ==> HasRunner(s, k))
  }

  ghost predicate Roomy<K(!new), V>(c: Config<V>, s: State<K, V>, keys: set<K>) {
    |keys| <= c.max && UsesKeys(s, keys) && KeysFrom(s.cache, keys) && Safe(s) && Exclusive(s)
  }

  // With room for all keys, a write evicts nothing.
  lemma WrittenExactly<K(!new), V>(c: Config<V>, cache: Cache<K, V>, keys: set<K>, k: K, slot: Slot<V>, j: K)
    requires KeysFrom(cache, keys) && k in keys && |keys| <= c.max
    ensures KeysFrom(Write(c, cache, k, slot), keys)
    ensures Lookup(Write(c, cache, k, slot), j) == if j == k then Some(Entry(k, slot, 0)) else Lookup(cache, j)
  {
    var f, e := Found(cache, k, false, 0), Entry(k, slot, 0);
    KeysStep(cache, keys, FindOp(k), c.max);
    KeysWithout(f, keys, k);
    KeysPushed(Without(f, k), keys - {k}, e);
    assert keys - {k} + {k} == keys;
    AtMostKeys([e] + Without(f, k), keys);
    ReadFound(c, cache, k, j);
    LookupWithout(f, k, j);
    LookupPushed(Without(f, k), e, j);
  }

  lemma EnterRoomy<K(!new), V(!new)>(c: Config<V>, s: State<K, V>, t: nat, keys: set<K>)
    requires Roomy(c, s, keys) && t < |s.threads| && s.threads[t].Calling?
    ensures Roomy(c, Enter(c, s, t), keys)
  {
    var s' := Enter(c, s, t);
    var r := s.threads[t].request;
    var slot := Read(c, s.cache, r.key);
    var touched := Found(s.cache, r.key, false, 0);
    EnterSafe(c, s, t);
    KeysStep(s.cache, keys, FindOp(r.key), c.max);
    WrittenExactly(c, touched, keys, r.key, slot.(inProgress := true), r.key);
    forall k ensures InProgress(s', k) <==> InProgress(s, k) || (k == r.key && Judge(c, r, slot).Run?) {
      ReadFound(c, s.cache, r.key, k);
      WrittenExactly(c, touched, keys, r.key, slot.(inProgress := true), k);
    }
    assert Judge(c, r, slot).Run? ==> !InProgress(s, r.key);
    EnterExclusive(c, s, t);
  }

  lemma EnterExclusive<K(!new), V(!new)>(c: Config<V>, s: State<K, V>, t: nat)
    requires Exclusive(s) && t < |s.threads| && s.threads[t].Calling?
    requires var r := s.threads[t].request;
             var runs := Judge(c, r, Read(c, s.cache, r.key)).Run?;
             && (runs ==> !InProgress(s, r.key))
             && forall k :: InProgress(Enter(c, s, t), k) <==> InProgress(s, k) || (k == r.key && runs)
    ensures Exclusive(Enter(c, s, t))
  {
    var s' := Enter(c, s, t);
    var r := s.threads[t].request;
    var runs := Judge(c, r, Read(c, s.cache, r.key)).Run?;
    forall u, k ensures RunsFor(s', u, k) <==> RunsFor(s, u, k) || (u == t && k == r.key && runs) {
    }
    forall k | InProgress(s', k) ensures HasRunner(s', k) {
      if InProgress(s, k) {
        var u :| 0 <= u < |s.threads| && s.threads[u].Running? && s.threads[u].request.key == k;
        assert RunsFor(s, u, k) && RunsFor(s', u, k);
      } else {
        assert RunsFor(s', t, k);
      }
    }
  }

  lemma FinishRoomy<K(!new), V(!new)>(c: Config<V>, s: State<K, V>, t: nat, value: V, keys: set<K>)
    requires Roomy(c, s, keys) && t < |s.threads| && s.threads[t].Running?
    ensures Roomy(c, Finish(c, s, t, value), keys)
  {
    var s' := Finish(c, s, t, value);
    var r := s.threads[t].request;
    var slot := Slot(r.now + c.ttl, false, value);
    FinishSafe(c, s, t, value);
    WrittenExactly(c, s.cache, keys, r.key, slot, r.key);
    forall k ensures InProgress(s', k) <==> InProgress(s, k) && k != r.key {
      WrittenExactly(c, s.cache, keys, r.key, slot, k);
    }
    FinishExclusive(c, s, t, value);
    assert UsesKeys(s', keys);
  }

  lemma FinishExclusive<K(!new), V(!new)>(c: Config<V>, s: State<K, V>, t: nat, value: V)
    requires Exclusive(s) && t < |s.threads| && s.threads[t].Running?
    requires forall k :: InProgress(Finish(c, s, t, value), k) <==> InProgress(s, k) && k != s.threads[t].request.key
    ensures Exclusive(Finish(c, s, t, value))
  {
    var s' := Finish(c, s, t, value);
    assert RunsFor(s, t, s.threads[t].request.key);
    forall u, k ensures RunsFor(s', u, k) <==> RunsFor(s, u, k) && u != t {
    }
    forall k | InProgress(s', k) ensures HasRunner(s', k) {
      var u :| 0 <= u < |s.threads| && s.threads[u].Running? && s.threads[u].request.key == k;
      assert RunsFor(s, u, k) && RunsFor(s', u, k);
    }
  }

  lemma ReplacedRoomy<K(!new), V(!new)>(c: Config<V>, s: State<K, V>, t: nat, r: Request<K>, keys: set<K>)
    requires Roomy(c, s, keys) && t < |s.threads| && !s.threads[t].Running? && r.key in keys
    ensures Roomy(c, s.(threads := s.threads[t := Calling(r)]), keys)
  {
    var s' := s.(threads := s.threads[t := Calling(r)]);
    ReplacedSafe(s, t, r);
    forall u, k ensures RunsFor(s', u, k) <==> RunsFor(s, u, k) {
    }
    forall k ensures InProgress(s', k) <==> InProgress(s, k) {
    }
    forall k | InProgress(s', k) ensures HasRunner(s', k) {
      var u :| 0 <= u < |s.threads| && s.threads[u].Running? && s.threads[u].request.key == k;
      assert RunsFor(s, u, k) && RunsFor(s', u, k);
    }
  }

  lemma NextRoomy<K(!new), V(!new)>(c: Config<V>, s: State<K, V>, s': State<K, V>, keys: set<K>)
    requires Roomy(c, s, keys) && Next(c, s, s') && UsesKeys(s', keys)
    ensures Roomy(c, s', keys)
  {
    if EnterStep(c, s, s') {
      var t: nat :| t < |s.threads| && s.threads[t].Calling? && s' == Enter(c, s, t);
      EnterRoomy(c, s, t, keys);
    } else if FinishStep(c, s, s') {
      var t: nat, value: V :| t < |s.threads| && s.threads[t].Running? && s' == Finish(c, s, t, value);
      FinishRoomy(c, s, t, value, keys);
    } else if WakeStep(s, s') {
      var t: nat :| t < |s.threads| && s.threads[t].Waiting?
                    && s' == s.(threads := s.threads[t := Woken(s.threads[t])]);
      ReplacedRoomy(c, s, t, s.threads[t].request, keys);
    } else {
      var t: nat, r: Request<K> :| t < |s.threads| && (s.threads[t].Idle? || s.threads[t].Returned?)
                                   && s' == s.(threads := s.threads[t := Calling(r)]);
      assert s'.threads[t] == Calling(r);
      ReplacedRoomy(c, s, t, r, keys);
    }
  }

  // Over every interleaving, when the capacity covers the keys in use.
  lemma {:induction false} OneRunnerPerKey<K(!new), V(!new)>(c: Config<V>, run: seq<State<K, V>>, keys: set<K>)
    requires IsRun(c, run) && |keys| <= c.max
    requires forall i :: 0 <= i < |run| ==> UsesKeys(run[i], keys)
    ensures Roomy(c, run[|run| - 1], keys)
  {
    var n := |run| - 1;
    if n == 0 {
      InitialSafe(run[0]);
      assert forall t, k :: !RunsFor(run[0], t, k);
    } else {
      OneRunnerPerKey(c, run[..n], keys);
      assert Next(c, run[n - 1], run[n]);
      NextRoomy(c, run[n - 1], run[n], keys);
    }
  }

  // ---- Progress: no lost wake-up, no deadlock, every call returns ----

  predicate IsPending<K, V>(th: Thread<K, V>) {
    th.Calling? || th.Waiting? || th.Running?
  }

  // No call is pending.
  ghost predicate Done<K, V>(s: State<K, V>) {
    forall t :: 0 <= t < |s.threads| ==> !IsPending(s.threads[t])
  }

  // What a thread has left to do: m for a pending call, and a pass through the retry loop.
  function Work<K, V>(th: Thread<K, V>, m: nat): (n: nat) {
    (if IsPending(th) then m else 0) + (if th.Calling? then 1 else 0)
  }

  function WorkLeft<K, V>(ths: seq<Thread<K, V>>, m: nat): (n: nat) {
    if ths == [] then 0 else WorkLeft(ths[..|ths| - 1], m) + Work(ths[|ths| - 1], m)
  }

  lemma {:induction false} WorkReplaced<K, V>(ths: seq<Thread<K, V>>, t: nat, th: Thread<K, V>, m: nat)
    requires t < |ths|
    ensures WorkLeft(ths[t := th], m) == WorkLeft(ths, m) - Work(ths[t], m) + Work(th, m)
  {
    var n := |ths| - 1;
    if t == n {
      assert ths[t := th][..n] == ths[..n];
    } else {
      assert ths[t := th][..n] == ths[..n][t := th];
      WorkReplaced(ths[..n], t, th, m);
    }
  }

  // Waking everyone adds at most one pass for each thread.
  lemma {:induction false} WorkWoken<K, V>(ths: seq<Thread<K, V>>, m: nat)
    ensures WorkLeft(AllWoken(ths), m) <= WorkLeft(ths, m) + |ths|
  {
    if ths != [] {
      var n := |ths| - 1;
      WorkWoken(ths[..n], m);
      assert AllWoken(ths)[..n] == AllWoken(ths[..n]);
    }
  }

  lemma {:induction false} NoWork<K, V>(ths: seq<Thread<K, V>>, m: nat)
    requires forall i :: 0 <= i < |ths| ==> ths[i].Idle?
    ensures WorkLeft(ths, m) == 0
  {
    if ths != [] {
      NoWork(ths[..|ths| - 1], m);
    }
  }

  // A step taken by the protocol itself: no new call, no spurious wake-up.
  ghost predicate Works<K(!new), V(!new)>(c: Config<V>, s: State<K, V>, s': State<K, V>) {
    EnterStep(c, s, s') || FinishStep(c, s, s')
  }

  // The work left to do.
  function Rank<K, V>(s: State<K, V>): (n: nat) {
    WorkLeft(s.threads, |s.threads| + 1)
  }

  lemma EnterDecreases<K(!new), V(!new)>(c: Config<V>, s: State<K, V>, t: nat)
    requires t < |s.threads| && s.threads[t].Calling?
    ensures Rank(Enter(c, s, t)) < Rank(s)
  {
    var ths := Enter(c, s, t).threads;
    WorkReplaced(s.threads, t, ths[t], |ths| + 1);
    assert ths == s.threads[t := ths[t]];
  }

  lemma FinishDecreases<K(!new), V(!new)>(c: Config<V>, s: State<K, V>, t: nat, value: V)
    requires t < |s.threads| && s.threads[t].Running?
    ensures Rank(Finish(c, s, t, value)) < Rank(s)
  {
    var th := Returned(s.threads[t].request, value, false);
    WorkReplaced(s.threads, t, th, |s.threads| + 1);
    WorkWoken(s.threads[t := th], |s.threads| + 1);
  }

  lemma WorkDecreases<K(!new), V(!new)>(c: Config<V>, s: State<K, V>, s': State<K, V>)
    requires Works(c, s, s')
    ensures Rank(s') < Rank(s) && |s'.threads| == |s.threads|
  {
    if EnterStep(c, s, s') {
      var t: nat :| t < |s.threads| && s.threads[t].Calling? && s' == Enter(c, s, t);
      EnterDecreases(c, s, t);
    } else {
      var t: nat, value: V :| t < |s.threads| && s.threads[t].Running? && s' == Finish(c, s, t, value);
      FinishDecreases(c, s, t, value);
    }
  }

  // While a call is pending, some step of the protocol can be taken.
  lemma NeverStuck<K(!new), V(!new)>(c: Config<V>, s: State<K, V>) returns (s': State<K, V>)
    requires Safe(s) && !Done(s)
    ensures Works(c, s, s')
  {
    var t: nat :| t < |s.threads| && IsPending(s.threads[t]);
    if s.threads[t].Calling? {
      s' := Enter(c, s, t);
    } else {
      if s.threads[t].Waiting? {
        var k := s.threads[t].request.key;
        assert GoodThread(s, t);
        var u :| 0 <= u < |s.threads| && s.threads[u].Running? && s.threads[u].request.key == k;
        t := u;
      }
      s' := Finish(c, s, t, c.default);
    }
  }

  ghost predicate Stuck<K(!new), V(!new)>(c: Config<V>, s: State<K, V>) {
    forall s' {:trigger Works(c, s, s')} :: !Works(c, s, s')
  }

  // ---- Every run, with spurious wake-ups and new calls at any time ----

  ghost predicate IsTrace<K(!new), V(!new)>(c: Config<V>, run: seq<State<K, V>>) {
    run != [] && forall i :: 0 < i < |run| ==> Next(c, run[i - 1], run[i])
  }

  // How many steps of each kind a run has.
  datatype Tally = Tally(works: nat, wakes: nat, calls: nat)

  ghost function Plus<K(!new), V(!new)>(c: Config<V>, n: Tally, s: State<K, V>, s': State<K, V>): (m: Tally) {
    if Works(c, s, s') then n.(works := n.works + 1)
    else if WakeStep(s, s') then n.(wakes := n.wakes + 1)
    else n.(calls := n.calls + 1)
  }

  ghost function Tallied<K(!new), V(!new)>(c: Config<V>, run: seq<State<K, V>>): (n: Tally) {
    if |run| <= 1 then Tally(0, 0, 0) else
      var k := |run| - 1;
      Plus(c, Tallied(c, run[..k]), run[k - 1], run[k])
  }

  lemma WakeAdds<K(!new), V(!new)>(s: State<K, V>, s': State<K, V>)
    requires WakeStep(s, s')
    ensures Rank(s') == Rank(s) + 1 && |s'.threads| == |s.threads|
  {
    var t: nat :| t < |s.threads| && s.threads[t].Waiting? && s' == s.(threads := s.threads[t := Woken(s.threads[t])]);
    WorkReplaced(s.threads, t, Woken(s.threads[t]), |s.threads| + 1);
  }

  lemma CallAdds<K(!new), V(!new)>(s: State<K, V>, s': State<K, V>)
    requires CallStep(s, s')
    ensures Rank(s') == Rank(s) + |s.threads| + 2 && |s'.threads| == |s.threads|
  {
    var t: nat, r: Request<K> :| t < |s.threads| && (s.threads[t].Idle? || s.threads[t].Returned?)
                                 && s' == s.(threads := s.threads[t := Calling(r)]);
    WorkReplaced(s.threads, t, Calling(r), |s.threads| + 1);
  }

  // The work left at the start, and what wake-ups and calls have added since.
  ghost function Granted<K, V>(s: State<K, V>, n: Tally): (work: nat) {
    Rank(s) + n.wakes + n.calls * (|s.threads| + 2)
  }

  lemma CallGrants<K, V>(s: State<K, V>, n: Tally)
    ensures Granted(s, n.(calls := n.calls + 1)) == Granted(s, n) + |s.threads| + 2
  {
    var m := |s.threads| + 2;
    assert (n.calls + 1) * m == n.calls * m + m;
  }

  // Whatever the scheduler does, the working steps are paid for by the calls and the wake-ups;
  // and when none is left to take, every call has returned.
  lemma {:induction false} EveryCallReturns<K(!new), V(!new)>(c: Config<V>, run: seq<State<K, V>>)
    requires IsTrace(c, run) && Safe(run[0])
    ensures Safe(run[|run| - 1]) && |run[|run| - 1].threads| == |run[0].threads|
    ensures Tallied(c, run).works + Rank(run[|run| - 1]) <= Granted(run[0], Tallied(c, run))
    ensures Stuck(c, run[|run| - 1]) ==> Done(run[|run| - 1])
  {
    var n := |run| - 1;
    if n > 0 {
      EveryCallReturns(c, run[..n]);
      assert Next(c, run[n - 1], run[n]);
      NextSafe(c, run[n - 1], run[n]);
      StepIsPaidFor(c, run[0], Tallied(c, run[..n]), run[n - 1], run[n]);
    }
    if !Done(run[n]) {
      var s' := NeverStuck(c, run[n]);
    }
  }

  lemma StepIsPaidFor<K(!new), V(!new)>(c: Config<V>, first: State<K, V>, n: Tally, s: State<K, V>, s': State<K, V>)
    requires Next(c, s, s') && |s.threads| == |first.threads|
    requires n.works + Rank(s) <= Granted(first, n)
    ensures |s'.threads| == |s.threads|
    ensures Plus(c, n, s, s').works + Rank(s') <= Granted(first, Plus(c, n, s, s'))
  {
    if Works(c, s, s') {
      WorkDecreases(c, s, s');
    } else if WakeStep(s, s') {
      WakeAdds(s, s');
    } else {
      CallAdds(s, s');
      CallGrants(first, n);
    }
  }

  // From the start: at most |threads| + 2 working steps for each call, and one for each
  // spurious wake-up.
  lemma WorkIsBounded<K(!new), V(!new)>(c: Config<V>, run: seq<State<K, V>>)
    requires IsRun(c, run)
    ensures Tallied(c, run).works <= Tallied(c, run).wakes + Tallied(c, run).calls * (|run[0].threads| + 2)
  {
    InitialSafe(run[0]);
    NoWork(run[0].threads, |run[0].threads| + 1);
    EveryCallReturns(c, run);
  }
}
