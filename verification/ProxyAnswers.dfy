/**
 What a call of the proxy cache does: told from the slot it reads, and, while all keys in use fit,
 from the completed results and the threads at work alone.
 */
module ProxyAnswers {
  import opened Wrappers
  import opened LruCache
  import opened LruRuns
  import opened ProxyCache
  import opened ProxyProgress

  // ---- One pass through the retry loop ----

  function SlotOf<K(==), V>(s: State<K, V>, k: K): (slot: Option<Slot<V>>) {
    match Lookup(s.cache, k)
    case None => None
    case Some(e) => Some(e.value)
  }

  // The slot holds a value that has not expired.
  predicate IsFresh<V>(slot: Option<Slot<V>>, now: int) {
    slot.Some? && slot.value.expire != 0 && now <= slot.value.expire
  }

  predicate IsBusy<V>(slot: Option<Slot<V>>) {
    slot.Some? && slot.value.inProgress
  }

  // Thread t, which was calling, moves on.
  ghost predicate Passes<K(!new), V(!new)>(c: Config<V>, s: State<K, V>, s': State<K, V>, t: nat) {
    && Next(c, s, s') && t < |s.threads| && |s'.threads| == |s.threads|
    && s.threads[t].Calling? && s'.threads[t] != s.threads[t]
  }

  lemma PassIsEnter<K(!new), V(!new)>(c: Config<V>, s: State<K, V>, s': State<K, V>, t: nat)
    requires Passes(c, s, s', t)
    ensures s' == Enter(c, s, t)
  {
    if EnterStep(c, s, s') {
      var u: nat :| u < |s.threads| && s.threads[u].Calling? && s' == Enter(c, s, u);
    }
  }

  // It returns the stored value at once exactly if that is fresh and will not expire soon, or is
  // being computed anew, or the caller does not want to wait; it waits exactly if there is no
  // fresh value and one is being computed; otherwise it computes one.
  lemma PassAnswers<K(!new), V(!new)>(c: Config<V>, s: State<K, V>, s': State<K, V>, t: nat)
    requires Passes(c, s, s', t)
    ensures var r := s.threads[t].request;
            var slot := SlotOf(s, r.key);
            s'.threads[t] ==
              if IsFresh(slot, r.now) then
                if r.now < slot.value.expire - c.refresh || slot.value.inProgress || r.tryNoBlock
                then Returned(r, slot.value.value, true)
                else Running(r)
              else if IsBusy(slot) then Waiting(r)
              else Running(r)
    ensures s'.threads == s.threads[t := s'.threads[t]] && s'.completed == s.completed
  {
    PassIsEnter(c, s, s', t);
  }

  // It marks the slot of its key if it is to compute the value, and no other; slots may be evicted.
  lemma PassMarks<K(!new), V(!new)>(c: Config<V>, s: State<K, V>, s': State<K, V>, t: nat, k: K)
    requires Passes(c, s, s', t)
    ensures !s'.threads[t].Running? ==> SlotOf(s', k) == SlotOf(s, k)
    ensures s'.threads[t].Running? && k != s.threads[t].request.key && SlotOf(s', k).Some? ==>
              SlotOf(s', k) == SlotOf(s, k)
    ensures s'.threads[t].Running? && k == s.threads[t].request.key && c.max > 0 ==>
              var was := if SlotOf(s, k).Some? then SlotOf(s, k).value else Slot(0, false, c.default);
              SlotOf(s', k) == Some(was.(inProgress := true))
  {
    var r := s.threads[t].request;
    var touched := Found(s.cache, r.key, false, 0);
    PassIsEnter(c, s, s', t);
    ReadFound(c, s.cache, r.key, k);
    ReadWritten(c, touched, r.key, Read(c, s.cache, r.key).(inProgress := true), k);
  }

  // Thread t, which was computing, is done.
  ghost predicate Completes<K(!new), V(!new)>(c: Config<V>, s: State<K, V>, s': State<K, V>, t: nat) {
    && Next(c, s, s') && t < |s.threads| && |s'.threads| == |s.threads|
    && s.threads[t].Running? && s'.threads[t] != s.threads[t]
  }

  lemma CompletionIsFinish<K(!new), V(!new)>(c: Config<V>, s: State<K, V>, s': State<K, V>, t: nat)
    requires Completes(c, s, s', t)
    ensures s'.threads[t].Returned? && s' == Finish(c, s, t, s'.threads[t].value)
  {
    if FinishStep(c, s, s') {
      var u: nat, value: V :| u < |s.threads| && s.threads[u].Running? && s' == Finish(c, s, u, value);
    }
  }

  // It returns what it computed, and wakes every thread that waits.
  lemma CompletionReturns<K(!new), V(!new)>(c: Config<V>, s: State<K, V>, s': State<K, V>, t: nat)
    requires Completes(c, s, s', t)
    ensures var r := s.threads[t].request;
            && s'.threads[t].Returned? && s'.threads[t] == Returned(r, s'.threads[t].value, false)
            && s'.completed == s.completed + [Result(r.key, s'.threads[t].value, r.now + c.ttl)]
    ensures forall u :: 0 <= u < |s.threads| && u != t ==>
              s'.threads[u] == if s.threads[u].Waiting? then Calling(s.threads[u].request) else s.threads[u]
  {
    CompletionIsFinish(c, s, s', t);
  }

  // It stores that with the time to live counted from the call; other slots may be evicted.
  lemma CompletionStores<K(!new), V(!new)>(c: Config<V>, s: State<K, V>, s': State<K, V>, t: nat, k: K)
    requires Completes(c, s, s', t)
    ensures s'.threads[t].Returned?
    ensures k != s.threads[t].request.key && SlotOf(s', k).Some? ==> SlotOf(s', k) == SlotOf(s, k)
    ensures k == s.threads[t].request.key && c.max > 0 ==>
              SlotOf(s', k) == Some(Slot(s.threads[t].request.now + c.ttl, false, s'.threads[t].value))
  {
    var r := s.threads[t].request;
    CompletionIsFinish(c, s, s', t);
    ReadWritten(c, s.cache, r.key, Slot(r.now + c.ttl, false, s'.threads[t].value), k);
  }

  // ---- Over runs, while all keys in use fit ----

  function LastResult<K(==), V>(completed: seq<Result<K, V>>, k: K): (r: Option<Result<K, V>>) {
    if completed == [] then None
    else
      var n := |completed| - 1;
      if completed[n].key == k then Some(completed[n]) else LastResult(completed[..n], k)
  }

  // The slot holds the last completed result.
  ghost predicate HoldsLast<K(!new), V(!new)>(s: State<K, V>, k: K) {
    match LastResult(s.completed, k)
    case None => SlotOf(s, k).Some? ==> SlotOf(s, k).value.expire == 0
    case Some(res) =>
      SlotOf(s, k).Some? && SlotOf(s, k).value.expire == res.expire && SlotOf(s, k).value.value == res.value
  }

  ghost predicate HoldsAll<K(!new), V(!new)>(s: State<K, V>) {
    forall k {:trigger HoldsLast(s, k)} :: HoldsLast(s, k)
  }

  // The same value as before, or still none.
  ghost predicate KeepsValue<V>(was: Option<Slot<V>>, slot: Option<Slot<V>>) {
    if was.None? then slot.Some? ==> slot.value.expire == 0
    else slot.Some? && slot.value.expire == was.value.expire && slot.value.value == was.value.value
  }

  lemma KeptHolds<K(!new), V(!new)>(s: State<K, V>, s': State<K, V>, k: K)
    requires HoldsLast(s, k) && s'.completed == s.completed && KeepsValue(SlotOf(s, k), SlotOf(s', k))
    ensures HoldsLast(s', k)
  {
  }

  lemma EnterKeeps<K(!new), V(!new)>(c: Config<V>, s: State<K, V>, t: nat, keys: set<K>, k: K)
    requires KeysFrom(s.cache, keys) && |keys| <= c.max && t < |s.threads| && s.threads[t].Calling?
    requires s.threads[t].request.key in keys
    ensures KeepsValue(SlotOf(s, k), SlotOf(Enter(c, s, t), k))
  {
    var r := s.threads[t].request;
    var touched := Found(s.cache, r.key, false, 0);
    KeysStep(s.cache, keys, FindOp(r.key), c.max);
    ReadFound(c, s.cache, r.key, k);
    WrittenExactly(c, touched, keys, r.key, Read(c, s.cache, r.key).(inProgress := true), k);
  }

  lemma EnterHolds<K(!new), V(!new)>(c: Config<V>, s: State<K, V>, t: nat, keys: set<K>)
    requires Roomy(c, s, keys) && HoldsAll(s) && t < |s.threads| && s.threads[t].Calling?
    ensures HoldsAll(Enter(c, s, t))
  {
    forall k
      ensures HoldsLast(Enter(c, s, t), k)
    {
      assert HoldsLast(s, k);
      EnterKeeps(c, s, t, keys, k);
      KeptHolds(s, Enter(c, s, t), k);
    }
  }

  lemma FinishHolds<K(!new), V(!new)>(c: Config<V>, s: State<K, V>, t: nat, value: V, keys: set<K>)
    requires Roomy(c, s, keys) && HoldsAll(s) && t < |s.threads| && s.threads[t].Running?
    ensures HoldsAll(Finish(c, s, t, value))
  {
    var s', r := Finish(c, s, t, value), s.threads[t].request;
    assert s'.completed[..|s.completed|] == s.completed;
    forall k
      ensures HoldsLast(s', k)
    {
      assert HoldsLast(s, k);
      FinishWrites(c, s, t, value, keys, k);
    }
  }

  lemma FinishWrites<K(!new), V(!new)>(c: Config<V>, s: State<K, V>, t: nat, value: V, keys: set<K>, k: K)
    requires KeysFrom(s.cache, keys) && |keys| <= c.max && t < |s.threads| && s.threads[t].Running?
    requires s.threads[t].request.key in keys
    ensures var r := s.threads[t].request;
            SlotOf(Finish(c, s, t, value), k) ==
              if k == r.key then Some(Slot(r.now + c.ttl, false, value)) else SlotOf(s, k)
  {
    var r := s.threads[t].request;
    WrittenExactly(c, s.cache, keys, r.key, Slot(r.now + c.ttl, false, value), k);
  }

  lemma NextHolds<K(!new), V(!new)>(c: Config<V>, s: State<K, V>, s': State<K, V>, keys: set<K>)
    requires Roomy(c, s, keys) && HoldsAll(s) && Next(c, s, s')
    ensures HoldsAll(s')
  {
    if EnterStep(c, s, s') {
      var t: nat :| t < |s.threads| && s.threads[t].Calling? && s' == Enter(c, s, t);
      EnterHolds(c, s, t, keys);
    } else if FinishStep(c, s, s') {
      var t: nat, value: V :| t < |s.threads| && s.threads[t].Running? && s' == Finish(c, s, t, value);
      FinishHolds(c, s, t, value, keys);
    } else {
      assert s'.cache == s.cache && s'.completed == s.completed;
      forall k
        ensures HoldsLast(s', k)
      {
        assert HoldsLast(s, k);
      }
    }
  }

  lemma {:induction false} RunHolds<K(!new), V(!new)>(c: Config<V>, run: seq<State<K, V>>, keys: set<K>)
    requires IsRun(c, run) && |keys| <= c.max
    requires forall i :: 0 <= i < |run| ==> UsesKeys(run[i], keys)
    ensures HoldsAll(run[|run| - 1])
  {
    var n := |run| - 1;
    if n == 0 {
      assert forall k :: HoldsLast(run[0], k);
    } else {
      RunHolds(c, run[..n], keys);
      OneRunnerPerKey(c, run[..n], keys);
      assert Next(c, run[n - 1], run[n]);
      NextHolds(c, run[n - 1], run[n], keys);
    }
  }

  // With room for all keys a call depends on the last completed result of its key, and on whether
  // some thread computes it, alone.
  lemma CallsAreAnswered<K(!new), V(!new)>(c: Config<V>, run: seq<State<K, V>>, keys: set<K>, s': State<K, V>, t: nat)
    requires IsRun(c, run) && |keys| <= c.max
    requires forall i :: 0 <= i < |run| ==> UsesKeys(run[i], keys)
    requires Passes(c, run[|run| - 1], s', t)
    ensures var s := run[|run| - 1];
            var r := s.threads[t].request;
            var last, busy := LastResult(s.completed, r.key), HasRunner(s, r.key);
            s'.threads[t] ==
              if last.Some? && last.value.expire != 0 && r.now <= last.value.expire then
                if r.now < last.value.expire - c.refresh || busy || r.tryNoBlock
                then Returned(r, last.value.value, true)
                else Running(r)
              else if busy then Waiting(r)
              else Running(r)
  {
    var s := run[|run| - 1];
    var k := s.threads[t].request.key;
    RunHolds(c, run, keys);
    OneRunnerPerKey(c, run, keys);
    PassAnswers(c, s, s', t);
    assert HoldsLast(s, k);
    assert InProgress(s, k) <==> IsBusy(SlotOf(s, k));
    if HasRunner(s, k) {
      var u :| 0 <= u < |s.threads| && s.threads[u].Running? && s.threads[u].request.key == k;
      assert RunsFor(s, u, k);
    }
  }
}
