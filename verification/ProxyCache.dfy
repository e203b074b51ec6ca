/**
 The thundering-herd protocol of the proxy cache: any number of threads share an LRU cache
 of slots under one mutex; one of them computes a missing value while the others wait.

 A step is one critical section.  `Enter` is a pass through the retry loop, `Finish` stores
 the result of `get` and wakes everyone, `Wake` is a spurious wake-up, `Call` a new call.
 The clock value `now` is an argument of the call, as in the source.
 */
module ProxyCache {
  import opened LruCache
  import opened LruRuns

  // expire == 0 marks a slot that holds no value.
  datatype Slot<+V> = Slot(expire: int, inProgress: bool, value: V)

  datatype Request<+K> = Request(key: K, now: int, tryNoBlock: bool)

  datatype Thread<+K, +V> =
    | Idle
    | Calling(request: Request<K>)
    | Waiting(request: Request<K>)
    | Running(request: Request<K>)
    | Returned(request: Request<K>, value: V, hit: bool)

  datatype Config<+V> = Config(max: nat, ttl: int, refresh: int, default: V)

  // A completed `get`: the value it returned and when that value expires.
  datatype Result<+K, +V> = Result(key: K, value: V, expire: int)

  datatype State<+K, +V> = State(cache: seq<Entry<K, Slot<V>>>, threads: seq<Thread<K, V>>,
                                 completed: seq<Result<K, V>>)

  type Cache<+K, +V> = seq<Entry<K, Slot<V>>>

  // ---- Steps ----

  // cache_[key] as a value: a missing key reads as an empty slot.
  function Read<K(==), V>(c: Config<V>, cache: Cache<K, V>, k: K): (slot: Slot<V>) {
    match Lookup(cache, k)
    case None => Slot(0, false, c.default)
    case Some(e) => e.value
  }

  // cache_[key] = slot
  function Write<K(==), V>(c: Config<V>, cache: Cache<K, V>, k: K, slot: Slot<V>): (r: Cache<K, V>) {
    Inserted(Found(cache, k, false, 0), Entry(k, slot, 0), c.max)
  }

  // What a caller does on seeing a slot.
  datatype Verdict = Run | Wait | Hit

  function Judge<K, V>(c: Config<V>, r: Request<K>, slot: Slot<V>): (v: Verdict) {
    if slot.expire == 0 || r.now > slot.expire then
      if !slot.inProgress then Run else Wait
    else
      if r.now < slot.expire - c.refresh || slot.inProgress || r.tryNoBlock then Hit else Run
  }

  function Enter<K(==), V>(c: Config<V>, s: State<K, V>, t: nat): (s': State<K, V>)
    requires t < |s.threads| && s.threads[t].Calling?
  {
    var r := s.threads[t].request;
    var slot := Read(c, s.cache, r.key);
    var touched := Found(s.cache, r.key, false, 0);
    match Judge(c, r, slot)
    case Run => s.(cache := Write(c, touched, r.key, slot.(inProgress := true)), threads := s.threads[t := Running(r)])
    case Wait => s.(cache := touched, threads := s.threads[t := Waiting(r)])
    case Hit => s.(cache := touched, threads := s.threads[t := Returned(r, slot.value, true)])
  }

  // notify_all
  function Woken<K, V>(th: Thread<K, V>): (r: Thread<K, V>) {
    if th.Waiting? then Calling(th.request) else th
  }

  function AllWoken<K, V>(ths: seq<Thread<K, V>>): (r: seq<Thread<K, V>>)
    ensures |r| == |ths| && forall i :: 0 <= i < |ths| ==> r[i] == Woken(ths[i])
  {
    seq(|ths|, i requires 0 <= i < |ths| => Woken(ths[i]))
  }

  function Finish<K(==), V>(c: Config<V>, s: State<K, V>, t: nat, value: V): (s': State<K, V>)
    requires t < |s.threads| && s.threads[t].Running?
  {
    var r := s.threads[t].request;
    var expire := r.now + c.ttl;
    State(Write(c, s.cache, r.key, Slot(expire, false, value)),
          AllWoken(s.threads[t := Returned(r, value, false)]),
          s.completed + [Result(r.key, value, expire)])
  }

  ghost predicate EnterStep<K, V>(c: Config<V>, s: State<K, V>, s': State<K, V>) {
    exists t: nat :: t < |s.threads| && s.threads[t].Calling? && s' == Enter(c, s, t)
  }

  ghost predicate FinishStep<K, V(!new)>(c: Config<V>, s: State<K, V>, s': State<K, V>) {
    exists t: nat, value: V :: t < |s.threads| && s.threads[t].Running? && s' == Finish(c, s, t, value)
  }

  ghost predicate WakeStep<K, V>(s: State<K, V>, s': State<K, V>) {
    exists t: nat :: t < |s.threads| && s.threads[t].Waiting?
      && s' == s.(threads := s.threads[t := Woken(s.threads[t])])
  }

  ghost predicate CallStep<K(!new), V>(s: State<K, V>, s': State<K, V>) {
    exists t: nat, r: Request<K> :: t < |s.threads| && (s.threads[t].Idle? || s.threads[t].Returned?)
                                    && s' == s.(threads := s.threads[t := Calling(r)])
  }

  ghost predicate Next<K(!new), V(!new)>(c: Config<V>, s: State<K, V>, s': State<K, V>) {
    EnterStep(c, s, s') || FinishStep(c, s, s') || WakeStep(s, s') || CallStep(s, s')
  }

  ghost predicate Initial<K, V>(s: State<K, V>) {
    s.cache == [] && s.completed == [] && forall i :: 0 <= i < |s.threads| ==> s.threads[i].Idle?
  }

  // ---- What the cache reads after a write ----

  lemma ReadFound<K, V>(c: Config<V>, cache: Cache<K, V>, k: K, j: K)
    ensures Lookup(Found(cache, k, false, 0), j) == Lookup(cache, j)
  {
    LookupWithout(cache, k, j);
    if Lookup(cache, k).Some? {
      LookupPushed(Without(cache, k), Lookup(cache, k).value, j);
    }
  }

  // Another key reads as before, or was evicted; the key itself was stored, or evicted.
  lemma ReadWritten<K, V>(c: Config<V>, cache: Cache<K, V>, k: K, slot: Slot<V>, j: K)
    ensures var e := Lookup(Write(c, cache, k, slot), j);
            e.Some? ==> if j == k then e.value.value == slot else e == Lookup(cache, j)
  {
    var f := Found(cache, k, false, 0);
    ReadFound(c, cache, k, j);
    LookupWithout(f, k, j);
    LookupPushed(Without(f, k), Entry(k, slot, 0), j);
    LookupFront([Entry(k, slot, 0)] + Without(f, k), c.max, j);
  }

  // ---- Safety for every capacity ----

  ghost predicate HasRunner<K, V>(s: State<K, V>, k: K) {
    exists t :: 0 <= t < |s.threads| && s.threads[t].Running? && s.threads[t].request.key == k
  }

  ghost predicate WasComputed<K, V>(s: State<K, V>, k: K, value: V, expire: int) {
    Result(k, value, expire) in s.completed
  }

  ghost predicate GoodSlot<K, V>(s: State<K, V>, k: K) {
    var e := Lookup(s.cache, k);
    e.Some? ==>
      && (e.value.value.inProgress ==> HasRunner(s, k))
      && (e.value.value.expire != 0 ==> WasComputed(s, k, e.value.value.value, e.value.value.expire))
  }

  // A blocked thread has a runner to wake it; a returned value was computed for that key
  // and, on a hit, had not expired when the call was made.
  ghost predicate GoodThread<K, V>(s: State<K, V>, t: nat)
    requires t < |s.threads|
  {
    match s.threads[t]
    case Waiting(r) => HasRunner(s, r.key)
    case Returned(r, v, hit) => exists expire :: WasComputed(s, r.key, v, expire) && (hit ==> r.now <= expire)
    case _ => true
  }

  ghost predicate Safe<K(!new), V>(s: State<K, V>) {
    && (forall k {:trigger GoodSlot(s, k)} :: GoodSlot(s, k))
    && (forall t {:trigger GoodThread(s, t)} :: 0 <= t < |s.threads| ==> GoodThread(s, t))
  }

  lemma InitialSafe<K(!new), V>(s: State<K, V>)
    requires Initial(s)
    ensures Safe(s)
  {
  }

  // s' has the runners and results of s, and perhaps more.
  ghost predicate Keeps<K(!new), V(!new)>(s: State<K, V>, s': State<K, V>) {
    && |s'.threads| == |s.threads|
    && (forall k :: HasRunner(s, k) ==> HasRunner(s', k))
    && (forall r :: r in s.completed ==> r in s'.completed)
  }

  lemma ThreadKept<K(!new), V(!new)>(s: State<K, V>, s': State<K, V>, t: nat)
    requires Keeps(s, s') && t < |s.threads| && GoodThread(s, t) && s'.threads[t] == s.threads[t]
    ensures GoodThread(s', t)
  {
    if s.threads[t].Returned? {
      var r, v, hit := s.threads[t].request, s.threads[t].value, s.threads[t].hit;
      var expire :| WasComputed(s, r.key, v, expire) && (hit ==> r.now <= expire);
      assert WasComputed(s', r.key, v, expire);
    }
  }

  // Replacing a thread that is not running keeps every runner.
  lemma ReplacedKeeps<K(!new), V(!new)>(s: State<K, V>, t: nat, th: Thread<K, V>, cache: Cache<K, V>)
    requires t < |s.threads| && !s.threads[t].Running?
    ensures Keeps(s, State(cache, s.threads[t := th], s.completed))
    ensures th.Running? ==> HasRunner(State(cache, s.threads[t := th], s.completed), th.request.key)
  {
    var s' := State(cache, s.threads[t := th], s.completed);
    forall k | HasRunner(s, k) ensures HasRunner(s', k) {
      var u :| 0 <= u < |s.threads| && s.threads[u].Running? && s.threads[u].request.key == k;
      assert s'.threads[u] == s.threads[u];
    }
    if th.Running? {
      assert s'.threads[t] == th;
    }
  }

  lemma EnterSafe<K(!new), V(!new)>(c: Config<V>, s: State<K, V>, t: nat)
    requires Safe(s) && t < |s.threads| && s.threads[t].Calling?
    ensures Safe(Enter(c, s, t))
  {
    var s' := Enter(c, s, t);
    var r := s.threads[t].request;
    var slot := Read(c, s.cache, r.key);
    var touched := Found(s.cache, r.key, false, 0);
    ReplacedKeeps(s, t, s'.threads[t], s'.cache);
    assert s' == State(s'.cache, s.threads[t := s'.threads[t]], s.completed);
    assert GoodSlot(s, r.key);
    forall k ensures GoodSlot(s', k) {
      assert GoodSlot(s, k);
      ReadFound(c, s.cache, r.key, k);
      ReadWritten(c, touched, r.key, slot.(inProgress := true), k);
    }
    forall u | 0 <= u < |s'.threads| ensures GoodThread(s', u) {
      if u != t {
        assert GoodThread(s, u);
        ThreadKept(s, s', u);
      } else if Judge(c, r, slot).Hit? {
        assert WasComputed(s', r.key, slot.value, slot.expire);
      }
    }
  }

  lemma FinishSafe<K(!new), V(!new)>(c: Config<V>, s: State<K, V>, t: nat, value: V)
    requires Safe(s) && t < |s.threads| && s.threads[t].Running?
    ensures Safe(Finish(c, s, t, value))
  {
    var s' := Finish(c, s, t, value);
    var r := s.threads[t].request;
    forall k ensures GoodSlot(s', k) {
      assert GoodSlot(s, k);
      ReadWritten(c, s.cache, r.key, Slot(r.now + c.ttl, false, value), k);
      if k != r.key && HasRunner(s, k) {
        var u :| 0 <= u < |s.threads| && s.threads[u].Running? && s.threads[u].request.key == k;
        assert s'.threads[u] == s.threads[u];
      }
    }
    forall u | 0 <= u < |s'.threads| ensures GoodThread(s', u) {
      assert GoodThread(s, u);
      if u == t {
        assert WasComputed(s', r.key, value, r.now + c.ttl);
      } else if s.threads[u].Returned? {
        var q, v, hit := s.threads[u].request, s.threads[u].value, s.threads[u].hit;
        var expire :| WasComputed(s, q.key, v, expire) && (hit ==> q.now <= expire);
        assert WasComputed(s', q.key, v, expire);
      }
    }
  }

  // Waking a thread, or starting a call.
  lemma ReplacedSafe<K(!new), V(!new)>(s: State<K, V>, t: nat, r: Request<K>)
    requires Safe(s) && t < |s.threads| && !s.threads[t].Running?
    ensures Safe(s.(threads := s.threads[t := Calling(r)]))
  {
    var s' := s.(threads := s.threads[t := Calling(r)]);
    ReplacedKeeps(s, t, Calling(r), s.cache);
    forall k ensures GoodSlot(s', k) {
      assert GoodSlot(s, k);
    }
    forall u | 0 <= u < |s'.threads| ensures GoodThread(s', u) {
      if u != t {
        assert GoodThread(s, u);
        ThreadKept(s, s', u);
      }
    }
  }

  lemma NextSafe<K(!new), V(!new)>(c: Config<V>, s: State<K, V>, s': State<K, V>)
    requires Safe(s) && Next(c, s, s')
    ensures Safe(s')
  {
    if EnterStep(c, s, s') {
      var t: nat :| t < |s.threads| && s.threads[t].Calling? && s' == Enter(c, s, t);
      EnterSafe(c, s, t);
    } else if FinishStep(c, s, s') {
      var t: nat, value: V :| t < |s.threads| && s.threads[t].Running? && s' == Finish(c, s, t, value);
      FinishSafe(c, s, t, value);
    } else if WakeStep(s, s') {
      var t: nat :| t < |s.threads| && s.threads[t].Waiting?
                    && s' == s.(threads := s.threads[t := Woken(s.threads[t])]);
      ReplacedSafe(s, t, s.threads[t].request);
    } else {
      var t: nat, r: Request<K> :| t < |s.threads| && (s.threads[t].Idle? || s.threads[t].Returned?)
                                   && s' == s.(threads := s.threads[t := Calling(r)]);
      ReplacedSafe(s, t, r);
    }
  }

  ghost predicate IsRun<K(!new), V(!new)>(c: Config<V>, run: seq<State<K, V>>) {
    run != [] && Initial(run[0]) && forall i :: 0 < i < |run| ==> Next(c, run[i - 1], run[i])
  }

  // Over every interleaving, whatever the capacity.
  lemma {:induction false} EveryRunIsSafe<K(!new), V(!new)>(c: Config<V>, run: seq<State<K, V>>)
    requires IsRun(c, run)
    ensures Safe(run[|run| - 1])
  {
    var n := |run| - 1;
    if n == 0 {
      InitialSafe(run[0]);
    } else {
      EveryRunIsSafe(c, run[..n]);
      assert Next(c, run[n - 1], run[n]);
      NextSafe(c, run[n - 1], run[n]);
    }
  }
}
