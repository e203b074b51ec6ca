/**
 The sharded group cache: shards share the disk and each takes the groups that hash to it.
 Over every run of operations, flushes, evictions and clock ticks, it is a key-value map.
 */
module GroupShards {
  import opened Wrappers
  import opened GroupStore
  import opened GroupRefines

  datatype Setup = Setup(life: int, hash: string -> nat)

  datatype System = System(shards: seq<Shard>, disk: map<string, Contents>, now: int)

  // GroupToShard.  A cache without local shards is the case of a single one.
  function Home(c: Setup, sys: System, g: string): (i: nat)
    requires sys.shards != []
    ensures i < |sys.shards|
  {
    c.hash(g) % |sys.shards|
  }

  function StoreOf(sys: System, i: nat): (s: Store)
    requires i < |sys.shards|
  {
    Store(sys.shards[i], sys.disk)
  }

  function With(sys: System, i: nat, s: Store): (r: System)
    requires i < |sys.shards|
  {
    sys.(shards := sys.shards[i := s.shard], disk := s.disk)
  }

  // What a reader sees at (g, k).
  function See(c: Setup, sys: System, g: string, k: string): (v: Option<Value>)
    requires sys.shards != []
  {
    View(c.life, StoreOf(sys, Home(c, sys, g)), g, k, sys.now)
  }

  // ---- Invariant ----

  // A shard knows only groups that hash to it.
  ghost predicate Local(c: Setup, n: nat, i: nat, sh: Shard)
    requires 0 < n
  {
    forall g :: g in sh.cache || g in sh.notFound ==> c.hash(g) % n == i
  }

  ghost predicate GoodShard(c: Setup, sys: System, i: nat)
    requires i < |sys.shards|
  {
    Inv(c.life, StoreOf(sys, i), sys.now) && Local(c, |sys.shards|, i, sys.shards[i])
  }

  ghost predicate SysInv(c: Setup, sys: System) {
    sys.shards != [] && forall i {:trigger GoodShard(c, sys, i)} :: 0 <= i < |sys.shards| ==> GoodShard(c, sys, i)
  }

  // A step of shard i: it stays local and touches only its own files.
  ghost predicate Stays(c: Setup, n: nat, i: nat, s: Store, s': Store)
    requires 0 < n
  {
    && Local(c, n, i, s'.shard)
    && forall g :: c.hash(g) % n != i ==> (g in s'.disk <==> g in s.disk) && (g in s.disk ==> s'.disk[g] == s.disk[g])
  }

  lemma OthersUnaffected(c: Setup, sys: System, i: nat, s': Store, j: nat)
    requires SysInv(c, sys) && i < |sys.shards| && j < |sys.shards| && i != j
    requires Stays(c, |sys.shards|, i, StoreOf(sys, i), s')
    ensures GoodShard(c, With(sys, i, s'), j)
  {
    var s, t := StoreOf(sys, j), StoreOf(With(sys, i, s'), j);
    assert GoodShard(c, sys, j);
    forall g ensures CleanAgrees(c.life, t, g, sys.now) {
      assert CleanAgrees(c.life, s, g, sys.now);
    }
  }

  lemma StepKeeps(c: Setup, sys: System, i: nat, s': Store)
    requires SysInv(c, sys) && i < |sys.shards|
    requires Stays(c, |sys.shards|, i, StoreOf(sys, i), s') && Inv(c.life, s', sys.now)
    ensures SysInv(c, With(sys, i, s'))
  {
    var sys' := With(sys, i, s');
    forall j | 0 <= j < |sys'.shards| ensures GoodShard(c, sys', j) {
      if j != i {
        OthersUnaffected(c, sys, i, s', j);
      } else {
        assert StoreOf(sys', i) == s';
      }
    }
  }

  // Groups of other shards read as before.
  lemma OthersSeeTheSame(c: Setup, sys: System, i: nat, s': Store, g: string, k: string)
    requires SysInv(c, sys) && i < |sys.shards| && Home(c, sys, g) != i
    requires Stays(c, |sys.shards|, i, StoreOf(sys, i), s')
    ensures See(c, With(sys, i, s'), g, k) == See(c, sys, g, k)
  {
  }

  lemma HomeSees(c: Setup, sys: System, i: nat, s': Store, g: string, k: string)
    requires SysInv(c, sys) && i < |sys.shards| && Home(c, sys, g) == i
    ensures See(c, With(sys, i, s'), g, k) == View(c.life, s', g, k, sys.now)
    ensures See(c, sys, g, k) == View(c.life, StoreOf(sys, i), g, k, sys.now)
  {
    assert StoreOf(With(sys, i, s'), i) == s';
  }

  // ---- Actions ----

  datatype Action =
    | InsertAt(group: string, key: string, data: string)
    | EraseAt(group: string, key: string)
    | FindAt(group: string, key: string)
    | FlushOne(group: string)
    | Flush(shard: nat)
    | Forget(shard: nat)
    | Clear(shard: nat)
    | EvictFrom(shard: nat)
    | Tick(later: int)

  // The shard an action works on.
  function Target(c: Setup, sys: System, a: Action): (i: nat)
    requires sys.shards != []
    ensures i < |sys.shards|
  {
    match a
    case InsertAt(g, _, _) => Home(c, sys, g)
    case EraseAt(g, _) => Home(c, sys, g)
    case FindAt(g, _) => Home(c, sys, g)
    case FlushOne(g) => Home(c, sys, g)
    case Flush(i) => i % |sys.shards|
    case Forget(i) => i % |sys.shards|
    case Clear(i) => i % |sys.shards|
    case EvictFrom(i) => i % |sys.shards|
    case Tick(_) => 0
  }

  // The action inside its shard.
  function Do(life: int, s: Store, a: Action, now: int): (s': Store) {
    match a
    case InsertAt(g, k, d) => Insert(life, s, g, k, Value(d, now), now)
    case EraseAt(g, k) => Erase(life, s, g, k, now)
    case FindAt(g, k) => Find(life, s, g, k, now)
    case FlushOne(g) => FlushGroup(life, s, g, now)
    case Flush(_) => Flushed(life, s, now)
    case Forget(_) => ForgetMissing(s)
    case Clear(_) => DropAll(Flushed(life, s, now))
    case EvictFrom(_) => Evict(life, s, now)
    case Tick(_) => s
  }

  function Apply(c: Setup, sys: System, a: Action): (sys': System)
    requires sys.shards != []
    ensures |sys'.shards| == |sys.shards|
  {
    if a.Tick? then if a.later < sys.now then sys else sys.(now := a.later)
    else
      var i := Target(c, sys, a);
      With(sys, i, Do(c.life, StoreOf(sys, i), a, sys.now))
  }

  // ---- One action ----

  // What readers see at (g, k) after an action, given what they saw before.
  function After(v: Option<Value>, a: Action, g: string, k: string, now: int): (r: Option<Value>) {
    match a
    case InsertAt(h, j, d) => if h == g && j == k then Some(Value(d, now)) else v
    case EraseAt(h, j) => if h == g && j == k then None else v
    case _ => v
  }

  lemma DoRefines(life: int, s: Store, a: Action, now: int)
    requires Inv(life, s, now)
    ensures Inv(life, Do(life, s, a, now), now)
    ensures forall g, k {:trigger View(life, Do(life, s, a, now), g, k, now)} ::
              View(life, Do(life, s, a, now), g, k, now) == After(View(life, s, g, k, now), a, g, k, now)
  {
    match a
    case InsertAt(g, k, d) => InsertRefines(life, s, g, k, Value(d, now), now);
    case EraseAt(g, k) => EraseRefines(life, s, g, k, now);
    case FindAt(g, k) => FindRefines(life, s, g, k, now);
    case FlushOne(g) => FlushGroupRefines(life, s, g, now);
    case Flush(_) => FlushRefines(life, s, now);
    case Forget(_) => ForgetMissingRefines(life, s, now);
    case Clear(_) => ClearRefines(life, s, now);
    case EvictFrom(_) => if s.shard.order != [] { EvictRefines(life, s, now); }
    case Tick(_) =>
  }

  lemma ClearRefines(life: int, s: Store, now: int)
    requires Inv(life, s, now)
    ensures Inv(life, DropAll(Flushed(life, s, now)), now)
    ensures SameView(life, s, DropAll(Flushed(life, s, now)), now)
  {
    var f := Flushed(life, s, now);
    FlushRefines(life, s, now);
    DropAllRefines(life, f, now);
    forall h, j ensures View(life, DropAll(f), h, j, now) == View(life, s, h, j, now) {
      assert View(life, f, h, j, now) == View(life, s, h, j, now);
    }
  }

  lemma DoStays(c: Setup, sys: System, a: Action)
    requires SysInv(c, sys)
    ensures var i := Target(c, sys, a);
            var s := StoreOf(sys, i);
            Inv(c.life, s, sys.now) && Stays(c, |sys.shards|, i, s, Do(c.life, s, a, sys.now))
  {
    var i := Target(c, sys, a);
    var s := StoreOf(sys, i);
    assert GoodShard(c, sys, i);
    match a
    case InsertAt(g, k, d) => LoadedLocal(c, |sys.shards|, i, s, g, sys.now);
    case EraseAt(g, k) => LoadedLocal(c, |sys.shards|, i, s, g, sys.now);
    case FindAt(g, k) => LoadedLocal(c, |sys.shards|, i, s, g, sys.now);
    case FlushOne(g) =>
    case Flush(_) =>
    case Forget(_) =>
    case Clear(_) =>
    case EvictFrom(_) => if s.shard.order != [] { assert s.shard.order[|s.shard.order| - 1] in s.shard.cache; }
    case Tick(_) =>
  }

  lemma LoadedLocal(c: Setup, n: nat, i: nat, s: Store, g: string, now: int)
    requires 0 < n && Local(c, n, i, s.shard) && c.hash(g) % n == i
    ensures Local(c, n, i, Loaded(c.life, s, g, now))
  {
  }

  lemma ApplyRefines(c: Setup, sys: System, a: Action, g: string, k: string)
    requires SysInv(c, sys) && !a.Tick?
    ensures SysInv(c, Apply(c, sys, a))
    ensures See(c, Apply(c, sys, a), g, k) == After(See(c, sys, g, k), a, g, k, sys.now)
  {
    var i := Target(c, sys, a);
    var s := StoreOf(sys, i);
    DoStays(c, sys, a);
    var s' := Do(c.life, s, a, sys.now);
    DoRefines(c.life, s, a, sys.now);
    StepKeeps(c, sys, i, s');
    if Home(c, sys, g) == i {
      HomeSees(c, sys, i, s', g, k);
    } else {
      OthersSeeTheSame(c, sys, i, s', g, k);
    }
  }

  lemma TickApplies(c: Setup, sys: System, later: int, g: string, k: string)
    requires SysInv(c, sys) && sys.now <= later
    ensures SysInv(c, sys.(now := later))
    ensures See(c, sys.(now := later), g, k) ==
            (match See(c, sys, g, k) case None => None case Some(v) => Unexpired(c.life, v, later))
  {
    var sys' := sys.(now := later);
    forall i | 0 <= i < |sys.shards| ensures GoodShard(c, sys', i) {
      assert GoodShard(c, sys, i);
      TickRefines(c.life, StoreOf(sys, i), g, k, sys.now, later);
    }
    assert GoodShard(c, sys, Home(c, sys, g));
    TickRefines(c.life, StoreOf(sys, Home(c, sys, g)), g, k, sys.now, later);
  }

  // ---- Whole runs ----

  type Plain = map<(string, string), Value>

  // What the map holds at (g, k) for a reader at the given time.
  function PlainSee(life: int, m: Plain, g: string, k: string, now: int): (v: Option<Value>) {
    if (g, k) in m then Unexpired(life, m[(g, k)], now) else None
  }

  function PlainApply(m: Plain, a: Action, now: int): (r: Plain) {
    match a
    case InsertAt(g, k, d) => m[(g, k) := Value(d, now)]
    case EraseAt(g, k) => m - {(g, k)}
    case _ => m
  }

  ghost predicate Agree(c: Setup, sys: System, m: Plain)
    requires sys.shards != []
  {
    forall g, k {:trigger See(c, sys, g, k)} :: See(c, sys, g, k) == PlainSee(c.life, m, g, k, sys.now)
  }

  lemma ApplyAgrees(c: Setup, sys: System, m: Plain, a: Action)
    requires SysInv(c, sys) && Agree(c, sys, m)
    ensures SysInv(c, Apply(c, sys, a)) && Agree(c, Apply(c, sys, a), PlainApply(m, a, sys.now))
  {
    var sys' := Apply(c, sys, a);
    assert SysInv(c, sys') by {
      if !a.Tick? {
        ApplyRefines(c, sys, a, "", "");
      } else if sys.now <= a.later {
        TickApplies(c, sys, a.later, "", "");
      }
    }
    forall g, k ensures See(c, sys', g, k) == PlainSee(c.life, PlainApply(m, a, sys.now), g, k, sys'.now) {
      assert See(c, sys, g, k) == PlainSee(c.life, m, g, k, sys.now);
      if a.Tick? {
        if sys.now <= a.later {
          TickApplies(c, sys, a.later, g, k);
        }
      } else {
        ApplyRefines(c, sys, a, g, k);
      }
    }
  }

  // A new cache over any files, and a map of what they hold.
  ghost predicate IsStart(sys: System, m: Plain) {
    && sys.shards != [] && (forall i :: 0 <= i < |sys.shards| ==> sys.shards[i] == Shard(map[], [], {}, {}))
    && (forall g, k :: (g, k) in m <==> g in sys.disk && k in sys.disk[g])
    && (forall g, k :: g in sys.disk && k in sys.disk[g] ==> m[(g, k)] == sys.disk[g][k])
  }

  // It starts out agreeing with the files.
  lemma StartAgrees(c: Setup, sys: System, m: Plain)
    requires IsStart(sys, m)
    ensures SysInv(c, sys) && Agree(c, sys, m)
  {
    forall i | 0 <= i < |sys.shards| ensures GoodShard(c, sys, i) {
    }
    forall g, k ensures See(c, sys, g, k) == PlainSee(c.life, m, g, k, sys.now) {
      assert (g, k) in m <==> g in sys.disk && k in sys.disk[g];
    }
  }

  // What the cache and the map are after a number of actions.
  function Ran(c: Setup, sys: System, actions: seq<Action>): (r: System)
    requires sys.shards != []
    ensures |r.shards| == |sys.shards|
  {
    if actions == [] then sys else
      var n := |actions| - 1;
      Apply(c, Ran(c, sys, actions[..n]), actions[n])
  }

  function RanPlain(c: Setup, sys: System, m: Plain, actions: seq<Action>): (r: Plain)
    requires sys.shards != []
  {
    if actions == [] then m else
      var n := |actions| - 1;
      PlainApply(RanPlain(c, sys, m, actions[..n]), actions[n], Ran(c, sys, actions[..n]).now)
  }

  lemma {:induction false} RunAgrees(c: Setup, sys: System, m: Plain, actions: seq<Action>)
    requires IsStart(sys, m)
    ensures SysInv(c, Ran(c, sys, actions)) && Agree(c, Ran(c, sys, actions), RanPlain(c, sys, m, actions))
  {
    if actions == [] {
      StartAgrees(c, sys, m);
    } else {
      var n := |actions| - 1;
      RunAgrees(c, sys, m, actions[..n]);
      ApplyAgrees(c, Ran(c, sys, actions[..n]), RanPlain(c, sys, m, actions[..n]), actions[n]);
    }
  }

  // Whatever is done to a new cache, it stays the map, and every find returns what the map
  // holds.
  lemma EveryRunIsAMap(c: Setup, sys: System, m: Plain, actions: seq<Action>, g: string, k: string)
    requires IsStart(sys, m)
    ensures var r, n := Ran(c, sys, actions), RanPlain(c, sys, m, actions);
            && Agree(c, r, n)
            && FindResult(c.life, StoreOf(r, Home(c, r, g)), g, k, r.now) == PlainSee(c.life, n, g, k, r.now)
  {
    var r := Ran(c, sys, actions);
    RunAgrees(c, sys, m, actions);
    assert GoodShard(c, r, Home(c, r, g));
    assert See(c, r, g, k) == PlainSee(c.life, RanPlain(c, sys, m, actions), g, k, r.now);
    FindRefines(c.life, StoreOf(r, Home(c, r, g)), g, k, r.now);
  }
}
