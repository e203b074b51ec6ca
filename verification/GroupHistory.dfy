/**
 What a find in the group cache returns, told from the history of calls alone; what the files hold
 after a flush, and which group is evicted.
 */
module GroupHistory {
  import opened Wrappers
  import opened Sequences
  import opened GroupStore
  import opened GroupRefines
  import opened GroupShards

  // ---- The value found ----

  // What the files hold at the start.
  ghost function OnDisk(sys: System): (m: Plain) {
    map p | p in (set g, k | g in sys.disk && k in sys.disk[g] :: (g, k)) :: sys.disk[p.0][p.1]
  }

  // No shard has read anything yet.
  ghost predicate IsNew(sys: System) {
    sys.shards != [] && forall i :: 0 <= i < |sys.shards| ==> sys.shards[i] == Shard(map[], [], {}, {})
  }

  // No insertion and no erasure at (g, k).
  ghost predicate LeavesAlone(actions: seq<Action>, g: string, k: string) {
    forall i :: 0 <= i < |actions| && (actions[i].InsertAt? || actions[i].EraseAt?) ==>
      actions[i].group != g || actions[i].key != k
  }

  // What a find returns after a number of actions.
  ghost function FindAfter(c: Setup, sys: System, actions: seq<Action>, g: string, k: string): (v: Option<Value>)
    requires sys.shards != []
  {
    var r := Ran(c, sys, actions);
    FindResult(c.life, StoreOf(r, Home(c, r, g)), g, k, r.now)
  }

  lemma {:induction false} LeftAlone(c: Setup, sys: System, m: Plain, before: seq<Action>, after: seq<Action>,
                                     g: string, k: string)
    requires sys.shards != [] && LeavesAlone(after, g, k)
    ensures var p, q := RanPlain(c, sys, m, before), RanPlain(c, sys, m, before + after);
            ((g, k) in q <==> (g, k) in p) && ((g, k) in p ==> q[(g, k)] == p[(g, k)])
    decreases |after|
  {
    if after == [] {
      assert before + after == before;
    } else {
      var n := |after| - 1;
      assert (before + after)[..|before| + n] == before + after[..n];
      LeftAlone(c, sys, m, before, after[..n], g, k);
    }
  }

  lemma NewIsStart(sys: System)
    requires IsNew(sys)
    ensures IsStart(sys, OnDisk(sys))
  {
  }

  // Whatever else was done, what was inserted last at time t and not erased is found exactly
  // while it is alive.
  lemma InsertedIsFound(c: Setup, sys: System, before: seq<Action>, g: string, k: string, d: string,
                        after: seq<Action>)
    requires IsNew(sys) && LeavesAlone(after, g, k)
    ensures var all := before + [InsertAt(g, k, d)] + after;
            var t, now := Ran(c, sys, before).now, Ran(c, sys, all).now;
            FindAfter(c, sys, all, g, k) ==
              if c.life <= 0 || now - t <= c.life * 1000000 then Some(Value(d, t)) else None
  {
    var m, first := OnDisk(sys), before + [InsertAt(g, k, d)];
    NewIsStart(sys);
    EveryRunIsAMap(c, sys, m, first + after, g, k);
    LeftAlone(c, sys, m, first, after, g, k);
    assert first[..|before|] == before;
  }

  // What was erased last is not found.
  lemma ErasedIsGone(c: Setup, sys: System, before: seq<Action>, g: string, k: string, after: seq<Action>)
    requires IsNew(sys) && LeavesAlone(after, g, k)
    ensures FindAfter(c, sys, before + [EraseAt(g, k)] + after, g, k) == None
  {
    var m, first := OnDisk(sys), before + [EraseAt(g, k)];
    NewIsStart(sys);
    EveryRunIsAMap(c, sys, m, first + after, g, k);
    LeftAlone(c, sys, m, first, after, g, k);
    assert first[..|before|] == before;
  }

  // What was neither is found as in the file of its group at the start, exactly while it is alive.
  lemma OtherwiseFromFile(c: Setup, sys: System, all: seq<Action>, g: string, k: string)
    requires IsNew(sys) && LeavesAlone(all, g, k)
    ensures FindAfter(c, sys, all, g, k) ==
            if g in sys.disk && k in sys.disk[g] then
              var v, now := sys.disk[g][k], Ran(c, sys, all).now;
              if c.life <= 0 || now - v.time <= c.life * 1000000 then Some(v) else None
            else None
  {
    var m := OnDisk(sys);
    NewIsStart(sys);
    EveryRunIsAMap(c, sys, m, all, g, k);
    LeftAlone(c, sys, m, [], all, g, k);
    assert [] + all == all;
  }

  // The time is the latest there was.
  lemma {:induction false} ClockIsLatest(c: Setup, sys: System, actions: seq<Action>)
    requires sys.shards != []
    ensures var now := Ran(c, sys, actions).now;
            && (now == sys.now || Tick(now) in actions) && sys.now <= now
            && forall t :: Tick(t) in actions ==> t <= now
  {
    if actions != [] {
      var n := |actions| - 1;
      ClockIsLatest(c, sys, actions[..n]);
      assert actions == actions[..n] + [actions[n]];
    }
  }

  // ---- The files ----

  // The file of a group after a flush: the entries still alive, and no file without any.
  ghost predicate IsFileOf(life: int, m: Contents, disk: map<string, Contents>, g: string, now: int) {
    && (g in disk <==> exists k :: k in m && (life <= 0 || now - m[k].time <= life * 1000000))
    && (g in disk ==> forall k ::
           && (k in disk[g] <==> k in m && (life <= 0 || now - m[k].time <= life * 1000000))
           && (k in disk[g] ==> disk[g][k] == m[k]))
  }

  lemma FreshFile(life: int, m: Contents, disk: map<string, Contents>, g: string, now: int)
    requires g in disk <==> Fresh(life, m, now) != map[]
    requires g in disk ==> disk[g] == Fresh(life, m, now)
    ensures IsFileOf(life, m, disk, g, now)
  {
    if Fresh(life, m, now) != map[] {
      var k :| k in Fresh(life, m, now);
      assert k in m && (life <= 0 || now - m[k].time <= life * 1000000);
    }
    if k :| k in m && (life <= 0 || now - m[k].time <= life * 1000000) {
      assert k in Fresh(life, m, now);
    }
  }

  // Flushing writes the dirty groups and no other file.
  lemma FlushedFiles(life: int, s: Store, now: int, g: string)
    requires Inv(life, s, now)
    ensures g in s.shard.dirty ==> g in s.shard.cache
    ensures var disk := Flushed(life, s, now).disk;
            if g in s.shard.dirty then IsFileOf(life, s.shard.cache[g], disk, g, now)
            else (g in disk <==> g in s.disk) && (g in disk ==> disk[g] == s.disk[g])
  {
    if g in s.shard.dirty {
      FreshFile(life, s.shard.cache[g], Flushed(life, s, now).disk, g, now);
    }
  }

  lemma FlushedFile(life: int, s: Store, g: string, now: int, h: string)
    requires Inv(life, s, now)
    ensures g in s.shard.dirty ==> g in s.shard.cache
    ensures var disk := FlushGroup(life, s, g, now).disk;
            if h == g && g in s.shard.dirty then IsFileOf(life, s.shard.cache[g], disk, g, now)
            else (h in disk <==> h in s.disk) && (h in disk ==> disk[h] == s.disk[h])
  {
    if g in s.shard.dirty {
      FreshFile(life, s.shard.cache[g], FlushGroup(life, s, g, now).disk, g, now);
    }
  }

  // ---- What reading and finding leave behind ----

  ghost predicate IsOld(life: int, v: Value, now: int) {
    life > 0 && now - v.time > life * 1000000
  }

  // A group is read from its file with the entries still alive, and is dirty exactly if there were
  // others; without a file it is marked as missing.
  lemma ReadingLeaves(life: int, s: Store, g: string, now: int)
    requires g !in s.shard.cache && g !in s.shard.notFound
    ensures var sh := ReadGroup(life, s, g, now);
            if g !in s.disk then sh == s.shard.(notFound := s.shard.notFound + {g})
            else
              && sh.cache.Keys == s.shard.cache.Keys + {g} && sh.notFound == s.shard.notFound
              && (forall k :: k in sh.cache[g] <==> k in s.disk[g] && !IsOld(life, s.disk[g][k], now))
              && (forall k :: k in sh.cache[g] ==> sh.cache[g][k] == s.disk[g][k])
              && sh.dirty == s.shard.dirty +
                   if exists k :: k in s.disk[g] && IsOld(life, s.disk[g][k], now) then {g} else {}
  {
    if g in s.disk {
      var m, f := s.disk[g], Fresh(life, s.disk[g], now);
      if k :| k in m && IsOld(life, m[k], now) {
        assert k !in f;
      } else {
        assert f == m;
      }
    }
  }

  // A find in a cached group takes out the entry if it is too old, and makes the group dirty; it
  // changes nothing else but the order.
  lemma FindingLeaves(life: int, s: Store, g: string, k: string, now: int)
    requires g in s.shard.cache
    ensures var sh, m := Find(life, s, g, k, now).shard, s.shard.cache[g];
            && (if k in m && IsOld(life, m[k], now)
                then sh.cache == s.shard.cache[g := m - {k}] && sh.dirty == s.shard.dirty + {g}
                else sh.cache == s.shard.cache && sh.dirty == s.shard.dirty)
            && sh.notFound == s.shard.notFound && Find(life, s, g, k, now).disk == s.disk
  {
  }

  // A new cache over the files.
  function Restarted(sys: System): (r: System)
    ensures |r.shards| == |sys.shards|
  {
    System(seq(|sys.shards|, _ => Shard(map[], [], {}, {})), sys.disk, sys.now)
  }

  // Once nothing is dirty, a new cache over the files reads the same.
  lemma CleanRestarts(c: Setup, sys: System, g: string, k: string)
    requires SysInv(c, sys) && forall i :: 0 <= i < |sys.shards| ==> sys.shards[i].dirty == {}
    ensures See(c, Restarted(sys), g, k) == See(c, sys, g, k)
  {
    var i := Home(c, sys, g);
    var s := StoreOf(sys, i);
    assert GoodShard(c, sys, i);
    if g in s.shard.cache {
      assert CleanAgrees(c.life, s, g, sys.now);
      CleanView(c.life, s, g, k, sys.now);
    }
  }

  // Flushing the first n shards.
  function Flushes(n: nat): (actions: seq<Action>)
    ensures |actions| == n
  {
    seq(n, i requires 0 <= i => Flush(i))
  }

  lemma {:induction false} FlushesClean(c: Setup, sys: System, actions: seq<Action>, n: nat)
    requires sys.shards != [] && n <= |sys.shards|
    ensures forall i :: 0 <= i < n ==> Ran(c, sys, actions + Flushes(n)).shards[i].dirty == {}
  {
    if n > 0 {
      FlushesClean(c, sys, actions, n - 1);
      var all := actions + Flushes(n);
      assert all[..|all| - 1] == actions + Flushes(n - 1);
      assert (n - 1) % |sys.shards| == n - 1 by {
        Below(n - 1, |sys.shards|);
      }
    }
  }

  lemma Below(i: nat, n: nat)
    requires i < n
    ensures i % n == i
  {
  }

  // Nothing is lost: after flushing all shards of a cache in any state it can be in, a new cache
  // over the files finds what the old one did.
  lemma FlushedSurvives(c: Setup, sys: System, actions: seq<Action>, g: string, k: string)
    requires IsNew(sys)
    ensures var r := Ran(c, sys, actions + Flushes(|sys.shards|));
            FindAfter(c, Restarted(r), [], g, k) == FindAfter(c, sys, actions, g, k)
  {
    var m, all := OnDisk(sys), actions + Flushes(|sys.shards|);
    var r := Ran(c, sys, all);
    NewIsStart(sys);
    RunAgrees(c, sys, m, all);
    FlushesClean(c, sys, actions, |sys.shards|);
    CleanRestarts(c, r, g, k);
    NewIsStart(Restarted(r));
    EveryRunIsAMap(c, Restarted(r), OnDisk(Restarted(r)), [], g, k);
    EveryRunIsAMap(c, sys, m, all, g, k);
    EveryRunIsAMap(c, sys, m, actions, g, k);
    LeftAlone(c, sys, m, actions, Flushes(|sys.shards|), g, k);
    FlushesAreInstant(c, sys, actions, |sys.shards|);
  }

  lemma FlushIsInstant(c: Setup, sys: System, i: nat)
    requires sys.shards != []
    ensures Apply(c, sys, Flush(i)).now == sys.now
  {
  }

  lemma FlushLast(c: Setup, sys: System, actions: seq<Action>, n: nat)
    requires sys.shards != [] && n > 0
    ensures Ran(c, sys, actions + Flushes(n)) == Apply(c, Ran(c, sys, actions + Flushes(n - 1)), Flush(n - 1))
  {
    var all := actions + Flushes(n);
    assert all[..|all| - 1] == actions + Flushes(n - 1);
  }

  lemma {:induction false} FlushesAreInstant(c: Setup, sys: System, actions: seq<Action>, n: nat)
    requires sys.shards != []
    ensures Ran(c, sys, actions + Flushes(n)).now == Ran(c, sys, actions).now
  {
    if n == 0 {
      assert actions + Flushes(0) == actions;
    } else {
      FlushesAreInstant(c, sys, actions, n - 1);
      FlushLast(c, sys, actions, n);
      FlushIsInstant(c, Ran(c, sys, actions + Flushes(n - 1)), n - 1);
    }
  }

  // ---- Which group is evicted ----

  ghost predicate Names(a: Action, g: string) {
    (a.InsertAt? || a.EraseAt? || a.FindAt?) && a.group == g
  }

  // The number of actions up to the last one that names the group.
  ghost function LastNamed(actions: seq<Action>, g: string): (n: nat)
    ensures n <= |actions|
  {
    if actions == [] then 0
    else if Names(actions[|actions| - 1], g) then |actions|
    else LastNamed(actions[..|actions| - 1], g)
  }

  ghost predicate ByRecency(order: seq<string>, actions: seq<Action>) {
    forall i, j :: 0 <= i < j < |order| ==> LastNamed(actions, order[j]) < LastNamed(actions, order[i])
  }

  // What an action does to the order of its shard.
  ghost predicate Reorders(a: Action, order: seq<string>, next: seq<string>) {
    if a.InsertAt? || a.EraseAt? || a.FindAt? then
      next == [a.group] + Dropping(order, a.group) || (next == order && a.group !in order)
    else |next| <= |order| && next == order[..|next|]
  }

  lemma TouchTwice(order: seq<string>, g: string)
    ensures [g] + Dropping([g] + Dropping(order, g), g) == [g] + Dropping(order, g)
  {
    assert ([g] + Dropping(order, g))[1..] == Dropping(order, g);
  }

  lemma DoReorders(life: int, s: Store, a: Action, now: int)
    requires Inv(life, s, now)
    ensures Reorders(a, s.shard.order, Do(life, s, a, now).shard.order)
  {
    var order := s.shard.order;
    assert order[..|order|] == order;
    if a.InsertAt? || a.EraseAt? || a.FindAt? {
      TouchTwice(order, a.group);
    } else if a.EvictFrom? && order != [] {
      assert Evict(life, s, now).shard.order == order[..|order| - 1];
    }
  }

  lemma ReordersByRecency(order: seq<string>, actions: seq<Action>, a: Action, next: seq<string>)
    requires Distinct(order) && ByRecency(order, actions) && Reorders(a, order, next)
    ensures ByRecency(next, actions + [a])
  {
    var all := actions + [a];
    assert all[..|actions|] == actions;
    forall g
      ensures LastNamed(all, g) == if Names(a, g) then |actions| + 1 else LastNamed(actions, g)
    {
    }
    if (a.InsertAt? || a.EraseAt? || a.FindAt?) && next != order {
      DroppedByRecency(order, actions, a.group);
    }
  }

  lemma WithoutOneByRecency(order: seq<string>, actions: seq<Action>, p: nat)
    requires p < |order| && ByRecency(order, actions)
    ensures ByRecency(order[..p] + order[p + 1..], actions)
  {
    var r := order[..p] + order[p + 1..];
    assert forall i :: 0 <= i < |r| ==> r[i] == order[if i < p then i else i + 1];
  }

  lemma DroppedByRecency(order: seq<string>, actions: seq<Action>, g: string)
    requires Distinct(order) && ByRecency(order, actions)
    ensures ByRecency(Dropping(order, g), actions) && g !in Dropping(order, g)
  {
    DroppingDistinct(order, g);
    if g in order {
      var p :| 0 <= p < |order| && order[p] == g;
      DroppingAt(order, p);
      WithoutOneByRecency(order, actions, p);
    } else {
      DroppingAbsent(order, g);
    }
  }

  // In every run each shard lists its groups by the last call that named them, latest first.
  lemma {:induction false} RunsByRecency(c: Setup, sys: System, actions: seq<Action>, i: nat)
    requires IsNew(sys) && i < |sys.shards|
    ensures ByRecency(Ran(c, sys, actions).shards[i].order, actions)
  {
    if actions != [] {
      var n := |actions| - 1;
      var s, a := Ran(c, sys, actions[..n]), actions[n];
      RunsByRecency(c, sys, actions[..n], i);
      NewIsStart(sys);
      RunAgrees(c, sys, OnDisk(sys), actions[..n]);
      assert GoodShard(c, s, i);
      assert actions == actions[..n] + [a];
      ApplyByRecency(c, s, actions[..n], a, i);
    }
  }

  lemma ApplyByRecency(c: Setup, s: System, actions: seq<Action>, a: Action, i: nat)
    requires s.shards != [] && i < |s.shards| && GoodShard(c, s, i) && ByRecency(s.shards[i].order, actions)
    ensures ByRecency(Apply(c, s, a).shards[i].order, actions + [a])
  {
    var order := s.shards[i].order;
    if !a.Tick? && Target(c, s, a) == i {
      DoReorders(c.life, StoreOf(s, i), a, s.now);
    } else {
      assert order[..|order|] == order;
    }
    ReordersByRecency(order, actions, a, Apply(c, s, a).shards[i].order);
  }

  lemma EvictTakesLast(life: int, s: Store, now: int)
    requires Inv(life, s, now) && s.shard.cache != map[]
    ensures s.shard.order != []
    ensures var g := s.shard.order[|s.shard.order| - 1];
            g in s.shard.cache && Evict(life, s, now).shard.cache == s.shard.cache - {g}
  {
    var g :| g in s.shard.cache;
    assert g in s.shard.order;
  }

  lemma LastIsOldest(order: seq<string>, groups: set<string>, actions: seq<Action>, h: string)
    requires OrderOf(order, groups) && ByRecency(order, actions) && h in groups && h != order[|order| - 1]
    ensures LastNamed(actions, order[|order| - 1]) < LastNamed(actions, h)
  {
    assert h in order;
    var j :| 0 <= j < |order| && order[j] == h;
  }

  // So the group that a shard evicts is the one of its groups that was named longest ago; it is
  // no longer cached, and every other group stays.
  lemma EvictsLeastRecent(c: Setup, sys: System, actions: seq<Action>, i: nat) returns (g: string)
    requires IsNew(sys) && i < |sys.shards| && Ran(c, sys, actions).shards[i].cache != map[]
    ensures var s, s' := Ran(c, sys, actions), Ran(c, sys, actions + [EvictFrom(i)]);
            && g in s.shards[i].cache && s'.shards[i].cache == s.shards[i].cache - {g}
            && forall h :: h in s.shards[i].cache && h != g ==> LastNamed(actions, g) < LastNamed(actions, h)
  {
    var s := Ran(c, sys, actions);
    var sh := s.shards[i];
    RunsByRecency(c, sys, actions, i);
    NewIsStart(sys);
    RunAgrees(c, sys, OnDisk(sys), actions);
    assert GoodShard(c, s, i);
    EvictTakesLast(c.life, StoreOf(s, i), s.now);
    g := sh.order[|sh.order| - 1];
    Below(i, |sys.shards|);
    assert (actions + [EvictFrom(i)])[..|actions|] == actions;
    forall h | h in sh.cache && h != g
      ensures LastNamed(actions, g) < LastNamed(actions, h)
    {
      LastIsOldest(sh.order, sh.cache.Keys, actions, h);
    }
  }
}
