/**
 The group cache object (one shard): its containers, updated in place, and the disk.

 Every method is tied to the step of GroupStore it performs.  The clock is an argument.
 */
module GroupCacheObject {
  import opened Wrappers
  import opened Sequences
  import opened GroupStore
  import opened GroupRefines

  class Disk {
    var files: map<string, Contents>

    constructor ()
      ensures files == map[]
    {
      files := map[];
    }
  }

  // The unexpired entries, one by one, and whether any was left out.
  method FreshEntries(life: int, m: Contents, now: int) returns (r: Contents, stale: bool)
    ensures r == Fresh(life, m, now)
    ensures stale <==> Fresh(life, m, now) != m
  {
    r, stale := map[], false;
    var todo := m.Keys;
    while todo != {}
      invariant todo <= m.Keys
      invariant r == map k | k in m && k !in todo && !Expired(life, m[k], now) :: m[k]
      invariant stale <==> exists k :: k in m && k !in todo && Expired(life, m[k], now)
      decreases |todo|
    {
      var k :| k in todo;
      todo := todo - {k};
      if Expired(life, m[k], now) {
        stale := true;
      } else {
        r := r[k := m[k]];
      }
    }
    if stale {
      var k :| k in m && Expired(life, m[k], now);
      assert k !in r;
    }
  }

  // The file of one group after the groups in done were written.
  lemma WrittenAt(life: int, sh: Shard, disk: map<string, Contents>, done: set<string>, g: string, now: int)
    ensures var w, m := Written(life, sh, disk, done, now), Fresh(life, Cached(sh, g), now);
            && (g in w <==> if g in done then m != map[] else g in disk)
            && (g in w ==> w[g] == if g in done then m else disk[g])
  {
  }

  lemma WrittenOneMore(life: int, sh: Shard, disk: map<string, Contents>, done: set<string>, g: string, now: int)
    requires g !in done
    ensures var m, w := Fresh(life, Cached(sh, g), now), Written(life, sh, disk, done, now);
            Written(life, sh, disk, done + {g}, now) == if m == map[] then w - {g} else w[g := m]
  {
    var m, w := Fresh(life, Cached(sh, g), now), Written(life, sh, disk, done, now);
    var more, next := Written(life, sh, disk, done + {g}, now), if m == map[] then w - {g} else w[g := m];
    forall h
      ensures (h in more <==> h in next) && (h in more ==> more[h] == next[h])
    {
      WrittenAt(life, sh, disk, done, h, now);
      WrittenAt(life, sh, disk, done + {g}, h, now);
    }
  }

  // After flushing the groups in done.
  ghost function PartFlushed(life: int, s: Store, done: set<string>, now: int): (r: Store) {
    Store(s.shard.(dirty := s.shard.dirty - done, notFound := s.shard.notFound - done),
          Written(life, s.shard, s.disk, done, now))
  }

  lemma FlushNone(life: int, s: Store, now: int)
    ensures PartFlushed(life, s, {}, now) == s
  {
  }

  lemma FlushOneMore(life: int, s: Store, todo: set<string>, g: string, now: int)
    requires todo <= s.shard.dirty && g in todo
    ensures FlushGroup(life, PartFlushed(life, s, s.shard.dirty - todo, now), g, now) ==
              PartFlushed(life, s, s.shard.dirty - (todo - {g}), now)
  {
    var done := s.shard.dirty - todo;
    assert s.shard.dirty - (todo - {g}) == done + {g};
    WrittenOneMore(life, s.shard, s.disk, done, g, now);
    assert s.shard.dirty - (done + {g}) == s.shard.dirty - done - {g};
    assert s.shard.notFound - (done + {g}) == s.shard.notFound - done - {g};
  }

  lemma FlushEverything(life: int, s: Store, now: int)
    ensures ForgetMissing(PartFlushed(life, s, s.shard.dirty - {}, now)) == Flushed(life, s, now)
  {
    assert s.shard.dirty - {} == s.shard.dirty;
  }

  class GroupCache {
    const disk: Disk
    const life: int
    var cache: map<string, Contents>
    var order: seq<string>
    var dirty: set<string>
    var notFound: set<string>

    ghost function State(): (s: Store)
      reads this, disk
    {
      Store(Shard(cache, order, dirty, notFound), disk.files)
    }

    constructor (disk: Disk, life: int)
      ensures this.disk == disk && this.life == life
      ensures State() == Store(Shard(map[], [], {}, {}), disk.files)
    {
      this.disk, this.life := disk, life;
      cache, order, dirty, notFound := map[], [], {}, {};
    }

    // Moves a group to the front, creating it if necessary, and sets its contents.
    method PutEntry(g: string, m: Contents)
      requires OrderOf(order, cache.Keys)
      modifies this
      ensures State() == old(State()).(shard := Put(old(State()).shard, g, m))
    {
      if g !in cache {
        DroppingAbsent(order, g);
        order := [g] + order;
      } else {
        order := [g] + Dropping(order, g);
      }
      cache := cache[g := m];
    }

    method Read(g: string, now: int) returns (found: bool)
      requires Inv(life, State(), now) && g !in cache
      modifies this
      ensures State() == old(State()).(shard := ReadGroup(life, old(State()), g, now))
      ensures found <==> g in disk.files && g !in old(notFound)
    {
      if g in notFound {
        return false;
      } else if g !in disk.files {
        notFound := notFound + {g};
        return false;
      }
      var m, stale := FreshEntries(life, disk.files[g], now);
      PutEntry(g, m);
      if stale {
        dirty := dirty + {g};
      }
      return true;
    }

    method Load(g: string, now: int)
      requires Inv(life, State(), now)
      modifies this
      ensures State() == old(State()).(shard := Loaded(life, old(State()), g, now))
      ensures OrderOf(order, cache.Keys)
    {
      LoadedKeeps(life, State(), g, now);
      if g !in cache {
        var _ := Read(g, now);
      }
    }

    method InsertEntry(g: string, k: string, v: Value, now: int)
      requires Inv(life, State(), now)
      modifies this
      ensures State() == Insert(life, old(State()), g, k, v, now)
    {
      Load(g, now);
      dirty := dirty + {g};
      PutEntry(g, (if g in cache then cache[g] else map[])[k := v]);
    }

    method EraseEntry(g: string, k: string, now: int)
      requires Inv(life, State(), now)
      modifies this
      ensures State() == Erase(life, old(State()), g, k, now)
    {
      Load(g, now);
      PutEntry(g, (if g in cache then cache[g] else map[]) - {k});
      dirty := dirty + {g};
    }

    method FindEntry(g: string, k: string, now: int) returns (v: Option<Value>)
      requires Inv(life, State(), now)
      modifies this
      ensures State() == Find(life, old(State()), g, k, now)
      ensures v == View(life, old(State()), g, k, now)
      ensures v.Some? ==> life <= 0 || now - v.value.time <= life * 1000000
    {
      FindRefines(life, State(), g, k, now);
      Load(g, now);
      if g !in cache {
        return None;
      }
      var m := cache[g];
      if k in m && Expired(life, m[k], now) {
        PutEntry(g, m - {k});
        dirty := dirty + {g};
        return None;
      }
      PutEntry(g, m);
      v := if k in m then Some(m[k]) else None;
    }

    method Write(g: string, now: int)
      requires g in cache
      modifies this, disk
      ensures State() == WriteGroup(life, old(State()), g, now)
    {
      var m, _ := FreshEntries(life, cache[g], now);
      disk.files := if m == map[] then disk.files - {g} else disk.files[g := m];
      notFound := notFound - {g};
    }

    method FlushEntry(g: string, now: int)
      requires dirty <= cache.Keys
      modifies this, disk
      ensures State() == FlushGroup(life, old(State()), g, now)
    {
      if g in dirty {
        Write(g, now);
        dirty := dirty - {g};
      }
    }

    // The number of groups written.
    method FlushAll(now: int) returns (n: nat)
      requires dirty <= cache.Keys
      modifies this, disk
      ensures State() == Flushed(life, old(State()), now) && n == |old(dirty)|
    {
      ghost var s := State();
      var todo := dirty;
      n := |dirty|;
      FlushNone(life, s, now);
      assert dirty - dirty == {};
      while todo != {}
        invariant todo <= s.shard.dirty
        invariant State() == PartFlushed(life, s, s.shard.dirty - todo, now)
        decreases |todo|
      {
        var g :| g in todo;
        FlushOneMore(life, s, todo, g, now);
        FlushEntry(g, now);
        todo := todo - {g};
      }
      FlushEverything(life, s, now);
      notFound := {};
    }

    method ClearAll(now: int) returns (n: nat)
      requires dirty <= cache.Keys
      modifies this, disk
      ensures State() == DropAll(Flushed(life, old(State()), now)) && n == |old(dirty)|
    {
      n := FlushAll(now);
      cache, order := map[], [];
    }

    // One round of the background thread.
    method EvictLast(now: int)
      requires Inv(life, State(), now) && order != []
      modifies this, disk
      ensures State() == Evict(life, old(State()), now)
    {
      var g := order[|order| - 1];
      FlushEntry(g, now);
      cache := cache - {g};
      order := order[..|order| - 1];
    }
  }
}
