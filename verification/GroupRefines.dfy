/**
 Each operation of the group cache keeps the store invariant and changes what readers see
 exactly as the same operation on a plain key-value map would.
 */
module GroupRefines {
  import opened Wrappers
  import opened Sequences
  import opened GroupStore

  // What readers see is the same in both stores, except perhaps at (g, k), where it is v.
  ghost predicate SameBut(life: int, s: Store, s': Store, g: string, k: string, v: Option<Value>, now: int) {
    forall h, j {:trigger View(life, s', h, j, now)} ::
      View(life, s', h, j, now) == if h == g && j == k then v else View(life, s, h, j, now)
  }

  ghost predicate SameView(life: int, s: Store, s': Store, now: int) {
    forall h, j {:trigger View(life, s', h, j, now)} :: View(life, s', h, j, now) == View(life, s, h, j, now)
  }

  // ---- Recency order ----

  lemma PutOrder(sh: Shard, g: string, m: Contents)
    requires OrderOf(sh.order, sh.cache.Keys)
    ensures OrderOf(Put(sh, g, m).order, Put(sh, g, m).cache.Keys)
  {
    DroppingDistinct(sh.order, g);
    var r := Dropping(sh.order, g);
    assert forall j :: 0 <= j < |r| ==> r[j] in r;
  }

  // ---- Storing a group ----

  // Putting new contents and marking the group dirty.
  lemma PutDirty(life: int, s: Store, g: string, m: Contents, now: int)
    requires Inv(life, s, now)
    ensures Inv(life, s.(shard := SetDirty(Put(s.shard, g, m), g)), now)
  {
    var s' := s.(shard := SetDirty(Put(s.shard, g, m), g));
    PutOrder(s.shard, g, m);
    forall h ensures CleanAgrees(life, s', h, now) {
      assert CleanAgrees(life, s, h, now);
    }
  }

  // Touching a cached group without changing it.
  lemma PutSame(life: int, s: Store, g: string, now: int)
    requires Inv(life, s, now) && g in s.shard.cache
    ensures Inv(life, s.(shard := Put(s.shard, g, s.shard.cache[g])), now)
    ensures SameView(life, s, s.(shard := Put(s.shard, g, s.shard.cache[g])), now)
  {
    var s' := s.(shard := Put(s.shard, g, s.shard.cache[g]));
    PutOrder(s.shard, g, s.shard.cache[g]);
    forall h ensures CleanAgrees(life, s', h, now) {
      assert CleanAgrees(life, s, h, now);
    }
  }

  // ---- Loading a group ----

  lemma ReadKeeps(life: int, s: Store, g: string, now: int)
    requires Inv(life, s, now) && g !in s.shard.cache
    ensures Inv(life, s.(shard := ReadGroup(life, s, g, now)), now)
  {
    var s' := s.(shard := ReadGroup(life, s, g, now));
    if g !in s.shard.notFound && g in s.disk {
      PutOrder(s.shard, g, Fresh(life, s.disk[g], now));
    }
    forall h ensures CleanAgrees(life, s', h, now) {
      assert CleanAgrees(life, s, h, now);
    }
  }

  lemma ReadView(life: int, s: Store, g: string, now: int)
    requires Inv(life, s, now) && g !in s.shard.cache
    ensures SameView(life, s, s.(shard := ReadGroup(life, s, g, now)), now)
    ensures g !in ReadGroup(life, s, g, now).cache ==> g !in s.disk
  {
  }

  lemma LoadedKeeps(life: int, s: Store, g: string, now: int)
    requires Inv(life, s, now)
    ensures Inv(life, s.(shard := Loaded(life, s, g, now)), now)
    ensures SameView(life, s, s.(shard := Loaded(life, s, g, now)), now)
    ensures g !in Loaded(life, s, g, now).cache ==> g !in s.disk
  {
    if g !in s.shard.cache {
      ReadKeeps(life, s, g, now);
      ReadView(life, s, g, now);
    } else {
      assert s.(shard := s.shard) == s;
    }
  }

  // ---- Operations ----

  function Unexpired(life: int, v: Value, now: int): (r: Option<Value>) {
    if Expired(life, v, now) then None else Some(v)
  }

  lemma InsertRefines(life: int, s: Store, g: string, k: string, v: Value, now: int)
    requires Inv(life, s, now)
    ensures Inv(life, Insert(life, s, g, k, v, now), now)
    ensures SameBut(life, s, Insert(life, s, g, k, v, now), g, k, Unexpired(life, v, now), now)
  {
    var t := s.(shard := Loaded(life, s, g, now));
    LoadedKeeps(life, s, g, now);
    PutDirty(life, t, g, Cached(t.shard, g)[k := v], now);
    var s' := Insert(life, s, g, k, v, now);
    forall h, j
      ensures View(life, s', h, j, now) ==
                if h == g && j == k then Unexpired(life, v, now) else View(life, s, h, j, now)
    {
      assert View(life, t, h, j, now) == View(life, s, h, j, now);
    }
  }

  lemma EraseRefines(life: int, s: Store, g: string, k: string, now: int)
    requires Inv(life, s, now)
    ensures Inv(life, Erase(life, s, g, k, now), now)
    ensures SameBut(life, s, Erase(life, s, g, k, now), g, k, None, now)
  {
    var t := s.(shard := Loaded(life, s, g, now));
    LoadedKeeps(life, s, g, now);
    PutDirty(life, t, g, Cached(t.shard, g) - {k}, now);
    var s' := Erase(life, s, g, k, now);
    forall h, j ensures View(life, s', h, j, now) == if h == g && j == k then None else View(life, s, h, j, now) {
      assert View(life, t, h, j, now) == View(life, s, h, j, now);
    }
  }

  // Finding returns what readers see and changes none of it.
  lemma FindRefines(life: int, s: Store, g: string, k: string, now: int)
    requires Inv(life, s, now)
    ensures Inv(life, Find(life, s, g, k, now), now)
    ensures SameView(life, s, Find(life, s, g, k, now), now)
    ensures FindResult(life, s, g, k, now) == View(life, s, g, k, now)
  {
    var t := s.(shard := Loaded(life, s, g, now));
    LoadedKeeps(life, s, g, now);
    assert View(life, t, g, k, now) == View(life, s, g, k, now);
    if g in t.shard.cache {
      FindCached(life, t, g, k, now);
      forall h, j ensures View(life, Find(life, s, g, k, now), h, j, now) == View(life, s, h, j, now) {
        assert View(life, t, h, j, now) == View(life, s, h, j, now);
      }
    }
  }

  // Finding in a group that is cached.
  lemma FindCached(life: int, t: Store, g: string, k: string, now: int)
    requires Inv(life, t, now) && g in t.shard.cache
    ensures Inv(life, Find(life, t, g, k, now), now)
    ensures SameView(life, t, Find(life, t, g, k, now), now)
  {
    var m := t.shard.cache[g];
    if k in m && Expired(life, m[k], now) {
      PutDirty(life, t, g, m - {k}, now);
    } else {
      PutSame(life, t, g, now);
    }
  }

  lemma FlushGroupRefines(life: int, s: Store, g: string, now: int)
    requires Inv(life, s, now)
    ensures Inv(life, FlushGroup(life, s, g, now), now)
    ensures SameView(life, s, FlushGroup(life, s, g, now), now)
    ensures FlushGroup(life, s, g, now).shard.dirty == s.shard.dirty - {g}
  {
    var s' := FlushGroup(life, s, g, now);
    if g in s.shard.dirty {
      var m := Fresh(life, s.shard.cache[g], now);
      assert Fresh(life, m, now) == m;
      forall h ensures CleanAgrees(life, s', h, now) {
        assert CleanAgrees(life, s, h, now);
      }
      forall h, j ensures View(life, s', h, j, now) == View(life, s, h, j, now) {
      }
    }
  }

  lemma FlushRefines(life: int, s: Store, now: int)
    requires Inv(life, s, now)
    ensures Inv(life, Flushed(life, s, now), now)
    ensures SameView(life, s, Flushed(life, s, now), now)
  {
    var s' := Flushed(life, s, now);
    forall h ensures CleanAgrees(life, s', h, now) {
      assert CleanAgrees(life, s, h, now);
      if h in s.shard.dirty {
        FreshLater(life, s.shard.cache[h], now, now);
        assert FileOf(s'.disk, h) == Fresh(life, s.shard.cache[h], now);
      } else {
        assert FileOf(s'.disk, h) == FileOf(s.disk, h);
      }
    }
  }

  // Dropping the last group of the order, once it is clean.
  function DropLast(s: Store): (r: Store)
    requires s.shard.order != []
  {
    var n := |s.shard.order| - 1;
    s.(shard := s.shard.(cache := s.shard.cache - {s.shard.order[n]}, order := s.shard.order[..n]))
  }

  lemma DropLastRefines(life: int, s: Store, now: int)
    requires Inv(life, s, now) && s.shard.order != [] && s.shard.order[|s.shard.order| - 1] !in s.shard.dirty
    ensures Inv(life, DropLast(s), now)
    ensures SameView(life, s, DropLast(s), now)
  {
    var g, s' := s.shard.order[|s.shard.order| - 1], DropLast(s);
    EvictOrder(s.shard.order, s.shard.cache.Keys);
    forall h ensures CleanAgrees(life, s', h, now) {
      assert CleanAgrees(life, s, h, now);
    }
    forall h, j ensures View(life, s', h, j, now) == View(life, s, h, j, now) {
      if h == g && g in s.shard.cache {
        assert CleanAgrees(life, s, g, now);
        CleanView(life, s, g, j, now);
      }
    }
  }

  lemma EvictRefines(life: int, s: Store, now: int)
    requires Inv(life, s, now) && s.shard.order != []
    ensures Inv(life, Evict(life, s, now), now)
    ensures SameView(life, s, Evict(life, s, now), now)
  {
    var f := FlushGroup(life, s, s.shard.order[|s.shard.order| - 1], now);
    FlushGroupRefines(life, s, s.shard.order[|s.shard.order| - 1], now);
    DropLastRefines(life, f, now);
    assert Evict(life, s, now) == DropLast(f);
    forall h, j ensures View(life, DropLast(f), h, j, now) == View(life, s, h, j, now) {
      assert View(life, f, h, j, now) == View(life, s, h, j, now);
    }
  }

  lemma EvictOrder(order: seq<string>, groups: set<string>)
    requires OrderOf(order, groups) && order != []
    ensures OrderOf(order[..|order| - 1], groups - {order[|order| - 1]})
  {
    var n := |order| - 1;
    forall h ensures h in order[..n] <==> h in groups - {order[n]} {
      if h in order && h != order[n] {
        var i :| 0 <= i < |order| && order[i] == h;
        assert order[..n][i] == h;
      }
    }
  }

  // A clean cached group reads the same from its file.
  lemma CleanView(life: int, s: Store, g: string, k: string, now: int)
    requires CleanAgrees(life, s, g, now) && g in s.shard.cache && g !in s.shard.dirty
    ensures View(life, s, g, k, now) == View(life, s.(shard := s.shard.(cache := s.shard.cache - {g})), g, k, now)
  {
    var m, f := Fresh(life, s.shard.cache[g], now), Fresh(life, FileOf(s.disk, g), now);
    assert k in m <==> k in f;
  }

  lemma ForgetMissingRefines(life: int, s: Store, now: int)
    requires Inv(life, s, now)
    ensures Inv(life, ForgetMissing(s), now) && SameView(life, s, ForgetMissing(s), now)
  {
    forall h ensures CleanAgrees(life, ForgetMissing(s), h, now) {
      assert CleanAgrees(life, s, h, now);
    }
  }

  lemma DropAllRefines(life: int, s: Store, now: int)
    requires Inv(life, s, now) && s.shard.dirty == {}
    ensures Inv(life, DropAll(s), now) && SameView(life, s, DropAll(s), now)
  {
    forall h, j ensures View(life, DropAll(s), h, j, now) == View(life, s, h, j, now) {
      if h in s.shard.cache {
        assert CleanAgrees(life, s, h, now);
        CleanView(life, s, h, j, now);
      }
    }
  }

  // Time passing only makes entries expire.
  lemma TickRefines(life: int, s: Store, g: string, k: string, now: int, later: int)
    requires Inv(life, s, now) && now <= later
    ensures Inv(life, s, later)
    ensures View(life, s, g, k, later) ==
            (match View(life, s, g, k, now) case None => None case Some(v) => Unexpired(life, v, later))
  {
    forall h ensures CleanAgrees(life, s, h, later) {
      assert CleanAgrees(life, s, h, now);
      if h in s.shard.cache && h !in s.shard.dirty {
        FreshLater(life, s.shard.cache[h], now, later);
        FreshLater(life, FileOf(s.disk, h), now, later);
      }
    }
  }

  lemma FreshLater(life: int, m: Contents, now: int, later: int)
    requires now <= later
    ensures Fresh(life, Fresh(life, m, now), later) == Fresh(life, m, later)
  {
  }
}
