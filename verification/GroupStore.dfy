/**
 The group cache over disk, as steps on values: which groups are cached and in what
 recency order, which are dirty, which are known to have no file, and the files.

 A file is the map of entries it parses to.  Times are integers in microseconds.
 */
module GroupStore {
  import opened Wrappers
  import opened Sequences

  datatype Value = Value(data: string, time: int)

  type Contents = map<string, Value>

  // What one shard keeps in memory.
  datatype Shard = Shard(cache: map<string, Contents>, order: seq<string>, dirty: set<string>, notFound: set<string>)

  // A shard and the files.
  datatype Store = Store(shard: Shard, disk: map<string, Contents>)

  // Entries live maxLife seconds; a limit that is not positive means for ever.
  predicate Expired(life: int, v: Value, now: int) {
    life > 0 && now - v.time > life * 1000000
  }

  function Fresh(life: int, m: Contents, now: int): (r: Contents) {
    map k | k in m && !Expired(life, m[k], now) :: m[k]
  }

  function FileOf(disk: map<string, Contents>, g: string): (m: Contents) {
    if g in disk then disk[g] else map[]
  }

  // ---- Primitives ----

  // GetOrCreateCacheEntry, and the entry's new contents.
  function Put(sh: Shard, g: string, m: Contents): (r: Shard) {
    sh.(cache := sh.cache[g := m], order := [g] + Dropping(sh.order, g))
  }

  function SetDirty(sh: Shard, g: string): (r: Shard) {
    sh.(dirty := sh.dirty + {g})
  }

  // ReadGroup, for a group that is not cached.
  function ReadGroup(life: int, s: Store, g: string, now: int): (sh: Shard) {
    if g in s.shard.notFound then s.shard
    else if g !in s.disk then s.shard.(notFound := s.shard.notFound + {g})
    else
      var sh := Put(s.shard, g, Fresh(life, s.disk[g], now));
      if Fresh(life, s.disk[g], now) != s.disk[g] then SetDirty(sh, g) else sh
  }

  function Loaded(life: int, s: Store, g: string, now: int): (sh: Shard) {
    if g in s.shard.cache then s.shard else ReadGroup(life, s, g, now)
  }

  function Cached(sh: Shard, g: string): (m: Contents) {
    if g in sh.cache then sh.cache[g] else map[]
  }

  // ---- Operations ----

  function Insert(life: int, s: Store, g: string, k: string, v: Value, now: int): (r: Store) {
    var sh := Loaded(life, s, g, now);
    s.(shard := SetDirty(Put(sh, g, Cached(sh, g)[k := v]), g))
  }

  function Erase(life: int, s: Store, g: string, k: string, now: int): (r: Store) {
    var sh := Loaded(life, s, g, now);
    s.(shard := SetDirty(Put(sh, g, Cached(sh, g) - {k}), g))
  }

  function Find(life: int, s: Store, g: string, k: string, now: int): (r: Store) {
    var sh := Loaded(life, s, g, now);
    if g !in sh.cache then s.(shard := sh)
    else
      var m := sh.cache[g];
      if k in m && Expired(life, m[k], now) then s.(shard := SetDirty(Put(sh, g, m - {k}), g))
      else s.(shard := Put(sh, g, m))
  }

  function FindResult(life: int, s: Store, g: string, k: string, now: int): (v: Option<Value>) {
    var m := Cached(Loaded(life, s, g, now), g);
    if k in m && !Expired(life, m[k], now) then Some(m[k]) else None
  }

  // WriteGroup: only fresh entries are written, and a file without any is removed.
  function WriteGroup(life: int, s: Store, g: string, now: int): (r: Store) {
    var m := Fresh(life, Cached(s.shard, g), now);
    Store(s.shard.(notFound := s.shard.notFound - {g}), if m == map[] then s.disk - {g} else s.disk[g := m])
  }

  function FlushGroup(life: int, s: Store, g: string, now: int): (r: Store) {
    if g !in s.shard.dirty then s
    else
      var w := WriteGroup(life, s, g, now);
      w.(shard := w.shard.(dirty := w.shard.dirty - {g}))
  }

  // The files after the groups in done were written.
  function Written(life: int, sh: Shard, disk: map<string, Contents>, done: set<string>,
                   now: int): (r: map<string, Contents>) {
    (disk - done) + map g | g in done && Fresh(life, Cached(sh, g), now) != map[] :: Fresh(life, Cached(sh, g), now)
  }

  // flush: every dirty group written, nothing remembered as missing.
  function Flushed(life: int, s: Store, now: int): (r: Store) {
    Store(s.shard.(dirty := {}, notFound := {}), Written(life, s.shard, s.disk, s.shard.dirty, now))
  }

  // Forgetting which files are missing, which flush does at its end.
  function ForgetMissing(s: Store): (r: Store) {
    s.(shard := s.shard.(notFound := {}))
  }

  // Dropping the least recently used group, after writing it if it is dirty.
  function Evict(life: int, s: Store, now: int): (r: Store) {
    if s.shard.order == [] then s else
    var n := |s.shard.order| - 1;
    var f := FlushGroup(life, s, s.shard.order[n], now);
    f.(shard := f.shard.(cache := f.shard.cache - {s.shard.order[n]}, order := f.shard.order[..n]))
  }

  // Dropping everything, once nothing is dirty.
  function DropAll(s: Store): (r: Store) {
    s.(shard := s.shard.(cache := map[], order := []))
  }

  // ---- What the store means ----

  // The entry a reader sees: from the cached group if there is one, else from the file.
  function View(life: int, s: Store, g: string, k: string, now: int): (v: Option<Value>) {
    var m := if g in s.shard.cache then s.shard.cache[g] else FileOf(s.disk, g);
    if k in m && !Expired(life, m[k], now) then Some(m[k]) else None
  }

  ghost predicate OrderOf(order: seq<string>, groups: set<string>) {
    Distinct(order) && forall g :: g in order <==> g in groups
  }

  // A cached group that is not dirty agrees with its file on everything unexpired.
  ghost predicate CleanAgrees(life: int, s: Store, g: string, now: int) {
    g in s.shard.cache && g !in s.shard.dirty ==>
        Fresh(life, s.shard.cache[g], now) == Fresh(life, FileOf(s.disk, g), now)
  }

  ghost predicate Inv(life: int, s: Store, now: int) {
    && s.shard.dirty <= s.shard.cache.Keys
    && (forall g {:trigger CleanAgrees(life, s, g, now)} :: CleanAgrees(life, s, g, now))
    && s.shard.notFound !! s.disk.Keys
    && OrderOf(s.shard.order, s.shard.cache.Keys)
  }
}
