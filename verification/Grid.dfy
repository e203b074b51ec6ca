/**
 Looking up the places around a point: nine cells of a grid instead of all places.

 Coordinates are whole numbers, degrees times a multiplier.  A cell number is a coordinate
 divided by the grid size, truncated toward zero.
 */
module Grid {
  import opened Sequences
  import opened KeyIndex

  // Places are told apart by identity, as pointers are.
  datatype Place = Place(id: nat, lat: int, lon: int)

  // The grid sizes, the number of places kept per cell, and the distance on the surface.
  datatype Params = Params(latSize: int, lonSize: int, maxItems: int, distance: ((int, int), Place) -> real)

  ghost predicate Sized(p: Params) {
    p.latSize > 0 && p.lonSize > 0
  }

  // ---- Cells ----

  // Division as in C.
  function Truncated(a: int, size: int): (q: int)
    requires size > 0
  {
    if a >= 0 then a / size else -(-a / size)
  }

  lemma Multiples(q: int, size: int)
    requires size > 0
    ensures q >= 1 ==> q * size >= size
    ensures q <= -1 ==> q * size <= -size
  {
    if q >= 1 {
      assert q * size == size + (q - 1) * size;
    } else if q <= -1 {
      assert q * size == -size + (q + 1) * size;
    }
  }

  lemma Quotient(a: nat, size: nat, q: int)
    requires size > 0 && q == a / size
    ensures 0 <= q && q * size <= a < q * size + size
  {
    assert a == q * size + a % size;
    Multiples(q, size);
  }

  // Truncation toward zero, on either side.
  ghost predicate Cuts(a: int, size: int, q: int) {
    if a >= 0 then 0 <= q && q * size <= a < q * size + size else q <= 0 && q * size - size < a <= q * size
  }

  lemma TruncatedCuts(a: int, size: int)
    requires size > 0
    ensures Cuts(a, size, Truncated(a, size))
  {
    if a >= 0 {
      Quotient(a, size, a / size);
    } else {
      var q := -a / size;
      Quotient(-a, size, q);
      assert (-q) * size == -(q * size);
    }
  }

  // Cell zero is twice as wide as the others, less one.
  lemma ZeroCell(a: int, size: int)
    requires size > 0
    ensures Truncated(a, size) == 0 <==> -size < a < size
  {
    TruncatedCuts(a, size);
    Multiples(Truncated(a, size), size);
  }

  // Points less than one grid size apart lie in the same or in neighbouring cells.
  lemma NearMeansNeighbours(a: int, b: int, size: int)
    requires size > 0 && -size < a - b < size
    ensures -1 <= Truncated(a, size) - Truncated(b, size) <= 1
  {
    TruncatedCuts(a, size);
    TruncatedCuts(b, size);
    CutsNear(a, b, size, Truncated(a, size), Truncated(b, size));
  }

  lemma CutsNear(a: int, b: int, size: int, q: int, r: int)
    requires size > 0 && -size < a - b < size && Cuts(a, size, q) && Cuts(b, size, r)
    ensures -1 <= q - r <= 1
  {
    Multiples(q - r - 1, size);
    Multiples(q - r + 1, size);
    assert (q - r - 1) * size == q * size - r * size - size;
    assert (q - r + 1) * size == q * size - r * size + size;
  }

  // Points of neighbouring cells are less than three grid sizes apart.
  lemma NeighboursAreWithinThree(a: int, b: int, size: int)
    requires size > 0 && -1 <= Truncated(a, size) - Truncated(b, size) <= 1
    ensures -3 * size + 2 <= a - b <= 3 * size - 2
  {
    TruncatedCuts(a, size);
    TruncatedCuts(b, size);
    CutsWithinThree(a, b, size, Truncated(a, size), Truncated(b, size));
  }

  lemma CutsWithinThree(a: int, b: int, size: int, q: int, r: int)
    requires size > 0 && -1 <= q - r <= 1 && Cuts(a, size, q) && Cuts(b, size, r)
    ensures -3 * size + 2 <= a - b <= 3 * size - 2
  {
    Multiples(q, size);
    Multiples(r, size);
    Multiples(q - r, size);
    assert (q - r) * size == q * size - r * size;
    assert q - r == 1 ==> (q - r) * size == size;
    assert q - r == -1 ==> (q - r) * size == -size;
  }

  // The bound is met: at both ends of cell zero and of its neighbour.
  lemma ThreeSizesAreReached(size: int)
    requires size > 0
    ensures Truncated(2 * size - 1, size) - Truncated(1 - size, size) <= 1
    ensures (2 * size - 1) - (1 - size) == 3 * size - 2
  {
    var q := Truncated(2 * size - 1, size);
    TruncatedCuts(2 * size - 1, size);
    ZeroCell(1 - size, size);
    Multiples(q - 1, size);
    assert (q - 1) * size == q * size - size;
  }

  function CellOf(p: Params, lat: int, lon: int): (c: (int, int))
    requires Sized(p)
  {
    (Truncated(lat, p.latSize), Truncated(lon, p.lonSize))
  }

  function CellOfPlace(p: Params, x: Place): (c: (int, int))
    requires Sized(p)
  {
    CellOf(p, x.lat, x.lon)
  }

  // ---- The full scan ----

  predicate Near(p: Params, at: (int, int), x: Place) {
    -p.latSize < x.lat - at.0 < p.latSize && -p.lonSize < x.lon - at.1 < p.lonSize
  }

  predicate Close(p: Params, at: (int, int), radius: real, x: Place) {
    Near(p, at, x) && p.distance(at, x) <= radius
  }

  function Scan(p: Params, at: (int, int), radius: real, places: seq<Place>): (r: seq<(Place, real)>) {
    if places == [] then []
    else
      var x := places[|places| - 1];
      Scan(p, at, radius, places[..|places| - 1]) + if Close(p, at, radius, x) then [(x, p.distance(at, x))] else []
  }

  lemma {:induction false} ScanAppend(p: Params, at: (int, int), radius: real, a: seq<Place>, b: seq<Place>)
    ensures Scan(p, at, radius, a + b) == Scan(p, at, radius, a) + Scan(p, at, radius, b)
    decreases |b|
  {
    if b == [] {
      assert a + b == a;
    } else {
      assert (a + b)[..|a + b| - 1] == a + b[..|b| - 1];
      ScanAppend(p, at, radius, a, b[..|b| - 1]);
    }
  }

  function Reported(result: seq<(Place, real)>, p: Params, at: (int, int), radius: real,
                    places: seq<Place>): (r: seq<(Place, real)>) {
    result + Scan(p, at, radius, places)
  }

  lemma ReportedAppend(result: seq<(Place, real)>, p: Params, at: (int, int), radius: real, a: seq<Place>,
                       b: seq<Place>)
    ensures Reported(Reported(result, p, at, radius, a), p, at, radius, b) == Reported(result, p, at, radius, a + b)
  {
    ScanAppend(p, at, radius, a, b);
  }

  // How often a pair is reported, from how often its place is listed.
  lemma {:induction false} ScanCount(p: Params, at: (int, int), radius: real, places: seq<Place>, e: (Place, real))
    ensures multiset(Scan(p, at, radius, places))[e] ==
              if Close(p, at, radius, e.0) && e.1 == p.distance(at, e.0) then multiset(places)[e.0] else 0
  {
    if places != [] {
      var n := |places| - 1;
      ScanCount(p, at, radius, places[..n], e);
      assert places == places[..n] + [places[n]];
    }
  }

  // ---- The nine cells ----

  // Some of the three cells of one row, from left to right.
  ghost function Row(m: map<(int, int), seq<Place>>, lat: int, lon: int, n: nat): (r: seq<Place>) {
    if n == 0 then [] else Row(m, lat, lon, n - 1) + Entries(m, (lat, lon + n - 2))
  }

  ghost function Rows(m: map<(int, int), seq<Place>>, cell: (int, int), n: nat, width: nat): (r: seq<Place>) {
    if n == 0 then [] else Rows(m, cell, n - 1, width) + Row(m, cell.0 + n - 2, cell.1, width)
  }

  // The nine cells around and including one.
  ghost function Nine(m: map<(int, int), seq<Place>>, cell: (int, int)): (r: seq<Place>) {
    Rows(m, cell, 3, 3)
  }

  // Every place is filed under its own cell, once.
  ghost predicate InPlace(p: Params, m: map<(int, int), seq<Place>>)
    requires Sized(p)
  {
    Proper(m, p.maxItems) && forall k, x :: k in m && x in m[k] ==> CellOfPlace(p, x) == k
  }

  // Whether the index lists a place.
  ghost predicate Listed(p: Params, m: map<(int, int), seq<Place>>, x: Place)
    requires Sized(p)
  {
    x in Entries(m, CellOfPlace(p, x))
  }

  lemma {:induction false} DistinctCount(s: seq<Place>, x: Place)
    requires Distinct(s)
    ensures multiset(s)[x] == if x in s then 1 else 0
  {
    if s != [] {
      var n := |s| - 1;
      assert s == s[..n] + [s[n]];
      DistinctCount(s[..n], x);
    }
  }

  // The value x is filed once under one key if it is listed at all, and under no other.
  ghost predicate OnlyUnder(m: map<(int, int), seq<Place>>, x: Place, key: (int, int), listed: bool) {
    forall k :: Names(Entries(m, k), x, k == key && listed)
  }

  lemma ListedOnce(p: Params, m: map<(int, int), seq<Place>>, x: Place)
    requires Sized(p) && InPlace(p, m)
    ensures OnlyUnder(m, x, CellOfPlace(p, x), Listed(p, m, x))
  {
    forall k
      ensures Names(Entries(m, k), x, k == CellOfPlace(p, x) && Listed(p, m, x))
    {
      DistinctCount(Entries(m, k), x);
    }
  }

  // A list names x once, or not at all.
  ghost predicate Names(s: seq<Place>, x: Place, once: bool) {
    multiset(s)[x] == if once then 1 else 0
  }

  lemma NamesAppended(a: seq<Place>, b: seq<Place>, c: seq<Place>, x: Place, inA: bool, inB: bool, inC: bool)
    requires c == a + b && Names(a, x, inA) && Names(b, x, inB) && !(inA && inB) && inC == (inA || inB)
    ensures Names(c, x, inC)
  {
  }

  predicate InRow(key: (int, int), lat: int, lon: int, n: nat, listed: bool) {
    listed && key.0 == lat && lon - 2 < key.1 <= lon + n - 2
  }

  lemma {:induction false} RowCount(m: map<(int, int), seq<Place>>, lat: int, lon: int, n: nat, x: Place,
                                    key: (int, int), listed: bool)
    requires OnlyUnder(m, x, key, listed)
    ensures Names(Row(m, lat, lon, n), x, InRow(key, lat, lon, n, listed))
  {
    if n > 0 {
      RowCount(m, lat, lon, n - 1, x, key, listed);
      var k := (lat, lon + n - 2);
      assert InRow(key, lat, lon, n, listed) <==> InRow(key, lat, lon, n - 1, listed) || (k == key && listed);
      NamesAppended(Row(m, lat, lon, n - 1), Entries(m, k), Row(m, lat, lon, n), x,
                    InRow(key, lat, lon, n - 1, listed), k == key && listed, InRow(key, lat, lon, n, listed));
    }
  }

  predicate InRows(key: (int, int), cell: (int, int), n: nat, width: nat, listed: bool) {
    listed && cell.0 - 2 < key.0 <= cell.0 + n - 2 && cell.1 - 2 < key.1 <= cell.1 + width - 2
  }

  // A new row is disjoint from the rows before it.
  lemma RowAdded(key: (int, int), cell: (int, int), n: nat, width: nat, listed: bool)
    requires n > 0
    ensures InRows(key, cell, n, width, listed) ==
              (InRows(key, cell, n - 1, width, listed) || InRow(key, cell.0 + n - 2, cell.1, width, listed))
    ensures !(InRows(key, cell, n - 1, width, listed) && InRow(key, cell.0 + n - 2, cell.1, width, listed))
  {
  }

  ghost predicate RowsNamed(m: map<(int, int), seq<Place>>, lon: int, width: nat, x: Place, key: (int, int),
                            listed: bool) {
    forall lat :: Names(Row(m, lat, lon, width), x, InRow(key, lat, lon, width, listed))
  }

  lemma {:induction false} RowsCount(m: map<(int, int), seq<Place>>, cell: (int, int), n: nat, width: nat, x: Place,
                                     key: (int, int), listed: bool)
    requires RowsNamed(m, cell.1, width, x, key, listed)
    ensures Names(Rows(m, cell, n, width), x, InRows(key, cell, n, width, listed))
  {
    if n > 0 {
      RowsCount(m, cell, n - 1, width, x, key, listed);
      RowAdded(key, cell, n, width, listed);
      var row := Row(m, cell.0 + n - 2, cell.1, width);
      NamesAppended(Rows(m, cell, n - 1, width), row, Rows(m, cell, n, width), x,
                    InRows(key, cell, n - 1, width, listed), InRow(key, cell.0 + n - 2, cell.1, width, listed),
                    InRows(key, cell, n, width, listed));
    }
  }

  lemma RowsList(p: Params, m: map<(int, int), seq<Place>>, cell: (int, int), x: Place)
    requires Sized(p) && InPlace(p, m)
    ensures Names(Nine(m, cell), x, InRows(CellOfPlace(p, x), cell, 3, 3, Listed(p, m, x)))
  {
    ListedOnce(p, m, x);
    forall lat
      ensures Names(Row(m, lat, cell.1, 3), x, InRow(CellOfPlace(p, x), lat, cell.1, 3, Listed(p, m, x)))
    {
      RowCount(m, lat, cell.1, 3, x, CellOfPlace(p, x), Listed(p, m, x));
    }
    RowsCount(m, cell, 3, 3, x, CellOfPlace(p, x), Listed(p, m, x));
  }

  // The nine cells report each close place the index lists, once, and nothing else.
  lemma NineCellsSuffice(p: Params, m: map<(int, int), seq<Place>>, at: (int, int), radius: real, e: (Place, real))
    requires Sized(p) && InPlace(p, m)
    ensures multiset(Scan(p, at, radius, Nine(m, CellOf(p, at.0, at.1))))[e] ==
      var (x, d) := e;
      if Listed(p, m, x) && -p.latSize < x.lat - at.0 < p.latSize && -p.lonSize < x.lon - at.1 < p.lonSize
        && d == p.distance(at, x) && d <= radius
      then 1 else 0
  {
    var x := e.0;
    ScanCount(p, at, radius, Nine(m, CellOf(p, at.0, at.1)), e);
    RowsList(p, m, CellOf(p, at.0, at.1), x);
    if Near(p, at, x) {
      NearMeansNeighbours(x.lat, at.0, p.latSize);
      NearMeansNeighbours(x.lon, at.1, p.lonSize);
    }
  }

  // A result gains each place around a point that the index lists, once, and nothing else.
  ghost predicate Gains(p: Params, m: map<(int, int), seq<Place>>, at: (int, int), radius: real,
                        result: seq<(Place, real)>, r: seq<(Place, real)>)
    requires Sized(p)
  {
    forall x: Place, d: real :: multiset(r)[(x, d)] == multiset(result)[(x, d)] +
      if Listed(p, m, x) && -p.latSize < x.lat - at.0 < p.latSize && -p.lonSize < x.lon - at.1 < p.lonSize
        && d == p.distance(at, x) && d <= radius
      then 1 else 0
  }

  lemma NineCellsGain(p: Params, m: map<(int, int), seq<Place>>, at: (int, int), radius: real,
                      result: seq<(Place, real)>)
    requires Sized(p)
    ensures var r := Reported(result, p, at, radius, Nine(m, CellOf(p, at.0, at.1)));
            InPlace(p, m) ==> Gains(p, m, at, radius, result, r)
  {
    var found := Scan(p, at, radius, Nine(m, CellOf(p, at.0, at.1)));
    forall x: Place, d: real | InPlace(p, m)
      ensures multiset(result + found)[(x, d)] == multiset(result)[(x, d)] +
        if Listed(p, m, x) && -p.latSize < x.lat - at.0 < p.latSize && -p.lonSize < x.lon - at.1 < p.lonSize
          && d == p.distance(at, x) && d <= radius
        then 1 else 0
    {
      NineCellsSuffice(p, m, at, radius, (x, d));
    }
  }

  // The places the nine cells hold are less than three grid sizes away in both directions.
  lemma NineCellsAreNear(p: Params, m: map<(int, int), seq<Place>>, at: (int, int), x: Place)
    requires Sized(p) && InPlace(p, m) && x in Nine(m, CellOf(p, at.0, at.1))
    ensures -3 * p.latSize < x.lat - at.0 < 3 * p.latSize && -3 * p.lonSize < x.lon - at.1 < 3 * p.lonSize
  {
    RowsList(p, m, CellOf(p, at.0, at.1), x);
    NeighboursAreWithinThree(x.lat, at.0, p.latSize);
    NeighboursAreWithinThree(x.lon, at.1, p.lonSize);
  }

  // ---- Building the index ----

  // The distinct places of one cell, in storage order.
  ghost function CellList(p: Params, storage: seq<Place>, k: (int, int)): (r: seq<Place>)
    requires Sized(p)
  {
    if storage == [] then []
    else
      var x, before := storage[|storage| - 1], CellList(p, storage[..|storage| - 1], k);
      if CellOfPlace(p, x) == k && x !in before then before + [x] else before
  }

  lemma {:induction false} CellListHas(p: Params, storage: seq<Place>, k: (int, int))
    requires Sized(p)
    ensures Distinct(CellList(p, storage, k))
    ensures forall x :: x in CellList(p, storage, k) <==> x in storage && CellOfPlace(p, x) == k
  {
    if storage != [] {
      var n := |storage| - 1;
      CellListHas(p, storage[..n], k);
      assert storage == storage[..n] + [storage[n]];
    }
  }

  function Capped(s: seq<Place>, cap: int): (r: seq<Place>) {
    if 0 < cap < |s| then s[..cap] else s
  }

  // The index after adding the first n stored places to an empty one.
  function Built(p: Params, storage: seq<Place>, n: nat): (m: map<(int, int), seq<Place>>)
    requires Sized(p) && n <= |storage|
  {
    if n == 0 then map[]
    else Filed(Built(p, storage, n - 1), CellOfPlace(p, storage[n - 1]), storage[n - 1], p.maxItems)
  }

  lemma CappedStep(s: seq<Place>, x: Place, cap: int)
    requires x !in s
    ensures Capped(s + [x], cap) == Appended(Capped(s, cap), x, cap)
  {
  }

  lemma CappedAgain(s: seq<Place>, x: Place, cap: int)
    requires x in s
    ensures Appended(Capped(s, cap), x, cap) == Capped(s, cap)
  {
  }

  // Each cell lists the first of its places, as many as the cap allows.
  lemma {:induction false} BuiltEntries(p: Params, storage: seq<Place>, n: nat, k: (int, int))
    requires Sized(p) && n <= |storage|
    ensures Entries(Built(p, storage, n), k) == Capped(CellList(p, storage[..n], k), p.maxItems)
  {
    if n > 0 {
      var x, before := storage[n - 1], storage[..n - 1];
      BuiltEntries(p, storage, n - 1, k);
      FiledEntries(Built(p, storage, n - 1), CellOfPlace(p, x), x, p.maxItems, k);
      assert storage[..n][..n - 1] == before;
      if CellOfPlace(p, x) == k {
        if x in CellList(p, before, k) {
          CappedAgain(CellList(p, before, k), x, p.maxItems);
        } else {
          CappedStep(CellList(p, before, k), x, p.maxItems);
        }
      }
    }
  }

  lemma {:induction false} BuiltInPlace(p: Params, storage: seq<Place>, n: nat)
    requires Sized(p) && n <= |storage|
    ensures InPlace(p, Built(p, storage, n))
  {
    if n > 0 {
      BuiltInPlace(p, storage, n - 1);
      FiledIsProper(Built(p, storage, n - 1), CellOfPlace(p, storage[n - 1]), storage[n - 1], p.maxItems);
    }
  }

  // It reports each stored place once that is less than a grid size away in both directions and
  // within the radius, with its distance, and nothing else.
  ghost predicate IsLookup(p: Params, storage: seq<Place>, at: (int, int), radius: real, r: seq<(Place, real)>) {
    forall x: Place, d: real :: multiset(r)[(x, d)] ==
      if x in storage && -p.latSize < x.lat - at.0 < p.latSize && -p.lonSize < x.lon - at.1 < p.lonSize
        && d == p.distance(at, x) && d <= radius
      then 1 else 0
  }

  lemma NineCellsLookUp(p: Params, storage: seq<Place>, at: (int, int), radius: real)
    requires Sized(p) && p.maxItems <= 0
    ensures var m := Built(p, storage, |storage|);
            IsLookup(p, storage, at, radius, Scan(p, at, radius, Nine(m, CellOf(p, at.0, at.1))))
  {
    forall x: Place, d: real
      ensures multiset(Scan(p, at, radius, Nine(Built(p, storage, |storage|), CellOf(p, at.0, at.1))))[(x, d)] ==
        if x in storage && -p.latSize < x.lat - at.0 < p.latSize && -p.lonSize < x.lon - at.1 < p.lonSize
          && d == p.distance(at, x) && d <= radius
        then 1 else 0
    {
      BuiltInPlace(p, storage, |storage|);
      NineCellsSuffice(p, Built(p, storage, |storage|), at, radius, (x, d));
      BuiltEntries(p, storage, |storage|, CellOfPlace(p, x));
      CellListHas(p, storage, CellOfPlace(p, x));
      assert storage[..|storage|] == storage;
    }
  }

  // With no cap the nine cells report what a scan of all stored places reports.
  lemma LookupIsAFullScan(p: Params, storage: seq<Place>, at: (int, int), radius: real, e: (Place, real))
    requires Sized(p) && p.maxItems <= 0
    ensures multiset(Scan(p, at, radius, Nine(Built(p, storage, |storage|), CellOf(p, at.0, at.1))))[e] ==
      if multiset(Scan(p, at, radius, storage))[e] > 0 then 1 else 0
  {
    NineCellsLookUp(p, storage, at, radius);
    ScanCount(p, at, radius, storage, e);
    var (x, d) := e;
  }

  // The index lists every stored place exactly when no cell holds more places than the cap.
  lemma ListsAllIffWithinCap(p: Params, storage: seq<Place>)
    requires Sized(p)
    ensures (forall x :: x in storage ==> Listed(p, Built(p, storage, |storage|), x))
      <==> (p.maxItems <= 0 || forall x :: x in storage ==> |CellList(p, storage, CellOfPlace(p, x))| <= p.maxItems)
  {
    var m, cap := Built(p, storage, |storage|), p.maxItems;
    assert storage[..|storage|] == storage;
    forall x | x in storage
      ensures Listed(p, m, x) <==> x in Capped(CellList(p, storage, CellOfPlace(p, x)), cap)
      ensures x in CellList(p, storage, CellOfPlace(p, x))
    {
      BuiltEntries(p, storage, |storage|, CellOfPlace(p, x));
      CellListHas(p, storage, CellOfPlace(p, x));
    }
    forall x | x in storage && 0 < cap < |CellList(p, storage, CellOfPlace(p, x))|
      ensures exists y :: y in storage && !Listed(p, m, y)
    {
      CutOff(p, storage, CellOfPlace(p, x));
    }
  }

  lemma CutOff(p: Params, storage: seq<Place>, k: (int, int))
    requires Sized(p) && 0 < p.maxItems < |CellList(p, storage, k)|
    ensures exists y :: y in storage && !Listed(p, Built(p, storage, |storage|), y)
  {
    var s := CellList(p, storage, k);
    var y := s[p.maxItems];
    CellListHas(p, storage, k);
    BuiltEntries(p, storage, |storage|, k);
    assert storage[..|storage|] == storage;
    assert y in s && y !in s[..p.maxItems];
    assert CellOfPlace(p, y) == k && y in storage;
  }

  // ---- The object ----

  class Region {
    const params: Params
    const storage: seq<Place>
    const latlongIndex: Index<(int, int), Place>

    constructor (params: Params, storage: seq<Place>)
      requires Sized(params)
      ensures this.params == params && this.storage == storage && fresh(latlongIndex)
      ensures latlongIndex.Valid() && latlongIndex.maxItems == params.maxItems && latlongIndex.index == map[]
    {
      this.params := params;
      this.storage := storage;
      latlongIndex := new Index(params.maxItems);
    }

    method BuildLatLongIndex()
      requires Sized(params) && latlongIndex.maxItems == params.maxItems
      modifies latlongIndex
      ensures latlongIndex.Valid() && latlongIndex.index == Built(params, storage, |storage|)
    {
      latlongIndex.Clear();
      for i := 0 to |storage|
        invariant latlongIndex.Valid() && latlongIndex.index == Built(params, storage, i)
      {
        var cell := CellOfPlace(params, storage[i]);
        var _ := latlongIndex.AddKeyValueToIndex(cell, storage[i], false);
      }
    }

    // The close places of one cell, appended to the result.
    method LookupCell(at: (int, int), radius: real, cell: (int, int), result: seq<(Place, real)>)
      returns (r: seq<(Place, real)>)
      requires latlongIndex.Valid()
      ensures r == Reported(result, params, at, radius, Entries(latlongIndex.index, cell))
    {
      var nearby := latlongIndex.Retrieve(cell);
      r := result;
      for k := 0 to |nearby|
        invariant r == Reported(result, params, at, radius, nearby[..k])
      {
        var x := nearby[k];
        assert nearby[..k + 1][..k] == nearby[..k];
        if Near(params, at, x) {
          var distance := params.distance(at, x);
          if distance <= radius {
            r := r + [(x, distance)];
          }
        }
      }
      assert nearby[..|nearby|] == nearby;
    }

    method LookupRow(at: (int, int), radius: real, lat: int, lon: int, result: seq<(Place, real)>)
      returns (r: seq<(Place, real)>)
      requires latlongIndex.Valid()
      ensures r == Reported(result, params, at, radius, Row(latlongIndex.index, lat, lon, 3))
    {
      r := result;
      for j := -1 to 2
        invariant r == Reported(result, params, at, radius, Row(latlongIndex.index, lat, lon, j + 1))
      {
        ReportedAppend(result, params, at, radius,
                       Row(latlongIndex.index, lat, lon, j + 1), Entries(latlongIndex.index, (lat, lon + j)));
        r := LookupCell(at, radius, (lat, lon + j), r);
      }
    }

    method LookupRows(at: (int, int), radius: real, cell: (int, int), result: seq<(Place, real)>)
      returns (r: seq<(Place, real)>)
      requires latlongIndex.Valid()
      ensures r == Reported(result, params, at, radius, Nine(latlongIndex.index, cell))
    {
      r := result;
      for i := -1 to 2
        invariant r == Reported(result, params, at, radius, Rows(latlongIndex.index, cell, i + 1, 3))
      {
        ReportedAppend(result, params, at, radius,
                       Rows(latlongIndex.index, cell, i + 1, 3), Row(latlongIndex.index, cell.0 + i, cell.1, 3));
        r := LookupRow(at, radius, cell.0 + i, cell.1, r);
      }
    }

    // Appends the places around a point that lie within the radius, with their distances.
    method LookupByLatLong(at: (int, int), radius: real, result: seq<(Place, real)>) returns (r: seq<(Place, real)>)
      requires Sized(params) && latlongIndex.Valid()
      ensures r == Reported(result, params, at, radius, Nine(latlongIndex.index, CellOf(params, at.0, at.1)))
      ensures InPlace(params, latlongIndex.index) ==> Gains(params, latlongIndex.index, at, radius, result, r)
    {
      NineCellsGain(params, latlongIndex.index, at, radius, result);
      r := LookupRows(at, radius, CellOf(params, at.0, at.1), result);
    }

    // With no cap, building the index and looking up finds what lies around the point.
    method BuildThenLookup(at: (int, int), radius: real, result: seq<(Place, real)>) returns (r: seq<(Place, real)>)
      requires Sized(params) && latlongIndex.maxItems == params.maxItems <= 0
      modifies latlongIndex
      ensures |result| <= |r| && r[..|result|] == result && IsLookup(params, storage, at, radius, r[|result|..])
    {
      BuildLatLongIndex();
      NineCellsLookUp(params, storage, at, radius);
      r := LookupByLatLong(at, radius, result);
    }
  }
}
