/**
 The sliding-window counter: rings of bins, each ring coarser and older than the one before.

 The metric is the additive count.  Times are microseconds; the clock is an argument.
 */
module CounterSpec {
  import opened Wrappers

  datatype BinSet = BinSet(binsize: nat, bins: seq<int>, timestamp: nat, last: nat, total: int)

  ghost predicate WellFormed(b: BinSet) {
    0 < b.binsize && b.last < |b.bins|
  }

  ghost predicate AllWellFormed(sets: seq<BinSet>) {
    forall i :: 0 <= i < |sets| ==> WellFormed(sets[i])
  }

  function Sum(bins: seq<int>): (n: int) {
    if bins == [] then 0 else Sum(bins[..|bins| - 1]) + bins[|bins| - 1]
  }

  lemma {:induction false} SumUpdate(bins: seq<int>, i: nat, x: int)
    requires i < |bins|
    ensures Sum(bins[i := x]) == Sum(bins) - bins[i] + x
  {
    var n := |bins| - 1;
    if i == n {
      assert bins[i := x][..n] == bins[..n];
    } else {
      assert bins[i := x][..n] == bins[..n][i := x];
      SumUpdate(bins[..n], i, x);
    }
  }

  // Every set's total is the sum of its bins.
  ghost predicate Consistent(sets: seq<BinSet>) {
    forall i :: 0 <= i < |sets| ==> sets[i].total == Sum(sets[i].bins)
  }

  function Held(sets: seq<BinSet>): (n: int) {
    if sets == [] then 0 else Held(sets[..|sets| - 1]) + Sum(sets[|sets| - 1].bins)
  }

  lemma {:induction false} HeldUpdate(sets: seq<BinSet>, i: nat, b: BinSet)
    requires i < |sets|
    ensures Held(sets[i := b]) == Held(sets) - Sum(sets[i].bins) + Sum(b.bins)
  {
    var n := |sets| - 1;
    if i == n {
      assert sets[i := b][..n] == sets[..n];
    } else {
      assert sets[i := b][..n] == sets[..n][i := b];
      HeldUpdate(sets[..n], i, b);
    }
  }

  // ---- Walking back through a ring ----

  // The time one set covers.
  function Span(b: BinSet): (n: nat) {
    b.binsize * |b.bins|
  }

  // The bin o steps before the latest one.
  function Back(b: BinSet, o: nat): (i: nat)
    requires b.last < |b.bins| && o < |b.bins|
    ensures i < |b.bins|
  {
    if o <= b.last then b.last - o else b.last + |b.bins| - o
  }

  // How many bins before the latest one an age falls.
  function Steps(age: nat, size: nat): (o: nat)
    requires 0 < size
  {
    if age <= size then 0 else 1 + Steps(age - size, size)
  }

  lemma {:induction false} StepsInRing(age: nat, size: nat, n: nat)
    requires 0 < size && 0 < age <= size * n
    ensures Steps(age, size) < n
  {
    assert n == 0 ==> size * n == 0;
    if age > size {
      assert size * n == size * (n - 1) + size;
      StepsInRing(age - size, size, n - 1);
    }
  }

  // ---- Placing a count ----

  // Where a count of the given age goes, looking from set i on: a set and a bin of it, or
  // nowhere.  A count without age goes to bin 0, wherever the latest bin is.
  function Spot(sets: seq<BinSet>, i: nat, age: nat): (r: Option<(nat, nat)>)
    requires i <= |sets| && AllWellFormed(sets)
    ensures r.Some? ==> i <= r.value.0 < |sets| && r.value.1 < |sets[r.value.0].bins|
    decreases |sets| - i
  {
    if i == |sets| then None
    else if age == 0 then Some((i, 0))
    else if Span(sets[i]) < age then Spot(sets, i + 1, age - Span(sets[i]))
    else
      StepsInRing(age, sets[i].binsize, |sets[i].bins|);
      Some((i, Back(sets[i], Steps(age, sets[i].binsize))))
  }

  // The time the first j sets cover together.
  function Covered(sets: seq<BinSet>, j: nat): (t: nat)
    requires j <= |sets|
  {
    if j == 0 then 0 else Covered(sets, j - 1) + Span(sets[j - 1])
  }

  // An age that the sets before j do not cover and set j does.
  ghost predicate FallsInto(sets: seq<BinSet>, age: nat, j: nat) {
    j < |sets| && Covered(sets, j) < age <= Covered(sets, j + 1)
  }

  lemma {:induction false} CoveredGrows(sets: seq<BinSet>, i: nat, j: nat)
    requires i <= j <= |sets|
    ensures Covered(sets, i) <= Covered(sets, j)
  {
    if i < j {
      CoveredGrows(sets, i, j - 1);
    }
  }

  lemma {:induction false} SpotInSet(sets: seq<BinSet>, i: nat, age: nat, j: nat)
    requires AllWellFormed(sets) && i <= j < |sets| && FallsInto(sets, Covered(sets, i) + age, j)
    ensures Spot(sets, i, age).Some? && Spot(sets, i, age).value.0 == j
    decreases j - i
  {
    if i < j {
      CoveredGrows(sets, i + 1, j);
      SpotInSet(sets, i + 1, age - Span(sets[i]), j);
    } else {
      assert Covered(sets, i + 1) == Covered(sets, i) + Span(sets[i]);
    }
  }

  lemma {:induction false} NoSpot(sets: seq<BinSet>, i: nat, age: nat)
    requires AllWellFormed(sets) && i <= |sets| && Covered(sets, i) + age > Covered(sets, |sets|)
    ensures Spot(sets, i, age) == None
    decreases |sets| - i
  {
    if i < |sets| {
      CoveredGrows(sets, i + 1, |sets|);
      NoSpot(sets, i + 1, age - Span(sets[i]));
    }
  }

  lemma {:induction false} HomeOf(sets: seq<BinSet>, age: nat, n: nat) returns (j: nat)
    requires n <= |sets| && 0 < age <= Covered(sets, n)
    ensures FallsInto(sets, age, j)
  {
    if age <= Covered(sets, n - 1) {
      j := HomeOf(sets, age, n - 1);
    } else {
      j := n - 1;
    }
  }

  // A count has a place exactly if its age is at most what all sets cover, and then in the
  // set that covers it.
  lemma TrackedIffCovered(sets: seq<BinSet>, age: nat)
    requires AllWellFormed(sets) && 0 < age
    ensures Spot(sets, 0, age).Some? <==> age <= Covered(sets, |sets|)
    ensures Spot(sets, 0, age).Some? ==> FallsInto(sets, age, Spot(sets, 0, age).value.0)
  {
    if age <= Covered(sets, |sets|) {
      var j := HomeOf(sets, age, |sets|);
      SpotInSet(sets, 0, age, j);
    } else {
      NoSpot(sets, 0, age);
    }
  }

  function Added(b: BinSet, bin: nat, count: int): (r: BinSet)
    requires bin < |b.bins|
  {
    b.(bins := b.bins[bin := b.bins[bin] + count], total := b.total + count)
  }

  function Place(sets: seq<BinSet>, i: nat, age: nat, count: int): (r: seq<BinSet>)
    requires i <= |sets| && AllWellFormed(sets)
    ensures |r| == |sets| && AllWellFormed(r)
  {
    match Spot(sets, i, age)
    case None => sets
    case Some((j, bin)) => sets[j := Added(sets[j], bin, count)]
  }

  // ---- Querying ----

  // The sum of the latest o + 1 bins.
  function SumBack(b: BinSet, o: nat): (n: int)
    requires b.last < |b.bins| && o < |b.bins|
  {
    b.bins[Back(b, o)] + if o == 0 then 0 else SumBack(b, o - 1)
  }

  function Query(sets: seq<BinSet>, i: nat, interval: nat): (n: int)
    requires i <= |sets| && AllWellFormed(sets)
    decreases |sets| - i
  {
    if interval == 0 || i == |sets| then 0
    else if Span(sets[i]) < interval then sets[i].total + Query(sets, i + 1, interval - Span(sets[i]))
    else
      StepsInRing(interval, sets[i].binsize, |sets[i].bins|);
      SumBack(sets[i], Steps(interval, sets[i].binsize))
  }

  // The totals are only a fast path: the same walk over the bins alone.
  function SlowQuery(sets: seq<BinSet>, i: nat, interval: nat): (n: int)
    requires i <= |sets| && AllWellFormed(sets)
    decreases |sets| - i
  {
    if interval == 0 || i == |sets| then 0
    else if Span(sets[i]) < interval then Sum(sets[i].bins) + SlowQuery(sets, i + 1, interval - Span(sets[i]))
    else
      StepsInRing(interval, sets[i].binsize, |sets[i].bins|);
      SumBack(sets[i], Steps(interval, sets[i].binsize))
  }

  lemma {:induction false} TotalsAreAFastPath(sets: seq<BinSet>, i: nat, interval: nat)
    requires i <= |sets| && AllWellFormed(sets) && Consistent(sets)
    ensures Query(sets, i, interval) == SlowQuery(sets, i, interval)
    decreases |sets| - i
  {
    if interval != 0 && i < |sets| && Span(sets[i]) < interval {
      TotalsAreAFastPath(sets, i + 1, interval - Span(sets[i]));
    }
  }

  // ---- Placement and query walk the rings identically ----

  // The age at which the bin begins that a count of the given age falls into.
  function BinStart(sets: seq<BinSet>, i: nat, age: nat): (start: nat)
    requires i <= |sets| && AllWellFormed(sets)
    decreases |sets| - i
  {
    if i == |sets| then 0
    else if age == 0 then sets[i].binsize * sets[i].last
    else if Span(sets[i]) < age then Span(sets[i]) + BinStart(sets, i + 1, age - Span(sets[i]))
    else sets[i].binsize * Steps(age, sets[i].binsize)
  }

  // A positive interval reaches bin o exactly when it is longer than o bins.
  lemma {:induction false} StepsThreshold(q: nat, size: nat, o: nat)
    requires 0 < size && 0 < q
    ensures Steps(q, size) >= o <==> q > size * o
  {
    if o > 0 {
      assert size * o == size * (o - 1) + size;
      if q > size {
        StepsThreshold(q - size, size, o - 1);
      } else {
        assert size * (o - 1) >= 0;
      }
    } else {
      assert size * o == 0;
    }
  }

  lemma {:induction false} SumBackAdded(b: BinSet, o: nat, count: int, k: nat)
    requires b.last < |b.bins| && o < |b.bins| && k < |b.bins|
    ensures SumBack(Added(b, Back(b, o), count), k) == SumBack(b, k) + if o <= k then count else 0
  {
    if k > 0 {
      SumBackAdded(b, o, count, k - 1);
    }
  }

  // A count placed in the set it starts from.
  lemma PlacedHere(b: BinSet, age: nat, count: int, q: nat)
    requires WellFormed(b) && 0 < age <= Span(b) && 0 < q <= Span(b)
    ensures Steps(age, b.binsize) < |b.bins| && Steps(q, b.binsize) < |b.bins|
    ensures SumBack(Added(b, Back(b, Steps(age, b.binsize)), count), Steps(q, b.binsize)) ==
              SumBack(b, Steps(q, b.binsize)) + if q > b.binsize * Steps(age, b.binsize) then count else 0
  {
    StepsInRing(age, b.binsize, |b.bins|);
    StepsInRing(q, b.binsize, |b.bins|);
    StepsThreshold(q, b.binsize, Steps(age, b.binsize));
    SumBackAdded(b, Steps(age, b.binsize), count, Steps(q, b.binsize));
  }

  // A count without age goes to bin 0, which is `last` steps back.
  lemma PlacedAtZero(b: BinSet, count: int, q: nat)
    requires WellFormed(b) && 0 < q <= Span(b)
    ensures Steps(q, b.binsize) < |b.bins|
    ensures SumBack(Added(b, 0, count), Steps(q, b.binsize)) ==
              SumBack(b, Steps(q, b.binsize)) + if q > b.binsize * b.last then count else 0
  {
    StepsInRing(q, b.binsize, |b.bins|);
    StepsThreshold(q, b.binsize, b.last);
    SumBackAdded(b, b.last, count, Steps(q, b.binsize));
  }

  lemma LastInSpan(b: BinSet)
    requires WellFormed(b)
    ensures b.binsize * b.last < Span(b)
  {
    assert b.binsize * |b.bins| == b.binsize * b.last + b.binsize * (|b.bins| - b.last);
    assert b.binsize * (|b.bins| - b.last) >= b.binsize by {
      assert b.binsize * (|b.bins| - b.last) == b.binsize + b.binsize * (|b.bins| - b.last - 1);
    }
  }

  // Immediately after a count is placed, a query grows by exactly that
  // count if it is longer than the start of the bin, and is unchanged otherwise.
  lemma {:induction false} PlacedThenQueried(sets: seq<BinSet>, i: nat, age: nat, count: int, q: nat)
    requires i <= |sets| && AllWellFormed(sets) && Spot(sets, i, age).Some?
    ensures Query(Place(sets, i, age, count), i, q) ==
              Query(sets, i, q) + if q > BinStart(sets, i, age) then count else 0
    decreases |sets| - i
  {
    var sets' := Place(sets, i, age, count);
    var b := sets[i];
    if Span(b) < age {
      assert Place(sets, i + 1, age - Span(b), count) == sets';
      PlacedThenQueried(sets, i + 1, age - Span(b), count, if q > Span(b) then q - Span(b) else 0);
    } else if q > Span(b) {
      LastInSpan(b);
      if age > 0 {
        AgeInBin(age, b.binsize);
      }
      LaterSame(sets, sets', i, q - Span(b));
    } else if q > 0 {
      if age > 0 {
        PlacedHere(b, age, count, q);
      } else {
        PlacedAtZero(b, count, q);
      }
    }
  }

  // An age lies in its bin.
  lemma {:induction false} AgeInBin(age: nat, size: nat)
    requires 0 < size && 0 < age
    ensures size * Steps(age, size) < age <= size * Steps(age, size) + size
  {
    if age > size {
      AgeInBin(age - size, size);
      var o := Steps(age - size, size);
      assert size * (o + 1) == size * o + size;
    } else {
      assert size * 0 == 0;
    }
  }

  lemma {:induction false} LaterSame(sets: seq<BinSet>, sets': seq<BinSet>, i: nat, q: nat)
    requires |sets'| == |sets| && i < |sets| && AllWellFormed(sets) && AllWellFormed(sets')
    requires forall j :: i < j < |sets| ==> sets'[j] == sets[j]
    ensures Query(sets', i + 1, q) == Query(sets, i + 1, q)
    decreases |sets| - i
  {
    if q != 0 && i + 1 < |sets| && Span(sets[i + 1]) < q {
      LaterSame(sets, sets', i + 1, q - Span(sets[i + 1]));
    }
  }

  // The start of the bin is before the age by at most one bin of the set it falls into.
  lemma {:induction false} WithinOneBin(sets: seq<BinSet>, i: nat, age: nat)
    requires i <= |sets| && AllWellFormed(sets) && 0 < age && Spot(sets, i, age).Some?
    ensures BinStart(sets, i, age) < age <= BinStart(sets, i, age) + sets[Spot(sets, i, age).value.0].binsize
    decreases |sets| - i
  {
    if Span(sets[i]) < age {
      WithinOneBin(sets, i + 1, age - Span(sets[i]));
    } else {
      AgeInBin(age, sets[i].binsize);
    }
  }

  // An event without age is seen by exactly the queries that reach bin 0: by all positive
  // ones only while bin 0 is the latest bin.
  lemma AgelessEventIsSeen(sets: seq<BinSet>, count: int, q: nat)
    requires AllWellFormed(sets) && sets != []
    ensures Query(Place(sets, 0, 0, count), 0, q) ==
              Query(sets, 0, q) + if q > sets[0].binsize * sets[0].last then count else 0
  {
    PlacedThenQueried(sets, 0, 0, count, q);
  }

  // In terms of the event's age alone: every query at least as long sees the event, and
  // every query shorter by a full bin of the set the age falls into does not.
  lemma EventIsSeen(sets: seq<BinSet>, age: nat, count: int, q: nat, j: nat)
    requires AllWellFormed(sets) && FallsInto(sets, age, j)
    ensures q >= age ==> Query(Place(sets, 0, age, count), 0, q) == Query(sets, 0, q) + count
    ensures q + sets[j].binsize <= age ==> Query(Place(sets, 0, age, count), 0, q) == Query(sets, 0, q)
  {
    SpotInSet(sets, 0, age, j);
    PlacedThenQueried(sets, 0, age, count, q);
    WithinOneBin(sets, 0, age);
  }

  // An event older than all sets cover is seen by no query.
  lemma OldEventIsDropped(sets: seq<BinSet>, age: nat, count: int)
    requires AllWellFormed(sets) && age > Covered(sets, |sets|)
    ensures Place(sets, 0, age, count) == sets
  {
    NoSpot(sets, 0, age);
  }
}
