/**
 What the counter answers, without the walk: a query is the sum of the bins that start within its
 interval.
 */
module CounterSums {
  import opened CounterSpec
  import opened CounterLinear
  import opened CounterTime

  // ---- A query as a sum over bins ----

  // The bin, if it starts within the interval.
  function Reached(sets: seq<BinSet>, m: Mark, q: nat): (n: int)
    requires AllWellFormed(sets) && IsMark(sets, m)
  {
    if Start(sets, m) < q then sets[m.ring].bins[m.bin] else 0
  }

  // The first n bins of ring j.
  function RingSum(sets: seq<BinSet>, j: nat, n: nat, q: nat): (sum: int)
    requires AllWellFormed(sets) && j < |sets| && n <= |sets[j].bins|
  {
    if n == 0 then 0 else RingSum(sets, j, n - 1, q) + Reached(sets, Mark(j, n - 1), q)
  }

  // The rings from i on.
  function SumFrom(sets: seq<BinSet>, i: nat, q: nat): (sum: int)
    requires AllWellFormed(sets) && i <= |sets|
    decreases |sets| - i
  {
    if i == |sets| then 0 else RingSum(sets, i, |sets[i].bins|, q) + SumFrom(sets, i + 1, q)
  }

  lemma StartInRing(sets: seq<BinSet>, m: Mark)
    requires AllWellFormed(sets) && IsMark(sets, m)
    ensures Covered(sets, m.ring) <= Start(sets, m) < Covered(sets, m.ring + 1)
  {
    OffsetInSpan(sets[m.ring], Offset(sets[m.ring], m.bin));
  }

  lemma {:induction false} RingUnreached(sets: seq<BinSet>, j: nat, n: nat, q: nat)
    requires AllWellFormed(sets) && j < |sets| && n <= |sets[j].bins| && q <= Covered(sets, j)
    ensures RingSum(sets, j, n, q) == 0
  {
    if n > 0 {
      RingUnreached(sets, j, n - 1, q);
      StartInRing(sets, Mark(j, n - 1));
    }
  }

  lemma {:induction false} NoneReached(sets: seq<BinSet>, i: nat, q: nat)
    requires AllWellFormed(sets) && i <= |sets| && q <= Covered(sets, i)
    ensures SumFrom(sets, i, q) == 0
    decreases |sets| - i
  {
    if i < |sets| {
      RingUnreached(sets, i, |sets[i].bins|, q);
      NoneReached(sets, i + 1, q);
    }
  }

  lemma {:induction false} RingReached(sets: seq<BinSet>, j: nat, n: nat, q: nat)
    requires AllWellFormed(sets) && j < |sets| && n <= |sets[j].bins| && Covered(sets, j + 1) <= q
    ensures RingSum(sets, j, n, q) == Sum(sets[j].bins[..n])
  {
    if n > 0 {
      RingReached(sets, j, n - 1, q);
      StartInRing(sets, Mark(j, n - 1));
      assert sets[j].bins[..n][..n - 1] == sets[j].bins[..n - 1];
    }
  }

  // The first n bins that are at most o bins back.
  function UpTo(b: BinSet, n: nat, o: int): (sum: int)
    requires WellFormed(b) && n <= |b.bins|
  {
    if n == 0 then 0 else UpTo(b, n - 1, o) + if Offset(b, n - 1) <= o then b.bins[n - 1] else 0
  }

  lemma {:induction false} OneMoreBin(b: BinSet, n: nat, o: nat)
    requires WellFormed(b) && n <= |b.bins| && o < |b.bins|
    ensures UpTo(b, n, o) == UpTo(b, n, o - 1) + if Back(b, o) < n then b.bins[Back(b, o)] else 0
  {
    if n > 0 {
      OneMoreBin(b, n - 1, o);
      BackOffset(b, o);
      assert Offset(b, n - 1) == o <==> n - 1 == Back(b, o);
    }
  }

  lemma {:induction false} NothingBack(b: BinSet, n: nat)
    requires WellFormed(b) && n <= |b.bins|
    ensures UpTo(b, n, -1) == 0
  {
    if n > 0 {
      NothingBack(b, n - 1);
    }
  }

  lemma {:induction false} SumBackIsUpTo(b: BinSet, o: nat)
    requires WellFormed(b) && o < |b.bins|
    ensures SumBack(b, o) == UpTo(b, |b.bins|, o)
  {
    OneMoreBin(b, |b.bins|, o);
    if o == 0 {
      NothingBack(b, |b.bins|);
    } else {
      SumBackIsUpTo(b, o - 1);
    }
  }

  lemma {:induction false} RingIsUpTo(sets: seq<BinSet>, j: nat, n: nat, r: nat)
    requires AllWellFormed(sets) && j < |sets| && n <= |sets[j].bins| && 0 < r
    ensures RingSum(sets, j, n, Covered(sets, j) + r) == UpTo(sets[j], n, Steps(r, sets[j].binsize))
  {
    if n > 0 {
      RingIsUpTo(sets, j, n - 1, r);
      StepsThreshold(r, sets[j].binsize, Offset(sets[j], n - 1));
    }
  }

  lemma {:induction false} SlowQueryIsSum(sets: seq<BinSet>, i: nat, r: nat)
    requires AllWellFormed(sets) && i <= |sets|
    ensures SlowQuery(sets, i, r) == SumFrom(sets, i, Covered(sets, i) + r)
    decreases |sets| - i
  {
    if r == 0 {
      NoneReached(sets, i, Covered(sets, i));
    } else if i < |sets| {
      var b := sets[i];
      if Span(b) < r {
        RingReached(sets, i, |b.bins|, Covered(sets, i) + r);
        assert b.bins[..|b.bins|] == b.bins;
        SlowQueryIsSum(sets, i + 1, r - Span(b));
      } else {
        StepsInRing(r, b.binsize, |b.bins|);
        SumBackIsUpTo(b, Steps(r, b.binsize));
        RingIsUpTo(sets, i, |b.bins|, r);
        NoneReached(sets, i + 1, Covered(sets, i) + r);
      }
    }
  }

  // A query is the sum of the bins that start within its interval.
  lemma QueryIsSum(sets: seq<BinSet>, q: nat)
    requires AllWellFormed(sets) && Consistent(sets)
    ensures Query(sets, 0, q) == SlowQuery(sets, 0, q) == SumFrom(sets, 0, q)
  {
    TotalsAreAFastPath(sets, 0, q);
    SlowQueryIsSum(sets, 0, q);
  }

  lemma {:induction false} AllReached(sets: seq<BinSet>, i: nat, q: nat)
    requires AllWellFormed(sets) && i <= |sets| && Covered(sets, |sets|) <= q
    ensures Held(sets[..i]) + SumFrom(sets, i, q) == Held(sets)
    decreases |sets| - i
  {
    if i == |sets| {
      assert sets[..i] == sets;
    } else {
      CoveredGrows(sets, i + 1, |sets|);
      RingReached(sets, i, |sets[i].bins|, q);
      assert sets[i].bins[..|sets[i].bins|] == sets[i].bins;
      assert sets[..i + 1][..i] == sets[..i];
      AllReached(sets, i + 1, q);
    }
  }

  // A query as long as all sets cover counts everything they hold.
  lemma LongQueryIsHeld(sets: seq<BinSet>, q: nat)
    requires AllWellFormed(sets) && Consistent(sets) && Covered(sets, |sets|) <= q
    ensures Query(sets, 0, q) == Held(sets)
  {
    QueryIsSum(sets, q);
    AllReached(sets, 0, q);
    assert sets[..0] == [];
  }

  // ---- Empty counters ----

  ghost predicate IsEmpty(b: BinSet) {
    b.total == 0 && forall k :: 0 <= k < |b.bins| ==> b.bins[k] == 0
  }

  ghost predicate AllEmpty(sets: seq<BinSet>) {
    AllWellFormed(sets) && forall i :: 0 <= i < |sets| ==> IsEmpty(sets[i])
  }

  lemma {:induction false} EmptyRing(sets: seq<BinSet>, j: nat, n: nat, q: nat)
    requires AllEmpty(sets) && j < |sets| && n <= |sets[j].bins|
    ensures RingSum(sets, j, n, q) == 0
  {
    if n > 0 {
      EmptyRing(sets, j, n - 1, q);
    }
  }

  lemma {:induction false} EmptyRings(sets: seq<BinSet>, i: nat, q: nat)
    requires AllEmpty(sets) && i <= |sets|
    ensures SumFrom(sets, i, q) == 0
    decreases |sets| - i
  {
    if i < |sets| {
      EmptyRing(sets, i, |sets[i].bins|, q);
      EmptyRings(sets, i + 1, q);
    }
  }

  lemma {:induction false} EmptySum(bins: seq<int>)
    requires forall k :: 0 <= k < |bins| ==> bins[k] == 0
    ensures Sum(bins) == 0
  {
    if bins != [] {
      EmptySum(bins[..|bins| - 1]);
    }
  }

  lemma EmptyAnswersZero(sets: seq<BinSet>, q: nat)
    requires AllEmpty(sets)
    ensures Query(sets, 0, q) == 0
  {
    forall i | 0 <= i < |sets|
      ensures sets[i].total == Sum(sets[i].bins)
    {
      EmptySum(sets[i].bins);
    }
    QueryIsSum(sets, q);
    EmptyRings(sets, 0, q);
  }
}
