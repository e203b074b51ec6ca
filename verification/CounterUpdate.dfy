/**
 Rotation of the counter's rings as time passes: bins that fall out of a ring are moved to
 the sets after it, or dropped behind the last one.
 */
module CounterUpdate {
  import opened CounterSpec

  // A count on its way out of a set, to be placed from set `start` on.
  datatype Move = Move(timestamp: nat, count: int, start: nat)

  function Age(now: nat, timestamp: nat): (d: nat) {
    if now > timestamp then now - timestamp else 0
  }

  // ---- One ring ----

  // How many bins the ring has to turn.
  function Turns(b: BinSet, now: nat): (n: nat)
    requires 0 < b.binsize
  {
    Age(now, b.timestamp) / b.binsize
  }

  function Turned(b: BinSet, n: nat): (r: BinSet)
    requires WellFormed(b)
    ensures WellFormed(r) && |r.bins| == |b.bins|
  {
    b.(last := (b.last + n) % |b.bins|, timestamp := b.timestamp + n * b.binsize)
  }

  function Emptied(b: BinSet, m: nat): (r: BinSet)
    requires m < |b.bins|
  {
    b.(bins := b.bins[m := 0], total := b.total - b.bins[m])
  }

  // After emptying the bins lo, lo + 1, ..., hi - 1, taken around the ring.
  function EmptiedRange(b: BinSet, lo: nat, hi: nat): (r: BinSet)
    requires lo <= hi && b.bins != []
    ensures r == b.(bins := r.bins, total := r.total) && |r.bins| == |b.bins|
    decreases hi
  {
    if lo == hi then b else
      var e := EmptiedRange(b, lo, hi - 1);
      Emptied(e, (hi - 1) % |b.bins|)
  }

  // The time of a bin that is `back` bins before the latest.
  function BinTime(b: BinSet, back: nat): (t: nat) {
    if b.timestamp > back * b.binsize then b.timestamp - back * b.binsize else 0
  }

  // What leaves the ring while it is emptied up to hi; end is where the emptying stops.
  function Leaving(b: BinSet, lo: nat, hi: nat, end: nat, start: nat): (moves: seq<Move>)
    requires lo <= hi <= end && b.bins != []
    decreases hi
  {
    if lo == hi then [] else
      var e := EmptiedRange(b, lo, hi - 1);
      Leaving(b, lo, hi - 1, end, start) + [Move(BinTime(b, end - hi), e.bins[(hi - 1) % |b.bins|], start)]
  }

  function Rotated(b: BinSet, now: nat): (r: BinSet)
    requires WellFormed(b)
    ensures WellFormed(r)
  {
    var n := Turns(b, now);
    EmptiedRange(Turned(b, n), b.last + 1, b.last + n + 1)
  }

  function Left(b: BinSet, now: nat, start: nat): (moves: seq<Move>)
    requires WellFormed(b)
  {
    var n := Turns(b, now);
    Leaving(Turned(b, n), b.last + 1, b.last + n + 1, b.last + n + 1, start)
  }

  // ---- All rings ----

  function RotatedSets(sets: seq<BinSet>, k: nat, now: nat): (r: seq<BinSet>)
    requires AllWellFormed(sets) && k <= |sets|
    ensures |r| == |sets| && AllWellFormed(r)
    ensures forall j {:trigger r[j]} :: 0 <= j < |sets| ==> r[j] == if j < k then Rotated(sets[j], now) else sets[j]
  {
    if k == 0 then sets else RotatedSets(sets, k - 1, now)[k - 1 := Rotated(sets[k - 1], now)]
  }

  function AllLeft(sets: seq<BinSet>, k: nat, now: nat): (moves: seq<Move>)
    requires AllWellFormed(sets) && k <= |sets|
  {
    if k == 0 then [] else AllLeft(sets, k - 1, now) + Left(sets[k - 1], now, k)
  }

  ghost predicate StartsWithin(moves: seq<Move>, n: nat) {
    forall i :: 0 <= i < |moves| ==> moves[i].start <= n
  }

  function PlacedAll(sets: seq<BinSet>, moves: seq<Move>, k: nat, now: nat): (r: seq<BinSet>)
    requires AllWellFormed(sets) && k <= |moves| && StartsWithin(moves, |sets|)
    ensures |r| == |sets| && AllWellFormed(r)
  {
    if k == 0 then sets else
      var m := moves[k - 1];
      Place(PlacedAll(sets, moves, k - 1, now), m.start, Age(now, m.timestamp), m.count)
  }

  function Updated(sets: seq<BinSet>, now: nat): (r: seq<BinSet>)
    requires AllWellFormed(sets)
    ensures |r| == |sets| && AllWellFormed(r)
  {
    var moves := AllLeft(sets, |sets|, now);
    LeftStarts(sets, |sets|, now);
    PlacedAll(RotatedSets(sets, |sets|, now), moves, |moves|, now)
  }

  lemma {:induction false} LeavingStarts(b: BinSet, lo: nat, hi: nat, end: nat, start: nat)
    requires lo <= hi <= end && b.bins != []
    ensures forall i :: 0 <= i < |Leaving(b, lo, hi, end, start)| ==> Leaving(b, lo, hi, end, start)[i].start == start
    decreases hi
  {
    if lo < hi {
      LeavingStarts(b, lo, hi - 1, end, start);
    }
  }

  lemma LeftStart(b: BinSet, now: nat, start: nat)
    requires WellFormed(b)
    ensures forall i :: 0 <= i < |Left(b, now, start)| ==> Left(b, now, start)[i].start == start
  {
    var n := Turns(b, now);
    LeavingStarts(Turned(b, n), b.last + 1, b.last + n + 1, b.last + n + 1, start);
  }

  lemma {:induction false} LeftStarts(sets: seq<BinSet>, k: nat, now: nat)
    requires AllWellFormed(sets) && k <= |sets|
    ensures StartsWithin(AllLeft(sets, k, now), k)
  {
    if k > 0 {
      LeftStarts(sets, k - 1, now);
      LeftStart(sets[k - 1], now, k);
    }
  }

  // ---- Conservation ----

  function Total(moves: seq<Move>): (n: int) {
    if moves == [] then 0 else Total(moves[..|moves| - 1]) + moves[|moves| - 1].count
  }

  lemma {:induction false} TotalConcat(a: seq<Move>, b: seq<Move>)
    ensures Total(a + b) == Total(a) + Total(b)
  {
    if b == [] {
      assert a + b == a;
    } else {
      var n := |b| - 1;
      assert (a + b)[..|a| + n] == a + b[..n];
      TotalConcat(a, b[..n]);
    }
  }

  lemma {:induction false} EmptyingConserves(b: BinSet, lo: nat, hi: nat, end: nat, start: nat)
    requires lo <= hi <= end && b.bins != []
    ensures Sum(EmptiedRange(b, lo, hi).bins) + Total(Leaving(b, lo, hi, end, start)) == Sum(b.bins)
    ensures EmptiedRange(b, lo, hi).total + Total(Leaving(b, lo, hi, end, start)) == b.total
    decreases hi
  {
    if lo < hi {
      EmptyingConserves(b, lo, hi - 1, end, start);
      var e := EmptiedRange(b, lo, hi - 1);
      SumUpdate(e.bins, (hi - 1) % |b.bins|, 0);
    }
  }

  lemma RotationConserves(b: BinSet, now: nat, start: nat)
    requires WellFormed(b)
    ensures Sum(Rotated(b, now).bins) + Total(Left(b, now, start)) == Sum(b.bins)
    ensures Rotated(b, now).total + Total(Left(b, now, start)) == b.total
  {
    var n := Turns(b, now);
    TurnedConserves(b, Turned(b, n), now, b.last + 1, b.last + n + 1, start);
  }

  lemma TurnedConserves(b: BinSet, t: BinSet, now: nat, lo: nat, hi: nat, start: nat)
    requires WellFormed(b) && lo <= hi && t.bins == b.bins && t.total == b.total
    requires Rotated(b, now) == EmptiedRange(t, lo, hi) && Left(b, now, start) == Leaving(t, lo, hi, hi, start)
    ensures Sum(Rotated(b, now).bins) + Total(Left(b, now, start)) == Sum(b.bins)
    ensures Rotated(b, now).total + Total(Left(b, now, start)) == b.total
  {
    EmptyingConserves(t, lo, hi, hi, start);
  }

  // What the sets hold and what has left them make up n.
  ghost predicate MakeUp(sets: seq<BinSet>, moves: seq<Move>, n: int) {
    Held(sets) + Total(moves) == n
  }

  ghost predicate RotatesOne(sets: seq<BinSet>, moves: seq<Move>, i: nat, now: nat, next: seq<BinSet>, more: seq<Move>)
    requires i < |sets| && WellFormed(sets[i])
  {
    next == sets[i := Rotated(sets[i], now)] && more == moves + Left(sets[i], now, i + 1)
  }

  lemma RotatingNextConserves(sets: seq<BinSet>, moves: seq<Move>, i: nat, now: nat, n: int, next: seq<BinSet>,
                              more: seq<Move>)
    requires i < |sets| && WellFormed(sets[i]) && MakeUp(sets, moves, n)
    requires RotatesOne(sets, moves, i, now, next, more)
    ensures MakeUp(next, more, n)
  {
    RotatingOneConserves(sets, i, now);
    TotalConcat(moves, Left(sets[i], now, i + 1));
  }

  // Whatever the sets made up, they still do after k rotations, with what has left them.
  ghost predicate Conserved(sets: seq<BinSet>, k: nat, now: nat)
    requires AllWellFormed(sets) && k <= |sets|
  {
    forall n :: MakeUp(sets, [], n) ==> MakeUp(RotatedSets(sets, k, now), AllLeft(sets, k, now), n)
  }

  lemma NothingLeft(sets: seq<BinSet>, now: nat)
    requires AllWellFormed(sets)
    ensures Conserved(sets, 0, now)
  {
  }

  lemma RotatedNext(sets: seq<BinSet>, i: nat, now: nat)
    requires AllWellFormed(sets) && i < |sets|
    ensures RotatesOne(RotatedSets(sets, i, now), AllLeft(sets, i, now), i, now,
                       RotatedSets(sets, i + 1, now), AllLeft(sets, i + 1, now))
  {
    assert RotatedSets(sets, i, now)[i] == sets[i];
  }

  lemma {:induction false} RotatingAllConserves(sets: seq<BinSet>, k: nat, now: nat)
    requires AllWellFormed(sets) && k <= |sets|
    ensures Conserved(sets, k, now)
  {
    if k == 0 {
      NothingLeft(sets, now);
    } else {
      RotatingAllConserves(sets, k - 1, now);
      RotatingStep(sets, k - 1, now);
    }
  }

  lemma RotatingStep(sets: seq<BinSet>, i: nat, now: nat)
    requires AllWellFormed(sets) && i < |sets|
    requires Conserved(sets, i, now)
    ensures Conserved(sets, i + 1, now)
  {
    var rotated, moves := RotatedSets(sets, i, now), AllLeft(sets, i, now);
    RotatedNext(sets, i, now);
    forall n | MakeUp(sets, [], n)
      ensures MakeUp(RotatedSets(sets, i + 1, now), AllLeft(sets, i + 1, now), n)
    {
      RotatingNextConserves(rotated, moves, i, now, n, RotatedSets(sets, i + 1, now), AllLeft(sets, i + 1, now));
    }
  }

  lemma RotatingOneConserves(sets: seq<BinSet>, i: nat, now: nat)
    requires i < |sets| && WellFormed(sets[i])
    ensures Held(sets[i := Rotated(sets[i], now)]) + Total(Left(sets[i], now, i + 1)) == Held(sets)
  {
    HeldUpdate(sets, i, Rotated(sets[i], now));
    RotationConserves(sets[i], now, i + 1);
  }

  lemma RotatingKeepsTotals(sets: seq<BinSet>, k: nat, now: nat)
    requires AllWellFormed(sets) && k <= |sets| && Consistent(sets)
    ensures Consistent(RotatedSets(sets, k, now))
  {
    var r := RotatedSets(sets, k, now);
    forall j | 0 <= j < |r| ensures r[j].total == Sum(r[j].bins) {
      RotationConserves(sets[j], now, 0);
    }
  }

  // A placed count is held; one that falls behind the last set is dropped.
  lemma PlacingConserves(sets: seq<BinSet>, i: nat, age: nat, count: int)
    requires i <= |sets| && AllWellFormed(sets)
    ensures Held(Place(sets, i, age, count)) == Held(sets) + if Spot(sets, i, age).Some? then count else 0
    ensures Consistent(sets) ==> Consistent(Place(sets, i, age, count))
  {
    var spot := Spot(sets, i, age);
    if spot.Some? {
      var (j, bin) := spot.value;
      SumUpdate(sets[j].bins, bin, sets[j].bins[bin] + count);
      HeldUpdate(sets, j, Added(sets[j], bin, count));
    }
  }

  // What is dropped while the first k moves are placed.
  function Dropped(sets: seq<BinSet>, moves: seq<Move>, k: nat, now: nat): (n: int)
    requires AllWellFormed(sets) && k <= |moves| && StartsWithin(moves, |sets|)
  {
    if k == 0 then 0 else
      var m := moves[k - 1];
      var p := PlacedAll(sets, moves, k - 1, now);
      Dropped(sets, moves, k - 1, now) + if Spot(p, m.start, Age(now, m.timestamp)).Some? then 0 else m.count
  }

  lemma {:induction false} PlacingAllConserves(sets: seq<BinSet>, moves: seq<Move>, k: nat, now: nat)
    requires AllWellFormed(sets) && k <= |moves| && StartsWithin(moves, |sets|)
    ensures Held(PlacedAll(sets, moves, k, now)) + Dropped(sets, moves, k, now) == Held(sets) + Total(moves[..k])
    ensures Consistent(sets) ==> Consistent(PlacedAll(sets, moves, k, now))
  {
    if k > 0 {
      PlacingAllConserves(sets, moves, k - 1, now);
      var m := moves[k - 1];
      PlacingConserves(PlacedAll(sets, moves, k - 1, now), m.start, Age(now, m.timestamp), m.count);
      assert moves[..k][..k - 1] == moves[..k - 1];
    } else {
      assert moves[..0] == [];
    }
  }

  function DroppedByUpdate(sets: seq<BinSet>, now: nat): (n: int)
    requires AllWellFormed(sets)
  {
    var moves := AllLeft(sets, |sets|, now);
    LeftStarts(sets, |sets|, now);
    Dropped(RotatedSets(sets, |sets|, now), moves, |moves|, now)
  }

  // Nothing appears or disappears in an update except what is dropped.
  lemma UpdateConserves(sets: seq<BinSet>, now: nat)
    requires AllWellFormed(sets)
    ensures Held(Updated(sets, now)) + DroppedByUpdate(sets, now) == Held(sets)
    ensures Consistent(sets) ==> Consistent(Updated(sets, now))
  {
    var moves := AllLeft(sets, |sets|, now);
    LeftStarts(sets, |sets|, now);
    RotatingAllConserves(sets, |sets|, now);
    assert MakeUp(sets, [], Held(sets));
    if Consistent(sets) {
      RotatingKeepsTotals(sets, |sets|, now);
    }
    PlacingAllConserves(RotatedSets(sets, |sets|, now), moves, |moves|, now);
    assert moves[..|moves|] == moves;
  }

  // ---- Updating again at the same time changes nothing ----

  ghost predicate UpToDate(sets: seq<BinSet>, now: nat) {
    AllWellFormed(sets) && forall i :: 0 <= i < |sets| ==> Turns(sets[i], now) == 0
  }

  lemma RotatedIsUpToDate(b: BinSet, now: nat)
    requires WellFormed(b)
    ensures Turns(Rotated(b, now), now) == 0
  {
    var d := Age(now, b.timestamp);
    var n := Turns(b, now);
    assert d == n * b.binsize + d % b.binsize;
    assert Age(now, Rotated(b, now).timestamp) < b.binsize;
  }

  // Placing counts moves no clock.
  lemma {:induction false} PlacingKeepsClocks(sets: seq<BinSet>, moves: seq<Move>, k: nat, now: nat, i: nat)
    requires AllWellFormed(sets) && k <= |moves| && StartsWithin(moves, |sets|) && i < |sets|
    ensures var b := PlacedAll(sets, moves, k, now)[i]; b.timestamp == sets[i].timestamp && b.binsize == sets[i].binsize
  {
    if k > 0 {
      PlacingKeepsClocks(sets, moves, k - 1, now, i);
    }
  }

  // ... and neither placing nor turning changes how much time a set covers.
  lemma {:induction false} PlacingKeepsShapes(sets: seq<BinSet>, moves: seq<Move>, k: nat, now: nat, i: nat)
    requires AllWellFormed(sets) && k <= |moves| && StartsWithin(moves, |sets|) && i < |sets|
    ensures SameShape(PlacedAll(sets, moves, k, now)[i], sets[i])
  {
    if k > 0 {
      PlacingKeepsShapes(sets, moves, k - 1, now, i);
    }
  }

  ghost predicate SameShape(a: BinSet, b: BinSet) {
    a.binsize == b.binsize && |a.bins| == |b.bins|
  }

  lemma UpdatingKeepsShapes(sets: seq<BinSet>, now: nat, i: nat)
    requires AllWellFormed(sets) && i < |sets|
    ensures SameShape(Updated(sets, now)[i], sets[i])
  {
    var moves := AllLeft(sets, |sets|, now);
    LeftStarts(sets, |sets|, now);
    PlacingKeepsShapes(RotatedSets(sets, |sets|, now), moves, |moves|, now, i);
  }

  lemma {:induction false} UpdatingKeepsCover(sets: seq<BinSet>, now: nat, j: nat)
    requires AllWellFormed(sets) && j <= |sets|
    ensures Covered(Updated(sets, now), j) == Covered(sets, j)
  {
    if j > 0 {
      UpdatingKeepsCover(sets, now, j - 1);
      UpdatingKeepsShapes(sets, now, j - 1);
    }
  }

  lemma UpdatedIsUpToDate(sets: seq<BinSet>, now: nat)
    requires AllWellFormed(sets)
    ensures UpToDate(Updated(sets, now), now)
  {
    var moves := AllLeft(sets, |sets|, now);
    LeftStarts(sets, |sets|, now);
    forall i | 0 <= i < |sets| ensures Turns(Updated(sets, now)[i], now) == 0 {
      RotatedIsUpToDate(sets[i], now);
      PlacingKeepsClocks(RotatedSets(sets, |sets|, now), moves, |moves|, now, i);
    }
  }

  lemma Unturned(b: BinSet, now: nat, start: nat)
    requires WellFormed(b) && Turns(b, now) == 0
    ensures Rotated(b, now) == b && Left(b, now, start) == []
  {
    assert (b.last + 0) % |b.bins| == b.last;
    assert Turned(b, 0) == b;
  }

  lemma {:induction false} NothingLeaves(sets: seq<BinSet>, k: nat, now: nat)
    requires UpToDate(sets, now) && k <= |sets|
    ensures AllLeft(sets, k, now) == [] && RotatedSets(sets, k, now) == sets
  {
    if k > 0 {
      NothingLeaves(sets, k - 1, now);
      Unturned(sets[k - 1], now, k);
    }
  }

  lemma UpdatingIsIdempotent(sets: seq<BinSet>, now: nat)
    requires UpToDate(sets, now)
    ensures Updated(sets, now) == sets && DroppedByUpdate(sets, now) == 0
  {
    NothingLeaves(sets, |sets|, now);
  }

  // ---- Counts only move to later sets ----

  ghost predicate NonNegative(sets: seq<BinSet>) {
    forall i, j :: 0 <= i < |sets| && 0 <= j < |sets[i].bins| ==> sets[i].bins[j] >= 0
  }

  ghost predicate NonNegativeMoves(moves: seq<Move>) {
    forall i :: 0 <= i < |moves| ==> moves[i].count >= 0
  }

  // The counts among the moves that may be placed before set j.
  function Early(moves: seq<Move>, j: nat): (n: int) {
    if moves == [] then 0 else
      var m := moves[|moves| - 1];
      Early(moves[..|moves| - 1], j) + if m.start < j then m.count else 0
  }

  lemma {:induction false} EarlyConcat(a: seq<Move>, b: seq<Move>, j: nat)
    ensures Early(a + b, j) == Early(a, j) + Early(b, j)
  {
    if b == [] {
      assert a + b == a;
    } else {
      var n := |b| - 1;
      assert (a + b)[..|a| + n] == a + b[..n];
      EarlyConcat(a, b[..n], j);
    }
  }

  lemma {:induction false} EarlyOf(moves: seq<Move>, start: nat, j: nat)
    requires forall i :: 0 <= i < |moves| ==> moves[i].start == start
    ensures Early(moves, j) == if start < j then Total(moves) else 0
  {
    if moves != [] {
      EarlyOf(moves[..|moves| - 1], start, j);
    }
  }

  lemma EarlyLast(moves: seq<Move>, k: nat, j: nat)
    requires 0 < k <= |moves|
    ensures Early(moves[..k], j) == Early(moves[..k - 1], j) + if moves[k - 1].start < j then moves[k - 1].count else 0
  {
    assert moves[..k][..k - 1] == moves[..k - 1];
  }

  lemma {:induction false} PrefixAfterPlacing(sets: seq<BinSet>, moves: seq<Move>, k: nat, now: nat, j: nat)
    requires AllWellFormed(sets) && k <= |moves| && StartsWithin(moves, |sets|) && NonNegativeMoves(moves)
             && j <= |sets|
    ensures Held(PlacedAll(sets, moves, k, now)[..j]) <= Held(sets[..j]) + Early(moves[..k], j)
  {
    if k > 0 {
      PrefixAfterPlacing(sets, moves, k - 1, now, j);
      var m := moves[k - 1];
      var p := PlacedAll(sets, moves, k - 1, now);
      PrefixAfterPlace(p, m.start, Age(now, m.timestamp), m.count, j);
      EarlyLast(moves, k, j);
    } else {
      assert moves[..0] == [];
    }
  }

  lemma PrefixAfterPlace(sets: seq<BinSet>, i: nat, age: nat, count: int, j: nat)
    requires i <= |sets| && AllWellFormed(sets) && count >= 0 && j <= |sets|
    ensures Held(Place(sets, i, age, count)[..j]) <= Held(sets[..j]) + if i < j then count else 0
  {
    var spot := Spot(sets, i, age);
    if spot.Some? {
      var (t, bin) := spot.value;
      var b := Added(sets[t], bin, count);
      if t < j {
        assert sets[t := b][..j] == sets[..j][t := b];
        SumUpdate(sets[t].bins, bin, sets[t].bins[bin] + count);
        HeldUpdate(sets[..j], t, b);
      } else {
        assert sets[t := b][..j] == sets[..j];
      }
    }
  }

  // The moves placed from before set j are those that left sets before the last of them.
  lemma {:induction false} EarlyLeft(sets: seq<BinSet>, k: nat, now: nat, j: nat)
    requires AllWellFormed(sets) && 0 < j <= |sets| && k <= |sets|
    ensures Early(AllLeft(sets, k, now), j) == Total(AllLeft(sets, if k < j then k else j - 1, now))
  {
    if k > 0 {
      EarlyLeft(sets, k - 1, now, j);
      var a, b := AllLeft(sets, k - 1, now), Left(sets[k - 1], now, k);
      assert AllLeft(sets, k, now) == a + b;
      LeftStart(sets[k - 1], now, k);
      EarlyConcat(a, b, j);
      EarlyOf(b, k, j);
      TotalConcat(a, b);
    }
  }

  lemma {:induction false} PrefixLeft(sets: seq<BinSet>, k: nat, now: nat, j: nat)
    requires AllWellFormed(sets) && k <= j <= |sets|
    ensures AllLeft(sets[..j], k, now) == AllLeft(sets, k, now)
  {
    if k > 0 {
      PrefixLeft(sets, k - 1, now, j);
      assert sets[..j][k - 1] == sets[k - 1];
    }
  }

  lemma {:induction false} EmptyingKeepsSign(b: BinSet, lo: nat, hi: nat, end: nat, start: nat)
    requires lo <= hi <= end && b.bins != [] && forall i :: 0 <= i < |b.bins| ==> b.bins[i] >= 0
    ensures forall i :: 0 <= i < |b.bins| ==> EmptiedRange(b, lo, hi).bins[i] >= 0
    ensures NonNegativeMoves(Leaving(b, lo, hi, end, start))
    decreases hi
  {
    if lo < hi {
      EmptyingKeepsSign(b, lo, hi - 1, end, start);
    }
  }

  lemma LeftSign(b: BinSet, now: nat, start: nat)
    requires WellFormed(b) && forall i :: 0 <= i < |b.bins| ==> b.bins[i] >= 0
    ensures NonNegativeMoves(Left(b, now, start))
  {
    var n := Turns(b, now);
    EmptyingKeepsSign(Turned(b, n), b.last + 1, b.last + n + 1, b.last + n + 1, start);
  }

  lemma {:induction false} LeftKeepsSign(sets: seq<BinSet>, k: nat, now: nat)
    requires AllWellFormed(sets) && k <= |sets| && NonNegative(sets)
    ensures NonNegativeMoves(AllLeft(sets, k, now))
  {
    if k > 0 {
      LeftKeepsSign(sets, k - 1, now);
      LeftSign(sets[k - 1], now, k);
    }
  }

  lemma {:induction false} TotalKeepsSign(moves: seq<Move>)
    requires NonNegativeMoves(moves)
    ensures Total(moves) >= 0
  {
    if moves != [] {
      TotalKeepsSign(moves[..|moves| - 1]);
    }
  }

  // However many sets one looks at from the front, an update never increases what they hold.
  lemma CountsOnlyMoveOn(sets: seq<BinSet>, now: nat, j: nat)
    requires AllWellFormed(sets) && NonNegative(sets) && 0 < j <= |sets|
    ensures Held(Updated(sets, now)[..j]) <= Held(sets[..j])
  {
    var n := |sets|;
    var moves, rotated := AllLeft(sets, n, now), RotatedSets(sets, n, now);
    LeftStarts(sets, n, now);
    LeftKeepsSign(sets, n, now);
    PrefixAfterPlacing(rotated, moves, |moves|, now, j);
    assert moves[..|moves|] == moves;
    EarlyLeft(sets, n, now, j);
    PrefixRotated(sets, now, j);
  }

  // What the first j sets hold after rotation, and what left all but the last of them,
  // is at most what they held.
  lemma PrefixRotated(sets: seq<BinSet>, now: nat, j: nat)
    requires AllWellFormed(sets) && NonNegative(sets) && 0 < j <= |sets|
    ensures Held(RotatedSets(sets, |sets|, now)[..j]) + Total(AllLeft(sets, j - 1, now)) <= Held(sets[..j])
  {
    assert RotatedSets(sets, |sets|, now)[..j] == RotatedSets(sets[..j], j, now);
    RotatingAllConserves(sets[..j], j, now);
    assert MakeUp(sets[..j], [], Held(sets[..j]));
    PrefixLeft(sets, j, now, j);
    LastLeft(sets, j, now);
  }

  lemma LastLeft(sets: seq<BinSet>, j: nat, now: nat)
    requires AllWellFormed(sets) && NonNegative(sets) && 0 < j <= |sets|
    ensures Total(AllLeft(sets, j - 1, now)) <= Total(AllLeft(sets, j, now))
  {
    var a, b := AllLeft(sets, j - 1, now), Left(sets[j - 1], now, j);
    assert AllLeft(sets, j, now) == a + b;
    TotalConcat(a, b);
    LeftSign(sets[j - 1], now, j);
    TotalKeepsSign(b);
  }
}
