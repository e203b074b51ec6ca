/**
 One count followed through the rings: adding it commutes with everything that happens to the
 others, so that an update only moves it.
 */
module CounterLinear {
  import opened Wrappers
  import opened CounterSpec
  import opened CounterUpdate

  // A bin of a set.
  datatype Mark = Mark(ring: nat, bin: nat)

  predicate IsMark(sets: seq<BinSet>, m: Mark) {
    m.ring < |sets| && m.bin < |sets[m.ring].bins|
  }

  function With(sets: seq<BinSet>, m: Mark, count: int): (r: seq<BinSet>)
    requires IsMark(sets, m)
    ensures |r| == |sets|
  {
    sets[m.ring := Added(sets[m.ring], m.bin, count)]
  }

  // The count is nowhere once it was dropped.
  predicate IsPlace(sets: seq<BinSet>, at: Option<Mark>) {
    at.Some? ==> IsMark(sets, at.value)
  }

  function WithAt(sets: seq<BinSet>, at: Option<Mark>, count: int): (r: seq<BinSet>)
    requires IsPlace(sets, at)
  {
    if at.None? then sets else With(sets, at.value, count)
  }

  // ---- What does not depend on the counts ----

  ghost predicate SameRing(a: BinSet, b: BinSet) {
    a.binsize == b.binsize && |a.bins| == |b.bins| && a.last == b.last && a.timestamp == b.timestamp
  }

  ghost predicate SameRings(s: seq<BinSet>, t: seq<BinSet>) {
    |s| == |t| && forall i :: 0 <= i < |s| ==> SameRing(s[i], t[i])
  }

  function SpotMark(sets: seq<BinSet>, i: nat, age: nat): (at: Option<Mark>)
    requires i <= |sets| && AllWellFormed(sets)
    ensures IsPlace(sets, at)
  {
    match Spot(sets, i, age)
    case None => None
    case Some((j, bin)) => Some(Mark(j, bin))
  }

  lemma {:induction false} SameSpot(s: seq<BinSet>, t: seq<BinSet>, i: nat, age: nat)
    requires SameRings(s, t) && AllWellFormed(s) && AllWellFormed(t) && i <= |s|
    ensures SpotMark(s, i, age) == SpotMark(t, i, age)
    decreases |s| - i
  {
    if i < |s| {
      assert SameRing(s[i], t[i]);
      if age > 0 && Span(s[i]) < age {
        SameSpot(s, t, i + 1, age - Span(s[i]));
      }
    }
  }

  lemma WithKeepsRings(sets: seq<BinSet>, m: Mark, count: int)
    requires IsMark(sets, m)
    ensures SameRings(With(sets, m, count), sets)
    ensures AllWellFormed(sets) ==> AllWellFormed(With(sets, m, count))
  {
  }

  // ---- Placing ----

  lemma Commute(sets: seq<BinSet>, m: Mark, c: int, n: Mark, d: int)
    requires IsMark(sets, m) && IsMark(sets, n)
    ensures IsMark(With(sets, m, c), n) && IsMark(With(sets, n, d), m)
    ensures With(With(sets, m, c), n, d) == With(With(sets, n, d), m, c)
  {
    if m.ring == n.ring {
      var b := sets[m.ring];
      assert Added(Added(b, m.bin, c), n.bin, d).bins == Added(Added(b, n.bin, d), m.bin, c).bins;
    }
  }

  lemma PlaceIsWith(sets: seq<BinSet>, i: nat, age: nat, count: int)
    requires i <= |sets| && AllWellFormed(sets)
    ensures Place(sets, i, age, count) == WithAt(sets, SpotMark(sets, i, age), count)
  {
  }

  lemma PlaceWith(sets: seq<BinSet>, m: Mark, c: int, i: nat, age: nat, d: int)
    requires IsMark(sets, m) && i <= |sets| && AllWellFormed(sets)
    ensures AllWellFormed(With(sets, m, c)) && IsMark(Place(sets, i, age, d), m)
    ensures Place(With(sets, m, c), i, age, d) == With(Place(sets, i, age, d), m, c)
  {
    WithKeepsRings(sets, m, c);
    SameSpot(With(sets, m, c), sets, i, age);
    PlaceIsWith(sets, i, age, d);
    PlaceIsWith(With(sets, m, c), i, age, d);
    if SpotMark(sets, i, age).Some? {
      Commute(sets, m, c, SpotMark(sets, i, age).value, d);
    }
  }

  lemma {:induction false} PlacedAllKeepsRings(sets: seq<BinSet>, moves: seq<Move>, k: nat, now: nat)
    requires AllWellFormed(sets) && k <= |moves| && StartsWithin(moves, |sets|)
    ensures SameRings(PlacedAll(sets, moves, k, now), sets)
  {
    if k > 0 {
      PlacedAllKeepsRings(sets, moves, k - 1, now);
    }
  }

  lemma {:induction false} PlacedAllWith(sets: seq<BinSet>, m: Mark, c: int, moves: seq<Move>, k: nat, now: nat)
    requires AllWellFormed(sets) && IsMark(sets, m) && k <= |moves| && StartsWithin(moves, |sets|)
    ensures AllWellFormed(With(sets, m, c)) && IsMark(PlacedAll(sets, moves, k, now), m)
    ensures PlacedAll(With(sets, m, c), moves, k, now) == With(PlacedAll(sets, moves, k, now), m, c)
  {
    WithKeepsRings(sets, m, c);
    PlacedAllKeepsRings(sets, moves, k, now);
    if k > 0 {
      var v := moves[k - 1];
      PlacedAllWith(sets, m, c, moves, k - 1, now);
      PlaceWith(PlacedAll(sets, moves, k - 1, now), m, c, v.start, Age(now, v.timestamp), v.count);
    }
  }

  // ---- A move that carries the count as well ----

  function Bumped(moves: seq<Move>, j: nat, c: int): (r: seq<Move>)
    requires j < |moves|
    ensures |r| == |moves|
  {
    moves[j := moves[j].(count := moves[j].count + c)]
  }

  lemma BumpedEarlier(moves: seq<Move>, more: seq<Move>, j: nat, c: int)
    requires j < |moves|
    ensures Bumped(moves, j, c) + more == Bumped(moves + more, j, c)
  {
  }

  lemma BumpedLater(moves: seq<Move>, more: seq<Move>, j: nat, c: int)
    requires j < |more|
    ensures moves + Bumped(more, j, c) == Bumped(moves + more, |moves| + j, c)
  {
  }

  lemma BumpedStarts(moves: seq<Move>, j: nat, c: int, n: nat)
    requires j < |moves| && StartsWithin(moves, n)
    ensures StartsWithin(Bumped(moves, j, c), n)
  {
  }

  // Where the move puts it.
  function Landing(sets: seq<BinSet>, v: Move, now: nat): (at: Option<Mark>)
    requires AllWellFormed(sets) && v.start <= |sets|
    ensures IsPlace(sets, at)
  {
    SpotMark(sets, v.start, Age(now, v.timestamp))
  }

  lemma PlaceBumped(sets: seq<BinSet>, i: nat, age: nat, d: int, c: int)
    requires AllWellFormed(sets) && i <= |sets|
    ensures IsPlace(Place(sets, i, age, d), SpotMark(sets, i, age))
    ensures Place(sets, i, age, d + c) == WithAt(Place(sets, i, age, d), SpotMark(sets, i, age), c)
  {
    var at := SpotMark(sets, i, age);
    if at.Some? {
      var b, bin := sets[at.value.ring], at.value.bin;
      assert Added(Added(b, bin, d), bin, c).bins == Added(b, bin, d + c).bins;
    }
  }

  lemma PlaceWithAt(sets: seq<BinSet>, at: Option<Mark>, c: int, v: Move, now: nat)
    requires AllWellFormed(sets) && IsPlace(sets, at) && v.start <= |sets|
    ensures AllWellFormed(WithAt(sets, at, c))
    ensures var next := Place(sets, v.start, Age(now, v.timestamp), v.count);
            && IsPlace(next, at)
            && Place(WithAt(sets, at, c), v.start, Age(now, v.timestamp), v.count) == WithAt(next, at, c)
  {
    if at.Some? {
      PlaceWith(sets, at.value, c, v.start, Age(now, v.timestamp), v.count);
    }
  }

  // What placing the moves comes to, next to placing them without the count.
  ghost predicate Lands(sets: seq<BinSet>, moves: seq<Move>, j: nat, c: int, k: nat, now: nat)
    requires AllWellFormed(sets) && j < k <= |moves| && StartsWithin(moves, |sets|)
  {
    var bumped, placed, at := Bumped(moves, j, c), PlacedAll(sets, moves, k, now), Landing(sets, moves[j], now);
    && StartsWithin(bumped, |sets|) && IsPlace(placed, at)
    && PlacedAll(sets, bumped, k, now) == WithAt(placed, at, c)
  }

  lemma LandsNow(sets: seq<BinSet>, moves: seq<Move>, j: nat, c: int, now: nat)
    requires AllWellFormed(sets) && j < |moves| && StartsWithin(moves, |sets|)
    ensures Lands(sets, moves, j, c, j + 1, now)
  {
    var before, v := PlacedAll(sets, moves, j, now), moves[j];
    BumpedStarts(moves, j, c, |sets|);
    BeforeBumped(sets, moves, j, c, j, now);
    PlacedAllKeepsRings(sets, moves, j, now);
    SameSpot(before, sets, v.start, Age(now, v.timestamp));
    PlaceBumped(before, v.start, Age(now, v.timestamp), v.count, c);
  }

  lemma StaysLanded(sets: seq<BinSet>, moves: seq<Move>, j: nat, c: int, k: nat, now: nat)
    requires AllWellFormed(sets) && j < k < |moves| && StartsWithin(moves, |sets|) && Lands(sets, moves, j, c, k, now)
    ensures Lands(sets, moves, j, c, k + 1, now)
  {
    PlaceWithAt(PlacedAll(sets, moves, k, now), Landing(sets, moves[j], now), c, moves[k], now);
  }

  lemma {:induction false} PlacedAllBumped(sets: seq<BinSet>, moves: seq<Move>, j: nat, c: int, k: nat, now: nat)
    requires AllWellFormed(sets) && j < k <= |moves| && StartsWithin(moves, |sets|)
    ensures Lands(sets, moves, j, c, k, now) == true
  {
    if k == j + 1 {
      LandsNow(sets, moves, j, c, now);
    } else {
      PlacedAllBumped(sets, moves, j, c, k - 1, now);
      StaysLanded(sets, moves, j, c, k - 1, now);
    }
  }

  lemma {:induction false} BeforeBumped(sets: seq<BinSet>, moves: seq<Move>, j: nat, c: int, k: nat, now: nat)
    requires AllWellFormed(sets) && k <= j < |moves| && StartsWithin(moves, |sets|)
    ensures StartsWithin(Bumped(moves, j, c), |sets|)
    ensures PlacedAll(sets, Bumped(moves, j, c), k, now) == PlacedAll(sets, moves, k, now)
  {
    BumpedStarts(moves, j, c, |sets|);
    if k > 0 {
      BeforeBumped(sets, moves, j, c, k - 1, now);
    }
  }

  // ---- Turning a ring ----

  // How many steps before the latest bin a bin is.
  function Offset(b: BinSet, k: nat): (o: nat)
    requires b.last < |b.bins| && k < |b.bins|
    ensures o < |b.bins| && Back(b, o) == k
  {
    if k <= b.last then b.last - k else b.last + |b.bins| - k
  }

  // The first place from lo on, counted round and round, that is bin k.
  ghost predicate FirstHit(n: nat, k: nat, lo: nat, first: nat) {
    0 < n && lo <= first && first % n == k && forall x :: lo <= x < first ==> x % n != k
  }

  lemma EmptiedAdded(b: BinSet, x: nat, k: nat, c: int)
    requires x < |b.bins| && k < |b.bins|
    ensures x != k ==> Emptied(Added(b, k, c), x) == Added(Emptied(b, x), k, c)
    ensures x == k ==> Emptied(Added(b, k, c), x) == Emptied(b, x)
  {
    if x != k {
      assert b.bins[k := b.bins[k] + c][x := 0] == b.bins[x := 0][k := b.bins[k] + c];
    } else {
      assert b.bins[k := b.bins[k] + c][k := 0] == b.bins[k := 0];
    }
  }

  lemma {:induction false} LeavingLength(b: BinSet, lo: nat, hi: nat, end: nat, start: nat)
    requires lo <= hi <= end && b.bins != []
    ensures |Leaving(b, lo, hi, end, start)| == hi - lo
    decreases hi
  {
    if lo < hi {
      LeavingLength(b, lo, hi - 1, end, start);
    }
  }

  // Before the bin is reached it keeps the count.
  lemma {:induction false} NotYetEmptied(b: BinSet, k: nat, c: int, lo: nat, hi: nat, end: nat, start: nat, first: nat)
    requires lo <= hi <= end && k < |b.bins| && FirstHit(|b.bins|, k, lo, first) && hi <= first
    ensures EmptiedRange(Added(b, k, c), lo, hi) == Added(EmptiedRange(b, lo, hi), k, c)
    ensures Leaving(Added(b, k, c), lo, hi, end, start) == Leaving(b, lo, hi, end, start)
    decreases hi
  {
    if lo < hi {
      NotYetEmptied(b, k, c, lo, hi - 1, end, start, first);
      EmptiedAdded(EmptiedRange(b, lo, hi - 1), (hi - 1) % |b.bins|, k, c);
    }
  }

  // Then the count leaves with it.
  ghost predicate GoesWith(b: BinSet, k: nat, c: int, lo: nat, hi: nat, end: nat, start: nat, first: nat)
    requires lo <= first < hi <= end && k < |b.bins|
  {
    var left := Leaving(b, lo, hi, end, start);
    && EmptiedRange(Added(b, k, c), lo, hi) == EmptiedRange(b, lo, hi) && |left| == hi - lo
    && Leaving(Added(b, k, c), lo, hi, end, start) == Bumped(left, first - lo, c)
  }

  // The move that the emptying of bin hi - 1 makes.
  function LastMove(b: BinSet, lo: nat, hi: nat, end: nat, start: nat): (v: Move)
    requires lo < hi <= end && b.bins != []
  {
    Move(BinTime(b, end - hi), EmptiedRange(b, lo, hi - 1).bins[(hi - 1) % |b.bins|], start)
  }

  lemma GoesNow(b: BinSet, k: nat, c: int, lo: nat, end: nat, start: nat, first: nat)
    requires lo <= first < end && k < |b.bins| && FirstHit(|b.bins|, k, lo, first)
    ensures GoesWith(b, k, c, lo, first + 1, end, start, first)
  {
    LeavingLength(b, lo, first, end, start);
    NotYetEmptied(b, k, c, lo, first, end, start, first);
    EmptiedAdded(EmptiedRange(b, lo, first), k, k, c);
    BumpedLater(Leaving(b, lo, first, end, start), [LastMove(b, lo, first + 1, end, start)], 0, c);
  }

  lemma StaysGone(b: BinSet, k: nat, c: int, lo: nat, hi: nat, end: nat, start: nat, first: nat)
    requires lo <= first < hi < end && k < |b.bins| && GoesWith(b, k, c, lo, hi, end, start, first)
    ensures GoesWith(b, k, c, lo, hi + 1, end, start, first)
  {
    BumpedEarlier(Leaving(b, lo, hi, end, start), [LastMove(b, lo, hi + 1, end, start)], first - lo, c);
  }

  lemma {:induction false} EmptiedWith(b: BinSet, k: nat, c: int, lo: nat, hi: nat, end: nat, start: nat, first: nat)
    requires lo <= first < hi <= end && k < |b.bins| && FirstHit(|b.bins|, k, lo, first)
    ensures GoesWith(b, k, c, lo, hi, end, start, first) == true
    decreases hi
  {
    if hi == first + 1 {
      GoesNow(b, k, c, lo, end, start, first);
    } else {
      EmptiedWith(b, k, c, lo, hi - 1, end, start, first);
      StaysGone(b, k, c, lo, hi - 1, end, start, first);
    }
  }

  // Whether a bin falls out of its ring.
  predicate Leaves(b: BinSet, k: nat, now: nat)
    requires WellFormed(b) && k < |b.bins|
  {
    |b.bins| - Offset(b, k) <= Turns(b, now)
  }

  // The time it then leaves with.
  function LeavingTime(b: BinSet, k: nat, now: nat): (t: nat)
    requires WellFormed(b) && k < |b.bins| && Leaves(b, k, now)
  {
    var n := Turns(b, now);
    BinTime(Turned(b, n), n - (|b.bins| - Offset(b, k)))
  }

  lemma InRange(x: nat, n: nat)
    requires x < n
    ensures x % n == x && (x + n) % n == x
  {
  }

  lemma HitAt(n: nat, last: nat, k: nat, o: nat)
    requires last < n && k < n && o == if k <= last then last - k else last + n - k
    ensures FirstHit(n, k, last + 1, last + n - o)
  {
    var first := last + n - o;
    InRange(k, n);
    forall x | last + 1 <= x < first
      ensures x % n != k
    {
      InRange(if x < n then x else x - n, n);
    }
  }

  lemma RotatedAdded(b: BinSet, k: nat, c: int, now: nat, start: nat)
    requires WellFormed(b) && k < |b.bins|
    ensures |Rotated(b, now).bins| == |b.bins|
    ensures !Leaves(b, k, now) ==> Rotated(Added(b, k, c), now) == Added(Rotated(b, now), k, c)
    ensures !Leaves(b, k, now) ==> Left(Added(b, k, c), now, start) == Left(b, now, start)
    ensures Leaves(b, k, now) ==> Rotated(Added(b, k, c), now) == Rotated(b, now)
    ensures Leaves(b, k, now) ==>
              && |Left(b, now, start)| == Turns(b, now)
              && Left(Added(b, k, c), now, start) == Bumped(Left(b, now, start), |b.bins| - Offset(b, k) - 1, c)
  {
    var n, o := Turns(b, now), Offset(b, k);
    var t, lo, end := Turned(b, n), b.last + 1, b.last + n + 1;
    assert Turned(Added(b, k, c), n) == Added(t, k, c);
    HitAt(|b.bins|, b.last, k, o);
    if Leaves(b, k, now) {
      EmptiedWith(t, k, c, lo, end, end, start, b.last + |b.bins| - o);
    } else {
      NotYetEmptied(t, k, c, lo, end, end, start, b.last + |b.bins| - o);
    }
  }

  // ---- A whole update ----

  predicate LeavesRing(sets: seq<BinSet>, m: Mark, now: nat)
    requires AllWellFormed(sets) && IsMark(sets, m)
  {
    Leaves(sets[m.ring], m.bin, now)
  }

  lemma RotatedWith(sets: seq<BinSet>, m: Mark, c: int, now: nat)
    requires AllWellFormed(sets) && IsMark(sets, m)
    ensures AllWellFormed(With(sets, m, c)) && IsMark(RotatedSets(sets, |sets|, now), m)
    ensures RotatedSets(With(sets, m, c), |sets|, now) ==
              WithAt(RotatedSets(sets, |sets|, now), if LeavesRing(sets, m, now) then None else Some(m), c)
  {
    WithKeepsRings(sets, m, c);
    RotatedAdded(sets[m.ring], m.bin, c, now, 0);
  }

  // Which of the moves carries the count.
  ghost function Carrier(sets: seq<BinSet>, m: Mark, now: nat): (j: nat)
    requires AllWellFormed(sets) && IsMark(sets, m)
  {
    var b := sets[m.ring];
    |AllLeft(sets, m.ring, now)| + (|b.bins| - Offset(b, m.bin) - 1)
  }

  lemma {:induction false} LeftUnchanged(sets: seq<BinSet>, m: Mark, c: int, k: nat, now: nat)
    requires AllWellFormed(sets) && IsMark(sets, m) && k <= |sets| && (k <= m.ring || !LeavesRing(sets, m, now))
    ensures AllWellFormed(With(sets, m, c))
    ensures AllLeft(With(sets, m, c), k, now) == AllLeft(sets, k, now)
  {
    WithKeepsRings(sets, m, c);
    if k > 0 {
      LeftUnchanged(sets, m, c, k - 1, now);
      if k - 1 == m.ring {
        RotatedAdded(sets[m.ring], m.bin, c, now, k);
      }
    }
  }

  // The moves with and without the count.
  ghost predicate Carries(sets: seq<BinSet>, m: Mark, c: int, k: nat, now: nat)
    requires AllWellFormed(sets) && IsMark(sets, m) && k <= |sets|
  {
    && AllWellFormed(With(sets, m, c)) && Carrier(sets, m, now) < |AllLeft(sets, k, now)|
    && AllLeft(With(sets, m, c), k, now) == Bumped(AllLeft(sets, k, now), Carrier(sets, m, now), c)
  }

  lemma CarriedNow(sets: seq<BinSet>, m: Mark, c: int, now: nat)
    requires AllWellFormed(sets) && IsMark(sets, m) && LeavesRing(sets, m, now)
    ensures Carries(sets, m, c, m.ring + 1, now)
  {
    var b, i := sets[m.ring], m.ring;
    WithKeepsRings(sets, m, c);
    LeftUnchanged(sets, m, c, i, now);
    RotatedAdded(b, m.bin, c, now, i + 1);
    BumpedLater(AllLeft(sets, i, now), Left(b, now, i + 1), |b.bins| - Offset(b, m.bin) - 1, c);
  }

  lemma CarriedStill(sets: seq<BinSet>, m: Mark, c: int, k: nat, now: nat)
    requires AllWellFormed(sets) && IsMark(sets, m) && m.ring < k < |sets| && Carries(sets, m, c, k, now)
    ensures Carries(sets, m, c, k + 1, now)
  {
    BumpedEarlier(AllLeft(sets, k, now), Left(sets[k], now, k + 1), Carrier(sets, m, now), c);
  }

  lemma {:induction false} LeftBumped(sets: seq<BinSet>, m: Mark, c: int, k: nat, now: nat)
    requires AllWellFormed(sets) && IsMark(sets, m) && m.ring < k <= |sets| && LeavesRing(sets, m, now)
    ensures Carries(sets, m, c, k, now) == true
  {
    if k == m.ring + 1 {
      CarriedNow(sets, m, c, now);
    } else {
      LeftBumped(sets, m, c, k - 1, now);
      CarriedStill(sets, m, c, k - 1, now);
    }
  }

  // The move that carries the count, and the time it has.
  lemma {:induction false} LeavingAt(b: BinSet, lo: nat, hi: nat, end: nat, start: nat, j: nat)
    requires lo <= hi <= end && b.bins != [] && j < hi - lo
    ensures |Leaving(b, lo, hi, end, start)| == hi - lo
    ensures var v := Leaving(b, lo, hi, end, start)[j];
            v.timestamp == BinTime(b, end - (lo + j + 1)) && v.start == start
    decreases hi
  {
    LeavingLength(b, lo, hi - 1, end, start);
    if j < hi - 1 - lo {
      LeavingAt(b, lo, hi - 1, end, start, j);
    }
  }

  ghost predicate CarriedBy(sets: seq<BinSet>, m: Mark, k: nat, now: nat)
    requires AllWellFormed(sets) && IsMark(sets, m) && k <= |sets| && LeavesRing(sets, m, now)
  {
    && Carrier(sets, m, now) < |AllLeft(sets, k, now)|
    && var v := AllLeft(sets, k, now)[Carrier(sets, m, now)];
       v.start == m.ring + 1 && v.timestamp == LeavingTime(sets[m.ring], m.bin, now)
  }

  lemma CarriedFirst(sets: seq<BinSet>, m: Mark, now: nat)
    requires AllWellFormed(sets) && IsMark(sets, m) && LeavesRing(sets, m, now)
    ensures CarriedBy(sets, m, m.ring + 1, now)
  {
    var b, n := sets[m.ring], Turns(sets[m.ring], now);
    LeavingAt(Turned(b, n), b.last + 1, b.last + n + 1, b.last + n + 1, m.ring + 1, |b.bins| - Offset(b, m.bin) - 1);
  }

  lemma {:induction false} CarrierIs(sets: seq<BinSet>, m: Mark, k: nat, now: nat)
    requires AllWellFormed(sets) && IsMark(sets, m) && m.ring < k <= |sets| && LeavesRing(sets, m, now)
    ensures CarriedBy(sets, m, k, now) == true
  {
    if k > m.ring + 1 {
      CarrierIs(sets, m, k - 1, now);
    } else {
      CarriedFirst(sets, m, now);
    }
  }

  // Where the count is after an update.
  function Moved(sets: seq<BinSet>, m: Mark, now: nat): (at: Option<Mark>)
    requires AllWellFormed(sets) && IsMark(sets, m)
  {
    if !LeavesRing(sets, m, now) then Some(m)
    else SpotMark(RotatedSets(sets, |sets|, now), m.ring + 1, Age(now, LeavingTime(sets[m.ring], m.bin, now)))
  }

  ghost predicate UpdatesTo(sets: seq<BinSet>, m: Mark, c: int, now: nat, at: Option<Mark>)
    requires AllWellFormed(sets) && IsMark(sets, m)
  {
    && AllWellFormed(With(sets, m, c)) && IsPlace(Updated(sets, now), at)
    && Updated(With(sets, m, c), now) == WithAt(Updated(sets, now), at, c)
  }

  lemma UpdatedStaying(sets: seq<BinSet>, m: Mark, c: int, now: nat)
    requires AllWellFormed(sets) && IsMark(sets, m) && !LeavesRing(sets, m, now)
    ensures UpdatesTo(sets, m, c, now, Some(m))
  {
    var moves := AllLeft(sets, |sets|, now);
    LeftStarts(sets, |sets|, now);
    RotatedWith(sets, m, c, now);
    LeftUnchanged(sets, m, c, |sets|, now);
    PlacedAllWith(RotatedSets(sets, |sets|, now), m, c, moves, |moves|, now);
  }

  lemma {:induction false} UpdatedFrom(sets: seq<BinSet>, m: Mark, c: int, now: nat, rotated: seq<BinSet>,
                                       moves: seq<Move>, j: nat)
    requires AllWellFormed(sets) && IsMark(sets, m) && AllWellFormed(With(sets, m, c))
    requires RotatedSets(sets, |sets|, now) == RotatedSets(With(sets, m, c), |sets|, now) == rotated
    requires AllLeft(sets, |sets|, now) == moves && j < |moves| && StartsWithin(moves, |sets|)
    requires AllLeft(With(sets, m, c), |sets|, now) == Bumped(moves, j, c)
    requires Lands(rotated, moves, j, c, |moves|, now)
    ensures UpdatesTo(sets, m, c, now, Landing(rotated, moves[j], now))
  {
  }

  lemma UpdatedLeaving(sets: seq<BinSet>, m: Mark, c: int, now: nat)
    requires AllWellFormed(sets) && IsMark(sets, m) && LeavesRing(sets, m, now)
    ensures UpdatesTo(sets, m, c, now, Moved(sets, m, now)) == true
  {
    var moves, rotated, j := AllLeft(sets, |sets|, now), RotatedSets(sets, |sets|, now), Carrier(sets, m, now);
    LeftStarts(sets, |sets|, now);
    RotatedWith(sets, m, c, now);
    LeftBumped(sets, m, c, |sets|, now);
    CarrierIs(sets, m, |sets|, now);
    PlacedAllBumped(rotated, moves, j, c, |moves|, now);
    UpdatedFrom(sets, m, c, now, rotated, moves, j);
  }

  // An update of counters that differ in one count leaves them so: it only moves the count.
  lemma UpdatedWith(sets: seq<BinSet>, m: Mark, c: int, now: nat)
    requires AllWellFormed(sets) && IsMark(sets, m)
    ensures UpdatesTo(sets, m, c, now, Moved(sets, m, now)) == true
  {
    if LeavesRing(sets, m, now) {
      UpdatedLeaving(sets, m, c, now);
    } else {
      UpdatedStaying(sets, m, c, now);
    }
  }
}
