/**
 What queries see of an event after time has passed: it is found within a few bins of its true
 age, unless it left a ring exactly on the dot.
 */
module CounterTime {
  import opened Wrappers
  import opened CounterSpec
  import opened CounterUpdate
  import opened CounterLinear

  // ---- Which queries reach a bin ----

  // Queries longer than this reach the bin.
  function Start(sets: seq<BinSet>, m: Mark): (start: nat)
    requires AllWellFormed(sets) && IsMark(sets, m)
  {
    Covered(sets, m.ring) + sets[m.ring].binsize * Offset(sets[m.ring], m.bin)
  }

  lemma OffsetInSpan(b: BinSet, o: nat)
    requires WellFormed(b) && o < |b.bins|
    ensures b.binsize * o + b.binsize <= Span(b)
  {
    assert b.binsize * |b.bins| == b.binsize * (o + 1) + b.binsize * (|b.bins| - o - 1);
    assert b.binsize * (o + 1) == b.binsize * o + b.binsize;
  }

  // Looking at one ring alone.
  lemma SumBackWith(b: BinSet, k: nat, c: int, q: nat)
    requires WellFormed(b) && k < |b.bins| && 0 < q <= Span(b)
    ensures Steps(q, b.binsize) < |b.bins|
    ensures SumBack(Added(b, k, c), Steps(q, b.binsize)) ==
              SumBack(b, Steps(q, b.binsize)) + if q > b.binsize * Offset(b, k) then c else 0
  {
    StepsInRing(q, b.binsize, |b.bins|);
    StepsThreshold(q, b.binsize, Offset(b, k));
    SumBackAdded(b, Offset(b, k), c, Steps(q, b.binsize));
  }

  lemma {:induction false} QueryPast(sets: seq<BinSet>, m: Mark, c: int, i: nat, q: nat)
    requires AllWellFormed(sets) && IsMark(sets, m) && m.ring < i <= |sets|
    ensures AllWellFormed(With(sets, m, c)) && Query(With(sets, m, c), i, q) == Query(sets, i, q)
    decreases |sets| - i
  {
    WithKeepsRings(sets, m, c);
    if q > 0 && i < |sets| && Span(sets[i]) < q {
      QueryPast(sets, m, c, i + 1, q - Span(sets[i]));
    }
  }

  lemma QueryHere(sets: seq<BinSet>, m: Mark, c: int, q: nat)
    requires AllWellFormed(sets) && IsMark(sets, m)
    ensures AllWellFormed(With(sets, m, c))
    ensures Query(With(sets, m, c), m.ring, q) ==
              Query(sets, m.ring, q) + if q > sets[m.ring].binsize * Offset(sets[m.ring], m.bin) then c else 0
  {
    var b := sets[m.ring];
    WithKeepsRings(sets, m, c);
    if Span(b) < q {
      QueryPast(sets, m, c, m.ring + 1, q - Span(b));
      OffsetInSpan(b, Offset(b, m.bin));
    } else if q > 0 {
      SumBackWith(b, m.bin, c, q);
    }
  }

  lemma {:induction false} QueryWith(sets: seq<BinSet>, m: Mark, c: int, i: nat, q: nat)
    requires AllWellFormed(sets) && IsMark(sets, m) && i <= |sets|
    ensures AllWellFormed(With(sets, m, c))
    ensures Query(With(sets, m, c), i, q) ==
              Query(sets, i, q) + if i <= m.ring && Covered(sets, i) + q > Start(sets, m) then c else 0
    decreases |sets| - i
  {
    WithKeepsRings(sets, m, c);
    if m.ring < i {
      QueryPast(sets, m, c, i, q);
    } else if i == m.ring {
      QueryHere(sets, m, c, q);
    } else {
      CoveredGrows(sets, i + 1, m.ring);
      if Span(sets[i]) < q {
        QueryWith(sets, m, c, i + 1, q - Span(sets[i]));
      }
    }
  }

  // ---- The age an update takes a count to have ----

  // While a ring has not started, its counts stand still.
  function Reading(sets: seq<BinSet>, m: Mark, now: nat): (age: nat)
    requires AllWellFormed(sets) && IsMark(sets, m)
  {
    Start(sets, m) + Age(now, sets[m.ring].timestamp)
  }

  lemma OffsetAdvances(b: BinSet, k: nat, now: nat)
    requires WellFormed(b) && k < |b.bins| && !Leaves(b, k, now)
    ensures |Rotated(b, now).bins| == |b.bins|
    ensures Offset(Rotated(b, now), k) == Offset(b, k) + Turns(b, now)
  {
    var n, len := Turns(b, now), |b.bins|;
    if b.last + n < len {
      InRange(b.last + n, len);
    } else {
      InRange(b.last + n - len, len);
    }
  }

  lemma RotatedClock(b: BinSet, now: nat)
    requires WellFormed(b)
    ensures var r := Rotated(b, now); r.binsize == b.binsize && r.timestamp == b.timestamp + Turns(b, now) * b.binsize
  {
  }

  // After an update the rings are those that were turned.
  lemma UpdatedRings(sets: seq<BinSet>, now: nat)
    requires AllWellFormed(sets)
    ensures SameRings(Updated(sets, now), RotatedSets(sets, |sets|, now))
  {
    var moves := AllLeft(sets, |sets|, now);
    LeftStarts(sets, |sets|, now);
    PlacedAllKeepsRings(RotatedSets(sets, |sets|, now), moves, |moves|, now);
  }

  lemma Distribute(s: nat, a: nat, b: nat)
    ensures s * (a + b) == s * a + s * b && (a + b) * s == s * a + s * b
  {
  }

  lemma AtLeastOne(s: nat, a: nat)
    requires 0 < a
    ensures s * a >= s
  {
    Distribute(s, 1, a - 1);
  }

  lemma RingReads(b: BinSet, k: nat, now: nat)
    requires WellFormed(b) && k < |b.bins| && !Leaves(b, k, now)
    ensures var r := Rotated(b, now);
            && |r.bins| == |b.bins|
            && r.binsize * Offset(r, k) + Age(now, r.timestamp) == b.binsize * Offset(b, k) + Age(now, b.timestamp)
  {
    OffsetAdvances(b, k, now);
    RotatedClock(b, now);
    Distribute(b.binsize, Offset(b, k), Turns(b, now));
    if Turns(b, now) > 0 {
      TurnsFit(b, Turns(b, now), now);
    }
  }

  // What stays in its ring reads the same before and after.
  lemma StayingReads(sets: seq<BinSet>, m: Mark, now: nat)
    requires AllWellFormed(sets) && IsMark(sets, m) && !LeavesRing(sets, m, now)
    ensures IsMark(Updated(sets, now), m) && Reading(Updated(sets, now), m, now) == Reading(sets, m, now)
  {
    UpdatedRings(sets, now);
    assert SameRing(Updated(sets, now)[m.ring], Rotated(sets[m.ring], now));
    UpdatingKeepsCover(sets, now, m.ring);
    RingReads(sets[m.ring], m.bin, now);
  }

  // What leaves its ring is placed by its reading.
  lemma LeavingReads(sets: seq<BinSet>, m: Mark, now: nat)
    requires AllWellFormed(sets) && IsMark(sets, m) && LeavesRing(sets, m, now)
    ensures Age(now, LeavingTime(sets[m.ring], m.bin, now)) == Reading(sets, m, now) - Covered(sets, m.ring + 1)
  {
    var b, o := sets[m.ring], Offset(sets[m.ring], m.bin);
    LeavingTimeIs(b, m.bin, now);
    TurnsFit(b, |b.bins| - o, now);
    Distribute(b.binsize, o, |b.bins| - o);
  }

  lemma LeavingTimeIs(b: BinSet, k: nat, now: nat)
    requires WellFormed(b) && k < |b.bins| && Leaves(b, k, now)
    ensures LeavingTime(b, k, now) == b.timestamp + b.binsize * (|b.bins| - Offset(b, k))
  {
    var left := |b.bins| - Offset(b, k);
    Distribute(b.binsize, Turns(b, now) - left, left);
    AtLeastOne(b.binsize, left);
  }

  lemma TurnsFit(b: BinSet, n: nat, now: nat)
    requires WellFormed(b) && 0 < n <= Turns(b, now)
    ensures b.timestamp + b.binsize * n <= now
  {
    var age := Age(now, b.timestamp);
    Distribute(b.binsize, n, Turns(b, now) - n);
    assert age == b.binsize * (age / b.binsize) + age % b.binsize;
    assert b.binsize * n <= age;
    AtLeastOne(b.binsize, n);
  }

  // ---- Where a count comes to lie in the next ring ----

  // The bin holds the age, or is at most one bin too early.
  ghost predicate Holds(sets: seq<BinSet>, m: Mark, age: int)
    requires AllWellFormed(sets)
  {
    IsMark(sets, m) && Start(sets, m) <= age <= Start(sets, m) + sets[m.ring].binsize
  }

  lemma BackOffset(b: BinSet, o: nat)
    requires b.last < |b.bins| && o < |b.bins|
    ensures Offset(b, Back(b, o)) == o
  {
  }

  lemma {:induction false} SpotHolds(sets: seq<BinSet>, i: nat, age: nat)
    requires AllWellFormed(sets) && i <= |sets| && 0 < age
    ensures SpotMark(sets, i, age).None? <==> Covered(sets, i) + age > Covered(sets, |sets|)
    ensures var at := SpotMark(sets, i, age);
            at.Some? ==> i <= at.value.ring && Holds(sets, at.value, Covered(sets, i) + age)
    decreases |sets| - i
  {
    if i < |sets| {
      var b := sets[i];
      CoveredGrows(sets, i + 1, |sets|);
      if Span(b) < age {
        SpotHolds(sets, i + 1, age - Span(b));
      } else {
        StepsInRing(age, b.binsize, |b.bins|);
        BackOffset(b, Steps(age, b.binsize));
        AgeInBin(age, b.binsize);
      }
    }
  }

  lemma {:induction false} SameCover(s: seq<BinSet>, t: seq<BinSet>, j: nat)
    requires SameRings(s, t) && j <= |s|
    ensures Covered(s, j) == Covered(t, j)
  {
    if j > 0 {
      SameCover(s, t, j - 1);
      assert SameRing(s[j - 1], t[j - 1]);
    }
  }

  lemma SameStart(s: seq<BinSet>, t: seq<BinSet>, m: Mark)
    requires SameRings(s, t) && AllWellFormed(s) && AllWellFormed(t) && IsMark(s, m)
    ensures IsMark(t, m) && Start(s, m) == Start(t, m)
  {
    assert SameRing(s[m.ring], t[m.ring]);
    SameCover(s, t, m.ring);
  }

  // A count that leaves its ring just when its reading is what the rings so far cover.
  predicate OnTheDot(sets: seq<BinSet>, m: Mark, now: nat)
    requires AllWellFormed(sets) && IsMark(sets, m)
  {
    LeavesRing(sets, m, now) && Reading(sets, m, now) == Covered(sets, m.ring + 1)
  }

  lemma SameHolds(s: seq<BinSet>, t: seq<BinSet>, m: Mark, age: int)
    requires SameRings(s, t) && AllWellFormed(s) && AllWellFormed(t) && Holds(s, m, age)
    ensures Holds(t, m, age)
  {
    assert SameRing(s[m.ring], t[m.ring]);
    SameStart(s, t, m);
  }

  // What is known of a count with the given reading that was placed from ring i on.
  ghost predicate Settles(sets: seq<BinSet>, i: nat, reading: int, at: Option<Mark>)
    requires AllWellFormed(sets)
  {
    && (at.None? <==> reading > Covered(sets, |sets|))
    && (at.Some? ==> i <= at.value.ring && Holds(sets, at.value, reading))
  }

  lemma RotatedSettles(sets: seq<BinSet>, m: Mark, now: nat)
    requires AllWellFormed(sets) && IsMark(sets, m) && LeavesRing(sets, m, now) && !OnTheDot(sets, m, now)
    ensures Settles(RotatedSets(sets, |sets|, now), m.ring + 1, Reading(sets, m, now), Moved(sets, m, now))
  {
    var age := Age(now, LeavingTime(sets[m.ring], m.bin, now));
    LeavingReads(sets, m, now);
    UpdatedCovers(sets, now, m.ring + 1);
    SpotHolds(RotatedSets(sets, |sets|, now), m.ring + 1, age);
  }

  // Otherwise it is dropped exactly if no ring covers its reading, and lies where it belongs.
  lemma MovedHolds(sets: seq<BinSet>, m: Mark, now: nat)
    requires AllWellFormed(sets) && IsMark(sets, m) && LeavesRing(sets, m, now) && !OnTheDot(sets, m, now)
    ensures Settles(Updated(sets, now), m.ring + 1, Reading(sets, m, now), Moved(sets, m, now))
  {
    RotatedSettles(sets, m, now);
    SameSettles(RotatedSets(sets, |sets|, now), Updated(sets, now), sets, m, now);
  }

  lemma SameSettles(s: seq<BinSet>, t: seq<BinSet>, sets: seq<BinSet>, m: Mark, now: nat)
    requires AllWellFormed(sets) && s == RotatedSets(sets, |sets|, now) && t == Updated(sets, now) && IsMark(sets, m)
    requires Settles(s, m.ring + 1, Reading(sets, m, now), Moved(sets, m, now))
    ensures Settles(t, m.ring + 1, Reading(sets, m, now), Moved(sets, m, now))
  {
    UpdatedRings(sets, now);
    SameCover(t, s, |sets|);
    if Moved(sets, m, now).Some? {
      SameHolds(s, t, Moved(sets, m, now).value, Reading(sets, m, now));
    }
  }

  lemma UpdatedCovers(sets: seq<BinSet>, now: nat, j: nat)
    requires AllWellFormed(sets) && j <= |sets|
    ensures Covered(RotatedSets(sets, |sets|, now), j) == Covered(sets, j)
    ensures Covered(Updated(sets, now), j) == Covered(sets, j)
  {
    UpdatedRings(sets, now);
    SameCover(Updated(sets, now), RotatedSets(sets, |sets|, now), j);
    UpdatingKeepsCover(sets, now, j);
  }

  lemma FirstBin(sets: seq<BinSet>, i: nat)
    requires AllWellFormed(sets) && i < |sets|
    ensures IsMark(sets, Mark(i, 0)) && SpotMark(sets, i, 0) == Some(Mark(i, 0))
    ensures Start(sets, Mark(i, 0)) == Covered(sets, i) + sets[i].binsize * sets[i].last
  {
  }

  lemma DotToFirstBin(sets: seq<BinSet>, m: Mark, now: nat)
    requires AllWellFormed(sets) && IsMark(sets, m) && OnTheDot(sets, m, now) && m.ring + 1 < |sets|
    ensures Moved(sets, m, now) == Some(Mark(m.ring + 1, 0))
  {
    LeavingReads(sets, m, now);
    FirstBin(RotatedSets(sets, |sets|, now), m.ring + 1);
  }

  // On the dot it goes to bin 0 of the next ring, wherever that bin is by then: too far back by
  // as many bins as the ring has moved on.
  lemma DotGoesAstray(sets: seq<BinSet>, m: Mark, now: nat)
    requires AllWellFormed(sets) && IsMark(sets, m) && OnTheDot(sets, m, now) && m.ring + 1 < |sets|
    ensures var at, u := Mark(m.ring + 1, 0), Updated(sets, now);
            && Moved(sets, m, now) == Some(at) && IsMark(u, at)
            && Start(u, at) == Reading(sets, m, now) + u[at.ring].binsize * u[at.ring].last
            && (Holds(u, at, Reading(sets, m, now)) <==> u[at.ring].last == 0)
  {
    var u, i := Updated(sets, now), m.ring + 1;
    DotToFirstBin(sets, m, now);
    FirstBin(u, i);
    UpdatedCovers(sets, now, i);
    if u[i].last > 0 {
      AtLeastOne(u[i].binsize, u[i].last);
    }
  }

  // ---- Whole histories ----

  // A call of the counter: recording an event, or asking.
  datatype Call = Record(now: nat, timestamp: nat, num: int) | Ask(now: nat)

  function Called(sets: seq<BinSet>, call: Call): (r: seq<BinSet>)
    requires AllWellFormed(sets)
    ensures AllWellFormed(r) && |r| == |sets|
  {
    var u := Updated(sets, call.now);
    match call
    case Record(now, timestamp, num) => Place(u, 0, Age(now, timestamp), num)
    case Ask(_) => u
  }

  function Ran(sets: seq<BinSet>, calls: seq<Call>): (r: seq<BinSet>)
    requires AllWellFormed(sets)
    ensures AllWellFormed(r) && |r| == |sets|
  {
    if calls == [] then sets else Called(Ran(sets, calls[..|calls| - 1]), calls[|calls| - 1])
  }

  // The time of the last call.
  function LastTime(now: nat, calls: seq<Call>): (t: nat) {
    if calls == [] then now else calls[|calls| - 1].now
  }

  ghost predicate InOrder(now: nat, calls: seq<Call>) {
    forall i :: 0 <= i < |calls| ==> LastTime(now, calls[..i]) <= calls[i].now
  }

  // Where the count is after some calls.
  function Followed(sets: seq<BinSet>, calls: seq<Call>, m: Mark): (at: Option<Mark>)
    requires AllWellFormed(sets) && IsMark(sets, m)
    ensures IsPlace(Ran(sets, calls), at)
  {
    if calls == [] then Some(m)
    else
      var n := |calls| - 1;
      var s, at := Ran(sets, calls[..n]), Followed(sets, calls[..n], m);
      if at.None? then None
      else
        CalledRings(s, calls[n]);
        UpdatedWith(s, at.value, 0, calls[n].now);
        Moved(s, at.value, calls[n].now)
  }

  lemma CalledRings(sets: seq<BinSet>, call: Call)
    requires AllWellFormed(sets)
    ensures SameRings(Called(sets, call), Updated(sets, call.now))
  {
  }

  lemma CalledWith(sets: seq<BinSet>, m: Mark, c: int, call: Call)
    requires AllWellFormed(sets) && IsMark(sets, m)
    ensures AllWellFormed(With(sets, m, c)) && IsPlace(Called(sets, call), Moved(sets, m, call.now))
    ensures Called(With(sets, m, c), call) == WithAt(Called(sets, call), Moved(sets, m, call.now), c)
  {
    var u, at := Updated(sets, call.now), Moved(sets, m, call.now);
    UpdatedWith(sets, m, c, call.now);
    CalledRings(sets, call);
    if call.Record? && at.Some? {
      PlaceWith(u, at.value, c, 0, Age(call.now, call.timestamp), call.num);
    }
  }

  // Counters that differ in one count go on to do so, until it is dropped.
  lemma {:induction false} RanWith(sets: seq<BinSet>, m: Mark, c: int, calls: seq<Call>)
    requires AllWellFormed(sets) && IsMark(sets, m)
    ensures AllWellFormed(With(sets, m, c))
    ensures Ran(With(sets, m, c), calls) == WithAt(Ran(sets, calls), Followed(sets, calls, m), c)
  {
    WithKeepsRings(sets, m, c);
    if calls != [] {
      var n := |calls| - 1;
      RanWith(sets, m, c, calls[..n]);
      var at := Followed(sets, calls[..n], m);
      if at.Some? {
        CalledWith(Ran(sets, calls[..n]), at.value, c, calls[n]);
      }
    }
  }

  // ---- How far off the count can be ----

  // The bin sizes of the first n rings together.
  function Sizes(sets: seq<BinSet>, n: nat): (size: nat)
    requires n <= |sets|
  {
    if n == 0 then 0 else Sizes(sets, n - 1) + sets[n - 1].binsize
  }

  lemma {:induction false} SizesGrow(sets: seq<BinSet>, i: nat, j: nat)
    requires i <= j <= |sets|
    ensures Sizes(sets, i) <= Sizes(sets, j)
  {
    if i < j {
      SizesGrow(sets, i, j - 1);
    }
  }

  lemma {:induction false} SameSizes(s: seq<BinSet>, t: seq<BinSet>, n: nat)
    requires |s| == |t| && n <= |s| && forall i :: 0 <= i < |s| ==> s[i].binsize == t[i].binsize
    ensures Sizes(s, n) == Sizes(t, n)
  {
    if n > 0 {
      SameSizes(s, t, n - 1);
    }
  }

  // Every ring has been turned up to now, and has started or will by the given time.
  ghost predicate StartsBy(sets: seq<BinSet>, now: nat, due: nat) {
    UpToDate(sets, now) && forall i :: 0 <= i < |sets| ==> sets[i].timestamp <= now || sets[i].timestamp <= due
  }

  // The reading is within one bin of each ring so far of the given ages.
  ghost predicate IsNear(sets: seq<BinSet>, m: Mark, now: nat, low: int, high: int)
    requires AllWellFormed(sets)
  {
    && IsMark(sets, m)
    && low - Sizes(sets, m.ring + 1) <= Reading(sets, m, now) <= high + Sizes(sets, m.ring + 1)
  }

  lemma PhaseInBin(sets: seq<BinSet>, now: nat, i: nat)
    requires UpToDate(sets, now) && i < |sets|
    ensures Age(now, sets[i].timestamp) < sets[i].binsize
  {
    assert Turns(sets[i], now) == 0;
  }

  // A bin that holds a reading that is near is near.
  lemma HoldsNear(sets: seq<BinSet>, m: Mark, now: nat, reading: int, low: int, high: int, off: nat)
    requires UpToDate(sets, now) && Holds(sets, m, reading)
    requires low - off <= reading <= high + off && off <= Sizes(sets, m.ring)
    ensures IsNear(sets, m, now, low, high)
  {
    PhaseInBin(sets, now, m.ring);
  }

  lemma UpdatedStartsBy(sets: seq<BinSet>, now: nat, due: nat)
    requires AllWellFormed(sets)
    requires forall i :: 0 <= i < |sets| ==> sets[i].timestamp <= now || sets[i].timestamp <= due
    ensures StartsBy(Updated(sets, now), now, due)
  {
    UpdatedIsUpToDate(sets, now);
    UpdatedRings(sets, now);
    forall i | 0 <= i < |sets|
      ensures Updated(sets, now)[i].timestamp <= now || Updated(sets, now)[i].timestamp <= due
    {
      assert SameRing(Updated(sets, now)[i], Rotated(sets[i], now));
      RotatedInTime(sets[i], now);
    }
  }

  lemma SameStartsBy(s: seq<BinSet>, t: seq<BinSet>, now: nat, due: nat)
    requires SameRings(s, t) && StartsBy(s, now, due) && AllWellFormed(t)
    ensures StartsBy(t, now, due)
  {
    forall i | 0 <= i < |t|
      ensures Turns(t[i], now) == 0 && (t[i].timestamp <= now || t[i].timestamp <= due)
    {
      assert SameRing(s[i], t[i]) && Turns(s[i], now) == 0;
    }
  }

  lemma CalledStartsBy(sets: seq<BinSet>, call: Call, now: nat, due: nat)
    requires StartsBy(sets, now, due) && now <= call.now
    ensures StartsBy(Called(sets, call), call.now, due)
  {
    UpdatedStartsBy(sets, call.now, due);
    CalledRings(sets, call);
    SameStartsBy(Updated(sets, call.now), Called(sets, call), call.now, due);
  }

  lemma RotatedInTime(b: BinSet, now: nat)
    requires WellFormed(b)
    ensures Rotated(b, now).timestamp <= now || Rotated(b, now).timestamp == b.timestamp
  {
    RotatedClock(b, now);
    if Turns(b, now) > 0 {
      TurnsFit(b, Turns(b, now), now);
    }
  }

  // The part of the time from now to later that is before the given time.
  function Waited(now: nat, later: nat, due: nat): (t: nat)
    requires now <= later
  {
    if later <= due then later - now else Age(due, now)
  }

  // A count grows older as time passes, except while it waits for its ring to start.
  lemma ReadingGrows(sets: seq<BinSet>, m: Mark, now: nat, later: nat, due: nat)
    requires StartsBy(sets, now, due) && IsMark(sets, m) && now <= later
    ensures var grown := Reading(sets, m, later) - Reading(sets, m, now);
            later - now - Waited(now, later, due) <= grown <= later - now
  {
  }

  // ---- One call, and many ----

  // On the dot, with the next ring no longer at its first bin.
  predicate GoesAstray(sets: seq<BinSet>, m: Mark, now: nat)
    requires AllWellFormed(sets) && IsMark(sets, m)
  {
    OnTheDot(sets, m, now) && m.ring + 1 < |sets| && Updated(sets, now)[m.ring + 1].last != 0
  }

  // What an update makes of a count: it reads as before, or settles in a later ring.
  ghost predicate ReadsOn(sets: seq<BinSet>, m: Mark, now: nat, u: seq<BinSet>, at: Option<Mark>)
    requires AllWellFormed(sets) && AllWellFormed(u) && IsMark(sets, m)
  {
    var reading := Reading(sets, m, now);
    && IsPlace(u, at)
    && (at.None? ==> reading >= Covered(sets, |sets|))
    && (at == Some(m) ==> Reading(u, m, now) == reading)
    && (at.Some? && at != Some(m) ==> m.ring < at.value.ring && Holds(u, at.value, reading))
  }

  lemma MovesRightly(sets: seq<BinSet>, m: Mark, now: nat)
    requires AllWellFormed(sets) && IsMark(sets, m) && !GoesAstray(sets, m, now)
    ensures ReadsOn(sets, m, now, Updated(sets, now), Moved(sets, m, now))
  {
    UpdatedWith(sets, m, 0, now);
    if !LeavesRing(sets, m, now) {
      StayingReads(sets, m, now);
    } else if !OnTheDot(sets, m, now) {
      MovedHolds(sets, m, now);
      UpdatedCovers(sets, now, |sets|);
    } else if m.ring + 1 < |sets| {
      DotGoesAstray(sets, m, now);
    }
  }

  lemma SameNear(s: seq<BinSet>, t: seq<BinSet>, m: Mark, now: nat, low: int, high: int)
    requires SameRings(s, t) && AllWellFormed(s) && AllWellFormed(t) && IsNear(s, m, now, low, high)
    ensures IsNear(t, m, now, low, high)
  {
    assert SameRing(s[m.ring], t[m.ring]);
    SameStart(s, t, m);
    forall i | 0 <= i < |s|
      ensures s[i].binsize == t[i].binsize
    {
      assert SameRing(s[i], t[i]);
    }
    SameSizes(s, t, m.ring + 1);
  }

  ghost predicate SameBins(s: seq<BinSet>, t: seq<BinSet>) {
    |s| == |t| && forall i :: 0 <= i < |s| ==> s[i].binsize == t[i].binsize
  }

  lemma UpdatedBins(sets: seq<BinSet>, now: nat)
    requires AllWellFormed(sets)
    ensures SameBins(sets, Updated(sets, now))
  {
    forall i | 0 <= i < |sets|
      ensures Updated(sets, now)[i].binsize == sets[i].binsize
    {
      UpdatingKeepsShapes(sets, now, i);
    }
  }

  // A count of such an age is near it, or was dropped when it was about too old.
  ghost predicate NearOrGone(u: seq<BinSet>, at: Option<Mark>, now: nat, low: int, high: int)
    requires AllWellFormed(u)
  {
    && (at.Some? ==> IsNear(u, at.value, now, low, high))
    && (at.None? ==> high + Sizes(u, |u|) >= Covered(u, |u|))
  }

  lemma NearWhereItWas(sets: seq<BinSet>, m: Mark, now: nat, low: int, high: int, u: seq<BinSet>)
    requires AllWellFormed(sets) && AllWellFormed(u) && IsNear(sets, m, now, low, high) && SameBins(sets, u)
    requires IsMark(u, m) && Reading(u, m, now) == Reading(sets, m, now)
    ensures IsNear(u, m, now, low, high)
  {
    SameSizes(sets, u, m.ring + 1);
  }

  // After a count has moved on, at most the bin size of its new ring is added to what it was off.
  lemma NearInNextRing(sets: seq<BinSet>, m: Mark, now: nat, low: int, high: int, u: seq<BinSet>, to: Mark)
    requires AllWellFormed(sets) && IsNear(sets, m, now, low, high) && UpToDate(u, now) && SameBins(sets, u)
    requires m.ring < to.ring && Holds(u, to, Reading(sets, m, now))
    ensures IsNear(u, to, now, low, high)
  {
    SameSizes(sets, u, m.ring + 1);
    SizesGrow(u, m.ring + 1, to.ring);
    HoldsNear(u, to, now, Reading(sets, m, now), low, high, Sizes(sets, m.ring + 1));
  }

  lemma GoneWhenOld(sets: seq<BinSet>, m: Mark, now: nat, low: int, high: int, u: seq<BinSet>)
    requires AllWellFormed(sets) && AllWellFormed(u) && IsNear(sets, m, now, low, high) && SameBins(sets, u)
    requires Reading(sets, m, now) >= Covered(sets, |sets|) == Covered(u, |u|)
    ensures high + Sizes(u, |u|) >= Covered(u, |u|)
  {
    SizesGrow(sets, m.ring + 1, |sets|);
    SameSizes(sets, u, |sets|);
  }

  lemma StaysNear(sets: seq<BinSet>, m: Mark, now: nat, low: int, high: int, u: seq<BinSet>, at: Option<Mark>)
    requires AllWellFormed(sets) && IsNear(sets, m, now, low, high)
    requires UpToDate(u, now) && SameBins(sets, u) && ReadsOn(sets, m, now, u, at)
    requires Covered(u, |u|) == Covered(sets, |sets|)
    ensures NearOrGone(u, at, now, low, high)
  {
    if at.None? {
      GoneWhenOld(sets, m, now, low, high, u);
    } else if at == Some(m) {
      NearWhereItWas(sets, m, now, low, high, u);
    } else {
      NearInNextRing(sets, m, now, low, high, u, at.value);
    }
  }

  lemma UpdateStaysNear(sets: seq<BinSet>, m: Mark, now: nat, low: int, high: int)
    requires AllWellFormed(sets) && IsNear(sets, m, now, low, high) && !GoesAstray(sets, m, now)
    ensures NearOrGone(Updated(sets, now), Moved(sets, m, now), now, low, high)
  {
    UpdatedIsUpToDate(sets, now);
    UpdatedBins(sets, now);
    UpdatingKeepsCover(sets, now, |sets|);
    MovesRightly(sets, m, now);
    StaysNear(sets, m, now, low, high, Updated(sets, now), Moved(sets, m, now));
  }

  lemma SameNearOrGone(s: seq<BinSet>, t: seq<BinSet>, at: Option<Mark>, now: nat, low: int, high: int)
    requires SameRings(s, t) && AllWellFormed(s) && AllWellFormed(t) && NearOrGone(s, at, now, low, high)
    ensures NearOrGone(t, at, now, low, high)
  {
    if at.Some? {
      SameNear(s, t, at.value, now, low, high);
    } else {
      forall i | 0 <= i < |s|
        ensures s[i].binsize == t[i].binsize
      {
        assert SameRing(s[i], t[i]);
      }
      SameSizes(s, t, |s|);
      SameCover(s, t, |s|);
    }
  }

  lemma CallStaysNear(sets: seq<BinSet>, m: Mark, now: nat, due: nat, low: int, high: int, call: Call)
    requires StartsBy(sets, now, due) && IsNear(sets, m, now, low, high) && now <= call.now
    requires !GoesAstray(sets, m, call.now)
    ensures var passed := call.now - now;
            NearOrGone(Called(sets, call), Moved(sets, m, call.now), call.now,
                       low + passed - Waited(now, call.now, due), high + passed)
  {
    var low', high' := low + call.now - now - Waited(now, call.now, due), high + call.now - now;
    ReadingGrows(sets, m, now, call.now, due);
    UpdateStaysNear(sets, m, call.now, low', high');
    CalledRings(sets, call);
    SameNearOrGone(Updated(sets, call.now), Called(sets, call), Moved(sets, m, call.now), call.now, low', high');
  }

  // Call i does not find the count leaving a ring on the dot, with the next one moved on.
  ghost predicate NotAstrayAt(sets: seq<BinSet>, calls: seq<Call>, m: Mark, i: nat)
    requires AllWellFormed(sets) && IsMark(sets, m) && i < |calls|
  {
    var at := Followed(sets, calls[..i], m);
    at.Some? ==> !GoesAstray(Ran(sets, calls[..i]), at.value, calls[i].now)
  }

  ghost predicate NeverAstray(sets: seq<BinSet>, calls: seq<Call>, m: Mark)
    requires AllWellFormed(sets) && IsMark(sets, m)
  {
    forall i :: 0 <= i < |calls| ==> NotAstrayAt(sets, calls, m, i)
  }

  lemma CalledCovers(sets: seq<BinSet>, call: Call)
    requires AllWellFormed(sets)
    ensures Covered(Called(sets, call), |sets|) == Covered(sets, |sets|)
    ensures Sizes(Called(sets, call), |sets|) == Sizes(sets, |sets|)
  {
    var u := Updated(sets, call.now);
    CalledRings(sets, call);
    SameCover(Called(sets, call), u, |sets|);
    UpdatingKeepsCover(sets, call.now, |sets|);
    UpdatedBins(sets, call.now);
    SameSizes(sets, u, |sets|);
    forall i | 0 <= i < |sets|
      ensures Called(sets, call)[i].binsize == u[i].binsize
    {
      assert SameRing(Called(sets, call)[i], u[i]);
    }
    SameSizes(Called(sets, call), u, |sets|);
  }

  lemma {:induction false} RanCovers(sets: seq<BinSet>, calls: seq<Call>)
    requires AllWellFormed(sets)
    ensures Covered(Ran(sets, calls), |sets|) == Covered(sets, |sets|)
    ensures Sizes(Ran(sets, calls), |sets|) == Sizes(sets, |sets|)
  {
    if calls != [] {
      RanCovers(sets, calls[..|calls| - 1]);
      CalledCovers(Ran(sets, calls[..|calls| - 1]), calls[|calls| - 1]);
    }
  }

  // Where a count can be after a history: near its true age, less what it has waited, or dropped
  // once too old.
  ghost predicate Followable(sets: seq<BinSet>, m: Mark, now: nat, due: nat, age: int, calls: seq<Call>)
    requires AllWellFormed(sets) && IsMark(sets, m)
  {
    var r, at, t := Ran(sets, calls), Followed(sets, calls, m), LastTime(now, calls);
    && now <= t && StartsBy(r, t, due)
    && NearOrGone(r, at, t, age + t - now - Waited(now, t, due), age + t - now)
  }

  lemma FollowedOn(sets: seq<BinSet>, m: Mark, now: nat, due: nat, age: int, calls: seq<Call>, k: nat)
    requires AllWellFormed(sets) && IsMark(sets, m) && k < |calls| && Followable(sets, m, now, due, age, calls[..k])
    requires LastTime(now, calls[..k]) <= calls[k].now && NotAstrayAt(sets, calls, m, k)
    ensures Followable(sets, m, now, due, age, calls[..k + 1])
  {
    var s, at, t := Ran(sets, calls[..k]), Followed(sets, calls[..k], m), LastTime(now, calls[..k]);
    assert calls[..k + 1][..k] == calls[..k];
    CalledStartsBy(s, calls[k], t, due);
    if at.Some? {
      CallStaysNear(s, at.value, t, due, age + t - now - Waited(now, t, due), age + t - now, calls[k]);
    } else {
      CalledCovers(s, calls[k]);
    }
  }

  lemma {:induction false} FollowedNear(sets: seq<BinSet>, m: Mark, now: nat, due: nat, age: int, calls: seq<Call>,
                                        k: nat)
    requires StartsBy(sets, now, due) && IsNear(sets, m, now, age, age)
    requires InOrder(now, calls) && NeverAstray(sets, calls, m) && k <= |calls|
    ensures Followable(sets, m, now, due, age, calls[..k])
  {
    if k == 0 {
      NothingCalled(sets, m, now, due, age, calls[..0]);
    } else {
      FollowedNear(sets, m, now, due, age, calls, k - 1);
      assert NotAstrayAt(sets, calls, m, k - 1);
      FollowedOn(sets, m, now, due, age, calls, k - 1);
    }
  }

  lemma NothingCalled(sets: seq<BinSet>, m: Mark, now: nat, due: nat, age: int, calls: seq<Call>)
    requires StartsBy(sets, now, due) && IsNear(sets, m, now, age, age) && calls == []
    ensures Followable(sets, m, now, due, age, calls)
  {
  }

  // ---- What queries see ----

  // An event recorded after an update is seen later, whatever else is recorded and asked in
  // between: by every query longer than its true age by the bin sizes of all rings, while the
  // rings go back that far, and by none shorter by twice as much and by the time that it may
  // have waited for its ring to start.
  lemma SeenLater(sets: seq<BinSet>, age: nat, count: int, now: nat, due: nat, calls: seq<Call>, q: nat)
    requires StartsBy(sets, now, due) && 0 < age <= Covered(sets, |sets|) && InOrder(now, calls)
    requires SpotMark(sets, 0, age).Some? ==> NeverAstray(sets, calls, SpotMark(sets, 0, age).value)
    ensures now <= LastTime(now, calls)
    ensures var without, with := Ran(sets, calls), Ran(Place(sets, 0, age, count), calls);
            var trueAge, slack := age + LastTime(now, calls) - now, Sizes(sets, |sets|);
            && (trueAge + slack < q && trueAge + slack < Covered(sets, |sets|) ==>
                  Query(with, 0, q) == Query(without, 0, q) + count)
            && (q + 2 * slack + Waited(now, LastTime(now, calls), due) <= trueAge ==>
                  Query(with, 0, q) == Query(without, 0, q))
  {
    SpotHolds(sets, 0, age);
    var m := SpotMark(sets, 0, age).value;
    HoldsNear(sets, m, now, age, age, age, 0);
    FollowedNear(sets, m, now, due, age, calls, |calls|);
    assert calls[..|calls|] == calls;
    PlaceIsWith(sets, 0, age, count);
    RanWith(sets, m, count, calls);
    RanCovers(sets, calls);
    var r, at, t := Ran(sets, calls), Followed(sets, calls, m), LastTime(now, calls);
    if at.Some? {
      QueryWith(r, at.value, count, 0, q);
      StartIsNear(r, at.value, t, age + t - now - Waited(now, t, due), age + t - now);
    }
  }

  lemma StartIsNear(sets: seq<BinSet>, m: Mark, now: nat, low: int, high: int)
    requires UpToDate(sets, now) && IsNear(sets, m, now, low, high)
    ensures low - 2 * Sizes(sets, |sets|) <= Start(sets, m) <= high + Sizes(sets, |sets|)
  {
    PhaseInBin(sets, now, m.ring);
    SizesGrow(sets, m.ring + 1, |sets|);
  }

  lemma StartStays(sets: seq<BinSet>, m: Mark, later: nat)
    requires AllWellFormed(sets) && IsMark(sets, m) && later <= sets[m.ring].timestamp
    ensures !LeavesRing(sets, m, later)
    ensures IsMark(Updated(sets, later), m) && Start(Updated(sets, later), m) == Start(sets, m)
  {
    StayingReads(sets, m, later);
    UpdatedRings(sets, later);
    assert SameRing(Updated(sets, later)[m.ring], Rotated(sets[m.ring], later));
    RotatedClock(sets[m.ring], later);
  }

  // A count in a ring that has not started stands still, whatever its true age.
  lemma StandsStill(sets: seq<BinSet>, m: Mark, count: int, later: nat, q: nat)
    requires AllWellFormed(sets) && IsMark(sets, m) && later <= sets[m.ring].timestamp
    ensures AllWellFormed(With(sets, m, count))
    ensures Query(Updated(With(sets, m, count), later), 0, q) ==
              Query(Updated(sets, later), 0, q) + if q > Start(sets, m) then count else 0
  {
    StartStays(sets, m, later);
    UpdatedWith(sets, m, count, later);
    QueryWith(Updated(sets, later), m, count, 0, q);
  }

  // ---- On the dot ----

  // A count that goes on the dot is missed by every query that does not reach back to bin 0 of
  // the next ring.
  lemma DotIsMissed(sets: seq<BinSet>, m: Mark, count: int, later: nat, q: nat)
    requires AllWellFormed(sets) && IsMark(sets, m) && OnTheDot(sets, m, later) && m.ring + 1 < |sets|
    requires var next := Updated(sets, later)[m.ring + 1];
             q <= Reading(sets, m, later) + next.binsize * next.last
    ensures AllWellFormed(With(sets, m, count))
    ensures Query(Updated(With(sets, m, count), later), 0, q) == Query(Updated(sets, later), 0, q)
  {
    DotGoesAstray(sets, m, later);
    UpdatedWith(sets, m, count, later);
    QueryWith(Updated(sets, later), Mark(m.ring + 1, 0), count, 0, q);
  }
}
