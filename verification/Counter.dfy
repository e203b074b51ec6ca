/**
 The counter object: its bin sets, updated in place by nested loops.
 */
module CounterObject {
  import opened Wrappers
  import opened CounterSpec
  import opened CounterUpdate
  import opened CounterLinear
  import opened CounterTime
  import opened CounterSums

  // ---- Walks ----

  // One step back around the ring.
  lemma BackOne(b: BinSet, o: nat)
    requires WellFormed(b) && o + 1 < |b.bins|
    ensures (Back(b, o) - 1 + |b.bins|) % |b.bins| == Back(b, o + 1)
  {
    var i, n := Back(b, o), |b.bins|;
    if i == 0 {
      assert (n - 1) % n == n - 1;
    } else {
      assert i - 1 + n == (i - 1) + n * 1;
      assert (i - 1 + n) % n == i - 1 by {
        ModAddOnce(i - 1, n);
      }
    }
  }

  // The oldest bin is followed by the latest.
  lemma BackAround(b: BinSet, o: nat)
    requires WellFormed(b) && o < |b.bins|
    ensures (Back(b, o) - 1 + |b.bins|) % |b.bins| == if o + 1 < |b.bins| then Back(b, o + 1) else b.last
  {
    var i, n := Back(b, o), |b.bins|;
    if o + 1 < n {
      BackOne(b, o);
    } else if i > 0 {
      ModAddOnce(i - 1, n);
    }
  }

  lemma ModAddOnce(x: nat, n: nat)
    requires x < n
    ensures (x + n) % n == x
  {
  }

  // The bin of a set that an age within its span falls into.
  method BinFor(b: BinSet, age: nat) returns (bin: nat)
    requires WellFormed(b) && 0 < age <= Span(b)
    ensures Steps(age, b.binsize) < |b.bins| && bin == Back(b, Steps(age, b.binsize))
  {
    StepsInRing(age, b.binsize, |b.bins|);
    var rest: nat := if age > b.binsize then age - b.binsize else 0;
    bin := b.last;
    var fullCircle := false;
    ghost var o: nat := 0;
    while rest > 0 && !fullCircle
      invariant o < |b.bins| && bin == Back(b, o) && !fullCircle
      invariant Steps(age, b.binsize) == o + if rest == 0 then 0 else 1 + Steps(rest, b.binsize)
      decreases rest
    {
      rest := if rest > b.binsize then rest - b.binsize else 0;
      BackOne(b, o);
      bin := (bin - 1 + |b.bins|) % |b.bins|;
      o := o + 1;
      fullCircle := bin == b.last;
    }
  }

  // Where a count of the given age goes.
  method FindSpot(sets: seq<BinSet>, start: nat, age: nat) returns (spot: Option<(nat, nat)>)
    requires AllWellFormed(sets) && start <= |sets|
    ensures spot == Spot(sets, start, age)
  {
    var i: nat, rest: nat := start, age;
    while rest > 0 && i < |sets| && Span(sets[i]) < rest
      invariant start <= i <= |sets| && Spot(sets, i, rest) == Spot(sets, start, age)
      decreases |sets| - i
    {
      rest, i := rest - Span(sets[i]), i + 1;
    }
    if i == |sets| {
      spot := None;
    } else if rest == 0 {
      spot := Some((i, 0));
    } else {
      var bin := BinFor(sets[i], rest);
      spot := Some((i, bin));
    }
  }

  // The sum of the bins of a set that an interval within its span covers.
  method SumBins(b: BinSet, interval: nat) returns (n: int)
    requires WellFormed(b) && 0 < interval <= Span(b)
    ensures Steps(interval, b.binsize) < |b.bins| && n == SumBack(b, Steps(interval, b.binsize))
  {
    StepsInRing(interval, b.binsize, |b.bins|);
    var rest: nat := interval;
    var bin, fullCircle := b.last, false;
    n := 0;
    ghost var o: nat := 0;
    while rest > 0 && !fullCircle
      invariant o <= |b.bins| && bin == (if o < |b.bins| then Back(b, o) else b.last)
      invariant n == if o == 0 then 0 else SumBack(b, o - 1)
      invariant 1 + Steps(interval, b.binsize) == o + if rest == 0 then 0 else 1 + Steps(rest, b.binsize)
      invariant fullCircle ==> rest == 0
      decreases rest
    {
      n := n + b.bins[bin];
      rest := if rest > b.binsize then rest - b.binsize else 0;
      BackAround(b, o);
      bin := (bin - 1 + |b.bins|) % |b.bins|;
      o := o + 1;
      fullCircle := bin == b.last;
    }
  }

  // Whole sets by their totals, then the bins of the set the interval ends in.
  method QuerySets(sets: seq<BinSet>, interval: nat) returns (n: int)
    requires AllWellFormed(sets)
    ensures n == Query(sets, 0, interval)
    ensures Consistent(sets) ==> n == SumFrom(sets, 0, interval)
  {
    var i: nat, rest: nat := 0, interval;
    n := 0;
    if Consistent(sets) {
      QueryIsSum(sets, interval);
    }
    while rest > 0 && i < |sets| && Span(sets[i]) < rest
      invariant 0 <= i <= |sets| && n + Query(sets, i, rest) == Query(sets, 0, interval)
      decreases |sets| - i
    {
      n, rest, i := n + sets[i].total, rest - Span(sets[i]), i + 1;
    }
    if rest > 0 && i < |sets| {
      var m := SumBins(sets[i], rest);
      n := n + m;
    }
  }

  // Turns one ring, emptying the bins that fall out of it.
  method RotateSet(b: BinSet, now: nat, start: nat) returns (r: BinSet, moves: seq<Move>)
    requires WellFormed(b)
    ensures r == Rotated(b, now) && moves == Left(b, now, start)
  {
    var n := Turns(b, now);
    if n == 0 {
      Unturned(b, now, start);
      return b, [];
    }
    ghost var t := Turned(b, n);
    r, moves := b.(last := (b.last + n) % |b.bins|, timestamp := b.timestamp + n * b.binsize), [];
    var idx, end := b.last + 1, b.last + n + 1;
    while idx < end
      invariant b.last + 1 <= idx <= end
      invariant r == EmptiedRange(t, b.last + 1, idx) && moves == Leaving(t, b.last + 1, idx, end, start)
    {
      var m := idx % |r.bins|;
      var back := end - 1 - idx;
      var time := if r.timestamp > back * r.binsize then r.timestamp - back * r.binsize else 0;
      moves := moves + [Move(time, r.bins[m], start)];
      r := r.(bins := r.bins[m := 0], total := r.total - r.bins[m]);
      idx := idx + 1;
    }
  }

  // The time covered by the first n configured sets.
  function CoveredBy(config: seq<(nat, nat)>, n: nat): (t: nat)
    requires n <= |config|
  {
    if n == 0 then 0 else CoveredBy(config, n - 1) + config[n - 1].0 * config[n - 1].1
  }

  function Zeros(n: nat): (bins: seq<int>)
    ensures |bins| == n
  {
    if n == 0 then [] else Zeros(n - 1) + [0]
  }

  lemma {:induction false} ZerosSum(n: nat)
    ensures Sum(Zeros(n)) == 0
  {
    if n > 0 {
      ZerosSum(n - 1);
      assert Zeros(n)[..n - 1] == Zeros(n - 1);
    }
  }

  // The set of one configured pair of bin size and number of bins.
  function EmptySet(pair: (nat, nat), timestamp: nat): (b: BinSet) {
    BinSet(pair.0, Zeros(pair.1), timestamp, 0, 0)
  }

  // Each set starts when the one before it is full.
  function InitialSets(config: seq<(nat, nat)>, n: nat, now: nat): (sets: seq<BinSet>)
    requires n <= |config|
    ensures |sets| == n
  {
    if n == 0 then [] else InitialSets(config, n - 1, now) + [EmptySet(config[n - 1], now + CoveredBy(config, n - 1))]
  }

  lemma SetAppended(sets: seq<BinSet>, b: BinSet)
    requires AllWellFormed(sets) && Consistent(sets) && WellFormed(b) && b.total == Sum(b.bins)
    ensures AllWellFormed(sets + [b]) && Consistent(sets + [b]) && Held(sets + [b]) == Held(sets) + b.total
  {
    assert (sets + [b])[..|sets|] == sets;
  }

  lemma {:induction false} InitialSetsAreEmpty(config: seq<(nat, nat)>, n: nat, now: nat)
    requires n <= |config| && forall i :: 0 <= i < |config| ==> 0 < config[i].0 && 0 < config[i].1
    ensures AllWellFormed(InitialSets(config, n, now)) && Consistent(InitialSets(config, n, now))
    ensures Held(InitialSets(config, n, now)) == 0
  {
    if n > 0 {
      InitialSetsAreEmpty(config, n - 1, now);
      ZerosSum(config[n - 1].1);
      SetAppended(InitialSets(config, n - 1, now), EmptySet(config[n - 1], now + CoveredBy(config, n - 1)));
    }
  }

  method PushZeros(n: nat) returns (bins: seq<int>)
    ensures bins == Zeros(n)
  {
    bins := [];
    for i := 0 to n
      invariant bins == Zeros(i)
    {
      bins := bins + [0];
    }
  }

  method BuildSets(config: seq<(nat, nat)>, now: nat) returns (sets: seq<BinSet>)
    ensures sets == InitialSets(config, |config|, now)
  {
    sets := [];
    var totalTime: nat := 0;
    for i := 0 to |config|
      invariant sets == InitialSets(config, i, now) && totalTime == CoveredBy(config, i)
    {
      var bins := PushZeros(config[i].1);
      sets := sets + [BinSet(config[i].0, bins, now + totalTime, 0, 0)];
      totalTime := totalTime + config[i].0 * config[i].1;
    }
  }

  // ---- The counter ----

  class Counter {
    var sets: seq<BinSet>
    var allTime: int
    const countAllTime: bool
    ghost var recorded: int
    ghost var dropped: int

    // Totals are sums, and every recorded count is held or was dropped.
    ghost predicate Valid()
      reads this
    {
      AllWellFormed(sets) && Consistent(sets) && Held(sets) + dropped == recorded
    }

    constructor (config: seq<(nat, nat)>, countAllTime: bool, now: nat)
      requires forall i :: 0 <= i < |config| ==> 0 < config[i].0 && 0 < config[i].1
      ensures Valid() && recorded == 0 && dropped == 0 && allTime == 0 && this.countAllTime == countAllTime
      ensures sets == InitialSets(config, |config|, now)
    {
      var initial := BuildSets(config, now);
      InitialSetsAreEmpty(config, |config|, now);
      this.countAllTime := countAllTime;
      sets, allTime, recorded, dropped := initial, 0, 0, 0;
    }

    method PlaceMetricsInBin(timestamp: nat, count: int, start: nat, now: nat)
      requires AllWellFormed(sets) && start <= |sets|
      modifies this`sets, this`dropped
      ensures sets == Place(old(sets), start, Age(now, timestamp), count)
      ensures dropped == old(dropped) + if Spot(old(sets), start, Age(now, timestamp)).Some? then 0 else count
    {
      var spot := FindSpot(sets, start, if now > timestamp then now - timestamp else 0);
      match spot
      case None =>
        dropped := dropped + count;
      case Some((j, bin)) =>
        var b := sets[j];
        sets := sets[j := b.(bins := b.bins[bin := b.bins[bin] + count], total := b.total + count)];
    }

    method UpdateBins(now: nat)
      requires Valid()
      modifies this`sets, this`dropped
      ensures Valid() && sets == Updated(old(sets), now)
      ensures dropped == old(dropped) + DroppedByUpdate(old(sets), now)
    {
      ghost var before, lost := sets, dropped;
      var moves := RotateAll(now);
      LeftStarts(before, |before|, now);
      UpdateConserves(before, now);
      ghost var rotated := sets;
      for k := 0 to |moves|
        invariant sets == PlacedAll(rotated, moves, k, now) && dropped == lost + Dropped(rotated, moves, k, now)
      {
        PlaceMetricsInBin(moves[k].timestamp, moves[k].count, moves[k].start, now);
      }
    }

    method RotateAll(now: nat) returns (moves: seq<Move>)
      requires AllWellFormed(sets)
      modifies this`sets
      ensures sets == RotatedSets(old(sets), |old(sets)|, now) && moves == AllLeft(old(sets), |old(sets)|, now)
    {
      ghost var before := sets;
      moves := [];
      for i := 0 to |sets|
        invariant |sets| == |before| && sets == RotatedSets(before, i, now) && moves == AllLeft(before, i, now)
      {
        var r, left := RotateSet(sets[i], now, i + 1);
        sets, moves := sets[i := r], moves + left;
      }
    }

    // Records num events that happened at the given time.
    method ProcessEvent(timestamp: nat, num: int, now: nat)
      requires Valid()
      modifies this
      ensures Valid()
      ensures sets == Place(Updated(old(sets), now), 0, Age(now, timestamp), num)
      ensures recorded == old(recorded) + num
      ensures allTime == old(allTime) + if countAllTime then num else 0
    {
      UpdateBins(now);
      PlacingConserves(sets, 0, Age(now, timestamp), num);
      PlaceMetricsInBin(timestamp, num, 0, now);
      recorded := recorded + num;
      if countAllTime {
        allTime := allTime + num;
      }
    }

    // The count of the events of the last interval microseconds.
    method GetMetricsForInterval(interval: nat, now: nat) returns (n: int)
      requires Valid()
      modifies this`sets, this`dropped
      ensures Valid() && recorded == old(recorded)
      ensures sets == Updated(old(sets), now)
      ensures n == SlowQuery(sets, 0, interval) == SumFrom(sets, 0, interval)
    {
      UpdateBins(now);
      QueryIsSum(sets, interval);
      n := QuerySets(sets, interval);
    }

    // Recording an event and then querying at the same instant, next to a query without it;
    // j is the set that the event's age falls into, if the sets go back that far.
    method RecordThenQuery(timestamp: nat, num: int, interval: nat, now: nat, ghost j: nat)
      returns (before: int, after: int)
      requires Valid() && timestamp < now
      requires now - timestamp <= Covered(sets, |sets|) ==> FallsInto(sets, now - timestamp, j)
      modifies this
      ensures Valid()
      ensures now - timestamp > old(Covered(sets, |sets|)) ==> after == before
      ensures now - timestamp <= old(Covered(sets, |sets|)) && interval >= now - timestamp ==> after == before + num
      ensures now - timestamp <= old(Covered(sets, |sets|)) && interval + old(sets)[j].binsize <= now - timestamp ==>
                after == before
    {
      ghost var s := Updated(sets, now);
      UpdatedIsUpToDate(sets, now);
      SeenAfterUpdate(sets, timestamp, num, interval, now, j);
      before := GetMetricsForInterval(interval, now);
      UpdatingIsIdempotent(sets, now);
      ProcessEvent(timestamp, num, now);
      StillUpToDate(s, 0, now - timestamp, num, now);
      UpdatingIsIdempotent(sets, now);
      TotalsAreAFastPath(s, 0, interval);
      TotalsAreAFastPath(sets, 0, interval);
      after := GetMetricsForInterval(interval, now);
    }
  }

  lemma {:induction false} InitialClocks(config: seq<(nat, nat)>, n: nat, now: nat, i: nat)
    requires i < n <= |config|
    ensures InitialSets(config, n, now)[i].timestamp <= now + CoveredBy(config, n)
  {
    if i < n - 1 {
      InitialClocks(config, n - 1, now, i);
    }
  }

  // Whenever a new counter is updated, its rings have started or will once the time they cover
  // together has passed.
  lemma NewStartsBy(config: seq<(nat, nat)>, now: nat, later: nat)
    requires forall i :: 0 <= i < |config| ==> 0 < config[i].0 && 0 < config[i].1
    ensures AllWellFormed(InitialSets(config, |config|, now))
    ensures StartsBy(Updated(InitialSets(config, |config|, now), later), later, now + CoveredBy(config, |config|))
  {
    var sets := InitialSets(config, |config|, now);
    InitialSetsAreEmpty(config, |config|, now);
    forall i | 0 <= i < |config|
      ensures sets[i].timestamp <= now + CoveredBy(config, |config|)
    {
      InitialClocks(config, |config|, now, i);
    }
    UpdatedStartsBy(sets, later, now + CoveredBy(config, |config|));
  }

  lemma SeenAfterUpdate(sets: seq<BinSet>, timestamp: nat, num: int, interval: nat, now: nat, j: nat)
    requires AllWellFormed(sets) && timestamp < now
    requires now - timestamp <= Covered(sets, |sets|) ==> FallsInto(sets, now - timestamp, j)
    ensures var s, age := Updated(sets, now), now - timestamp;
            var d := Query(Place(s, 0, age, num), 0, interval) - Query(s, 0, interval);
            if age > Covered(sets, |sets|) then d == 0
            else (interval >= age ==> d == num) && (interval + sets[j].binsize <= age ==> d == 0)
  {
    var s, age := Updated(sets, now), now - timestamp;
    UpdatingKeepsCover(sets, now, |sets|);
    if age > Covered(sets, |sets|) {
      OldEventIsDropped(s, age, num);
    } else {
      UpdatingKeepsCover(sets, now, j);
      UpdatingKeepsCover(sets, now, j + 1);
      UpdatingKeepsShapes(sets, now, j);
      EventIsSeen(s, age, num, interval, j);
    }
  }

  lemma StillUpToDate(sets: seq<BinSet>, i: nat, age: nat, count: int, now: nat)
    requires UpToDate(sets, now) && i <= |sets|
    ensures UpToDate(Place(sets, i, age, count), now)
  {
  }

  // ---- Two inputs ----

  // Two rings of bins of one microsecond, m and ten of them.
  function Pair(m: nat): (config: seq<(nat, nat)>) {
    [(1, m), (1, 10)]
  }

  lemma PairSets(m: nat, now: nat)
    requires 0 < m
    ensures var sets := InitialSets(Pair(m), 2, now);
            sets == [EmptySet((1, m), now), EmptySet((1, 10), now + m)] && AllWellFormed(sets)
  {
    var config := Pair(m);
    assert CoveredBy(config, 1) == CoveredBy(config, 0) + m;
    assert InitialSets(config, 1, now) == InitialSets(config, 0, now) + [EmptySet(config[0], now)];
  }

  lemma PairCovers(sets: seq<BinSet>, m: nat)
    requires |sets| == 2 && sets[0].binsize == 1 == sets[1].binsize && |sets[0].bins| == m && |sets[1].bins| == 10
    ensures Covered(sets, 1) == m && Covered(sets, 2) == m + 10 && Sizes(sets, 2) == 2
  {
    assert Covered(sets, 1) == Covered(sets, 0) + m;
    assert Sizes(sets, 1) == Sizes(sets, 0) + 1;
  }

  // What two such rings look like, as far as time matters.
  ghost predicate IsPair(sets: seq<BinSet>, m: nat) {
    && |sets| == 2 && AllWellFormed(sets)
    && sets[0].binsize == 1 == sets[1].binsize && |sets[0].bins| == m && |sets[1].bins| == 10
  }

  lemma EarlySpot(sets: seq<BinSet>)
    requires IsPair(sets, 10) && sets[1].last == 0
    ensures SpotMark(sets, 0, 11) == Some(Mark(1, 0)) && Start(sets, Mark(1, 0)) == 10
  {
    PairCovers(sets, 10);
    assert SpotMark(sets, 1, 1) == Some(Mark(1, 0));
  }

  // An event of age 11, recorded at time 20, is seen at time 30 by a query of 15, although its
  // true age of 21 is no less than that and twice the bin sizes.
  ghost predicate IsSeenLong(sets: seq<BinSet>, count: int) {
    && StartsBy(sets, 20, 30) && |sets| == 2 && 15 + 2 * Sizes(sets, 2) <= 21
    && Query(Called(Place(sets, 0, 11, count), Ask(30)), 0, 15) == Query(Called(sets, Ask(30)), 0, 15) + count
  }

  lemma WaitingIsSeen(sets: seq<BinSet>, count: int)
    requires IsPair(sets, 10) && StartsBy(sets, 20, 30) && sets[1].last == 0 && sets[1].timestamp == 30
    ensures IsSeenLong(sets, count)
  {
    PairCovers(sets, 10);
    EarlySpot(sets);
    PlaceIsWith(sets, 0, 11, count);
    StandsStill(sets, Mark(1, 0), count, 30, 15);
  }

  // Made at time 20, the counter puts it in a ring that starts at time 30.
  lemma EarlyStandsStill(count: int)
    ensures IsSeenLong(InitialSets(Pair(10), 2, 20), count)
  {
    PairSets(10, 20);
    WaitingIsSeen(InitialSets(Pair(10), 2, 20), count);
  }

  // The rings of a counter made at time 0, nine microseconds later: the second has gone round
  // almost once.
  ghost predicate AtNine(sets: seq<BinSet>) {
    IsPair(sets, 1) && sets[0].timestamp == 9 == sets[1].timestamp && sets[1].last == 8
  }

  lemma RingsAtNine(initial: seq<BinSet>, now: nat)
    requires initial == [EmptySet((1, 1), 0), EmptySet((1, 10), 1)] && AllWellFormed(initial) && now == 9
    ensures AtNine(Updated(initial, now))
  {
    UpdatedRings(initial, now);
    RingAfter(initial, 0, now);
    RingAfter(initial, 1, now);
  }

  // A ring of one-microsecond bins that has turned for as long as it has been started.
  lemma RingAfter(sets: seq<BinSet>, i: nat, now: nat)
    requires AllWellFormed(sets) && i < |sets| && sets[i].binsize == 1 && sets[i].timestamp <= now
    requires SameRings(Updated(sets, now), RotatedSets(sets, |sets|, now)) && sets[i].last == 0
    ensures var r := Updated(sets, now)[i];
            && |r.bins| == |sets[i].bins| && r.binsize == 1 && r.timestamp == now
            && (now - sets[i].timestamp < |sets[i].bins| ==> r.last == now - sets[i].timestamp)
  {
    assert SameRing(Updated(sets, now)[i], RotatedSets(sets, |sets|, now)[i]);
    var n := now - sets[i].timestamp;
    assert Turns(sets[i], now) == n;
    if n < |sets[i].bins| {
      InRange(n, |sets[i].bins|);
    }
  }

  lemma LastAtTen(sets: seq<BinSet>)
    requires AtNine(sets)
    ensures Updated(sets, 10)[1].last == 9 && Updated(sets, 10)[1].binsize == 1
  {
    UpdatedRings(sets, 10);
    assert SameRing(Updated(sets, 10)[1], RotatedSets(sets, 2, 10)[1]);
    assert Turns(sets[1], 10) == 1;
  }

  lemma DotAtTen(sets: seq<BinSet>)
    requires AtNine(sets)
    ensures SpotMark(sets, 0, 1) == Some(Mark(0, 0)) && OnTheDot(sets, Mark(0, 0), 10)
  {
    PairCovers(sets, 1);
    assert Turns(sets[0], 10) == 1;
  }

  // An event of age 1, recorded at time 9, is not seen at time 10 by a query of 5, longer than its
  // true age of 2 and the bin sizes.
  ghost predicate IsMissed(sets: seq<BinSet>, count: int) {
    && StartsBy(sets, 9, 9) && |sets| == 2
    && 2 + Sizes(sets, 2) < 5 && 2 + Sizes(sets, 2) < Covered(sets, 2)
    && Query(Called(Place(sets, 0, 1, count), Ask(10)), 0, 5) == Query(Called(sets, Ask(10)), 0, 5)
  }

  lemma MissedAtTen(sets: seq<BinSet>, count: int)
    requires AtNine(sets) && UpToDate(sets, 9)
    ensures IsMissed(sets, count)
  {
    PairCovers(sets, 1);
    DotAtTen(sets);
    LastAtTen(sets);
    PlaceIsWith(sets, 0, 1, count);
    DotIsMissed(sets, Mark(0, 0), count, 10, 5);
  }

  lemma UpdatedIsMissed(initial: seq<BinSet>, count: int)
    requires initial == [EmptySet((1, 1), 0), EmptySet((1, 10), 1)] && AllWellFormed(initial)
    ensures IsMissed(Updated(initial, 9), count)
  {
    var sets := Updated(initial, 9);
    UpdatedIsUpToDate(initial, 9);
    RingsAtNine(initial, 9);
    MissedAtTen(sets, count);
  }

  // It leaves the first ring on the dot and is put nine bins too far back.
  lemma OnTheDotIsMissed(count: int)
    ensures AllWellFormed(InitialSets(Pair(1), 2, 0)) && IsMissed(Updated(InitialSets(Pair(1), 2, 0), 9), count)
  {
    PairSets(1, 0);
    UpdatedIsMissed(InitialSets(Pair(1), 2, 0), count);
  }
}
