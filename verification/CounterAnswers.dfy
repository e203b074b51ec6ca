/**
 What the counter answers after any history: the sum of the events whose bins start within the
 interval, and how far that is from the events the interval asks for.
 */
module CounterAnswers {
  import opened Wrappers
  import opened CounterSpec
  import opened CounterUpdate
  import opened CounterLinear
  import opened CounterTime
  import opened CounterSums
  import opened CounterObject

  // ---- New counters ----

  lemma ZerosAreZero(n: nat)
    ensures forall k :: 0 <= k < n ==> Zeros(n)[k] == 0
  {
    if n > 0 {
      ZerosAreZero(n - 1);
    }
  }

  lemma {:induction false} NewIsEmpty(config: seq<(nat, nat)>, n: nat, now: nat)
    requires n <= |config| && forall i :: 0 <= i < |config| ==> 0 < config[i].0 && 0 < config[i].1
    ensures AllEmpty(InitialSets(config, n, now))
  {
    InitialSetsAreEmpty(config, n, now);
    if n > 0 {
      NewIsEmpty(config, n - 1, now);
      ZerosAreZero(config[n - 1].1);
    }
  }

  // A new counter answers 0.
  lemma NewAnswersZero(config: seq<(nat, nat)>, now: nat, q: nat)
    requires forall i :: 0 <= i < |config| ==> 0 < config[i].0 && 0 < config[i].1
    ensures AllWellFormed(InitialSets(config, |config|, now)) && Query(InitialSets(config, |config|, now), 0, q) == 0
  {
    NewIsEmpty(config, |config|, now);
    EmptyAnswersZero(InitialSets(config, |config|, now), q);
  }

  // ---- Empty rings stay empty while nothing is recorded ----

  lemma {:induction false} EmptiedIsEmpty(b: BinSet, lo: nat, hi: nat)
    requires lo <= hi && b.bins != [] && IsEmpty(b)
    ensures IsEmpty(EmptiedRange(b, lo, hi))
    decreases hi
  {
    if lo < hi {
      EmptiedIsEmpty(b, lo, hi - 1);
    }
  }

  ghost predicate CountNothing(moves: seq<Move>) {
    forall i :: 0 <= i < |moves| ==> moves[i].count == 0
  }

  lemma {:induction false} LeavingNothing(b: BinSet, lo: nat, hi: nat, end: nat, start: nat)
    requires lo <= hi <= end && b.bins != [] && IsEmpty(b)
    ensures CountNothing(Leaving(b, lo, hi, end, start))
    decreases hi
  {
    if lo < hi {
      LeavingNothing(b, lo, hi - 1, end, start);
      EmptiedIsEmpty(b, lo, hi - 1);
    }
  }

  lemma RotatedIsEmpty(b: BinSet, now: nat, start: nat)
    requires WellFormed(b) && IsEmpty(b)
    ensures IsEmpty(Rotated(b, now)) && CountNothing(Left(b, now, start))
  {
    var n := Turns(b, now);
    EmptiedIsEmpty(Turned(b, n), b.last + 1, b.last + n + 1);
    LeavingNothing(Turned(b, n), b.last + 1, b.last + n + 1, b.last + n + 1, start);
  }

  lemma {:induction false} AllLeftNothing(sets: seq<BinSet>, k: nat, now: nat)
    requires AllEmpty(sets) && k <= |sets|
    ensures AllEmpty(RotatedSets(sets, k, now)) && CountNothing(AllLeft(sets, k, now))
  {
    if k > 0 {
      AllLeftNothing(sets, k - 1, now);
      RotatedIsEmpty(sets[k - 1], now, k);
    }
  }

  lemma PlacedNothing(sets: seq<BinSet>, i: nat, age: nat)
    requires AllEmpty(sets) && i <= |sets|
    ensures AllEmpty(Place(sets, i, age, 0))
  {
  }

  lemma {:induction false} PlacedAllNothing(sets: seq<BinSet>, moves: seq<Move>, k: nat, now: nat)
    requires AllEmpty(sets) && k <= |moves| && StartsWithin(moves, |sets|) && CountNothing(moves)
    ensures AllEmpty(PlacedAll(sets, moves, k, now))
  {
    if k > 0 {
      PlacedAllNothing(sets, moves, k - 1, now);
      PlacedNothing(PlacedAll(sets, moves, k - 1, now), moves[k - 1].start, Age(now, moves[k - 1].timestamp));
    }
  }

  lemma UpdatedIsEmpty(sets: seq<BinSet>, now: nat)
    requires AllEmpty(sets)
    ensures AllEmpty(Updated(sets, now))
  {
    var moves := AllLeft(sets, |sets|, now);
    LeftStarts(sets, |sets|, now);
    AllLeftNothing(sets, |sets|, now);
    PlacedAllNothing(RotatedSets(sets, |sets|, now), moves, |moves|, now);
  }

  // A call that records no events.
  function Silenced(call: Call): (r: Call) {
    match call
    case Record(now, timestamp, _) => Record(now, timestamp, 0)
    case Ask(_) => call
  }

  lemma SilentCallIsEmpty(sets: seq<BinSet>, call: Call)
    requires AllEmpty(sets) && call == Silenced(call)
    ensures AllEmpty(Called(sets, call))
  {
    UpdatedIsEmpty(sets, call.now);
    if call.Record? {
      PlacedNothing(Updated(sets, call.now), 0, Age(call.now, call.timestamp));
    }
  }

  ghost predicate AllSilent(calls: seq<Call>) {
    forall i :: 0 <= i < |calls| ==> calls[i] == Silenced(calls[i])
  }

  lemma {:induction false} SilentRunIsEmpty(sets: seq<BinSet>, calls: seq<Call>)
    requires AllEmpty(sets) && AllSilent(calls)
    ensures AllEmpty(Ran(sets, calls)) == true
  {
    if calls != [] {
      var n := |calls| - 1;
      assert AllSilent(calls[..n]);
      SilentRunIsEmpty(sets, calls[..n]);
      SilentCallIsEmpty(Ran(sets, calls[..n]), calls[n]);
    }
  }

  // ---- What does not depend on the counts ----

  lemma RotatedSame(a: BinSet, b: BinSet, now: nat)
    requires WellFormed(a) && WellFormed(b) && SameRing(a, b)
    ensures SameRing(Rotated(a, now), Rotated(b, now))
  {
  }

  lemma UpdatedSame(s: seq<BinSet>, t: seq<BinSet>, now: nat)
    requires AllWellFormed(s) && AllWellFormed(t) && SameRings(s, t)
    ensures SameRings(RotatedSets(s, |s|, now), RotatedSets(t, |t|, now))
    ensures SameRings(Updated(s, now), Updated(t, now))
  {
    UpdatedRings(s, now);
    UpdatedRings(t, now);
    forall i | 0 <= i < |s|
      ensures SameRing(RotatedSets(s, |s|, now)[i], RotatedSets(t, |t|, now)[i])
      ensures SameRing(Updated(s, now)[i], Updated(t, now)[i])
    {
      RotatedSame(s[i], t[i], now);
      assert SameRing(Updated(s, now)[i], RotatedSets(s, |s|, now)[i]);
      assert SameRing(Updated(t, now)[i], RotatedSets(t, |t|, now)[i]);
    }
  }

  lemma CalledSame(s: seq<BinSet>, t: seq<BinSet>, a: Call, b: Call)
    requires AllWellFormed(s) && AllWellFormed(t) && SameRings(s, t) && a.now == b.now
    ensures SameRings(Called(s, a), Called(t, b))
  {
    UpdatedSame(s, t, a.now);
    CalledRings(s, a);
    CalledRings(t, b);
    forall i | 0 <= i < |s|
      ensures SameRing(Called(s, a)[i], Called(t, b)[i])
    {
      assert SameRing(Called(s, a)[i], Updated(s, a.now)[i]);
      assert SameRing(Called(t, b)[i], Updated(t, b.now)[i]);
    }
  }

  lemma LeavesSame(a: BinSet, b: BinSet, k: nat, now: nat)
    requires WellFormed(a) && WellFormed(b) && SameRing(a, b) && k < |a.bins|
    ensures Leaves(a, k, now) == Leaves(b, k, now)
    ensures Leaves(a, k, now) ==> LeavingTime(a, k, now) == LeavingTime(b, k, now)
  {
  }

  // Where a count goes that leaves its ring.
  lemma LandsSame(s: seq<BinSet>, t: seq<BinSet>, i: nat, age: nat, now: nat)
    requires AllWellFormed(s) && AllWellFormed(t) && SameRings(s, t) && i <= |s|
    ensures SpotMark(RotatedSets(s, |s|, now), i, age) == SpotMark(RotatedSets(t, |t|, now), i, age)
  {
    UpdatedSame(s, t, now);
    SameSpot(RotatedSets(s, |s|, now), RotatedSets(t, |t|, now), i, age);
  }

  lemma MovedSame(s: seq<BinSet>, t: seq<BinSet>, m: Mark, now: nat)
    requires AllWellFormed(s) && AllWellFormed(t) && SameRings(s, t) && IsMark(s, m)
    ensures IsMark(t, m) && Moved(s, m, now) == Moved(t, m, now)
  {
    assert SameRing(s[m.ring], t[m.ring]);
    LeavesSame(s[m.ring], t[m.ring], m.bin, now);
    if LeavesRing(s, m, now) {
      LandsSame(s, t, m.ring + 1, Age(now, LeavingTime(s[m.ring], m.bin, now)), now);
    }
  }

  // Calls at the same times.
  ghost predicate SameTimes(a: seq<Call>, b: seq<Call>) {
    |a| == |b| && forall i :: 0 <= i < |a| ==> a[i].now == b[i].now
  }

  lemma {:induction false} RanSame(s: seq<BinSet>, t: seq<BinSet>, a: seq<Call>, b: seq<Call>)
    requires AllWellFormed(s) && AllWellFormed(t) && SameRings(s, t) && SameTimes(a, b)
    ensures SameRings(Ran(s, a), Ran(t, b))
  {
    if a != [] {
      var n := |a| - 1;
      RanSame(s, t, a[..n], b[..n]);
      CalledSame(Ran(s, a[..n]), Ran(t, b[..n]), a[n], b[n]);
    }
  }

  lemma {:induction false} FollowedSame(s: seq<BinSet>, t: seq<BinSet>, calls: seq<Call>, m: Mark)
    requires AllWellFormed(s) && AllWellFormed(t) && SameRings(s, t) && IsMark(s, m)
    ensures IsMark(t, m) && Followed(s, calls, m) == Followed(t, calls, m)
  {
    assert SameRing(s[m.ring], t[m.ring]);
    if calls != [] {
      var n := |calls| - 1;
      FollowedSame(s, t, calls[..n], m);
      RanSame(s, t, calls[..n], calls[..n]);
      var at := Followed(s, calls[..n], m);
      if at.Some? {
        MovedSame(Ran(s, calls[..n]), Ran(t, calls[..n]), at.value, calls[n].now);
      }
    }
  }

  lemma RanNext(sets: seq<BinSet>, calls: seq<Call>, call: Call)
    requires AllWellFormed(sets)
    ensures Ran(sets, calls + [call]) == Called(Ran(sets, calls), call)
  {
    assert (calls + [call])[..|calls|] == calls;
  }

  lemma SplitLast(a: seq<Call>, b: seq<Call>)
    requires b != []
    ensures a + b == a + b[..|b| - 1] + [b[|b| - 1]] && b == b[..|b| - 1] + [b[|b| - 1]]
  {
  }

  lemma {:induction false} RanOn(sets: seq<BinSet>, first: seq<BinSet>, a: seq<Call>, b: seq<Call>)
    requires AllWellFormed(sets) && first == Ran(sets, a)
    ensures Ran(sets, a + b) == Ran(first, b)
    decreases |b|
  {
    if b == [] {
      assert a + b == a;
    } else {
      var c, x := b[..|b| - 1], b[|b| - 1];
      SplitLast(a, b);
      RanOn(sets, first, a, c);
      RanNext(sets, a + c, x);
      RanNext(first, c, x);
    }
  }

  // ---- The answer after a history ----

  // Where a call puts the events it records.
  ghost function SpotOf(sets: seq<BinSet>, call: Call): (at: Option<Mark>)
    requires AllWellFormed(sets)
    ensures IsPlace(Called(sets, call), at)
  {
    CalledRings(sets, call);
    match call
    case Record(now, timestamp, _) =>
      SameSpot(Called(sets, call), Updated(sets, now), 0, Age(now, timestamp));
      SpotMark(Updated(sets, now), 0, Age(now, timestamp))
    case Ask(_) => None
  }

  // Where the events of call i are after all calls.
  ghost function WhereIs(sets: seq<BinSet>, calls: seq<Call>, i: nat): (at: Option<Mark>)
    requires AllWellFormed(sets) && i < |calls|
    ensures IsPlace(Ran(sets, calls), at)
  {
    var s := Called(Ran(sets, calls[..i]), calls[i]);
    var at := SpotOf(Ran(sets, calls[..i]), calls[i]);
    RanThrough(sets, calls, i);
    if at.None? then None else Followed(s, calls[i + 1..], at.value)
  }

  lemma RanThrough(sets: seq<BinSet>, calls: seq<Call>, i: nat)
    requires AllWellFormed(sets) && i < |calls|
    ensures Ran(sets, calls) == Ran(Called(Ran(sets, calls[..i]), calls[i]), calls[i + 1..])
  {
    assert calls == calls[..i] + [calls[i]] + calls[i + 1..];
    RanNext(sets, calls[..i], calls[i]);
    RanOn(sets, Called(Ran(sets, calls[..i]), calls[i]), calls[..i] + [calls[i]], calls[i + 1..]);
  }

  // What the events of call i add to a query after all calls.
  ghost function Adds(sets: seq<BinSet>, calls: seq<Call>, i: nat, q: nat): (n: int)
    requires AllWellFormed(sets) && i < |calls|
  {
    var at := WhereIs(sets, calls, i);
    if calls[i].Record? && at.Some? && Start(Ran(sets, calls), at.value) < q then calls[i].num else 0
  }

  ghost function AddUp(sets: seq<BinSet>, calls: seq<Call>, n: nat, q: nat): (sum: int)
    requires AllWellFormed(sets) && n <= |calls|
  {
    if n == 0 then 0 else AddUp(sets, calls, n - 1, q) + Adds(sets, calls, n - 1, q)
  }

  // Recording events or none makes no difference but their count.
  lemma CalledSilenced(sets: seq<BinSet>, call: Call)
    requires AllWellFormed(sets)
    ensures SpotOf(sets, call) == SpotOf(sets, Silenced(call))
    ensures IsPlace(Called(sets, Silenced(call)), SpotOf(sets, call))
    ensures Called(sets, call) ==
            WithAt(Called(sets, Silenced(call)), SpotOf(sets, call), if call.Record? then call.num else 0)
  {
    if call.Record? {
      PlaceBumped(Updated(sets, call.now), 0, Age(call.now, call.timestamp), 0, call.num);
    }
  }

  // The first n calls record no events.
  function Muted(calls: seq<Call>, n: nat): (r: seq<Call>)
    requires n <= |calls|
    ensures |r| == |calls| && forall i :: 0 <= i < |calls| ==> r[i] == if i < n then Silenced(calls[i]) else calls[i]
  {
    seq(|calls|, i requires 0 <= i < |calls| => if i < n then Silenced(calls[i]) else calls[i])
  }

  // Two counters that differ in what is recorded at one moment.
  lemma DifferInOne(sets: seq<BinSet>, call: Call, rest: seq<Call>, q: nat)
    requires AllWellFormed(sets)
    ensures IsPlace(Called(sets, Silenced(call)), SpotOf(sets, call))
    ensures var at := SpotOf(sets, call);
            var x, y := Ran(Called(sets, call), rest), Ran(Called(sets, Silenced(call)), rest);
            Query(x, 0, q) == Query(y, 0, q) +
              if call.Record? && at.Some? then
                var to := Followed(Called(sets, Silenced(call)), rest, at.value);
                if to.Some? && Start(y, to.value) < q then call.num else 0
              else 0
  {
    var at := SpotOf(sets, call);
    CalledSilenced(sets, call);
    if call.Record? && at.Some? {
      var y := Called(sets, Silenced(call));
      RanWith(y, at.value, call.num, rest);
      var to := Followed(y, rest, at.value);
      if to.Some? {
        QueryWith(Ran(y, rest), to.value, call.num, 0, q);
      }
    }
  }

  lemma SpotSame(s: seq<BinSet>, t: seq<BinSet>, call: Call)
    requires AllWellFormed(s) && AllWellFormed(t) && SameRings(s, t)
    ensures SpotOf(s, call) == SpotOf(t, call)
  {
    UpdatedSame(s, t, call.now);
    if call.Record? {
      SameSpot(Updated(s, call.now), Updated(t, call.now), 0, Age(call.now, call.timestamp));
    }
  }

  // Where the events of a call end up is the same after any calls at the same times.
  lemma EndsUpSame(s: seq<BinSet>, t: seq<BinSet>, call: Call, rest: seq<Call>)
    requires AllWellFormed(s) && AllWellFormed(t) && SameRings(s, t)
    ensures SpotOf(s, call) == SpotOf(t, call)
    ensures SpotOf(s, call).Some? ==>
              && IsPlace(Called(s, Silenced(call)), SpotOf(s, call))
              && Followed(Called(s, Silenced(call)), rest, SpotOf(s, call).value) ==
                   Followed(Called(t, call), rest, SpotOf(t, call).value)
  {
    SpotSame(s, t, call);
    CalledSilenced(s, call);
    CalledSame(s, t, Silenced(call), call);
    if SpotOf(s, call).Some? {
      FollowedSame(Called(s, Silenced(call)), Called(t, call), rest, SpotOf(s, call).value);
    }
  }

  lemma MutedAt(calls: seq<Call>, k: nat)
    requires k < |calls|
    ensures Muted(calls, k)[..k] == Muted(calls, k + 1)[..k]
    ensures Muted(calls, k)[k] == calls[k] && Muted(calls, k + 1)[k] == Silenced(calls[k])
    ensures Muted(calls, k)[k + 1..] == calls[k + 1..] == Muted(calls, k + 1)[k + 1..]
    ensures SameTimes(Muted(calls, k)[..k], calls[..k]) && SameTimes(Muted(calls, k + 1), calls)
  {
  }

  lemma SameItself(s: seq<BinSet>)
    ensures SameRings(s, s)
  {
  }

  // After the first calls a query answers more than after the second ones.
  ghost predicate AnswersMore(sets: seq<BinSet>, first: seq<Call>, second: seq<Call>, q: nat, n: int)
    requires AllWellFormed(sets)
  {
    Query(Ran(sets, first), 0, q) == Query(Ran(sets, second), 0, q) + n
  }

  lemma AnswersSum(sets: seq<BinSet>, a: seq<Call>, b: seq<Call>, c: seq<Call>, q: nat, n: int, m: int)
    requires AllWellFormed(sets) && AnswersMore(sets, a, b, q, n) && AnswersMore(sets, b, c, q, m)
    ensures AnswersMore(sets, a, c, q, n + m)
  {
  }

  // The two runs that differ in call k alone.
  lemma MutedRuns(sets: seq<BinSet>, calls: seq<Call>, k: nat)
    requires AllWellFormed(sets) && k < |calls|
    ensures var s, rest := Ran(sets, Muted(calls, k)[..k]), calls[k + 1..];
            && Ran(sets, Muted(calls, k)) == Ran(Called(s, calls[k]), rest)
            && Ran(sets, Muted(calls, k + 1)) == Ran(Called(s, Silenced(calls[k])), rest)
            && SameRings(s, Ran(sets, calls[..k])) && SameRings(Ran(sets, calls), Ran(sets, Muted(calls, k + 1)))
  {
    MutedAt(calls, k);
    RanThrough(sets, Muted(calls, k), k);
    RanThrough(sets, Muted(calls, k + 1), k);
    SameItself(sets);
    RanSame(sets, sets, Muted(calls, k)[..k], calls[..k]);
    RanSame(sets, sets, calls, Muted(calls, k + 1));
  }

  lemma MuteOne(sets: seq<BinSet>, calls: seq<Call>, k: nat, q: nat)
    requires AllWellFormed(sets) && k < |calls|
    ensures AnswersMore(sets, Muted(calls, k), Muted(calls, k + 1), q, Adds(sets, calls, k, q))
  {
    var s, rest := Ran(sets, Muted(calls, k)[..k]), calls[k + 1..];
    MutedRuns(sets, calls, k);
    DifferInOne(s, calls[k], rest, q);
    EndsUpSame(s, Ran(sets, calls[..k]), calls[k], rest);
    if calls[k].Record? && WhereIs(sets, calls, k).Some? {
      SameStart(Ran(sets, calls), Ran(sets, Muted(calls, k + 1)), WhereIs(sets, calls, k).value);
    }
  }

  lemma {:induction false} MuteMany(sets: seq<BinSet>, calls: seq<Call>, n: nat, q: nat)
    requires AllWellFormed(sets) && n <= |calls|
    ensures AnswersMore(sets, calls, Muted(calls, n), q, AddUp(sets, calls, n, q))
  {
    if n == 0 {
      assert Muted(calls, 0) == calls;
    } else {
      MuteMany(sets, calls, n - 1, q);
      MuteOne(sets, calls, n - 1, q);
      AnswersSum(sets, calls, Muted(calls, n - 1), Muted(calls, n), q,
                 AddUp(sets, calls, n - 1, q), Adds(sets, calls, n - 1, q));
    }
  }

  // After any history a query answers the sum of the events whose bins start within its interval.
  lemma AnswerIsSum(sets: seq<BinSet>, calls: seq<Call>, q: nat)
    requires AllEmpty(sets)
    ensures Query(Ran(sets, calls), 0, q) == AddUp(sets, calls, |calls|, q)
  {
    MuteMany(sets, calls, |calls|, q);
    SilentRunIsEmpty(sets, Muted(calls, |calls|));
    EmptyAnswersZero(Ran(sets, Muted(calls, |calls|)), q);
  }

  // ---- How good the answer is ----

  // The events of call i, of the age they have after all calls, are in the window of a query: by
  // as much as all bin sizes, and while the sets go back that far.
  ghost predicate IsInside(sets: seq<BinSet>, calls: seq<Call>, i: nat, q: nat)
    requires i < |calls|
  {
    match calls[i]
    case Ask(_) => false
    case Record(now, timestamp, _) =>
      var age := Age(now, timestamp) + LastTime(now, calls) - now + Sizes(sets, |sets|);
      age < q && age < Covered(sets, |sets|)
  }

  // They are out of it: by twice as much, and by the time they may have waited.
  ghost predicate IsOutside(sets: seq<BinSet>, calls: seq<Call>, i: nat, due: nat, q: nat)
    requires i < |calls|
  {
    match calls[i]
    case Ask(_) => true
    case Record(now, timestamp, _) =>
      now <= LastTime(now, calls) &&
      q + 2 * Sizes(sets, |sets|) + Waited(now, LastTime(now, calls), due) <=
        Age(now, timestamp) + LastTime(now, calls) - now
  }

  // The events of call i lie in the past, and never leave a ring on the dot.
  ghost predicate OnCourse(sets: seq<BinSet>, calls: seq<Call>, i: nat)
    requires AllWellFormed(sets) && i < |calls|
  {
    calls[i].Record? ==>
      && calls[i].timestamp < calls[i].now
      && var s := Ran(sets, calls[..i]);
         SpotOf(s, calls[i]).Some? ==> NeverAstray(Called(s, calls[i]), calls[i + 1..], SpotOf(s, calls[i]).value)
  }

  lemma {:induction false} RanStartsBy(sets: seq<BinSet>, start: nat, due: nat, calls: seq<Call>, n: nat)
    requires StartsBy(sets, start, due) && InOrder(start, calls) && n <= |calls|
    ensures StartsBy(Ran(sets, calls[..n]), LastTime(start, calls[..n]), due)
  {
    if n > 0 {
      RanStartsBy(sets, start, due, calls, n - 1);
      assert calls[..n][..n - 1] == calls[..n - 1];
      assert LastTime(start, calls[..n - 1]) <= calls[n - 1].now;
      CalledStartsBy(Ran(sets, calls[..n - 1]), calls[n - 1], LastTime(start, calls[..n - 1]), due);
    }
  }

  lemma OrderAfter(start: nat, calls: seq<Call>, i: nat)
    requires InOrder(start, calls) && i < |calls|
    ensures InOrder(calls[i].now, calls[i + 1..])
    ensures LastTime(calls[i].now, calls[i + 1..]) == LastTime(start, calls)
  {
    var now, rest := calls[i].now, calls[i + 1..];
    forall j | 0 <= j < |rest|
      ensures LastTime(now, rest[..j]) <= rest[j].now
    {
      assert LastTime(start, calls[..i + 1 + j]) <= calls[i + 1 + j].now;
    }
  }

  lemma SpotIs(s: seq<BinSet>, call: Call, u: seq<BinSet>, age: nat)
    requires AllWellFormed(s) && call.Record? && age == Age(call.now, call.timestamp) && u == Updated(s, call.now)
    ensures SpotOf(s, call) == SpotMark(u, 0, age) && SameRings(Called(s, call), u)
    ensures Covered(u, |u|) == Covered(s, |s|)
  {
    CalledRings(s, call);
    UpdatedCovers(s, call.now, |s|);
  }

  // A recorded event that has a bin is held by it.
  lemma RecordedHeld(s: seq<BinSet>, call: Call)
    requires AllWellFormed(s) && call.Record? && call.timestamp < call.now
    ensures var age := call.now - call.timestamp;
            && (SpotOf(s, call).None? <==> age > Covered(s, |s|))
            && (SpotOf(s, call).Some? ==> Holds(Called(s, call), SpotOf(s, call).value, age))
  {
    var u, age := Updated(s, call.now), call.now - call.timestamp;
    SpotIs(s, call, u, age);
    SpotHolds(u, 0, age);
    if SpotOf(s, call).Some? {
      HeldAfterCall(u, Called(s, call), SpotOf(s, call).value, age);
    }
  }

  lemma HeldAfterCall(u: seq<BinSet>, c: seq<BinSet>, m: Mark, age: int)
    requires AllWellFormed(u) && AllWellFormed(c) && SameRings(c, u) && Holds(u, m, age)
    ensures Holds(c, m, age)
  {
    forall i | 0 <= i < |u|
      ensures SameRing(u[i], c[i])
    {
      assert SameRing(c[i], u[i]);
    }
    SameHolds(u, c, m, age);
  }

  // It is followed near its true age, less what it has waited.
  lemma RecordedFollowed(s: seq<BinSet>, call: Call, due: nat, rest: seq<Call>)
    requires AllWellFormed(s) && call.Record? && call.timestamp < call.now && SpotOf(s, call).Some?
    requires StartsBy(Called(s, call), call.now, due) && InOrder(call.now, rest)
    requires NeverAstray(Called(s, call), rest, SpotOf(s, call).value)
    ensures Followable(Called(s, call), SpotOf(s, call).value, call.now, due, call.now - call.timestamp, rest)
  {
    var u, m, age := Called(s, call), SpotOf(s, call).value, call.now - call.timestamp;
    RecordedHeld(s, call);
    HoldsNear(u, m, call.now, age, age, age, 0);
    FollowedNear(u, m, call.now, due, age, rest, |rest|);
    assert rest[..|rest|] == rest;
  }

  // The bin of a count starts near the given ages; or the count is gone when about too old.
  ghost predicate StartsNear(r: seq<BinSet>, at: Option<Mark>, low: int, high: int)
    requires AllWellFormed(r) && IsPlace(r, at)
  {
    if at.Some? then low - 2 * Sizes(r, |r|) <= Start(r, at.value) <= high + Sizes(r, |r|)
    else high + Sizes(r, |r|) >= Covered(r, |r|)
  }

  lemma FollowedStart(u: seq<BinSet>, m: Mark, now: nat, due: nat, age: int, rest: seq<Call>)
    requires AllWellFormed(u) && IsMark(u, m) && Followable(u, m, now, due, age, rest)
    ensures now <= LastTime(now, rest)
    ensures var t := LastTime(now, rest);
            StartsNear(Ran(u, rest), Followed(u, rest, m), age + t - now - Waited(now, t, due), age + t - now)
  {
    var r, at, t := Ran(u, rest), Followed(u, rest, m), LastTime(now, rest);
    if at.Some? {
      StartIsNear(r, at.value, t, age + t - now - Waited(now, t, due), age + t - now);
    }
  }

  lemma WhereIsNear(sets: seq<BinSet>, start: nat, due: nat, calls: seq<Call>, i: nat)
    requires StartsBy(sets, start, due) && InOrder(start, calls) && i < |calls| && OnCourse(sets, calls, i)
    requires calls[i].Record?
    ensures calls[i].now <= LastTime(start, calls)
    ensures var now, t := calls[i].now, LastTime(start, calls);
            var age := t - calls[i].timestamp;
            StartsNear(Ran(sets, calls), WhereIs(sets, calls, i), age - Waited(now, t, due), age)
  {
    var s, call, rest := Ran(sets, calls[..i]), calls[i], calls[i + 1..];
    RanThrough(sets, calls, i);
    RanStartsBy(sets, start, due, calls, i);
    assert LastTime(start, calls[..i]) <= call.now;
    CalledStartsBy(s, call, LastTime(start, calls[..i]), due);
    OrderAfter(start, calls, i);
    RecordedHeld(s, call);
    RanCovers(sets, calls);
    RanCovers(sets, calls[..i]);
    LastIsLater(call.now, rest);
    if SpotOf(s, call).Some? {
      RecordedFollowed(s, call, due, rest);
      FollowedStart(Called(s, call), SpotOf(s, call).value, call.now, due, call.now - call.timestamp, rest);
    }
  }

  lemma {:induction false} LastIsLater(now: nat, calls: seq<Call>)
    requires InOrder(now, calls)
    ensures now <= LastTime(now, calls)
  {
    if calls != [] {
      var n := |calls| - 1;
      assert LastTime(now, calls[..n]) <= calls[n].now;
      assert forall i :: 0 <= i < n ==> calls[..n][..i] == calls[..i];
      LastIsLater(now, calls[..n]);
    }
  }

  // So it is seen if it is inside the window, and not if it is outside.
  lemma AddsRightly(sets: seq<BinSet>, start: nat, due: nat, calls: seq<Call>, i: nat, q: nat)
    requires StartsBy(sets, start, due) && InOrder(start, calls) && i < |calls| && OnCourse(sets, calls, i)
    ensures IsInside(sets, calls, i, q) ==> Adds(sets, calls, i, q) == calls[i].num
    ensures IsOutside(sets, calls, i, due, q) ==> Adds(sets, calls, i, q) == 0
  {
    if calls[i].Record? {
      WhereIsNear(sets, start, due, calls, i);
      RanCovers(sets, calls);
      assert LastTime(start, calls) == LastTime(calls[i].now, calls);
    }
  }

  lemma {:induction false} NewStarts(config: seq<(nat, nat)>, n: nat, start: nat)
    requires n <= |config| && forall i :: 0 <= i < |config| ==> 0 < config[i].0 && 0 < config[i].1
    ensures StartsBy(InitialSets(config, n, start), start, start + CoveredBy(config, n))
  {
    var sets := InitialSets(config, n, start);
    InitialSetsAreEmpty(config, n, start);
    forall i | 0 <= i < n
      ensures sets[i].timestamp <= start + CoveredBy(config, n) && Turns(sets[i], start) == 0
    {
      InitialClocks(config, n, start, i);
      StartsLater(config, n, start, i);
    }
  }

  lemma {:induction false} StartsLater(config: seq<(nat, nat)>, n: nat, start: nat, i: nat)
    requires i < n <= |config|
    ensures InitialSets(config, n, start)[i].timestamp >= start
  {
    if i < n - 1 {
      StartsLater(config, n - 1, start, i);
    }
  }

  ghost function Least(sets: seq<BinSet>, calls: seq<Call>, i: nat, q: nat): (n: int)
    requires i < |calls|
  {
    if IsInside(sets, calls, i, q) then calls[i].num else 0
  }

  ghost function Most(sets: seq<BinSet>, calls: seq<Call>, i: nat, due: nat, q: nat): (n: int)
    requires i < |calls|
  {
    if IsOutside(sets, calls, i, due, q) then 0 else calls[i].num
  }

  // The events of the first n calls that are inside the window, and those that are not outside.
  ghost function Certain(sets: seq<BinSet>, calls: seq<Call>, n: nat, q: nat): (sum: int)
    requires n <= |calls|
  {
    if n == 0 then 0 else Certain(sets, calls, n - 1, q) + Least(sets, calls, n - 1, q)
  }

  ghost function Possible(sets: seq<BinSet>, calls: seq<Call>, n: nat, due: nat, q: nat): (sum: int)
    requires n <= |calls|
  {
    if n == 0 then 0 else Possible(sets, calls, n - 1, due, q) + Most(sets, calls, n - 1, due, q)
  }

  // Calls in order that record no negative counts, and whose events stay on course.
  ghost predicate IsRegular(sets: seq<BinSet>, start: nat, calls: seq<Call>)
    requires AllWellFormed(sets)
  {
    && InOrder(start, calls)
    && forall i {:trigger OnCourse(sets, calls, i)} :: 0 <= i < |calls| ==>
         OnCourse(sets, calls, i) && (calls[i].Record? ==> calls[i].num >= 0)
  }

  ghost predicate AddsWithin(sets: seq<BinSet>, calls: seq<Call>, i: nat, due: nat, q: nat)
    requires AllWellFormed(sets) && i < |calls|
  {
    Least(sets, calls, i, q) <= Adds(sets, calls, i, q) <= Most(sets, calls, i, due, q)
  }

  lemma AddsBetween(sets: seq<BinSet>, start: nat, due: nat, calls: seq<Call>, i: nat, q: nat)
    requires StartsBy(sets, start, due) && IsRegular(sets, start, calls) && i < |calls|
    ensures AddsWithin(sets, calls, i, due, q) == true
  {
    assert OnCourse(sets, calls, i);
    AddsRightly(sets, start, due, calls, i, q);
  }

  ghost predicate SumsWithin(sets: seq<BinSet>, calls: seq<Call>, n: nat, due: nat, q: nat)
    requires AllWellFormed(sets) && n <= |calls|
  {
    Certain(sets, calls, n, q) <= AddUp(sets, calls, n, q) <= Possible(sets, calls, n, due, q)
  }

  lemma CertainNext(sets: seq<BinSet>, calls: seq<Call>, n: nat, q: nat)
    requires 0 < n <= |calls|
    ensures Certain(sets, calls, n, q) == Certain(sets, calls, n - 1, q) + Least(sets, calls, n - 1, q)
  {
  }

  lemma AddUpNext(sets: seq<BinSet>, calls: seq<Call>, n: nat, q: nat)
    requires AllWellFormed(sets) && 0 < n <= |calls|
    ensures AddUp(sets, calls, n, q) == AddUp(sets, calls, n - 1, q) + Adds(sets, calls, n - 1, q)
  {
  }

  lemma PossibleNext(sets: seq<BinSet>, calls: seq<Call>, n: nat, due: nat, q: nat)
    requires 0 < n <= |calls|
    ensures Possible(sets, calls, n, due, q) == Possible(sets, calls, n - 1, due, q) + Most(sets, calls, n - 1, due, q)
  {
  }

  lemma OneMoreSum(sets: seq<BinSet>, calls: seq<Call>, n: nat, due: nat, q: nat)
    requires AllWellFormed(sets) && 0 < n <= |calls| && SumsWithin(sets, calls, n - 1, due, q) == true
    requires AddsWithin(sets, calls, n - 1, due, q) == true
    ensures SumsWithin(sets, calls, n, due, q) == true
  {
    CertainNext(sets, calls, n, q);
    AddUpNext(sets, calls, n, q);
    PossibleNext(sets, calls, n, due, q);
  }

  ghost predicate AllWithin(sets: seq<BinSet>, calls: seq<Call>, due: nat, q: nat)
    requires AllWellFormed(sets)
  {
    forall i {:trigger AddsWithin(sets, calls, i, due, q)} :: 0 <= i < |calls| ==> AddsWithin(sets, calls, i, due, q)
  }

  lemma RegularIsWithin(sets: seq<BinSet>, start: nat, due: nat, calls: seq<Call>, q: nat)
    requires StartsBy(sets, start, due) && IsRegular(sets, start, calls)
    ensures AllWithin(sets, calls, due, q)
  {
    forall i | 0 <= i < |calls|
      ensures AddsWithin(sets, calls, i, due, q)
    {
      AddsBetween(sets, start, due, calls, i, q);
    }
  }

  lemma {:induction false} AddUpBounds(sets: seq<BinSet>, calls: seq<Call>, n: nat, due: nat, q: nat)
    requires AllWellFormed(sets) && AllWithin(sets, calls, due, q) == true && n <= |calls|
    ensures SumsWithin(sets, calls, n, due, q) == true
  {
    if n > 0 {
      AddUpBounds(sets, calls, n - 1, due, q);
      assert AddsWithin(sets, calls, n - 1, due, q) == true;
      OneMoreSum(sets, calls, n, due, q);
    }
  }

  // The answer is at least the events inside the window, and at most those that are not outside.
  ghost predicate AnswersWithin(sets: seq<BinSet>, calls: seq<Call>, due: nat, q: nat)
    requires AllWellFormed(sets)
  {
    Certain(sets, calls, |calls|, q) <= Query(Ran(sets, calls), 0, q) <= Possible(sets, calls, |calls|, due, q)
  }

  lemma EmptyAnswersWithin(sets: seq<BinSet>, start: nat, due: nat, calls: seq<Call>, q: nat)
    requires AllEmpty(sets) && StartsBy(sets, start, due) && IsRegular(sets, start, calls)
    ensures AnswersWithin(sets, calls, due, q)
  {
    AnswerIsSum(sets, calls, q);
    RegularIsWithin(sets, start, due, calls, q);
    AddUpBounds(sets, calls, |calls|, due, q);
  }

  // After any history of a new counter a query answers the sum of the events whose bins start
  // within its interval; and if none leaves a ring on the dot, that is the events in the window.
  lemma WindowBounds(config: seq<(nat, nat)>, start: nat, calls: seq<Call>, q: nat)
    requires forall i :: 0 <= i < |config| ==> 0 < config[i].0 && 0 < config[i].1
    ensures AllWellFormed(InitialSets(config, |config|, start))
    ensures var sets := InitialSets(config, |config|, start);
            && Query(Ran(sets, calls), 0, q) == AddUp(sets, calls, |calls|, q)
            && (IsRegular(sets, start, calls) ==> AnswersWithin(sets, calls, start + CoveredBy(config, |config|), q))
  {
    var sets := InitialSets(config, |config|, start);
    NewIsEmpty(config, |config|, start);
    NewStarts(config, |config|, start);
    AnswerIsSum(sets, calls, q);
    if IsRegular(sets, start, calls) {
      EmptyAnswersWithin(sets, start, start + CoveredBy(config, |config|), calls, q);
    }
  }
}
