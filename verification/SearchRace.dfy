/**
 A race between two neighbours of a source: the one with the lower f-value is closed first,
 although the way through the other one is cheaper.  Expanding the other one then fails.
 */
module SearchRace {
  import opened Wrappers
  import opened Sequences
  import opened SearchSpec
  import opened SearchOptimal
  import opened SearchPlan

  // The source start leads to near at no cost and to early at a cost; near leads to early at a
  // lower cost.
  datatype Race<+S> = Race(start: S, near: S, early: S, cost: real, bound: real)

  // Every path from x to a target, after a cost of g, costs at least bound in all.
  ghost predicate Beyond<S(!new), E(!new)>(p: Problem<S, E>, bound: real, x: S, g: real) {
    forall steps :: IsPath(p, x, steps) && p.isTarget(End(x, steps)) ==> bound <= g + Cost(steps)
  }

  ghost predicate Starts<S, E>(p: Problem<S, E>, r: Race<S>) {
    && |p.expand(r.start)| == 2
    && p.expand(r.start)[0].node == r.near && p.expand(r.start)[0].cost == 0.0
    && p.expand(r.start)[1].node == r.early && p.expand(r.start)[1].cost == r.cost
  }

  // The cheaper edge.
  ghost predicate Undercuts<S, E>(p: Problem<S, E>, r: Race<S>, i: nat) {
    i < |p.expand(r.near)| && p.expand(r.near)[i].node == r.early && p.expand(r.near)[i].cost < r.cost
  }

  // The estimate puts early before near, and near before every target.
  ghost predicate IsRace<S(!new), E(!new)>(p: Problem<S, E>, r: Race<S>) {
    && r.start != r.near && r.start != r.early && r.near != r.early && 0.0 <= r.cost
    && NonNegative(p) && (forall x :: 0.0 <= p.h(x)) && !p.isTarget(r.start)
    && Starts(p, r)
    && r.cost + p.h(r.early) < p.h(r.near) < r.bound
    && Beyond(p, r.bound, r.early, r.cost)
  }

  lemma BeyondNext<S(!new), E(!new)>(p: Problem<S, E>, bound: real, x: S, g: real, c: Candidate<S, E>)
    requires Beyond(p, bound, x, g) && c in p.expand(x)
    ensures Beyond(p, bound, c.node, g + c.cost)
  {
    forall steps | IsPath(p, c.node, steps) && p.isTarget(End(c.node, steps))
      ensures bound <= g + c.cost + Cost(steps)
    {
      PathPrepended(p, x, c, steps);
      assert IsPath(p, x, [c] + steps);
    }
  }

  lemma BeyondTarget<S(!new), E(!new)>(p: Problem<S, E>, bound: real, x: S, g: real)
    requires Beyond(p, bound, x, g)
    ensures p.isTarget(x) ==> bound <= g
  {
    var none: seq<Candidate<S, E>> := [];
    assert IsPath(p, x, none) && End(x, none) == x && Cost(none) == 0.0;
  }

  // ---- While near is open ----

  // A node on the way, other than the first three.
  ghost predicate OnTheWay<S(!new), E(!new)>(p: Problem<S, E>, r: Race<S>, x: S, rec: Record<S, E>) {
    0.0 <= G(rec)
      && (x != r.start && x != r.near ==> rec.link.Some? && G(rec) <= rec.f && Beyond(p, r.bound, x, G(rec)))
  }

  ghost predicate AllOnTheWay<S(!new), E(!new)>(p: Problem<S, E>, r: Race<S>, s: State<S, E>) {
    forall x :: x in s.nodes ==> OnTheWay(p, r, x, s.nodes[x])
  }

  ghost predicate NearWaits<S, E>(p: Problem<S, E>, r: Race<S>, s: State<S, E>) {
    && r.near in s.nodes && r.near !in s.closed
    && s.nodes[r.near].link.Some? && G(s.nodes[r.near]) == 0.0 && s.nodes[r.near].f == p.h(r.near)
  }

  ghost predicate EarlyIsClosed<S, E>(r: Race<S>, s: State<S, E>) {
    r.early in s.nodes && r.early in s.closed && s.nodes[r.early].link.Some? && G(s.nodes[r.early]) == r.cost
  }

  ghost predicate Racing<S(!new), E(!new)>(p: Problem<S, E>, r: Race<S>, s: State<S, E>) {
    && AllOnTheWay(p, r, s) && NearWaits(p, r, s) && EarlyIsClosed(r, s)
    && r.start in s.closed && Distinct(s.closed) && forall x :: x in s.closed ==> x in s.nodes
  }

  // Registering a candidate of a closed node either fails or changes none of that.
  lemma RegisterRacing<S(!new), E(!new)>(p: Problem<S, E>, r: Race<S>, s: State<S, E>, v: S, c: Candidate<S, E>)
    requires IsRace(p, r) && Racing(p, r, s) && v in s.nodes && v != r.start && v != r.near && c in p.expand(v)
    ensures var t := Offer(p, s, v, c);
            t.Some? ==> Racing(p, r, t.value) && t.value.closed == s.closed
  {
    assert OnTheWay(p, r, v, s.nodes[v]);
    BeyondNext(p, r.bound, v, G(s.nodes[v]), c);
    var rec := EdgeRecord(p, s, v, c);
    assert OnTheWay(p, r, c.node, rec);
    if c.node in s.nodes {
      assert OnTheWay(p, r, c.node, s.nodes[c.node]);
    }
  }

  lemma {:induction false} RegisterAllRacing<S(!new), E(!new)>(p: Problem<S, E>, r: Race<S>, s: State<S, E>, v: S,
                                                               i: nat)
    requires IsRace(p, r) && Racing(p, r, s) && v in s.nodes && v != r.start && v != r.near && i <= |p.expand(v)|
    ensures var t := RegisterAll(p, s, v, p.expand(v)[..i]);
            t.Some? ==> Racing(p, r, t.value) && t.value.closed == s.closed
  {
    if i > 0 {
      RegisterAllRacing(p, r, s, v, i - 1);
      var t := RegisterAll(p, s, v, p.expand(v)[..i - 1]);
      if t.Some? {
        RegisterAllStep(p, s, v, p.expand(v), i);
        RegisterRacing(p, r, t.value, v, p.expand(v)[i - 1]);
      } else {
        assert p.expand(v)[..i][..i - 1] == p.expand(v)[..i - 1];
      }
    } else {
      assert p.expand(v)[..0] == [];
    }
  }

  // While near waits, the first open node is no target.
  lemma FirstIsOnTheWay<S(!new), E(!new)>(p: Problem<S, E>, r: Race<S>, s: State<S, E>, v: S)
    requires IsRace(p, r) && Racing(p, r, s) && IsFirst(s, v) && v != r.near
    ensures v != r.start && !p.isTarget(v) && Racing(p, r, Close(s, v))
  {
    assert OnTheWay(p, r, v, s.nodes[v]);
    assert s.nodes[v].f <= s.nodes[r.near].f;
    BeyondTarget(p, r.bound, v, G(s.nodes[v]));
  }

  lemma ExpandedRacing<S(!new), E(!new)>(p: Problem<S, E>, r: Race<S>, s: State<S, E>, v: S)
    requires IsRace(p, r) && Racing(p, r, s) && IsFirst(s, v) && v != r.near && Expanded(p, s, v).Some?
    ensures var t := Expanded(p, s, v).value; Racing(p, r, t) && |t.closed| == |s.closed| + 1
  {
    FirstIsOnTheWay(p, r, s, v);
    RegisterAllRacing(p, r, Close(s, v), v, |p.expand(v)|);
    assert p.expand(v)[..|p.expand(v)|] == p.expand(v);
  }

  // ---- Expanding near ----

  lemma {:induction false} ClosedIsKept<S(!new), E(!new)>(p: Problem<S, E>, s: State<S, E>, v: S,
                                                          cs: seq<Candidate<S, E>>, x: S)
    requires v in s.nodes && x in s.nodes && x in s.closed && RegisterAll(p, s, v, cs).Some?
    ensures var t := RegisterAll(p, s, v, cs).value; t.closed == s.closed && x in t.nodes && t.nodes[x] == s.nodes[x]
  {
    if cs != [] {
      ClosedIsKept(p, s, v, cs[..|cs| - 1], x);
    }
  }

  // The cheaper edge offers early, which is closed, at a lower cost.
  lemma NearFails<S(!new), E(!new)>(p: Problem<S, E>, r: Race<S>, s: State<S, E>, i: nat)
    requires IsRace(p, r) && Racing(p, r, s) && Undercuts(p, r, i)
    ensures Expanded(p, s, r.near) == None
  {
    var t, cs := Close(s, r.near), p.expand(r.near);
    var m := RegisterAll(p, t, r.near, cs[..i]);
    if m.Some? {
      ClosedIsKept(p, t, r.near, cs[..i], r.near);
      ClosedIsKept(p, t, r.near, cs[..i], r.early);
      RegisterAllStep(p, t, r.near, cs, i + 1);
      AbortsForGood(p, t, r.near, cs, i + 1);
    } else {
      AbortsForGood(p, t, r.near, cs, i);
    }
  }

  // ---- The start ----

  function Start<S, E>(p: Problem<S, E>, r: Race<S>): (s: State<S, E>) {
    State(map[r.start := SourceRecord()], [])
  }

  // A record of a neighbour of the source.
  function FirstRecord<S, E>(p: Problem<S, E>, r: Race<S>, i: nat): (rec: Record<S, E>)
    requires i < |p.expand(r.start)|
  {
    var c := p.expand(r.start)[i];
    Record(Some(ParentLink(r.start, Some(c.edge), c.cost, c.cost)), c.cost + p.h(c.node), false)
  }

  function Second<S, E>(p: Problem<S, E>, r: Race<S>): (s: State<S, E>)
    requires |p.expand(r.start)| == 2
  {
    State(map[r.start := SourceRecord(), r.near := FirstRecord(p, r, 0), r.early := FirstRecord(p, r, 1)], [r.start])
  }

  lemma StartExpands<S(!new), E(!new)>(p: Problem<S, E>, r: Race<S>)
    requires IsRace(p, r)
    ensures IsFirst(Start(p, r), r.start) && Expanded(p, Start(p, r), r.start) == Some(Second(p, r))
  {
    var s, cs := Close(Start(p, r), r.start), p.expand(r.start);
    assert s.closed == [r.start];
    assert cs[..2] == cs && cs[..0] == [];
    RegisterAllStep(p, s, r.start, cs, 1);
    RegisterAllStep(p, s, r.start, cs, 2);
  }

  lemma EarlyIsFirst<S(!new), E(!new)>(p: Problem<S, E>, r: Race<S>)
    requires IsRace(p, r)
    ensures IsFirst(Second(p, r), r.early) && !p.isTarget(r.early) && Racing(p, r, Close(Second(p, r), r.early))
  {
    BeyondTarget(p, r.bound, r.early, r.cost);
    var t := Close(Second(p, r), r.early);
    assert t.closed == [r.start, r.early] && t.closed[1] == r.early;
  }

  // ---- The whole race ----

  lemma {:induction false} LeastOpen<S(!new), E(!new)>(s: State<S, E>, xs: set<S>, x: S) returns (v: S)
    requires x in xs && forall y :: y in xs ==> y in s.nodes
    ensures v in xs && forall y :: y in xs ==> s.nodes[v].f <= s.nodes[y].f
    decreases |xs|
  {
    var rest := xs - {x};
    if rest == {} {
      v := x;
    } else {
      var y :| y in rest;
      v := LeastOpen(s, rest, y);
      if s.nodes[x].f < s.nodes[v].f {
        v := x;
      }
    }
  }

  lemma FirstExists<S(!new), E(!new)>(s: State<S, E>, x: S) returns (v: S)
    requires IsOpen(s, x)
    ensures IsFirst(s, v)
  {
    var open := set y | y in s.nodes && y !in s.closed;
    v := LeastOpen(s, open, x);
  }

  // A run of the search after which expanding the first open node fails.
  ghost predicate Fails<S(!new), E(!new)>(p: Problem<S, E>, src: S, run: seq<State<S, E>>, v: S) {
    && IsRun(p, {src}, run) && IsFirst(run[|run| - 1], v)
    && !p.isTarget(v) && Expanded(p, run[|run| - 1], v) == None
  }

  lemma Longer<S(!new), E(!new)>(p: Problem<S, E>, src: S, run: seq<State<S, E>>, v: S, t: State<S, E>)
    requires IsRun(p, {src}, run) && IsFirst(run[|run| - 1], v) && !p.isTarget(v)
             && Expanded(p, run[|run| - 1], v) == Some(t)
    ensures IsRun(p, {src}, run + [t])
  {
    assert Next(p, run[|run| - 1], t);
  }

  lemma {:induction false} RaceOn<S(!new), E(!new)>(p: Problem<S, E>, r: Race<S>, all: set<S>, run: seq<State<S, E>>,
                                                    i: nat)
    returns (longer: seq<State<S, E>>, v: S)
    requires IsRace(p, r) && Undercuts(p, r, i) && !p.isTarget(r.near) && Universe(p, {r.start}, all)
    requires IsRun(p, {r.start}, run) && Racing(p, r, run[|run| - 1]) && run[|run| - 1].nodes.Keys <= all
    ensures Fails(p, r.start, longer, v)
    decreases |all| - |run[|run| - 1].closed|
  {
    var s := run[|run| - 1];
    AtMostAll(s.closed, all);
    v := FirstExists(s, r.near);
    if v == r.near {
      NearFails(p, r, s, i);
      longer := run;
    } else {
      FirstIsOnTheWay(p, r, s, v);
      var t := Expanded(p, s, v);
      if t == None {
        longer := run;
      } else {
        ExpandedRacing(p, r, s, v);
        Longer(p, r.start, run, v, t.value);
        StaysWithin(p, {r.start}, all, Close(s, v), v, p.expand(v));
        AtMostAll(t.value.closed, all);
        longer, v := RaceOn(p, r, all, run + [t.value], i);
      }
    }
  }

  // In a race that near undercuts, the search fails.
  lemma RaceFails<S(!new), E(!new)>(p: Problem<S, E>, r: Race<S>, all: set<S>, i: nat)
    returns (run: seq<State<S, E>>, v: S)
    requires IsRace(p, r) && Undercuts(p, r, i) && !p.isTarget(r.near) && Universe(p, {r.start}, all)
    ensures Fails(p, r.start, run, v)
  {
    StartExpands(p, r);
    Longer(p, r.start, [Start(p, r)], r.start, Second(p, r));
    run := [Start(p, r)] + [Second(p, r)];
    EarlyIsFirst(p, r);
    v := r.early;
    var t := Expanded(p, Second(p, r), v);
    if t != None {
      var s := Close(Second(p, r), v);
      RegisterAllRacing(p, r, s, v, |p.expand(v)|);
      assert p.expand(v)[..|p.expand(v)|] == p.expand(v);
      Longer(p, r.start, run, v, t.value);
      StaysWithin(p, {r.start}, all, s, v, p.expand(v));
      run, v := RaceOn(p, r, all, run + [t.value], i);
    }
  }
}
