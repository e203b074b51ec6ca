/**
 When the plan found by a search from both ends is a cheapest one.
 */
module TwoWayBest {
  import opened Wrappers
  import opened SearchSpec
  import opened SearchTree
  import opened SearchOptimal
  import opened SearchPlan
  import opened TwoWaySpec
  import opened TwoWayRuns
  import opened TwoWayComplete
  import opened TwoWaySure

  // The estimate is zero at the ends it estimates the way to.
  ghost predicate ZeroAt<S(!new), E>(p: Problem<S, E>, ends: set<S>) {
    forall t :: t in ends ==> p.h(t) == 0.0
  }

  // Consistent estimates that are zero at the ends of the other side.
  ghost predicate Suits<S(!new), E(!new)>(p: Problem<S, E>, srcs: set<S>, q: Problem<S, E>, dsts: set<S>) {
    Sure(p, q) && ZeroAt(p, dsts) && ZeroAt(q, srcs)
  }

  // No path from a source to a destination costs less.
  ghost predicate IsCheapest<S(!new), E(!new)>(p: Problem<S, E>, srcs: set<S>, dsts: set<S>, cost: real) {
    forall src, steps, t :: PathTo(p, srcs, src, steps, t) && t in dsts ==> cost <= Cost(steps)
  }

  // ---- How a path leaves what a side has expanded ----

  // A state of the path that this side has closed but not expanded.
  ghost predicate Blocks<S, E>(a: State<S, E>, own: set<S>, q: seq<S>, x: S) {
    x in q && x in a.closed && x !in own
  }

  ghost predicate IsWithin<S(!new), E(!new)>(a: State<S, E>, v: S, g: real) {
    v in a.nodes && G(a.nodes[v]) <= g
  }

  ghost predicate OpenUpTo<S(!new), E>(a: State<S, E>, f: real) {
    exists x :: IsOpen(a, x) && a.nodes[x].f <= f
  }

  lemma ValueAtMost<S(!new), E(!new)>(p: Problem<S, E>, srcs: set<S>, a: State<S, E>, v: S)
    requires Climbs(p) && Tree(p, srcs, a) && Steady(a) && v in a.nodes
    ensures a.nodes[v].f <= G(a.nodes[v]) + p.h(v)
    ensures v in srcs ==> G(a.nodes[v]) == 0.0 == a.nodes[v].f
    ensures a.nodes[v].f == 0.0 || G(a.nodes[v]) <= a.nodes[v].f
  {
    assert GoodRecord(p, srcs, a, v, a.nodes[v], Rank(a, v));
  }

  // Along a path everything is closed and expanded at no more than the path costs, until an open
  // node or one that was closed without being expanded.
  lemma {:induction false} FrontierOrBlocked<S(!new), E(!new)>(p: Problem<S, E>, srcs: set<S>, a: State<S, E>,
                                                               own: set<S>, src: S, steps: seq<Candidate<S, E>>, v: S)
    requires Climbs(p) && Tree(p, srcs, a) && Steady(a) && Owns(p, a, own) && PathTo(p, srcs, src, steps, v)
    ensures || IsWithin(a, v, Cost(steps))
            || OpenUpTo(a, Cost(steps) + p.h(v))
            || exists x :: Blocks(a, own, Visited(src, steps), x)
  {
    if steps == [] {
      ValueAtMost(p, srcs, a, src);
    } else {
      var n := |steps| - 1;
      var u := End(src, steps[..n]);
      FrontierOrBlocked(p, srcs, a, own, src, steps[..n], u);
      if x :| Blocks(a, own, Visited(src, steps[..n]), x) {
        assert Blocks(a, own, Visited(src, steps), x);
      } else if IsWithin(a, u, Cost(steps[..n])) {
        ValueAtMost(p, srcs, a, u);
        if u in own {
          assert Relaxed(a, u, p.expand(u));
        } else if u in a.closed {
          assert u == Visited(src, steps)[n];
          assert Blocks(a, own, Visited(src, steps), u);
        } else {
          assert IsOpen(a, u);
        }
      }
    }
  }

  // ---- What every turn keeps ----

  ghost predicate Blocked<S(!new), E>(a: State<S, E>, own: set<S>, q: seq<S>, v: S) {
    exists x :: Blocks(a, own, q, x) && Rank(a, x) < Rank(a, v)
  }

  // A cheaper path to a closed node leads through one that was closed before it and not expanded.
  ghost predicate Excused<S(!new), E(!new)>(p: Problem<S, E>, srcs: set<S>, a: State<S, E>, own: set<S>) {
    forall src, steps, v :: PathTo(p, srcs, src, steps, v) && v in a.closed && !IsWithin(a, v, Cost(steps)) ==>
      Blocked(a, own, Visited(src, steps), v)
  }

  // A node that each side has expanded, both closed on both sides: not both sides have closed
  // the one of the other side first.
  ghost predicate Crossed<S(!new), E>(a: State<S, E>, mine: set<S>, b: State<S, E>, theirs: set<S>) {
    forall z, w :: Both(a, b, z) && Both(a, b, w) && z in mine && w in theirs ==>
      Rank(a, z) < Rank(a, w) || Rank(b, w) < Rank(b, z)
  }

  ghost predicate Fair<S(!new), E(!new)>(p: Problem<S, E>, srcs: set<S>, a: State<S, E>, mine: set<S>,
                                         q: Problem<S, E>, dsts: set<S>, b: State<S, E>, theirs: set<S>) {
    && Halves(p, srcs, a, mine, q, dsts, b, theirs)
    && Excused(p, srcs, a, mine) && Excused(q, dsts, b, theirs) && Crossed(a, mine, b, theirs)
  }

  lemma FairEitherWay<S(!new), E(!new)>(p: Problem<S, E>, srcs: set<S>, a: State<S, E>, mine: set<S>,
                                        q: Problem<S, E>, dsts: set<S>, b: State<S, E>, theirs: set<S>)
    requires Fair(p, srcs, a, mine, q, dsts, b, theirs)
    ensures Fair(q, dsts, b, theirs, p, srcs, a, mine)
  {
    HalvesEitherWay(p, srcs, a, mine, q, dsts, b, theirs);
    forall z, w | Both(b, a, z) && Both(b, a, w) && z in theirs && w in mine
      ensures Rank(b, z) < Rank(b, w) || Rank(a, w) < Rank(a, z)
    {
      assert Both(a, b, z) && Both(a, b, w);
    }
  }

  // A path to the node to be closed next that costs less than that node.
  lemma FirstIsExcused<S(!new), E(!new)>(p: Problem<S, E>, srcs: set<S>, a: State<S, E>, own: set<S>, u: S, src: S,
                                         steps: seq<Candidate<S, E>>) returns (x: S)
    requires Climbs(p) && Tree(p, srcs, a) && Steady(a) && Owns(p, a, own) && IsFirst(a, u) && !a.nodes[u].connector
    requires PathTo(p, srcs, src, steps, u) && Cost(steps) < G(a.nodes[u])
    ensures Blocks(a, own, Visited(src, steps), x)
  {
    FrontierOrBlocked(p, srcs, a, own, src, steps, u);
    CostNonNegative(p, src, steps);
    assert GoodRecord(p, srcs, a, u, a.nodes[u], Rank(a, u));
    x :| Blocks(a, own, Visited(src, steps), x);
  }

  lemma BlockedLater<S(!new), E(!new)>(a: State<S, E>, own: set<S>, c: State<S, E>, more: set<S>, u: S, q: seq<S>, v: S,
                                       x: S)
    requires Closes(a, c, u) && u !in a.closed && own <= more <= own + {u} && Blocks(a, own, q, x) && v in c.closed
    requires v == u || Rank(a, x) < Rank(a, v)
    ensures Blocked(c, more, q, v)
  {
    CloseRank(a, u, x);
    CloseRank(a, u, v);
    assert x != u && Blocks(c, more, q, x);
  }

  lemma ExcusedLater<S(!new), E(!new)>(p: Problem<S, E>, srcs: set<S>, a: State<S, E>, own: set<S>, c: State<S, E>,
                                       more: set<S>, u: S)
    requires Climbs(p) && Tree(p, srcs, a) && Steady(a) && Owns(p, a, own) && IsFirst(a, u) && !a.nodes[u].connector
    requires Excused(p, srcs, a, own) && Closes(a, c, u) && own <= more <= own + {u}
    ensures Excused(p, srcs, c, more)
  {
    forall src, steps, v | PathTo(p, srcs, src, steps, v) && v in c.closed && !IsWithin(c, v, Cost(steps))
      ensures Blocked(c, more, Visited(src, steps), v)
    {
      var x;
      if v == u {
        x := FirstIsExcused(p, srcs, a, own, u, src, steps);
      } else {
        assert v in a.closed && Blocked(a, own, Visited(src, steps), v);
        x :| Blocks(a, own, Visited(src, steps), x) && Rank(a, x) < Rank(a, v);
      }
      BlockedLater(a, own, c, more, u, Visited(src, steps), v, x);
    }
  }

  lemma CrossedLater<S(!new), E(!new)>(a: State<S, E>, mine: set<S>, b: State<S, E>, theirs: set<S>, c: State<S, E>,
                                       more: set<S>, u: S)
    requires Crossed(a, mine, b, theirs) && ClosedStored(a) && Closes(a, c, u) && u !in a.closed
    requires mine !! theirs && more == (if u in b.closed then mine else mine + {u})
    requires forall z :: z in mine ==> z in a.closed
    ensures Crossed(c, more, b, theirs)
  {
    forall z, w | Both(c, b, z) && Both(c, b, w) && z in more && w in theirs
      ensures Rank(c, z) < Rank(c, w) || Rank(b, w) < Rank(b, z)
    {
      CloseRank(a, u, z);
      CloseRank(a, u, w);
      assert z in a.closed;
      if w != u {
        assert Both(a, b, z) && Both(a, b, w);
      }
    }
  }

  lemma TurnFair<S(!new), E(!new)>(p: Problem<S, E>, srcs: set<S>, a: State<S, E>, mine: set<S>, q: Problem<S, E>,
                                   dsts: set<S>, b: State<S, E>, theirs: set<S>, u: S) returns (more: set<S>)
    requires Climbs(p) && Steady(a) && Joint(p, srcs, a, q, dsts, b) && Fair(p, srcs, a, mine, q, dsts, b, theirs)
    requires IsFirst(a, u) && !a.nodes[u].connector && TurnAt(p, a, b, u).Some?
    ensures Fair(p, srcs, TurnAt(p, a, b, u).value, more, q, dsts, b, theirs)
  {
    var c := TurnAt(p, a, b, u).value;
    more := TurnHalves(p, srcs, a, mine, q, dsts, b, theirs, u);
    ExcusedLater(p, srcs, a, mine, c, more, u);
    CrossedLater(a, mine, b, theirs, c, more, u);
  }

  lemma DuoFair<S(!new), E(!new)>(p: Problem<S, E>, srcs: set<S>, q: Problem<S, E>, dsts: set<S>, d: Duo<S, E>,
                                  e: Duo<S, E>, mine: set<S>, theirs: set<S>) returns (mine': set<S>, theirs': set<S>)
    requires Sure(p, q) && Joint(p, srcs, d.forward, q, dsts, d.reverse) && BothSteady(d) && DuoNext(p, q, d, e)
    requires Fair(p, srcs, d.forward, mine, q, dsts, d.reverse, theirs)
    ensures Fair(p, srcs, e.forward, mine', q, dsts, e.reverse, theirs')
  {
    if e.reverse == d.reverse && exists u :: ForwardTurn(p, d, u, Some(e.forward)) {
      var u :| ForwardTurn(p, d, u, Some(e.forward));
      theirs' := theirs;
      mine' := TurnFair(p, srcs, d.forward, mine, q, dsts, d.reverse, theirs, u);
    } else {
      var u :| ReverseTurn(q, d, u, Some(e.reverse));
      mine' := mine;
      FairEitherWay(p, srcs, d.forward, mine, q, dsts, d.reverse, theirs);
      theirs' := TurnFair(q, dsts, d.reverse, theirs, p, srcs, d.forward, mine, u);
      FairEitherWay(q, dsts, e.reverse, theirs', p, srcs, e.forward, mine);
    }
  }

  lemma {:induction false} RunFair<S(!new), E(!new)>(p: Problem<S, E>, srcs: set<S>, q: Problem<S, E>, dsts: set<S>,
                                                     run: seq<Duo<S, E>>) returns (mine: set<S>, theirs: set<S>)
    requires Sure(p, q) && IsDuoRun(p, srcs, q, dsts, run)
    ensures Fair(p, srcs, run[|run| - 1].forward, mine, q, dsts, run[|run| - 1].reverse, theirs)
  {
    var n := |run| - 1;
    if n == 0 {
      mine, theirs := {}, {};
    } else {
      var a, b := RunFair(p, srcs, q, dsts, run[..n]);
      RunKeeps(p, srcs, q, dsts, run[..n]);
      RunSteady(p, srcs, q, dsts, run[..n]);
      assert DuoNext(p, q, run[n - 1], run[n]);
      mine, theirs := DuoFair(p, srcs, q, dsts, run[n - 1], run[n], a, b);
    }
  }

  // ---- The end of a run ----

  ghost predicate OpenFrom<S(!new), E>(a: State<S, E>, cost: real) {
    forall v :: IsOpen(a, v) ==> cost <= a.nodes[v].f
  }

  // What is known of one side when nothing is open below the given cost.
  ghost predicate Rests<S(!new), E(!new)>(p: Problem<S, E>, srcs: set<S>, a: State<S, E>, dsts: set<S>, cost: real) {
    Climbs(p) && ZeroAt(p, dsts) && Tree(p, srcs, a) && Steady(a) && OpenFrom(a, cost)
  }

  lemma SettledBelow<S(!new), E(!new)>(p: Problem<S, E>, srcs: set<S>, a: State<S, E>, q: Problem<S, E>, dsts: set<S>,
                                       b: State<S, E>, cost: real, most: real)
    requires Mirror(p, q) && Rests(p, srcs, a, dsts, cost) && Rests(q, dsts, b, srcs, cost) && 0.0 <= most < cost
    ensures Settled(a, dsts, b, most)
  {
    forall t | t in dsts
      ensures t in b.closed && (t in a.nodes && G(a.nodes[t]) <= most ==> t in a.closed)
    {
      ValueAtMost(q, dsts, b, t);
      if t in a.nodes {
        ValueAtMost(p, srcs, a, t);
      }
      assert !IsOpen(b, t);
    }
    forall w | w in a.closed && w in a.nodes && w in b.nodes && G(a.nodes[w]) + G(b.nodes[w]) <= most
      ensures w in b.closed
    {
      MirrorBack(p, q);
      TreeRooted(p, srcs, a);
      EstimateDrops(q, p, srcs, a, w);
      RootIsSource(p, srcs, a, w);
      ValueAtMost(q, dsts, b, w);
      assert !IsOpen(b, w);
    }
  }

  // What is known of both.
  ghost predicate Resting<S(!new), E(!new)>(p: Problem<S, E>, srcs: set<S>, a: State<S, E>, mine: set<S>,
                                            q: Problem<S, E>, dsts: set<S>, b: State<S, E>, theirs: set<S>,
                                            cost: real) {
    && Mirror(p, q) && Rests(p, srcs, a, dsts, cost) && Rests(q, dsts, b, srcs, cost)
    && Fair(p, srcs, a, mine, q, dsts, b, theirs)
  }

  lemma RestingEitherWay<S(!new), E(!new)>(p: Problem<S, E>, srcs: set<S>, a: State<S, E>, mine: set<S>,
                                           q: Problem<S, E>, dsts: set<S>, b: State<S, E>, theirs: set<S>, cost: real)
    requires Resting(p, srcs, a, mine, q, dsts, b, theirs, cost)
    ensures Resting(q, dsts, b, theirs, p, srcs, a, mine, cost)
  {
    MirrorBack(p, q);
    FairEitherWay(p, srcs, a, mine, q, dsts, b, theirs);
  }

  // No node closed on both sides joins them at a lower cost.
  ghost predicate Apart<S(!new), E>(a: State<S, E>, b: State<S, E>, cost: real) {
    forall v :: Both(a, b, v) ==> cost <= Through(a, b, v)
  }

  lemma ApartEitherWay<S(!new), E>(a: State<S, E>, b: State<S, E>, cost: real)
    requires Apart(a, b, cost)
    ensures Apart(b, a, cost)
  {
    forall v | Both(b, a, v)
      ensures cost <= Through(b, a, v)
    {
      assert Both(a, b, v);
    }
  }

  lemma FinishedBelow<S(!new), E(!new)>(p: Problem<S, E>, srcs: set<S>, a: State<S, E>, mine: set<S>,
                                        q: Problem<S, E>, dsts: set<S>, b: State<S, E>, theirs: set<S>, cost: real,
                                        v: S)
    requires Resting(p, srcs, a, mine, q, dsts, b, theirs, cost) && srcs !! dsts
    requires Both(a, b, v) && Through(a, b, v) < cost
    ensures TwoWayComplete.Finished(p, srcs, a, mine, q, dsts, b, theirs, Through(a, b, v))
  {
    assert GoodRecord(p, srcs, a, v, a.nodes[v], Rank(a, v));
    assert GoodRecord(q, dsts, b, v, b.nodes[v], Rank(b, v));
    SettledBelow(p, srcs, a, q, dsts, b, cost, Through(a, b, v));
    MirrorBack(p, q);
    SettledBelow(q, dsts, b, p, srcs, a, cost, Through(a, b, v));
  }

  lemma NoMeetingBelow<S(!new), E(!new)>(p: Problem<S, E>, srcs: set<S>, a: State<S, E>, mine: set<S>,
                                         q: Problem<S, E>, dsts: set<S>, b: State<S, E>, theirs: set<S>, cost: real)
    requires Resting(p, srcs, a, mine, q, dsts, b, theirs, cost) && Decided(p, srcs, dsts)
    ensures Apart(a, b, cost)
  {
    forall v | Both(a, b, v) && Through(a, b, v) < cost
      ensures false
    {
      FinishedBelow(p, srcs, a, mine, q, dsts, b, theirs, cost, v);
      MeetingMeansTie(p, srcs, a, mine, q, dsts, b, theirs, v, Through(a, b, v));
    }
  }

  // ---- A path cut in two ----

  ghost predicate Part<S(!new)>(q: seq<S>, whole: seq<S>) {
    forall x :: x in q ==> x in whole
  }

  // The way to v, and the way back to v from the end.
  lemma {:induction false} Cut<S(!new), E(!new)>(p: Problem<S, E>, q: Problem<S, E>, src: S,
                                                 steps: seq<Candidate<S, E>>, v: S)
    returns (there: seq<Candidate<S, E>>, back: seq<Candidate<S, E>>)
    requires Mirror(p, q) && IsPath(p, src, steps) && v in Visited(src, steps)
    ensures IsPath(p, src, there) && End(src, there) == v && Part(Visited(src, there), Visited(src, steps))
    ensures var t := End(src, steps);
            IsPath(q, t, back) && End(t, back) == v && Part(Visited(t, back), Visited(src, steps))
    ensures Cost(there) + Cost(back) == Cost(steps)
  {
    var t := End(src, steps);
    if v == t {
      there, back := steps, [];
      assert t == Visited(src, steps)[|steps|];
    } else {
      var n := |steps| - 1;
      var u := End(src, steps[..n]);
      var rest;
      there, rest := Cut(p, q, src, steps[..n], v);
      var c := Candidate(steps[n].edge, steps[n].cost, u);
      assert Candidate(steps[n].edge, steps[n].cost, t) in p.expand(u);
      back := [c] + rest;
      PathPrepended(q, t, c, rest);
      VisitedFrom(t, c, rest);
      assert t == Visited(src, steps)[|steps|];
    }
  }

  // ---- The node of a path that was closed first without being expanded ----

  ghost predicate Foremost<S(!new), E>(a: State<S, E>, own: set<S>, q: seq<S>, w: S) {
    Blocks(a, own, q, w) && forall x :: Blocks(a, own, q, x) ==> Rank(a, w) <= Rank(a, x)
  }

  lemma {:induction false} SomeForemost<S(!new), E(!new)>(a: State<S, E>, own: set<S>, q: seq<S>, x: S) returns (w: S)
    requires Blocks(a, own, q, x)
    ensures Foremost(a, own, q, w)
    decreases Rank(a, x)
  {
    if y :| Blocks(a, own, q, y) && Rank(a, y) < Rank(a, x) {
      w := SomeForemost(a, own, q, y);
    } else {
      w := x;
    }
  }

  // Any part of the path to a closed node is as cheap as can be, or that node was closed later.
  lemma ForemostIsFirst<S(!new), E(!new)>(p: Problem<S, E>, srcs: set<S>, a: State<S, E>, own: set<S>, q: seq<S>, w: S,
                                          src: S, steps: seq<Candidate<S, E>>, v: S)
    requires Excused(p, srcs, a, own) && Foremost(a, own, q, w)
    requires PathTo(p, srcs, src, steps, v) && Part(Visited(src, steps), q) && v in a.closed
    ensures IsWithin(a, v, Cost(steps)) || Rank(a, w) < Rank(a, v)
  {
    if !IsWithin(a, v, Cost(steps)) {
      var x :| Blocks(a, own, Visited(src, steps), x) && Rank(a, x) < Rank(a, v);
      assert Blocks(a, own, q, x);
    }
  }

  // No end is stored here at a lower cost.
  lemma EndNotBelow<S(!new), E(!new)>(p: Problem<S, E>, srcs: set<S>, a: State<S, E>, q: Problem<S, E>, dsts: set<S>,
                                      b: State<S, E>, cost: real, t: S, g: real)
    requires Mirror(p, q) && Rests(p, srcs, a, dsts, cost) && Rests(q, dsts, b, srcs, cost) && Apart(a, b, cost)
    requires t in dsts && 0.0 <= g < cost
    ensures !IsWithin(a, t, g)
  {
    SettledBelow(p, srcs, a, q, dsts, b, cost, g);
    ValueAtMost(q, dsts, b, t);
    assert IsWithin(a, t, g) ==> Both(a, b, t);
  }

  lemma PathIsBlocked<S(!new), E(!new)>(p: Problem<S, E>, srcs: set<S>, a: State<S, E>, own: set<S>, dsts: set<S>,
                                        cost: real, src: S, steps: seq<Candidate<S, E>>, t: S) returns (x: S)
    requires Rests(p, srcs, a, dsts, cost) && Owns(p, a, own)
    requires PathTo(p, srcs, src, steps, t) && t in dsts && Cost(steps) < cost && !IsWithin(a, t, Cost(steps))
    ensures Blocks(a, own, Visited(src, steps), x)
  {
    FrontierOrBlocked(p, srcs, a, own, src, steps, t);
    x :| Blocks(a, own, Visited(src, steps), x);
  }

  // A path cheaper than the cost at which a run ends leads through a node that was closed here
  // without being expanded.
  lemma CheaperIsBlocked<S(!new), E(!new)>(p: Problem<S, E>, srcs: set<S>, a: State<S, E>, mine: set<S>,
                                           q: Problem<S, E>, dsts: set<S>, b: State<S, E>, theirs: set<S>, cost: real,
                                           src: S, steps: seq<Candidate<S, E>>, t: S) returns (w: S)
    requires Resting(p, srcs, a, mine, q, dsts, b, theirs, cost) && Apart(a, b, cost)
    requires PathTo(p, srcs, src, steps, t) && t in dsts && Cost(steps) < cost
    ensures Foremost(a, mine, Visited(src, steps), w)
  {
    CostNonNegative(p, src, steps);
    EndNotBelow(p, srcs, a, q, dsts, b, cost, t, Cost(steps));
    var x := PathIsBlocked(p, srcs, a, mine, dsts, cost, src, steps, t);
    w := SomeForemost(a, mine, Visited(src, steps), x);
  }

  // The same from the other end.
  lemma CheaperIsBlockedBack<S(!new), E(!new)>(p: Problem<S, E>, srcs: set<S>, a: State<S, E>, mine: set<S>,
                                               q: Problem<S, E>, dsts: set<S>, b: State<S, E>, theirs: set<S>,
                                               cost: real, src: S, steps: seq<Candidate<S, E>>, t: S) returns (z: S)
    requires Resting(p, srcs, a, mine, q, dsts, b, theirs, cost) && Apart(a, b, cost)
    requires PathTo(p, srcs, src, steps, t) && t in dsts && Cost(steps) < cost
    ensures Foremost(b, theirs, Visited(src, steps), z)
  {
    assert src == Visited(src, steps)[0];
    var there, back := Cut(p, q, src, steps, src);
    CostNonNegative(p, src, there);
    RestingEitherWay(p, srcs, a, mine, q, dsts, b, theirs, cost);
    ApartEitherWay(a, b, cost);
    var x := CheaperIsBlocked(q, dsts, b, theirs, p, srcs, a, mine, cost, t, back, src);
    assert Blocks(b, theirs, Visited(src, steps), x);
    z := SomeForemost(b, theirs, Visited(src, steps), x);
  }

  // Of the first such node on each side, the other side has closed the other one before.
  lemma OtherIsFirst<S(!new), E(!new)>(p: Problem<S, E>, srcs: set<S>, a: State<S, E>, mine: set<S>,
                                       q: Problem<S, E>, dsts: set<S>, b: State<S, E>, theirs: set<S>, cost: real,
                                       src: S, steps: seq<Candidate<S, E>>, t: S, w: S, z: S)
    requires Resting(p, srcs, a, mine, q, dsts, b, theirs, cost) && Apart(a, b, cost)
    requires PathTo(p, srcs, src, steps, t) && t in dsts && Cost(steps) < cost
    requires Foremost(a, mine, Visited(src, steps), w) && Foremost(b, theirs, Visited(src, steps), z)
    ensures Rank(b, z) < Rank(b, w) && w in b.closed
    ensures Rank(a, w) < Rank(a, z) && z in a.closed
  {
    var there, back := Cut(p, q, src, steps, w);
    assert Both(a, b, w);
    ForemostIsFirst(p, srcs, a, mine, Visited(src, steps), w, src, there, w);
    ForemostIsFirst(q, dsts, b, theirs, Visited(src, steps), z, t, back, w);
    there, back := Cut(p, q, src, steps, z);
    assert Both(a, b, z);
    ForemostIsFirst(p, srcs, a, mine, Visited(src, steps), w, src, there, z);
    ForemostIsFirst(q, dsts, b, theirs, Visited(src, steps), z, t, back, z);
  }

  lemma NothingCheaper<S(!new), E(!new)>(p: Problem<S, E>, srcs: set<S>, a: State<S, E>, mine: set<S>,
                                         q: Problem<S, E>, dsts: set<S>, b: State<S, E>, theirs: set<S>, cost: real)
    requires Resting(p, srcs, a, mine, q, dsts, b, theirs, cost) && Apart(a, b, cost)
    ensures IsCheapest(p, srcs, dsts, cost)
  {
    forall src, steps, t | PathTo(p, srcs, src, steps, t) && t in dsts && Cost(steps) < cost
      ensures false
    {
      var w := CheaperIsBlocked(p, srcs, a, mine, q, dsts, b, theirs, cost, src, steps, t);
      var z := CheaperIsBlockedBack(p, srcs, a, mine, q, dsts, b, theirs, cost, src, steps, t);
      OtherIsFirst(p, srcs, a, mine, q, dsts, b, theirs, cost, src, steps, t, w, z);
      assert Both(a, b, w) && Both(a, b, z);
    }
  }

  // The open nodes when a run ends with a connector at the head that moves.
  lemma EndRests<S(!new), E(!new)>(d: Duo<S, E>, cost: real)
    requires BothSteady(d) && EndsAt(d, cost)
    ensures OpenFrom(d.forward, cost) && OpenFrom(d.reverse, cost)
  {
  }

  // A run that ends with a plan: what both sides know.
  lemma EndKnown<S(!new), E(!new)>(p: Problem<S, E>, srcs: set<S>, q: Problem<S, E>, dsts: set<S>,
                                   run: seq<Duo<S, E>>, cost: real) returns (mine: set<S>, theirs: set<S>)
    requires Suits(p, srcs, q, dsts) && IsDuoRun(p, srcs, q, dsts, run) && EndsAt(run[|run| - 1], cost)
    ensures Resting(p, srcs, run[|run| - 1].forward, mine, q, dsts, run[|run| - 1].reverse, theirs, cost)
  {
    RunKeeps(p, srcs, q, dsts, run);
    RunSteady(p, srcs, q, dsts, run);
    EndRests(run[|run| - 1], cost);
    mine, theirs := RunFair(p, srcs, q, dsts, run);
  }

  // The way through a node closed on both sides.
  lemma MeetingIsPath<S(!new), E(!new)>(p: Problem<S, E>, srcs: set<S>, a: State<S, E>, q: Problem<S, E>, dsts: set<S>,
                                        b: State<S, E>, v: S, cost: real)
    requires Mirror(p, q) && Tree(p, srcs, a) && Tree(q, dsts, b) && Both(a, b, v) && IsCheapest(p, srcs, dsts, cost)
    ensures cost <= Through(a, b, v)
  {
    PlanToIsFor(p, srcs, a, v);
    PlanToIsFor(q, dsts, b, v);
    var plan := Joined(PlanTo(a, v), PlanTo(b, v));
    JoinedIsSound(p, srcs, q, dsts, v, G(a.nodes[v]), G(b.nodes[v]), PlanTo(a, v), PlanTo(b, v));
    PlanIsPath(p, plan);
    assert PathTo(p, srcs, plan[0].node, Steps(plan), plan[|plan| - 1].node);
  }

  // With consistent estimates that are zero at the ends, the plan found is a cheapest one exactly
  // if no node closed on both sides joins them at a lower cost.
  lemma CheapestIffApart<S(!new), E(!new)>(p: Problem<S, E>, srcs: set<S>, q: Problem<S, E>, dsts: set<S>,
                                           run: seq<Duo<S, E>>, cost: real)
    requires Suits(p, srcs, q, dsts) && IsDuoRun(p, srcs, q, dsts, run) && EndsAt(run[|run| - 1], cost)
    ensures IsCheapest(p, srcs, dsts, cost) <==> Apart(run[|run| - 1].forward, run[|run| - 1].reverse, cost)
  {
    var a, b := run[|run| - 1].forward, run[|run| - 1].reverse;
    var mine, theirs := EndKnown(p, srcs, q, dsts, run, cost);
    if Apart(a, b, cost) {
      NothingCheaper(p, srcs, a, mine, q, dsts, b, theirs, cost);
    } else {
      var v :| Both(a, b, v) && Through(a, b, v) < cost;
      if IsCheapest(p, srcs, dsts, cost) {
        MeetingIsPath(p, srcs, a, q, dsts, b, v, cost);
      }
    }
  }

  // ---- Inputs on which it always is ----

  // The only destination, stored as a connector, is no dearer than any meeting.
  lemma NoMeetingBelowOnly<S(!new), E(!new)>(p: Problem<S, E>, srcs: set<S>, a: State<S, E>, mine: set<S>,
                                             q: Problem<S, E>, dsts: set<S>, b: State<S, E>, theirs: set<S>,
                                             cost: real, t: S)
    requires Resting(p, srcs, a, mine, q, dsts, b, theirs, cost) && srcs !! dsts
    requires dsts == {t} && t in a.nodes && cost == G(a.nodes[t])
    ensures Apart(a, b, cost)
  {
    forall v | Both(a, b, v) && Through(a, b, v) < cost
      ensures false
    {
      var u := LeastAmong(a, b, a.closed);
      LeastIsTheirs(p, srcs, a, mine, q, dsts, b, theirs, cost, u);
    }
  }

  // The cheapest meeting, if below the given cost, has left an end here at no more than it costs.
  lemma LeastIsTheirs<S(!new), E(!new)>(p: Problem<S, E>, srcs: set<S>, a: State<S, E>, mine: set<S>,
                                        q: Problem<S, E>, dsts: set<S>, b: State<S, E>, theirs: set<S>, cost: real,
                                        u: S)
    requires Resting(p, srcs, a, mine, q, dsts, b, theirs, cost) && srcs !! dsts
    requires Both(a, b, u) && Through(a, b, u) < cost && IsLeast(a, b, u, Through(a, b, u))
    ensures Reaches(a, dsts, Through(a, b, u))
  {
    var m := Through(a, b, u);
    if u !in theirs {
      FinishedBelow(p, srcs, a, mine, q, dsts, b, theirs, cost, u);
      FinishedEitherWay(p, srcs, a, mine, q, dsts, b, theirs, m);
      LeastEitherWay(a, b, u, m);
      var s := EndAtLeast(q, dsts, b, theirs, p, srcs, a, mine, u, m);
      var w := OwnLeast(q, dsts, b, theirs, p, srcs, a, mine, s, m);
      LeastEitherWay(b, a, w, m);
    }
  }

  // A single source and a single destination.
  ghost predicate OneEach<S>(srcs: set<S>, dsts: set<S>) {
    |srcs| == 1 && |dsts| == 1
  }

  // With such estimates, and ends that are single or apart as Decided says, the plan that a run
  // ends with is a cheapest one.
  lemma FoundIsCheapest<S(!new), E(!new)>(p: Problem<S, E>, srcs: set<S>, q: Problem<S, E>, dsts: set<S>,
                                          run: seq<Duo<S, E>>, cost: real)
    requires Suits(p, srcs, q, dsts) && (Decided(p, srcs, dsts) || OneEach(srcs, dsts))
    requires IsDuoRun(p, srcs, q, dsts, run) && EndsAt(run[|run| - 1], cost)
    ensures IsCheapest(p, srcs, dsts, cost)
  {
    var a, b := run[|run| - 1].forward, run[|run| - 1].reverse;
    var mine, theirs := EndKnown(p, srcs, q, dsts, run, cost);
    if Decided(p, srcs, dsts) {
      NoMeetingBelow(p, srcs, a, mine, q, dsts, b, theirs, cost);
    } else {
      SingleIsApart(p, srcs, mine, q, dsts, theirs, run, cost);
    }
    NothingCheaper(p, srcs, a, mine, q, dsts, b, theirs, cost);
  }

  lemma SingleIsApart<S(!new), E(!new)>(p: Problem<S, E>, srcs: set<S>, mine: set<S>, q: Problem<S, E>, dsts: set<S>,
                                        theirs: set<S>, run: seq<Duo<S, E>>, cost: real)
    requires IsDuoRun(p, srcs, q, dsts, run) && EndsAt(run[|run| - 1], cost) && OneEach(srcs, dsts)
    requires Resting(p, srcs, run[|run| - 1].forward, mine, q, dsts, run[|run| - 1].reverse, theirs, cost)
    ensures Apart(run[|run| - 1].forward, run[|run| - 1].reverse, cost)
  {
    var a, b := run[|run| - 1].forward, run[|run| - 1].reverse;
    RunKeeps(p, srcs, q, dsts, run);
    if u :| Moves(a, b, u, true) && a.nodes[u].connector && G(a.nodes[u]) == cost {
      OnlyEnd(p, srcs, a, b, dsts, u);
      NoMeetingBelowOnly(p, srcs, a, mine, q, dsts, b, theirs, cost, u);
    } else {
      var u :| Moves(b, a, u, false) && b.nodes[u].connector && G(b.nodes[u]) == cost;
      OnlyEnd(q, dsts, b, a, srcs, u);
      RestingEitherWay(p, srcs, a, mine, q, dsts, b, theirs, cost);
      NoMeetingBelowOnly(q, dsts, b, theirs, p, srcs, a, mine, cost, u);
      ApartEitherWay(b, a, cost);
    }
  }

  // A connector stands for the only destination, which is then no source.
  lemma OnlyEnd<S(!new), E(!new)>(p: Problem<S, E>, srcs: set<S>, a: State<S, E>, b: State<S, E>, dsts: set<S>, u: S)
    requires Tree(p, srcs, a) && Meets(a, b, dsts) && u in a.nodes && a.nodes[u].connector && |dsts| == 1
    ensures dsts == {u} && srcs !! dsts
  {
    assert GoodRecord(p, srcs, a, u, a.nodes[u], Rank(a, u));
    assert Connects(a, b, dsts, u);
    assert |dsts - {u}| == 0;
  }
}
