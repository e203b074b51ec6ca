/**
 Which estimates keep the search from both ends from failing: those that are consistent along
 every edge.
 */
module TwoWaySure {
  import opened Wrappers
  import opened SearchSpec
  import opened SearchTree
  import opened SearchOptimal
  import opened SearchPlan
  import opened TwoWaySpec
  import opened TwoWayRuns

  // Costs and estimates are not negative, and the estimate drops by no more than an edge costs.
  ghost predicate Climbs<S(!new), E(!new)>(p: Problem<S, E>) {
    && (forall u :: 0.0 <= p.h(u))
    && (forall u, c :: c in p.expand(u) ==> 0.0 <= c.cost && p.h(u) <= c.cost + p.h(c.node))
  }

  ghost predicate Sure<S(!new), E(!new)>(p: Problem<S, E>, q: Problem<S, E>) {
    Mirror(p, q) && Climbs(p) && Climbs(q)
  }

  // ---- What each side keeps ----

  // Nodes are closed in the order of their f-values; those still to close come after them.
  ghost predicate InOrder<S(!new), E>(a: State<S, E>) {
    && (forall u :: u in a.closed ==> u in a.nodes)
    && (forall i, j :: 0 <= i < j < |a.closed| ==> a.nodes[a.closed[i]].f <= a.nodes[a.closed[j]].f)
    && (forall u, v :: u in a.closed && IsOpen(a, v) && !a.nodes[v].connector ==> a.nodes[u].f <= a.nodes[v].f)
  }

  // And a connector's f-value is its cost.
  ghost predicate Steady<S(!new), E>(a: State<S, E>) {
    InOrder(a) && forall v :: v in a.nodes && a.nodes[v].connector ==> a.nodes[v].f == G(a.nodes[v])
  }

  // The same, with u just closed.
  ghost predicate SteadyAt<S(!new), E>(p: Problem<S, E>, srcs: set<S>, a: State<S, E>, u: S) {
    Tree(p, srcs, a) && Steady(a) && a.closed != [] && a.closed[|a.closed| - 1] == u
  }

  lemma CloseSteady<S(!new), E>(p: Problem<S, E>, srcs: set<S>, a: State<S, E>, u: S)
    requires Tree(p, srcs, a) && Steady(a) && IsFirst(a, u) && !a.nodes[u].connector
    ensures SteadyAt(p, srcs, Close(a, u), u)
  {
    var c := Close(a, u);
    CloseTree(p, srcs, a, u);
    forall i, j | 0 <= i < j < |c.closed|
      ensures c.nodes[c.closed[i]].f <= c.nodes[c.closed[j]].f
    {
      if j < |a.closed| {
        assert a.closed[j] == c.closed[j];
      }
      assert c.closed[i] in a.closed;
    }
  }

  lemma LastIsLatest<S(!new), E(!new)>(a: State<S, E>, w: S)
    requires InOrder(a) && w in a.closed
    ensures a.nodes[w].f <= a.nodes[a.closed[|a.closed| - 1]].f
  {
    var i :| 0 <= i < |a.closed| && a.closed[i] == w;
    assert i < |a.closed| - 1 ==> a.nodes[a.closed[i]].f <= a.nodes[a.closed[|a.closed| - 1]].f;
  }

  // A record that comes after the node just closed, or a connector at no lower cost than its end
  // was closed at.
  ghost predicate Follows<S, E>(p: Problem<S, E>, a: State<S, E>, u: S, v: S, r: Record<S, E>)
    requires u in a.nodes && (v in a.closed ==> v in a.nodes)
  {
    && r.link.Some? && 0.0 <= G(r) && GoodLink(a, r.link.value, |a.closed|)
    && if r.connector then r.f == G(r) && (v in a.closed ==> G(a.nodes[v]) <= G(r))
       else IsEdge(p, v, r) && a.nodes[u].f <= r.f
  }

  // It undercuts nothing.
  lemma RegisterGoesOn<S(!new), E(!new)>(p: Problem<S, E>, srcs: set<S>, a: State<S, E>, u: S, v: S, r: Record<S, E>)
    requires SteadyAt(p, srcs, a, u) && Follows(p, a, u, v, r)
    ensures Register(a, v, r).Some?
  {
    if v in a.nodes {
      assert GoodRecord(p, srcs, a, v, a.nodes[v], Rank(a, v));
      if v in a.closed {
        LastIsLatest(a, v);
      }
    }
  }

  lemma RegisterInOrder<S(!new), E(!new)>(a: State<S, E>, v: S, r: Record<S, E>)
    requires InOrder(a) && a.closed != [] && Register(a, v, r).Some?
    requires !r.connector ==> a.nodes[a.closed[|a.closed| - 1]].f <= r.f
    requires r.link.Some?
    ensures InOrder(Register(a, v, r).value)
  {
    forall w | w in a.closed
      ensures !r.connector ==> a.nodes[w].f <= r.f
    {
      LastIsLatest(a, w);
    }
  }

  lemma RegisterSteady<S(!new), E(!new)>(p: Problem<S, E>, srcs: set<S>, a: State<S, E>, u: S, v: S, r: Record<S, E>)
    requires SteadyAt(p, srcs, a, u) && Follows(p, a, u, v, r)
    ensures Register(a, v, r).Some? && SteadyAt(p, srcs, Register(a, v, r).value, u)
  {
    RegisterGoesOn(p, srcs, a, u, v, r);
    RegisterInOrder(a, v, r);
    RegisterTree(p, srcs, a, v, r);
  }

  lemma OfferSteady<S(!new), E(!new)>(p: Problem<S, E>, srcs: set<S>, a: State<S, E>, u: S, c: Candidate<S, E>)
    requires Climbs(p) && SteadyAt(p, srcs, a, u) && c in p.expand(u)
    ensures Offer(p, a, u, c).Some? && SteadyAt(p, srcs, Offer(p, a, u, c).value, u)
  {
    assert u in a.closed;
    assert GoodRecord(p, srcs, a, u, a.nodes[u], Rank(a, u));
    RegisterSteady(p, srcs, a, u, c.node, EdgeRecord(p, a, u, c));
  }

  lemma {:induction false} AllOffersSteady<S(!new), E(!new)>(p: Problem<S, E>, srcs: set<S>, a: State<S, E>,
                                                             u: S, i: nat)
    requires Climbs(p) && SteadyAt(p, srcs, a, u) && u in a.nodes && i <= |p.expand(u)|
    ensures var t := RegisterAll(p, a, u, p.expand(u)[..i]); t.Some? && SteadyAt(p, srcs, t.value, u)
  {
    if i == 0 {
      assert p.expand(u)[..0] == [];
    } else {
      AllOffersSteady(p, srcs, a, u, i - 1);
      RegisterAllStep(p, a, u, p.expand(u), i);
      OfferSteady(p, srcs, RegisterAll(p, a, u, p.expand(u)[..i - 1]).value, u, p.expand(u)[i - 1]);
    }
  }

  // On the way that the other side has found from u to its end, the estimate drops by no more
  // than that costs.
  lemma {:induction false} EstimateDrops<S(!new), E(!new)>(p: Problem<S, E>, q: Problem<S, E>, dsts: set<S>,
                                                           b: State<S, E>, u: S)
    requires Mirror(p, q) && Climbs(p) && Tree(q, dsts, b) && Rooted(b) && u in b.nodes && !b.nodes[u].connector
    ensures p.h(u) <= G(b.nodes[u]) + p.h(RootOf(b, u))
    decreases Rank(b, u)
  {
    assert GoodRecord(q, dsts, b, u, b.nodes[u], Rank(b, u));
    if b.nodes[u].link.Some? {
      var l := b.nodes[u].link.value;
      EstimateDrops(p, q, dsts, b, l.parent);
      assert Candidate(l.edge.value, l.edgeCost, l.parent) in p.expand(u);
    }
  }

  // The connector to the end of that way is no cheaper than the end itself, if that is closed.
  lemma ConnectorFollows<S(!new), E(!new)>(p: Problem<S, E>, srcs: set<S>, a: State<S, E>, u: S, t: S, cost: real)
    requires Climbs(p) && SteadyAt(p, srcs, a, u) && 0.0 <= cost && p.h(u) <= cost + p.h(t)
    ensures u in a.nodes && Follows(p, a, u, t, ConnectorRecord(a, u, cost))
  {
    assert u in a.closed;
    assert GoodRecord(p, srcs, a, u, a.nodes[u], Rank(a, u));
    if t in a.closed {
      LastIsLatest(a, t);
      assert GoodRecord(p, srcs, a, t, a.nodes[t], Rank(a, t));
    }
  }

  lemma ConnectSteady<S(!new), E(!new)>(p: Problem<S, E>, srcs: set<S>, a: State<S, E>, q: Problem<S, E>, dsts: set<S>,
                                        b: State<S, E>, u: S)
    requires Mirror(p, q) && Climbs(p) && SteadyAt(p, srcs, a, u) && Tree(q, dsts, b)
    requires u in a.nodes && HasMet(b, u)
    ensures var r := Register(a, RootOf(b, u), ConnectorRecord(a, u, G(b.nodes[u])));
            r.Some? && SteadyAt(p, srcs, r.value, u)
  {
    assert GoodRecord(q, dsts, b, u, b.nodes[u], Rank(b, u));
    EstimateDrops(p, q, dsts, b, u);
    ConnectorFollows(p, srcs, a, u, RootOf(b, u), G(b.nodes[u]));
    RegisterSteady(p, srcs, a, u, RootOf(b, u), ConnectorRecord(a, u, G(b.nodes[u])));
  }

  // ---- Turns and runs ----

  lemma TurnGoesOn<S(!new), E(!new)>(p: Problem<S, E>, srcs: set<S>, a: State<S, E>, q: Problem<S, E>, dsts: set<S>,
                                     b: State<S, E>, u: S)
    requires Mirror(p, q) && Climbs(p) && Joint(p, srcs, a, q, dsts, b) && Steady(a)
    requires IsFirst(a, u) && !a.nodes[u].connector
    ensures TurnAt(p, a, b, u).Some? && Steady(TurnAt(p, a, b, u).value)
  {
    CloseSteady(p, srcs, a, u);
    if HasMet(b, u) {
      ConnectSteady(p, srcs, Close(a, u), q, dsts, b, u);
    } else {
      AllOffersSteady(p, srcs, Close(a, u), u, |p.expand(u)|);
      assert p.expand(u)[..|p.expand(u)|] == p.expand(u);
    }
  }

  lemma MirrorBack<S(!new), E(!new)>(p: Problem<S, E>, q: Problem<S, E>)
    requires Mirror(p, q)
    ensures Mirror(q, p)
  {
  }

  ghost predicate BothSteady<S(!new), E(!new)>(d: Duo<S, E>) {
    Steady(d.forward) && Steady(d.reverse)
  }

  lemma DuoSteady<S(!new), E(!new)>(p: Problem<S, E>, srcs: set<S>, q: Problem<S, E>, dsts: set<S>, d: Duo<S, E>,
                                    e: Duo<S, E>)
    requires Sure(p, q) && Joint(p, srcs, d.forward, q, dsts, d.reverse) && BothSteady(d)
    requires DuoNext(p, q, d, e)
    ensures BothSteady(e)
  {
    if e.reverse == d.reverse && exists u :: ForwardTurn(p, d, u, Some(e.forward)) {
      var u :| ForwardTurn(p, d, u, Some(e.forward));
      TurnGoesOn(p, srcs, d.forward, q, dsts, d.reverse, u);
    } else {
      var u :| ReverseTurn(q, d, u, Some(e.reverse));
      MirrorBack(p, q);
      TurnGoesOn(q, dsts, d.reverse, p, srcs, d.forward, u);
    }
  }

  lemma {:induction false} RunSteady<S(!new), E(!new)>(p: Problem<S, E>, srcs: set<S>, q: Problem<S, E>, dsts: set<S>,
                                                       run: seq<Duo<S, E>>)
    requires Sure(p, q) && IsDuoRun(p, srcs, q, dsts, run)
    ensures BothSteady(run[|run| - 1])
  {
    var n := |run| - 1;
    if n > 0 {
      RunSteady(p, srcs, q, dsts, run[..n]);
      RunKeeps(p, srcs, q, dsts, run[..n]);
      assert DuoNext(p, q, run[n - 1], run[n]);
      DuoSteady(p, srcs, q, dsts, run[n - 1], run[n]);
    }
  }

  // With such estimates no turn of any run fails.
  lemma RunNeverBreaks<S(!new), E(!new)>(p: Problem<S, E>, srcs: set<S>, q: Problem<S, E>, dsts: set<S>,
                                         run: seq<Duo<S, E>>)
    requires Sure(p, q) && IsDuoRun(p, srcs, q, dsts, run)
    ensures !Breaks(p, q, run[|run| - 1])
  {
    var d := run[|run| - 1];
    RunSteady(p, srcs, q, dsts, run);
    RunKeeps(p, srcs, q, dsts, run);
    MirrorBack(p, q);
    forall u
      ensures !ForwardTurn(p, d, u, None) && !ReverseTurn(q, d, u, None)
    {
      if IsFirst(d.forward, u) && !d.forward.nodes[u].connector {
        TurnGoesOn(p, srcs, d.forward, q, dsts, d.reverse, u);
      }
      if IsFirst(d.reverse, u) && !d.reverse.nodes[u].connector {
        TurnGoesOn(q, dsts, d.reverse, p, srcs, d.forward, u);
      }
    }
  }
}
