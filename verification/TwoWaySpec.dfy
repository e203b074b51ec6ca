/**
 Two searches that run towards each other, and the connectors that join them.

 Everything here is stated for "this" search (a, over problem p) and the "other" one
 (b, over problem q); the engine uses it with the roles either way round.
 */
module TwoWaySpec {
  import opened Wrappers
  import opened SearchSpec
  import opened SearchTree
  import opened SearchOptimal
  import opened SearchPlan

  // q expands along the edges of p backwards.
  ghost predicate Mirror<S(!new), E(!new)>(p: Problem<S, E>, q: Problem<S, E>) {
    forall u, v, e, c :: Candidate(e, c, v) in p.expand(u) <==> Candidate(e, c, u) in q.expand(v)
  }

  // ---- Joining two plans that end in the same node ----

  // P, then Q walked backwards from its end to its start.
  function Joined<S, E>(P: seq<PlanStep<S, E>>, Q: seq<PlanStep<S, E>>): (r: seq<PlanStep<S, E>>)
    requires P != [] && Q != []
    ensures |r| == |P| + |Q| - 1
    decreases |Q|
  {
    var n := |Q| - 1;
    if n == 0 then P
    else Joined(P + [PlanStep(Q[n].edge, P[|P| - 1].Cumulative(), Q[n].cost, Q[n - 1].node)], Q[..n])
  }

  lemma {:induction false} JoinedIsPlan<S(!new), E(!new)>(p: Problem<S, E>, q: Problem<S, E>, P: seq<PlanStep<S, E>>,
                                                          Q: seq<PlanStep<S, E>>)
    requires Mirror(p, q) && IsPlan(p, P) && IsPlan(q, Q) && P[|P| - 1].node == Q[|Q| - 1].node
    ensures var r := Joined(P, Q);
            && IsPlan(p, r)
            && r[0] == P[0]
            && r[|r| - 1].node == Q[0].node
            && r[|r| - 1].Cumulative() == P[|P| - 1].Cumulative() + Q[|Q| - 1].Cumulative()
    decreases |Q|
  {
    var n := |Q| - 1;
    if n > 0 {
      assert Continues(q, Q[n - 1], Q[n]);
      var step := PlanStep(Q[n].edge, P[|P| - 1].Cumulative(), Q[n].cost, Q[n - 1].node);
      Extended(p, P, step);
      Shortened(q, Q);
      JoinedIsPlan(p, q, P + [step], Q[..n]);
    }
  }

  // A plan walked backwards.
  function Backwards<S, E>(Q: seq<PlanStep<S, E>>): (r: seq<PlanStep<S, E>>)
    requires Q != []
  {
    Joined([PlanStep(None, 0.0, 0.0, Q[|Q| - 1].node)], Q)
  }

  lemma BackwardsIsPlan<S(!new), E(!new)>(p: Problem<S, E>, q: Problem<S, E>, Q: seq<PlanStep<S, E>>)
    requires Mirror(p, q) && IsPlan(q, Q)
    ensures var r := Backwards(Q);
            && IsPlan(p, r)
            && r[0].node == Q[|Q| - 1].node && r[|r| - 1].node == Q[0].node
            && r[|r| - 1].Cumulative() == Q[|Q| - 1].Cumulative()
  {
    JoinedIsPlan(p, q, [PlanStep(None, 0.0, 0.0, Q[|Q| - 1].node)], Q);
  }

  // ---- Connectors ----

  // A connector of a leads through a node closed on both sides, and its edge cost is the
  // cost of the other side; it stands for a source of the other side.
  ghost predicate Connects<S, E>(a: State<S, E>, b: State<S, E>, others: set<S>, v: S) {
    v in a.nodes && a.nodes[v].connector ==>
      && v in others
      && a.nodes[v].link.Some?
      && var l := a.nodes[v].link.value;
         l.parent in b.closed && l.parent in b.nodes && l.edgeCost == G(b.nodes[l.parent])
  }

  ghost predicate Meets<S(!new), E>(a: State<S, E>, b: State<S, E>, others: set<S>) {
    forall v {:trigger Connects(a, b, others, v)} :: Connects(a, b, others, v)
  }

  // What a search never takes back: its closed nodes and what it knows about them.
  ghost predicate Extends<S(!new), E>(a: State<S, E>, b: State<S, E>) {
    forall u :: u in a.closed && u in a.nodes ==> u in b.closed && u in b.nodes && b.nodes[u] == a.nodes[u]
  }

  lemma MeetsLater<S(!new), E>(b: State<S, E>, a: State<S, E>, c: State<S, E>, others: set<S>)
    requires Meets(b, a, others) && Extends(a, c)
    ensures Meets(b, c, others)
  {
    forall v ensures Connects(b, c, others, v) {
      assert Connects(b, a, others, v);
    }
  }

  // A new or changed record keeps Meets if it is no connector, or is one that connects.
  lemma RegisterMeets<S(!new), E>(a: State<S, E>, b: State<S, E>, others: set<S>, v: S, r: Record<S, E>)
    requires Meets(a, b, others) && Register(a, v, r).Some?
    requires Connects(a.(nodes := a.nodes[v := r]), b, others, v)
    ensures Meets(Register(a, v, r).value, b, others) && Extends(a, Register(a, v, r).value)
  {
    var c := Register(a, v, r).value;
    forall w ensures Connects(c, b, others, w) {
      assert Connects(a, b, others, w);
    }
  }

  lemma {:induction false} RegisterAllMeets<S(!new), E(!new)>(p: Problem<S, E>, a: State<S, E>, b: State<S, E>,
                                                              others: set<S>, u: S, cs: seq<Candidate<S, E>>)
    requires Meets(a, b, others) && u in a.nodes && RegisterAll(p, a, u, cs).Some?
    ensures Meets(RegisterAll(p, a, u, cs).value, b, others) && Extends(a, RegisterAll(p, a, u, cs).value)
  {
    if cs != [] {
      var n := |cs| - 1;
      var m := RegisterAll(p, a, u, cs[..n]).value;
      RegisterAllMeets(p, a, b, others, u, cs[..n]);
      RegisterMeets(m, b, others, cs[n].node, EdgeRecord(p, m, u, cs[n]));
    }
  }

  // ---- The joint invariant ----

  ghost predicate Joint<S(!new), E(!new)>(p: Problem<S, E>, srcs: set<S>, a: State<S, E>, q: Problem<S, E>,
                                          dsts: set<S>, b: State<S, E>) {
    Tree(p, srcs, a) && Tree(q, dsts, b) && Meets(a, b, dsts) && Meets(b, a, srcs)
  }

  lemma InitialJoint<S(!new), E(!new)>(p: Problem<S, E>, srcs: set<S>, a: State<S, E>, q: Problem<S, E>, dsts: set<S>,
                                       b: State<S, E>)
    requires Initial(srcs, a) && Initial(dsts, b)
    ensures Joint(p, srcs, a, q, dsts, b)
  {
    InitialTree(p, srcs, a);
    InitialTree(q, dsts, b);
  }

  lemma {:induction false} RegisterAllTree<S(!new), E(!new)>(p: Problem<S, E>, srcs: set<S>, a: State<S, E>, u: S,
                                                             cs: seq<Candidate<S, E>>)
    requires Tree(p, srcs, a) && u in a.closed && RegisterAll(p, a, u, cs).Some?
    requires forall c :: c in cs ==> c in p.expand(u)
    ensures var t := RegisterAll(p, a, u, cs).value; Tree(p, srcs, t) && t.closed == a.closed
  {
    if cs != [] {
      var n := |cs| - 1;
      var m := RegisterAll(p, a, u, cs[..n]).value;
      RegisterAllTree(p, srcs, a, u, cs[..n]);
      assert GoodRecord(p, srcs, m, u, m.nodes[u], Rank(m, u));
      assert cs[n] in p.expand(u);
      RegisterTree(p, srcs, m, cs[n].node, EdgeRecord(p, m, u, cs[n]));
    }
  }

  // Expanding a node of this side that the other side has not closed.
  lemma ExpandedJoint<S(!new), E(!new)>(p: Problem<S, E>, srcs: set<S>, a: State<S, E>, q: Problem<S, E>,
                                        dsts: set<S>, b: State<S, E>, u: S)
    requires Joint(p, srcs, a, q, dsts, b)
    requires IsOpen(a, u) && !a.nodes[u].connector && Expanded(p, a, u).Some?
    ensures var c := Expanded(p, a, u).value; Joint(p, srcs, c, q, dsts, b) && c.closed == a.closed + [u]
  {
    var d := Close(a, u);
    CloseTree(p, srcs, a, u);
    RegisterAllTree(p, srcs, d, u, p.expand(u));
    CloseMeets(a, b, dsts, srcs, u);
    RegisterAllMeets(p, d, b, dsts, u, p.expand(u));
    MeetsLater(b, d, Expanded(p, a, u).value, srcs);
  }

  lemma CloseMeets<S(!new), E(!new)>(a: State<S, E>, b: State<S, E>, others: set<S>, mine: set<S>, u: S)
    requires Meets(a, b, others) && Meets(b, a, mine)
    ensures Meets(Close(a, u), b, others) && Meets(b, Close(a, u), mine)
  {
    var d := Close(a, u);
    forall w ensures Connects(d, b, others, w) {
      assert Connects(a, b, others, w);
    }
    MeetsLater(b, a, d, mine);
  }

  lemma ConnectedJoint<S(!new), E(!new)>(p: Problem<S, E>, srcs: set<S>, a: State<S, E>, q: Problem<S, E>,
                                         dsts: set<S>, b: State<S, E>, u: S, t: S)
    requires Joint(p, srcs, a, q, dsts, b)
    requires IsOpen(a, u) && !a.nodes[u].connector && u in b.closed && t in dsts
    requires u in b.nodes && Connected(a, u, t, G(b.nodes[u])).Some?
    ensures var c := Connected(a, u, t, G(b.nodes[u])).value;
            Joint(p, srcs, c, q, dsts, b) && c.closed == a.closed + [u]
  {
    var d := Close(a, u);
    CloseTree(p, srcs, a, u);
    CloseMeets(a, b, dsts, srcs, u);
    assert GoodRecord(p, srcs, d, u, d.nodes[u], Rank(d, u));
    assert GoodRecord(q, dsts, b, u, b.nodes[u], Rank(b, u));
    var r := ConnectorRecord(d, u, G(b.nodes[u]));
    RegisterTree(p, srcs, d, t, r);
    RegisterMeets(d, b, dsts, t, r);
    MeetsLater(b, d, Connected(a, u, t, G(b.nodes[u])).value, srcs);
  }

  // Neither kind of step leaves a finite universe.
  lemma ExpandedWithin<S(!new), E(!new)>(p: Problem<S, E>, srcs: set<S>, all: set<S>, a: State<S, E>, u: S)
    requires Universe(p, srcs, all) && u in a.nodes && a.nodes.Keys <= all && Expanded(p, a, u).Some?
    ensures Expanded(p, a, u).value.nodes.Keys <= all
  {
    StaysWithin(p, srcs, all, Close(a, u), u, p.expand(u));
  }

  lemma ConnectedWithin<S(!new), E(!new)>(all: set<S>, a: State<S, E>, u: S, t: S, cost: real)
    requires u in a.nodes && a.nodes.Keys <= all && t in all && Connected(a, u, t, cost).Some?
    ensures Connected(a, u, t, cost).value.nodes.Keys <= all
  {
  }

  // ---- Success ----

  // A connector leads through a node closed on both sides, and its cost is the sum of
  // the two costs of that node.
  lemma ConnectorSplits<S(!new), E(!new)>(p: Problem<S, E>, srcs: set<S>, a: State<S, E>, q: Problem<S, E>,
                                          dsts: set<S>, b: State<S, E>, v: S)
    requires Joint(p, srcs, a, q, dsts, b) && v in a.nodes && a.nodes[v].connector
    ensures a.nodes[v].link.Some?
    ensures var c := a.nodes[v].link.value.parent;
            && c in a.closed && c in a.nodes && !a.nodes[c].connector
            && c in b.closed && c in b.nodes && !b.nodes[c].connector
            && G(a.nodes[v]) == G(a.nodes[c]) + G(b.nodes[c])
  {
    assert GoodRecord(p, srcs, a, v, a.nodes[v], Rank(a, v));
    assert Connects(a, b, dsts, v);
  }

  // What a successful two-way search promises: a plan from a source to a destination.
  ghost predicate Sound<S, E>(p: Problem<S, E>, srcs: set<S>, dsts: set<S>, cost: real, plan: seq<PlanStep<S, E>>) {
    && IsPlan(p, plan) && plan[0].node in srcs && plan[|plan| - 1].node in dsts
    && plan[|plan| - 1].Cumulative() == cost
  }

  lemma JoinedIsSound<S(!new), E(!new)>(p: Problem<S, E>, srcs: set<S>, q: Problem<S, E>, dsts: set<S>, v: S, g: real,
                                        h: real, P: seq<PlanStep<S, E>>, Q: seq<PlanStep<S, E>>)
    requires Mirror(p, q) && PlanFor(p, srcs, v, g, P) && PlanFor(q, dsts, v, h, Q)
    ensures Sound(p, srcs, dsts, g + h, Joined(P, Q))
  {
    JoinedIsPlan(p, q, P, Q);
  }

  lemma BackwardsIsSound<S(!new), E(!new)>(p: Problem<S, E>, srcs: set<S>, q: Problem<S, E>, dsts: set<S>, cost: real,
                                           plan: seq<PlanStep<S, E>>)
    requires Mirror(p, q) && Sound(q, dsts, srcs, cost, plan)
    ensures Sound(p, srcs, dsts, cost, Backwards(plan))
  {
    BackwardsIsPlan(p, q, plan);
  }
}
