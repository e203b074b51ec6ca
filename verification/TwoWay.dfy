/**
 Two-way A*: two engines over opposite problems take turns, and stop when the head of one
 open list is a connector to the other.
 */
module TwoWayEngine {
  import opened Wrappers
  import opened Sequences
  import opened NodeLists
  import opened SearchSpec
  import opened SearchTree
  import opened SearchOptimal
  import opened SearchPlan
  import opened AStarEngine
  import opened TwoWaySpec
  import opened TwoWayRuns
  import opened TwoWayComplete
  import opened TwoWaySure
  import opened TwoWayBest

  // ---- Plans ----

  // Appends the steps of Q, last to first, to P.
  method JoinPlans<S, E>(P: seq<PlanStep<S, E>>, Q: seq<PlanStep<S, E>>) returns (r: seq<PlanStep<S, E>>)
    requires P != [] && Q != []
    ensures r == Joined(P, Q)
  {
    r := P;
    var cumulative := P[|P| - 1].Cumulative();
    var i := |Q| - 1;
    assert Q[..i + 1] == Q;
    while i > 0
      invariant 0 <= i < |Q| && r != [] && cumulative == r[|r| - 1].Cumulative()
      invariant Joined(r, Q[..i + 1]) == Joined(P, Q)
    {
      var step := PlanStep(Q[i].edge, cumulative, Q[i].cost, Q[i - 1].node);
      assert Q[..i + 1][..i] == Q[..i];
      r := r + [step];
      cumulative := cumulative + step.cost;
      i := i - 1;
    }
  }

  // What Joined holds at each position after P.
  lemma {:induction false} JoinedAt<S, E>(P: seq<PlanStep<S, E>>, Q: seq<PlanStep<S, E>>, k: nat)
    requires P != [] && Q != [] && k < |P| + |Q| - 1
    ensures var r, n := Joined(P, Q), |Q| - 1;
            if k < |P| then r[k] == P[k]
            else var i := n - (k - |P|); r[k] == PlanStep(Q[i].edge, r[k - 1].Cumulative(), Q[i].cost, Q[i - 1].node)
    decreases |Q|
  {
    var n := |Q| - 1;
    if n > 0 {
      var P' := P + [PlanStep(Q[n].edge, P[|P| - 1].Cumulative(), Q[n].cost, Q[n - 1].node)];
      JoinedAt(P', Q[..n], k);
      if k == |P| {
        JoinedAt(P', Q[..n], k - 1);
      }
    }
  }

  // Turns a plan around in place: reverse the vector, shift the edges by one step, and
  // recompute the costs.
  method ReversePlanSteps<S, E>(plan: seq<PlanStep<S, E>>) returns (r: seq<PlanStep<S, E>>)
    requires plan != []
    ensures r == Backwards(plan)
  {
    var n := |plan|;
    var reversed := ReverseVector(plan);
    var shifted := ShiftEdges(reversed);
    r := shifted;
    ghost var goal := Backwards(plan);
    var cumulative, i := 0.0, 0;
    while i < n
      invariant 0 <= i <= n == |r|
      invariant i == 0 ==> cumulative == 0.0
      invariant i > 0 ==> cumulative == r[i - 1].Cumulative()
      invariant forall k :: i <= k < n ==> r[k] == shifted[k]
      invariant forall k :: 0 <= k < i ==> r[k] == goal[k]
    {
      JoinedAt([PlanStep(None, 0.0, 0.0, plan[n - 1].node)], plan, i);
      if i > 0 {
        assert reversed[i].node == plan[n - 1 - i].node && reversed[i - 1] == plan[n - i];
        assert shifted[i] == reversed[i].(edge := plan[n - i].edge, cost := plan[n - i].cost);
        assert goal[i] == PlanStep(plan[n - i].edge, goal[i - 1].Cumulative(), plan[n - i].cost, plan[n - 1 - i].node);
      }
      r := r[i := r[i].(earlier := cumulative)];
      cumulative := cumulative + r[i].cost;
      i := i + 1;
    }
    assert r == goal;
  }

  method ShiftEdges<S, E>(plan: seq<PlanStep<S, E>>) returns (r: seq<PlanStep<S, E>>)
    requires plan != []
    ensures |r| == |plan| && r[0] == plan[0].(edge := None, cost := 0.0)
    ensures forall k :: 0 < k < |r| ==> r[k] == plan[k].(edge := plan[k - 1].edge, cost := plan[k - 1].cost)
  {
    r := plan;
    var i := |plan| - 1;
    while i > 0
      invariant 0 <= i < |plan| == |r|
      invariant forall k :: 0 <= k <= i ==> r[k] == plan[k]
      invariant forall k :: i < k < |r| ==> r[k] == plan[k].(edge := plan[k - 1].edge, cost := plan[k - 1].cost)
    {
      r := r[i := r[i].(edge := r[i - 1].edge, cost := r[i - 1].cost)];
      i := i - 1;
    }
    r := r[0 := r[0].(edge := None, cost := 0.0)];
  }

  // ---- One turn ----

  // What a plan costs in all.
  function TotalOf<S, E>(plan: seq<PlanStep<S, E>>): (cost: real) {
    if plan == [] then 0.0 else plan[|plan| - 1].Cumulative()
  }

  // Two searches of opposite problems, between turns.
  ghost predicate Facing<S(!new), E(!new)>(p: Problem<S, E>, srcs: set<S>, a: State<S, E>, q: Problem<S, E>,
                                           dsts: set<S>, b: State<S, E>) {
    Mirror(p, q) && Joint(p, srcs, a, q, dsts, b)
  }

  lemma FacingBack<S(!new), E(!new)>(p: Problem<S, E>, srcs: set<S>, a: State<S, E>, q: Problem<S, E>, dsts: set<S>,
                                     b: State<S, E>)
    requires Facing(p, srcs, a, q, dsts, b)
    ensures Facing(q, dsts, b, p, srcs, a) && Tree(q, dsts, b) && Tree(p, srcs, a)
  {
  }

  // The plan of one side to the node v, which it has closed.
  method TraceClosed<S(==, !new), E(!new)>(a: AStar<S, E>, v: S, ghost srcs: set<S>) returns (plan: seq<PlanStep<S, E>>)
    requires a.Valid() && Tree(a.problem, srcs, a.view) && v in a.view.closed
    ensures v in a.view.nodes && PlanFor(a.problem, srcs, v, G(a.view.nodes[v]), plan) && plan != []
  {
    var x := a.FindInClosedList(v);
    plan := a.TracePlan(x, srcs);
  }

  // Where a connector joins two searches, and what the plans to there make together.
  ghost predicate JoinsAt<S(!new), E(!new)>(p: Problem<S, E>, srcs: set<S>, a: State<S, E>, q: Problem<S, E>,
                                            dsts: set<S>, b: State<S, E>,
                                            v: S, c: S) {
    && v in a.nodes && c in a.closed && c in a.nodes && c in b.closed && c in b.nodes
    && forall P, Q :: PlanFor(p, srcs, c, G(a.nodes[c]), P) && PlanFor(q, dsts, c, G(b.nodes[c]), Q) ==>
         Sound(p, srcs, dsts, G(a.nodes[v]), Joined(P, Q))
  }

  lemma ConnectorJoins<S(!new), E(!new)>(p: Problem<S, E>, srcs: set<S>, a: State<S, E>, q: Problem<S, E>,
                                         dsts: set<S>, b: State<S, E>, v: S)
    requires Facing(p, srcs, a, q, dsts, b) && v in a.nodes && a.nodes[v].connector
    ensures Tree(p, srcs, a) && Tree(q, dsts, b)
    ensures a.nodes[v].link.Some? && JoinsAt(p, srcs, a, q, dsts, b, v, a.nodes[v].link.value.parent)
  {
    ConnectorSplits(p, srcs, a, q, dsts, b, v);
    var c := a.nodes[v].link.value.parent;
    var g, h := G(a.nodes[c]), G(b.nodes[c]);
    forall P, Q | PlanFor(p, srcs, c, g, P) && PlanFor(q, dsts, c, h, Q)
      ensures Sound(p, srcs, dsts, G(a.nodes[v]), Joined(P, Q))
    {
      JoinedIsSound(p, srcs, q, dsts, c, g, h, P, Q);
    }
  }

  // The plan through the connector x of the search a.
  method PlanThrough<S(==, !new), E(!new)>(a: AStar<S, E>, b: AStar<S, E>, x: Node<S, E>, ghost srcs: set<S>,
                                           ghost dsts: set<S>)
    returns (plan: seq<PlanStep<S, E>>)
    requires a.Valid() && b.Valid() && x in a.nodes && x.connector
    requires Facing(a.problem, srcs, a.view, b.problem, dsts, b.view)
    ensures x.state in a.view.nodes && Sound(a.problem, srcs, dsts, G(a.view.nodes[x.state]), plan)
  {
    a.Shows(x);
    ConnectorJoins(a.problem, srcs, a.view, b.problem, dsts, b.view, x.state);
    var c := x.link.value.parent.state;
    var mine := TraceClosed(a, c, srcs);
    var theirs := TraceClosed(b, c, dsts);
    plan := JoinPlans(mine, theirs);
  }

  // Looks for v on the other side: whether it is closed there, at what cost, and the
  // source its plan starts from.
  method FindMeeting<S(==, !new), E(!new)>(b: AStar<S, E>, v: S, ghost dsts: set<S>)
    returns (met: bool, t: S, cost: real)
    requires b.Valid() && Tree(b.problem, dsts, b.view)
    ensures met <==> HasMet(b.view, v)
    ensures met ==> t == RootOf(b.view, v) && cost == G(b.view.nodes[v])
  {
    TreeRooted(b.problem, dsts, b.view);
    var other := b.FindInClosedList(v);
    if other == null {
      return false, v, 0.0;
    }
    var plan := b.TracePlan(other, dsts);
    PlanStartsAtRoot(b.view, v);
    return true, plan[0].node, Cumulative(other.link);
  }

  // What holds of an engine between turns.
  ghost predicate Active<S(!new), E(!new)>(a: AStar<S, E>)
    reads a, a.open, a.nodes
  {
    a.Valid() && !a.oneWay && a.successNode == null && (a.open.heap != [] ==> a.searching)
  }

  // u is the state of the next node to handle.
  ghost predicate AtHead<S(!new), E(!new)>(a: AStar<S, E>, u: S)
    reads a.open, a`view
  {
    a.open.heap != [] && a.open.heap[0].state == u && u in a.view.nodes
  }

  // If the head of this side is a connector, the whole plan; otherwise nothing.
  method CheckSuccess<S(==, !new), E(!new)>(a: AStar<S, E>, b: AStar<S, E>, ghost u: S, ghost srcs: set<S>,
                                            ghost dsts: set<S>)
    returns (plan: seq<PlanStep<S, E>>)
    requires a.Valid() && b.Valid() && AtHead(a, u)
    requires Facing(a.problem, srcs, a.view, b.problem, dsts, b.view)
    ensures a.open.heap[0].connector == a.view.nodes[u].connector
    ensures plan != [] <==> a.open.heap[0].connector
    ensures plan != [] ==> Sound(a.problem, srcs, dsts, G(a.view.nodes[u]), plan)
  {
    var x := a.FirstOpenNode();
    if x.connector {
      plan := PlanThrough(a, b, x, srcs, dsts);
    } else {
      plan := [];
    }
  }

  lemma GrownOrAborted<S(!new), E(!new)>(p: Problem<S, E>, s: State<S, E>, u: S, o: Outcome, t: State<S, E>)
    requires u in s.nodes && !s.nodes[u].connector && Stepped(p, false, s, Some(u), o, t)
    ensures Expanded(p, s, u) == After(o.Grown?, t) && (o.Grown? || o.Aborted?)
  {
  }

  // Expands the head of this side.
  method ExpandHead<S(==, !new), E(!new)>(a: AStar<S, E>, ghost u: S) returns (ok: bool)
    requires Active(a) && AtHead(a, u) && !a.open.heap[0].connector
    modifies a, a.open, a.nodes
    ensures a.MoreNodes() && (ok ==> Active(a))
    ensures Expanded(a.problem, old(a.view), u) == After(ok, a.view)
  {
    ghost var s := a.view;
    a.Shows(a.open.heap[0]);
    var o := a.SearchOneStep();
    GrownOrAborted(a.problem, s, u, o, a.view);
    ok := o.Grown?;
  }

  // Closes the head of this side and registers a connector to t.
  method ConnectHead<S(==, !new), E(!new)>(a: AStar<S, E>, t: S, cost: real, ghost u: S) returns (ok: bool)
    requires Active(a) && AtHead(a, u)
    modifies a, a.open, a.nodes
    ensures a.MoreNodes() && (ok ==> Active(a))
    ensures Connected(old(a.view), u, t, cost) == After(ok, a.view)
  {
    ok := a.ConnectFirst(t, cost);
    assert a.searching;
  }

  // If the head of this side is closed on the other side, closes it here too and joins the
  // sides with a connector; otherwise expands it.  False is a failed ASSERT.
  method ConnectOrExpand<S(==, !new), E(!new)>(a: AStar<S, E>, b: AStar<S, E>, ghost u: S, ghost dsts: set<S>)
    returns (ok: bool)
    requires Active(a) && AtHead(a, u) && !a.open.heap[0].connector
    requires b.Valid() && Tree(b.problem, dsts, b.view)
    modifies a, a.open, a.nodes
    ensures a.MoreNodes() && (ok ==> Active(a))
    ensures TurnAt(a.problem, old(a.view), old(b.view), u) == After(ok, a.view)
  {
    var met, t, cost := FindMeeting(b, a.open.heap[0].state, dsts);
    if met {
      ok := ConnectHead(a, t, cost, u);
    } else {
      ok := ExpandHead(a, u);
    }
  }

  // How a turn ended: with a plan, with one more node closed, or with a failed ASSERT.
  datatype Turn<+S, +E> = Success(plan: seq<PlanStep<S, E>>) | Continue | Stop

  // What a turn of the search a at the node u does; c is what a becomes.
  ghost predicate Taken<S(!new), E(!new)>(p: Problem<S, E>, a: State<S, E>, b: State<S, E>, u: S, o: Turn<S, E>,
                                          c: State<S, E>) {
    && u in a.nodes && (o.Success? <==> a.nodes[u].connector)
    && (!o.Success? ==> TurnAt(p, a, b, u) == if o.Continue? then Some(c) else None)
  }

  // A plan that is reported has the cost of the connector v of the search a.
  ghost predicate Reports<S, E>(p: Problem<S, E>, srcs: set<S>, dsts: set<S>, a: State<S, E>, v: S, o: Turn<S, E>) {
    o.Success? ==> v in a.nodes && Sound(p, srcs, dsts, G(a.nodes[v]), o.plan)
  }

  ghost predicate Apart<S(!new), E(!new)>(a: AStar<S, E>, b: AStar<S, E>)
    reads a, b
  {
    a != b && a.open != b.open && a.nodes !! b.nodes
  }

  // Two engines between turns.
  ghost predicate Pair<S(!new), E(!new)>(a: AStar<S, E>, b: AStar<S, E>)
    reads a, a.open, a.nodes, b, b.open, b.nodes
  {
    Apart(a, b) && Active(a) && Active(b)
  }

  lemma PairBack<S(!new), E(!new)>(a: AStar<S, E>, b: AStar<S, E>)
    requires Pair(a, b)
    ensures Pair(b, a)
  {
  }

  // The same, with the other engine out of reach.
  method MoveOn<S(==, !new), E(!new)>(a: AStar<S, E>, b: AStar<S, E>, ghost u: S, ghost dsts: set<S>) returns (ok: bool)
    requires Pair(a, b) && AtHead(a, u) && !a.open.heap[0].connector && Tree(b.problem, dsts, b.view)
    modifies a, a.open, a.nodes
    ensures a.MoreNodes() && (ok ==> Pair(a, b))
    ensures TurnAt(a.problem, old(a.view), old(b.view), u) == After(ok, a.view)
  {
    ok := ConnectOrExpand(a, b, u, dsts);
    assert Active(b) && Apart(a, b);
  }

  // One turn of the engine a.
  method TakeTurn<S(==, !new), E(!new)>(a: AStar<S, E>, b: AStar<S, E>, ghost u: S, ghost srcs: set<S>,
                                        ghost dsts: set<S>)
    returns (o: Turn<S, E>)
    requires Pair(a, b) && AtHead(a, u)
    requires Facing(a.problem, srcs, a.view, b.problem, dsts, b.view)
    modifies a, a.open, a.nodes
    ensures a.MoreNodes() && (o.Continue? ==> Pair(a, b))
    ensures Taken(a.problem, old(a.view), old(b.view), u, o, a.view)
    ensures Reports(a.problem, srcs, dsts, old(a.view), u, o)
  {
    FacingBack(a.problem, srcs, a.view, b.problem, dsts, b.view);
    var plan := CheckSuccess(a, b, u, srcs, dsts);
    if plan != [] {
      return Success(plan);
    }
    var ok := MoveOn(a, b, u, dsts);
    o := if ok then Continue else Stop;
  }

  // ---- Taking turns ----

  // Who moves: the side with the lower head, the forward one if they are equal.
  lemma LowerMoves<S(!new), E(!new)>(a: State<S, E>, b: State<S, E>, u: S)
    requires IsFirst(a, u)
    ensures NothingOpen(b) ==> Moves(a, b, u, true) && Moves(a, b, u, false)
    ensures forall w :: IsFirst(b, w) && a.nodes[u].f <= b.nodes[w].f ==> Moves(a, b, u, true)
    ensures forall w :: IsFirst(b, w) && a.nodes[u].f < b.nodes[w].f ==> Moves(a, b, u, false)
  {
  }

  method ForwardMoves<S(==, !new), E(!new)>(f: AStar<S, E>, r: AStar<S, E>) returns (forward: bool, backward: bool)
    requires f.Valid() && r.Valid()
    ensures forward ==>
              f.open.heap != [] && AtHead(f, f.open.heap[0].state) && Moves(f.view, r.view, f.open.heap[0].state, true)
    ensures backward ==>
              r.open.heap != [] && AtHead(r, r.open.heap[0].state) && Moves(r.view, f.view, r.open.heap[0].state, false)
    ensures !(forward && backward)
    ensures !forward && !backward ==> NothingLeft(Duo(f.view, r.view))
  {
    var x := f.FirstOpenNode();
    var y := r.FirstOpenNode();
    forward := x != null && (y == null || x.f <= y.f);
    backward := y != null && !forward;
    if forward {
      LowerMoves(f.view, r.view, x.state);
    } else if backward {
      LowerMoves(r.view, f.view, y.state);
    }
  }

  // A turn of the reverse engine; a plan it finds is turned around.
  method TakeReverseTurn<S(==, !new), E(!new)>(f: AStar<S, E>, r: AStar<S, E>, ghost u: S, ghost srcs: set<S>,
                                               ghost dsts: set<S>)
    returns (o: Turn<S, E>)
    requires Pair(f, r) && AtHead(r, u)
    requires Facing(f.problem, srcs, f.view, r.problem, dsts, r.view)
    modifies r, r.open, r.nodes
    ensures r.MoreNodes() && (o.Continue? ==> Pair(f, r))
    ensures Taken(r.problem, old(r.view), old(f.view), u, o, r.view)
    ensures Reports(f.problem, srcs, dsts, old(r.view), u, o)
  {
    ghost var s := r.view;
    FacingBack(f.problem, srcs, f.view, r.problem, dsts, r.view);
    PairBack(f, r);
    o := TakeTurn(r, f, u, dsts, srcs);
    if o.Continue? {
      PairBack(r, f);
    } else if o.Success? {
      BackwardsIsSound(f.problem, srcs, r.problem, dsts, G(s.nodes[u]), o.plan);
      var plan := ReversePlanSteps(o.plan);
      o := Success(plan);
    }
  }

  // What either side's turn does to the pair; None when both open lists are empty.
  ghost predicate Turned<S(!new), E(!new)>(p: Problem<S, E>, srcs: set<S>, q: Problem<S, E>, dsts: set<S>,
                                           d: Duo<S, E>, o: Option<Turn<S, E>>, e: Duo<S, E>) {
    match o
    case None => NothingLeft(d)
    case Some(Success(plan)) => Sound(p, srcs, dsts, TotalOf(plan), plan) && EndsAt(d, TotalOf(plan))
    case Some(Continue) => DuoNext(p, q, d, e)
    case Some(Stop) => Breaks(p, q, d)
  }

  lemma ForwardTurned<S(!new), E(!new)>(p: Problem<S, E>, srcs: set<S>, q: Problem<S, E>, dsts: set<S>, d: Duo<S, E>,
                                        u: S,
                                        o: Turn<S, E>, c: State<S, E>)
    requires Moves(d.forward, d.reverse, u, true) && Taken(p, d.forward, d.reverse, u, o, c)
    requires Reports(p, srcs, dsts, d.forward, u, o)
    ensures Turned(p, srcs, q, dsts, d, Some(o), Duo(c, d.reverse))
  {
    if !o.Success? {
      assert ForwardTurn(p, d, u, if o.Continue? then Some(c) else None);
    }
  }

  lemma ReverseTurned<S(!new), E(!new)>(p: Problem<S, E>, srcs: set<S>, q: Problem<S, E>, dsts: set<S>, d: Duo<S, E>,
                                        u: S,
                                        o: Turn<S, E>, c: State<S, E>)
    requires Moves(d.reverse, d.forward, u, false) && Taken(q, d.reverse, d.forward, u, o, c)
    requires Reports(p, srcs, dsts, d.reverse, u, o)
    ensures Turned(p, srcs, q, dsts, d, Some(o), Duo(d.forward, c))
  {
    if !o.Success? {
      assert ReverseTurn(q, d, u, if o.Continue? then Some(c) else None);
    }
  }

  // A turn of the forward engine, which is to move.
  method TurnForward<S(==, !new), E(!new)>(f: AStar<S, E>, r: AStar<S, E>, ghost u: S, ghost srcs: set<S>,
                                           ghost dsts: set<S>)
    returns (o: Turn<S, E>)
    requires Pair(f, r) && AtHead(f, u) && Moves(f.view, r.view, u, true)
    requires Facing(f.problem, srcs, f.view, r.problem, dsts, r.view)
    modifies f, f.open, f.nodes
    ensures f.MoreNodes() && r.MoreNodes() && (o.Continue? ==> Pair(f, r))
    ensures Turned(f.problem, srcs, r.problem, dsts, old(Duo(f.view, r.view)), Some(o), Duo(f.view, r.view))
  {
    ghost var d := Duo(f.view, r.view);
    o := TakeTurn(f, r, u, srcs, dsts);
    ForwardTurned(f.problem, srcs, r.problem, dsts, d, u, o, f.view);
  }

  // A turn of the reverse engine, which is to move.
  method TurnBackward<S(==, !new), E(!new)>(f: AStar<S, E>, r: AStar<S, E>, ghost u: S, ghost srcs: set<S>,
                                            ghost dsts: set<S>)
    returns (o: Turn<S, E>)
    requires Pair(f, r) && AtHead(r, u) && Moves(r.view, f.view, u, false)
    requires Facing(f.problem, srcs, f.view, r.problem, dsts, r.view)
    modifies r, r.open, r.nodes
    ensures f.MoreNodes() && r.MoreNodes() && (o.Continue? ==> Pair(f, r))
    ensures Turned(f.problem, srcs, r.problem, dsts, old(Duo(f.view, r.view)), Some(o), Duo(f.view, r.view))
  {
    ghost var d := Duo(f.view, r.view);
    o := TakeReverseTurn(f, r, u, srcs, dsts);
    ReverseTurned(f.problem, srcs, r.problem, dsts, d, u, o, r.view);
  }

  // Either engine's turn, decided by their heads.
  method NextTurn<S(==, !new), E(!new)>(f: AStar<S, E>, r: AStar<S, E>, ghost srcs: set<S>, ghost dsts: set<S>)
    returns (o: Option<Turn<S, E>>)
    requires Pair(f, r)
    requires Facing(f.problem, srcs, f.view, r.problem, dsts, r.view)
    modifies f, f.open, f.nodes, r, r.open, r.nodes
    ensures f.MoreNodes() && r.MoreNodes() && (o == Some(Continue) ==> Pair(f, r))
    ensures Turned(f.problem, srcs, r.problem, dsts, old(Duo(f.view, r.view)), o, Duo(f.view, r.view))
  {
    var forward, backward := ForwardMoves(f, r);
    if forward {
      var t := TurnForward(f, r, f.open.heap[0].state, srcs, dsts);
      o := Some(t);
    } else if backward {
      var t := TurnBackward(f, r, r.open.heap[0].state, srcs, dsts);
      o := Some(t);
    } else {
      o := None;
    }
  }

  // ---- The whole search ----

  datatype TwoWayResult<+S, +E> = Found(cost: real, plan: seq<PlanStep<S, E>>) | NotFound | Stopped

  // Two opposite problems over a finite set of states.
  ghost predicate Opposite<S(!new), E(!new)>(p: Problem<S, E>, srcs: set<S>, q: Problem<S, E>, dsts: set<S>,
                                             all: set<S>) {
    Mirror(p, q) && Universe(p, srcs, all) && Universe(q, dsts, all)
  }

  function Closings<S, E>(d: Duo<S, E>): (n: nat) {
    |d.forward.closed| + |d.reverse.closed|
  }

  ghost predicate Within<S, E>(d: Duo<S, E>, all: set<S>) {
    d.forward.nodes.Keys <= all && d.reverse.nodes.Keys <= all
  }

  // What is known of a run that has come to d.
  ghost predicate Underway<S(!new), E(!new)>(p: Problem<S, E>, srcs: set<S>, q: Problem<S, E>, dsts: set<S>,
                                             all: set<S>,
                                             run: seq<Duo<S, E>>, d: Duo<S, E>) {
    && IsDuoRun(p, srcs, q, dsts, run) && run[|run| - 1] == d
    && Facing(p, srcs, d.forward, q, dsts, d.reverse) && Within(d, all)
  }

  lemma TurnWithin<S(!new), E(!new)>(p: Problem<S, E>, srcs: set<S>, a: State<S, E>, q: Problem<S, E>, dsts: set<S>,
                                     b: State<S, E>,
                                     all: set<S>, u: S)
    requires Joint(p, srcs, a, q, dsts, b) && IsOpen(a, u) && !a.nodes[u].connector
             && TurnAt(p, a, b, u).Some?
    requires Universe(p, srcs, all) && dsts <= all && a.nodes.Keys <= all
    ensures var c := TurnAt(p, a, b, u).value; c.nodes.Keys <= all && |c.closed| == |a.closed| + 1
  {
    if HasMet(b, u) {
      RootIsSource(q, dsts, b, u);
      ConnectedJoint(p, srcs, a, q, dsts, b, u, RootOf(b, u));
      ConnectedWithin(all, a, u, RootOf(b, u), G(b.nodes[u]));
    } else {
      ExpandedJoint(p, srcs, a, q, dsts, b, u);
      ExpandedWithin(p, srcs, all, a, u);
    }
  }

  lemma NextWithin<S(!new), E(!new)>(p: Problem<S, E>, srcs: set<S>, q: Problem<S, E>, dsts: set<S>, all: set<S>,
                                     d: Duo<S, E>, e: Duo<S, E>)
    requires Opposite(p, srcs, q, dsts, all) && Joint(p, srcs, d.forward, q, dsts, d.reverse) && Within(d, all)
             && DuoNext(p, q, d, e)
    ensures Within(e, all) && Closings(e) == Closings(d) + 1
  {
    if e.reverse == d.reverse && exists u :: ForwardTurn(p, d, u, Some(e.forward)) {
      var u :| ForwardTurn(p, d, u, Some(e.forward));
      TurnWithin(p, srcs, d.forward, q, dsts, d.reverse, all, u);
    } else {
      var u :| ReverseTurn(q, d, u, Some(e.reverse));
      TurnWithin(q, dsts, d.reverse, p, srcs, d.forward, all, u);
    }
  }

  lemma StaysUnderway<S(!new), E(!new)>(p: Problem<S, E>, srcs: set<S>, q: Problem<S, E>, dsts: set<S>, all: set<S>,
                                        run: seq<Duo<S, E>>, d: Duo<S, E>, e: Duo<S, E>)
    requires Opposite(p, srcs, q, dsts, all) && Underway(p, srcs, q, dsts, all, run, d) && DuoNext(p, q, d, e)
    ensures Underway(p, srcs, q, dsts, all, run + [e], e) && Closings(e) == Closings(d) + 1
  {
    NextWithin(p, srcs, q, dsts, all, d, e);
    RunKeeps(p, srcs, q, dsts, run + [e]);
  }

  // Every state is closed at most once on each side.
  lemma ClosedAtMostAll<S(!new), E(!new)>(p: Problem<S, E>, srcs: set<S>, q: Problem<S, E>, dsts: set<S>, all: set<S>,
                                          run: seq<Duo<S, E>>, d: Duo<S, E>)
    requires Underway(p, srcs, q, dsts, all, run, d)
    ensures Closings(d) <= 2 * |all|
  {
    AtMostAll(d.forward.closed, all);
    AtMostAll(d.reverse.closed, all);
  }

  // How a search from both ends comes out, and at which states of its run it stops.
  ghost predicate Concludes<S(!new), E(!new)>(p: Problem<S, E>, srcs: set<S>, q: Problem<S, E>, dsts: set<S>,
                                              run: seq<Duo<S, E>>, o: TwoWayResult<S, E>) {
    && IsDuoRun(p, srcs, q, dsts, run)
    && var d := run[|run| - 1];
       match o
       case Found(cost, plan) => Sound(p, srcs, dsts, cost, plan) && EndsAt(d, cost)
       case NotFound => NothingLeft(d)
         && (Reachable(p, srcs, dsts) <==> Touches(d.forward, dsts) || Touches(d.reverse, srcs))
       case Stopped => Breaks(p, q, d)
  }

  lemma TurnConcludes<S(!new), E(!new)>(p: Problem<S, E>, srcs: set<S>, q: Problem<S, E>, dsts: set<S>, all: set<S>,
                                        run: seq<Duo<S, E>>, d: Duo<S, E>, o: Option<Turn<S, E>>, e: Duo<S, E>)
    requires Opposite(p, srcs, q, dsts, all) && Underway(p, srcs, q, dsts, all, run, d)
             && Turned(p, srcs, q, dsts, d, o, e)
    ensures o == Some(Continue) || Concludes(p, srcs, q, dsts, run, Reported(o))
  {
    if o.None? {
      NotFoundIsRightIffUntouched(p, srcs, q, dsts, run);
    }
  }

  // What the input alone says of the result: consistent estimates never make it fail; a plan is
  // found exactly if there is a route, where no two routes can be confused; and it is a cheapest
  // one there or between two single ends, if the estimates are zero at the ends.
  ghost predicate Decides<S(!new), E(!new)>(p: Problem<S, E>, srcs: set<S>, q: Problem<S, E>, dsts: set<S>,
                                            o: TwoWayResult<S, E>) {
    && (Sure(p, q) ==> !o.Stopped?)
    && (Decided(p, srcs, dsts) && !o.Stopped? ==> (o.Found? <==> Reachable(p, srcs, dsts)))
    && (Suits(p, srcs, q, dsts) && (Decided(p, srcs, dsts) || OneEach(srcs, dsts)) && o.Found? ==>
          IsCheapest(p, srcs, dsts, o.cost))
  }

  lemma ConcludesRightly<S(!new), E(!new)>(p: Problem<S, E>, srcs: set<S>, q: Problem<S, E>, dsts: set<S>,
                                           run: seq<Duo<S, E>>, o: TwoWayResult<S, E>)
    requires Mirror(p, q) && Concludes(p, srcs, q, dsts, run, o)
    ensures Decides(p, srcs, q, dsts, o)
  {
    if o.Found? {
      PlanIsPath(p, o.plan);
      assert PathTo(p, srcs, o.plan[0].node, Steps(o.plan), o.plan[|o.plan| - 1].node);
      if Suits(p, srcs, q, dsts) && (Decided(p, srcs, dsts) || OneEach(srcs, dsts)) {
        FoundIsCheapest(p, srcs, q, dsts, run, o.cost);
      }
    } else if o.NotFound? && Decided(p, srcs, dsts) {
      NotFoundIsRight(p, srcs, q, dsts, run);
    } else if Sure(p, q) {
      RunNeverBreaks(p, srcs, q, dsts, run);
    }
  }

  function Reported<S, E>(o: Option<Turn<S, E>>): (r: TwoWayResult<S, E>) {
    match o
    case None => NotFound
    case Some(Success(plan)) => Found(TotalOf(plan), plan)
    case Some(_) => Stopped
  }

  // A plan that is found is a real path of the cost reported, whatever the two estimates are.
  method SearchTwoWay<S(==, !new), E(!new)>(f: AStar<S, E>, r: AStar<S, E>, ghost srcs: set<S>, ghost dsts: set<S>,
                                            ghost all: set<S>)
    returns (o: TwoWayResult<S, E>, ghost run: seq<Duo<S, E>>)
    requires Pair(f, r) && Opposite(f.problem, srcs, r.problem, dsts, all)
    requires Initial(srcs, f.view) && Initial(dsts, r.view)
    modifies f, f.open, f.nodes, r, r.open, r.nodes
    ensures Concludes(f.problem, srcs, r.problem, dsts, run, o)
    ensures o.Found? ==> Sound(f.problem, srcs, dsts, o.cost, o.plan)
    ensures Decides(f.problem, srcs, r.problem, dsts, o)
    ensures Sure(f.problem, r.problem) && Decided(f.problem, srcs, dsts) ==>
              (o.Found? <==> Reachable(f.problem, srcs, dsts))
  {
    InitialJoint(f.problem, srcs, f.view, r.problem, dsts, r.view);
    ghost var d := Duo(f.view, r.view);
    run := [d];
    while true
      invariant Pair(f, r) && f.MoreNodes() && r.MoreNodes() && d == Duo(f.view, r.view)
      invariant Underway(f.problem, srcs, r.problem, dsts, all, run, d)
      decreases 2 * |all| - Closings(d)
    {
      var t := NextTurn(f, r, srcs, dsts);
      ghost var e := Duo(f.view, r.view);
      TurnConcludes(f.problem, srcs, r.problem, dsts, all, run, d, t, e);
      if t != Some(Continue) {
        ConcludesRightly(f.problem, srcs, r.problem, dsts, run, Reported(t));
        return Reported(t), run;
      }
      StaysUnderway(f.problem, srcs, r.problem, dsts, all, run, d, e);
      run, d := run + [e], e;
      ClosedAtMostAll(f.problem, srcs, r.problem, dsts, all, run, d);
    }
  }

  // Using both engines, with new sources and destinations.
  method FindTwoWay<S(==, !new), E(!new)>(p: Problem<S, E>, q: Problem<S, E>, sources: seq<S>, dests: seq<S>,
                                          ghost all: set<S>)
    returns (o: TwoWayResult<S, E>, ghost run: seq<Duo<S, E>>)
    requires Distinct(sources) && Distinct(dests) && Opposite(p, Elements(sources), q, Elements(dests), all)
    ensures Concludes(p, Elements(sources), q, Elements(dests), run, o)
    ensures o.Found? ==> Sound(p, Elements(sources), Elements(dests), o.cost, o.plan)
    ensures Decides(p, Elements(sources), q, Elements(dests), o)
    ensures Sure(p, q) && Decided(p, Elements(sources), Elements(dests)) ==>
              (o.Found? <==> Reachable(p, Elements(sources), Elements(dests)))
  {
    var f := Prepare(p, false, sources);
    var r := Prepare(q, false, dests);
    o, run := SearchTwoWay(f, r, Elements(sources), Elements(dests), all);
  }
}
