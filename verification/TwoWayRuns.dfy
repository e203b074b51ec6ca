/**
 Runs of the search from both ends, turn by turn, and what it means that nothing was found.
 */
module TwoWayRuns {
  import opened Wrappers
  import opened SearchSpec
  import opened SearchTree
  import opened SearchOptimal
  import opened SearchPlan
  import opened TwoWaySpec

  // ---- One turn ----

  // Where the plan to v starts.
  function RootOf<S(!new), E>(s: State<S, E>, v: S): (t: S)
    requires Rooted(s) && v in s.nodes
    decreases Rank(s, v)
  {
    if s.nodes[v].link.None? then v else RootOf(s, s.nodes[v].link.value.parent)
  }

  lemma {:induction false} PlanStartsAtRoot<S(!new), E>(s: State<S, E>, v: S)
    requires Rooted(s) && v in s.nodes
    ensures PlanTo(s, v)[0].node == RootOf(s, v)
    decreases Rank(s, v)
  {
    if s.nodes[v].link.Some? {
      PlanStartsAtRoot(s, s.nodes[v].link.value.parent);
    }
  }

  // The search b has closed u, so its plan and cost for u are known.
  ghost predicate HasMet<S(!new), E>(b: State<S, E>, u: S) {
    Rooted(b) && u in b.nodes && u in b.closed
  }

  // A turn of the search a at the node u: a connector if b has closed u, else an expansion.
  ghost function TurnAt<S(!new), E(!new)>(p: Problem<S, E>, a: State<S, E>, b: State<S, E>,
                                          u: S): (r: Option<State<S, E>>)
    requires u in a.nodes
  {
    if HasMet(b, u) then Connected(a, u, RootOf(b, u), G(b.nodes[u])) else Expanded(p, a, u)
  }

  // The search a is to move, at u: no node open in b comes before u, or a tie goes to a.
  ghost predicate Moves<S(!new), E>(a: State<S, E>, b: State<S, E>, u: S, ties: bool) {
    IsFirst(a, u) && forall v :: IsOpen(b, v) ==> a.nodes[u].f < b.nodes[v].f || (ties && a.nodes[u].f == b.nodes[v].f)
  }

  datatype Duo<S, +E> = Duo(forward: State<S, E>, reverse: State<S, E>)

  ghost predicate ForwardTurn<S(!new), E(!new)>(p: Problem<S, E>, d: Duo<S, E>, u: S, r: Option<State<S, E>>) {
    Moves(d.forward, d.reverse, u, true) && !d.forward.nodes[u].connector && TurnAt(p, d.forward, d.reverse, u) == r
  }

  ghost predicate ReverseTurn<S(!new), E(!new)>(q: Problem<S, E>, d: Duo<S, E>, u: S, r: Option<State<S, E>>) {
    Moves(d.reverse, d.forward, u, false) && !d.reverse.nodes[u].connector && TurnAt(q, d.reverse, d.forward, u) == r
  }

  ghost predicate DuoNext<S(!new), E(!new)>(p: Problem<S, E>, q: Problem<S, E>, d: Duo<S, E>, e: Duo<S, E>) {
    || (e.reverse == d.reverse && exists u :: ForwardTurn(p, d, u, Some(e.forward)))
    || (e.forward == d.forward && exists u :: ReverseTurn(q, d, u, Some(e.reverse)))
  }

  ghost predicate IsDuoRun<S(!new), E(!new)>(p: Problem<S, E>, srcs: set<S>, q: Problem<S, E>, dsts: set<S>,
                                             run: seq<Duo<S, E>>) {
    && run != [] && Initial(srcs, run[0].forward) && Initial(dsts, run[0].reverse)
    && forall i :: 0 < i < |run| ==> DuoNext(p, q, run[i - 1], run[i])
  }

  // How a run can end: with a connector at the head that moves, with nothing open, or with a
  // turn that fails.
  ghost predicate EndsAt<S(!new), E(!new)>(d: Duo<S, E>, cost: real) {
    || (exists u ::
              Moves(d.forward, d.reverse, u, true) && d.forward.nodes[u].connector && G(d.forward.nodes[u]) == cost)
    || (exists u ::
              Moves(d.reverse, d.forward, u, false) && d.reverse.nodes[u].connector && G(d.reverse.nodes[u]) == cost)
  }

  ghost predicate NothingLeft<S(!new), E>(d: Duo<S, E>) {
    NothingOpen(d.forward) && NothingOpen(d.reverse)
  }

  ghost predicate Breaks<S(!new), E(!new)>(p: Problem<S, E>, q: Problem<S, E>, d: Duo<S, E>) {
    (exists u :: ForwardTurn(p, d, u, None)) || (exists u :: ReverseTurn(q, d, u, None))
  }

  // ---- What every turn keeps ----

  // Everything u expands to is stored.
  ghost predicate Spread<S(!new), E(!new)>(p: Problem<S, E>, a: State<S, E>, u: S) {
    forall c :: c in p.expand(u) ==> c.node in a.nodes
  }

  // Closed nodes were expanded unless the other side had closed them.
  ghost predicate SpreadUnlessMet<S(!new), E(!new)>(p: Problem<S, E>, a: State<S, E>, b: State<S, E>) {
    forall u :: u in a.closed ==> u in b.closed || Spread(p, a, u)
  }

  // One side has stored an end of the other.
  ghost predicate Touches<S(!new), E>(a: State<S, E>, dsts: set<S>) {
    exists t :: t in dsts && t in a.nodes
  }

  ghost predicate MetIsTouched<S(!new), E>(a: State<S, E>, srcs: set<S>, b: State<S, E>, dsts: set<S>) {
    forall u :: u in a.closed && u in b.closed ==> Touches(a, dsts) || Touches(b, srcs)
  }

  ghost predicate Kept<S(!new), E(!new)>(p: Problem<S, E>, srcs: set<S>, a: State<S, E>, q: Problem<S, E>,
                                         dsts: set<S>, b: State<S, E>) {
    && Joint(p, srcs, a, q, dsts, b)
    && SpreadUnlessMet(p, a, b) && SpreadUnlessMet(q, b, a) && MetIsTouched(a, srcs, b, dsts)
  }

  lemma {:induction false} AllStored<S(!new), E(!new)>(p: Problem<S, E>, a: State<S, E>, u: S, cs: seq<Candidate<S, E>>)
    requires u in a.nodes && RegisterAll(p, a, u, cs).Some?
    ensures forall c :: c in cs ==> c.node in RegisterAll(p, a, u, cs).value.nodes
  {
    if cs != [] {
      AllStored(p, a, u, cs[..|cs| - 1]);
    }
  }

  lemma {:induction false} RootIsSource<S(!new), E(!new)>(q: Problem<S, E>, dsts: set<S>, b: State<S, E>, u: S)
    requires Tree(q, dsts, b) && Rooted(b) && u in b.nodes
    ensures RootOf(b, u) in dsts
    decreases Rank(b, u)
  {
    assert GoodRecord(q, dsts, b, u, b.nodes[u], Rank(b, u));
    if b.nodes[u].link.Some? {
      RootIsSource(q, dsts, b, b.nodes[u].link.value.parent);
    }
  }

  // More nodes on one side, one of them closed: what is known of the closed nodes stays.
  ghost predicate Grows<S(!new), E>(a: State<S, E>, c: State<S, E>, u: S) {
    c.closed == a.closed + [u] && a.nodes.Keys <= c.nodes.Keys
  }

  lemma GrownKeeps<S(!new), E(!new)>(p: Problem<S, E>, srcs: set<S>, a: State<S, E>, q: Problem<S, E>, dsts: set<S>,
                                     b: State<S, E>, u: S, c: State<S, E>)
    requires Kept(p, srcs, a, q, dsts, b) && Grows(a, c, u) && Joint(p, srcs, c, q, dsts, b)
    requires u in b.closed ==> Touches(c, dsts)
    requires u in b.closed || Spread(p, c, u)
    ensures Kept(p, srcs, c, q, dsts, b)
  {
    forall v | v in c.closed
      ensures v in b.closed || Spread(p, c, v)
    {
      assert v == u || v in a.closed;
    }
    forall v | v in c.closed && v in b.closed
      ensures Touches(c, dsts) || Touches(b, srcs)
    {
      assert v == u || v in a.closed;
    }
  }

  lemma TurnKeeps<S(!new), E(!new)>(p: Problem<S, E>, srcs: set<S>, a: State<S, E>, q: Problem<S, E>, dsts: set<S>,
                                    b: State<S, E>, u: S)
    requires Kept(p, srcs, a, q, dsts, b) && IsOpen(a, u) && !a.nodes[u].connector
    requires TurnAt(p, a, b, u).Some?
    ensures Kept(p, srcs, TurnAt(p, a, b, u).value, q, dsts, b)
  {
    var c := TurnAt(p, a, b, u).value;
    TreeRooted(q, dsts, b);
    if u in b.closed {
      var t := RootOf(b, u);
      RootIsSource(q, dsts, b, u);
      ConnectedJoint(p, srcs, a, q, dsts, b, u, t);
      assert t in dsts && t in c.nodes;
    } else {
      ExpandedJoint(p, srcs, a, q, dsts, b, u);
      AllStored(p, Close(a, u), u, p.expand(u));
    }
    GrownKeeps(p, srcs, a, q, dsts, b, u, c);
  }

  lemma KeptEitherWay<S(!new), E(!new)>(p: Problem<S, E>, srcs: set<S>, a: State<S, E>, q: Problem<S, E>,
                                        dsts: set<S>, b: State<S, E>)
    requires Kept(p, srcs, a, q, dsts, b)
    ensures Kept(q, dsts, b, p, srcs, a)
  {
  }

  lemma DuoKeeps<S(!new), E(!new)>(p: Problem<S, E>, srcs: set<S>, q: Problem<S, E>, dsts: set<S>, d: Duo<S, E>,
                                   e: Duo<S, E>)
    requires Kept(p, srcs, d.forward, q, dsts, d.reverse) && DuoNext(p, q, d, e)
    ensures Kept(p, srcs, e.forward, q, dsts, e.reverse)
  {
    if e.reverse == d.reverse && exists u :: ForwardTurn(p, d, u, Some(e.forward)) {
      var u :| ForwardTurn(p, d, u, Some(e.forward));
      TurnKeeps(p, srcs, d.forward, q, dsts, d.reverse, u);
    } else {
      var u :| ReverseTurn(q, d, u, Some(e.reverse));
      KeptEitherWay(p, srcs, d.forward, q, dsts, d.reverse);
      TurnKeeps(q, dsts, d.reverse, p, srcs, d.forward, u);
      KeptEitherWay(q, dsts, e.reverse, p, srcs, e.forward);
    }
  }

  lemma {:induction false} RunKeeps<S(!new), E(!new)>(p: Problem<S, E>, srcs: set<S>, q: Problem<S, E>, dsts: set<S>,
                                                      run: seq<Duo<S, E>>)
    requires IsDuoRun(p, srcs, q, dsts, run)
    ensures Kept(p, srcs, run[|run| - 1].forward, q, dsts, run[|run| - 1].reverse)
  {
    var n := |run| - 1;
    if n == 0 {
      InitialJoint(p, srcs, run[0].forward, q, dsts, run[0].reverse);
    } else {
      RunKeeps(p, srcs, q, dsts, run[..n]);
      assert DuoNext(p, q, run[n - 1], run[n]);
      DuoKeeps(p, srcs, q, dsts, run[n - 1], run[n]);
    }
  }

  // ---- What it means that nothing was found ----

  ghost predicate Reachable<S(!new), E(!new)>(p: Problem<S, E>, srcs: set<S>, dsts: set<S>) {
    exists src, steps, t :: PathTo(p, srcs, src, steps, t) && t in dsts
  }

  lemma {:induction false} AllReachedStored<S(!new), E(!new)>(p: Problem<S, E>, srcs: set<S>, a: State<S, E>, src: S,
                                                              steps: seq<Candidate<S, E>>)
    requires srcs <= a.nodes.Keys && NothingOpen(a) && (forall u :: u in a.closed ==> Spread(p, a, u))
    requires src in srcs && IsPath(p, src, steps)
    ensures End(src, steps) in a.nodes
  {
    if steps != [] {
      var n := |steps| - 1;
      AllReachedStored(p, srcs, a, src, steps[..n]);
      assert !IsOpen(a, End(src, steps[..n]));
    }
  }

  // If neither side stored an end of the other, no path leads from a source to a destination.
  lemma UntouchedMeansUnreachable<S(!new), E(!new)>(p: Problem<S, E>, srcs: set<S>, q: Problem<S, E>, dsts: set<S>,
                                                    d: Duo<S, E>)
    requires Kept(p, srcs, d.forward, q, dsts, d.reverse) && NothingLeft(d)
    requires !Touches(d.forward, dsts) && !Touches(d.reverse, srcs)
    ensures !Reachable(p, srcs, dsts)
  {
    forall src, steps, t | PathTo(p, srcs, src, steps, t)
      ensures t !in dsts
    {
      AllReachedStored(p, srcs, d.forward, src, steps);
    }
  }

  lemma ForwardTouched<S(!new), E(!new)>(p: Problem<S, E>, srcs: set<S>, a: State<S, E>, dsts: set<S>)
    requires Tree(p, srcs, a) && NothingOpen(a) && Touches(a, dsts)
    ensures Reachable(p, srcs, dsts)
  {
    var t :| t in dsts && t in a.nodes;
    assert !IsOpen(a, t);
    var src, steps := TreePath(p, srcs, a, t);
    assert PathTo(p, srcs, src, steps, t);
  }

  lemma ReverseTouched<S(!new), E(!new)>(p: Problem<S, E>, srcs: set<S>, q: Problem<S, E>, dsts: set<S>, b: State<S, E>)
    requires Mirror(p, q) && Tree(q, dsts, b) && NothingOpen(b) && Touches(b, srcs)
    ensures Reachable(p, srcs, dsts)
  {
    var s :| s in srcs && s in b.nodes;
    assert !IsOpen(b, s);
    TreeRooted(q, dsts, b);
    PlanToIsPlan(q, dsts, b, s);
    var plan := PlanTo(b, s);
    BackwardsIsPlan(p, q, plan);
    PlanIsPath(p, Backwards(plan));
    assert PathTo(p, srcs, s, Steps(Backwards(plan)), plan[0].node);
  }

  // A search that ends with nothing open is right exactly if neither side has stored an end
  // of the other.
  lemma NotFoundIsRightIffUntouched<S(!new), E(!new)>(p: Problem<S, E>, srcs: set<S>, q: Problem<S, E>, dsts: set<S>,
                                                      run: seq<Duo<S, E>>)
    requires Mirror(p, q) && IsDuoRun(p, srcs, q, dsts, run)
             && NothingLeft(run[|run| - 1])
    ensures Reachable(p, srcs, dsts) <==> Touches(run[|run| - 1].forward, dsts) || Touches(run[|run| - 1].reverse, srcs)
  {
    var d := run[|run| - 1];
    RunKeeps(p, srcs, q, dsts, run);
    if Touches(d.forward, dsts) {
      ForwardTouched(p, srcs, d.forward, dsts);
    } else if Touches(d.reverse, srcs) {
      ReverseTouched(p, srcs, q, dsts, d.reverse);
    } else {
      UntouchedMeansUnreachable(p, srcs, q, dsts, d);
    }
  }
}
