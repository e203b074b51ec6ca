/**
 When the search from both ends is sure to find a path, told from the input alone: the ends
 are apart, no single edge joins them, and two routes between them that cost the same have an
 inner state in common.  Only routes that visit no state twice count.
 */
module TwoWayComplete {
  import opened Wrappers
  import opened Sequences
  import opened SearchSpec
  import opened SearchTree
  import opened SearchOptimal
  import opened SearchPlan
  import opened TwoWaySpec
  import opened TwoWayRuns

  // ---- The condition ----

  // The states of a path, in order.
  function Visited<S, E>(src: S, steps: seq<Candidate<S, E>>): (q: seq<S>)
    ensures |q| == |steps| + 1 && q[0] == src && forall i :: 0 <= i < |steps| ==> q[i + 1] == steps[i].node
  {
    if steps == [] then [src] else Visited(src, steps[..|steps| - 1]) + [steps[|steps| - 1].node]
  }

  // A way from a source to a destination that visits no state twice.
  ghost predicate IsRoute<S, E(!new)>(p: Problem<S, E>, srcs: set<S>, dsts: set<S>, src: S,
                                      steps: seq<Candidate<S, E>>) {
    src in srcs && IsPath(p, src, steps) && End(src, steps) in dsts && Distinct(Visited(src, steps))
  }

  // The states between the ends of a route.
  ghost function Inner<S, E>(steps: seq<Candidate<S, E>>): (q: set<S>) {
    set i | 0 <= i < |steps| - 1 :: steps[i].node
  }

  ghost predicate NoDirectEdge<S(!new), E(!new)>(p: Problem<S, E>, srcs: set<S>, dsts: set<S>) {
    forall s, c :: s in srcs && c in p.expand(s) ==> c.node !in dsts
  }

  // Different routes of one cost have a state between their ends in common.
  ghost predicate NoTies<S(!new), E(!new)>(p: Problem<S, E>, srcs: set<S>, dsts: set<S>) {
    forall s, t, a, b :: IsRoute(p, srcs, dsts, s, a) && IsRoute(p, srcs, dsts, t, b) && Cost(a) == Cost(b) ==>
      (s == t && a == b) || exists x :: x in Inner(a) && x in Inner(b)
  }

  ghost predicate Decided<S(!new), E(!new)>(p: Problem<S, E>, srcs: set<S>, dsts: set<S>) {
    srcs !! dsts && NoDirectEdge(p, srcs, dsts) && NoTies(p, srcs, dsts)
  }

  // ---- What a search never takes back ----

  // Stored nodes stay and get no dearer; closed ones do not change.
  ghost predicate Later<S(!new), E>(a: State<S, E>, c: State<S, E>) {
    forall v :: v in a.nodes ==>
      && v in c.nodes && G(c.nodes[v]) <= G(a.nodes[v])
      && (v in a.closed ==> v in c.closed && c.nodes[v] == a.nodes[v])
  }

  ghost predicate Closes<S(!new), E>(a: State<S, E>, c: State<S, E>, u: S) {
    Later(a, c) && c.closed == a.closed + [u]
  }

  // Links that are edges start from the nodes in own.
  ghost predicate ParentsIn<S(!new), E>(a: State<S, E>, own: set<S>) {
    forall v :: v in a.nodes && a.nodes[v].link.Some? && !a.nodes[v].connector ==> a.nodes[v].link.value.parent in own
  }

  lemma RegisterLater<S(!new), E>(a: State<S, E>, v: S, r: Record<S, E>, own: set<S>)
    requires Register(a, v, r).Some? && ParentsIn(a, own)
    requires r.link.Some? && !r.connector ==> r.link.value.parent in own
    ensures var c := Register(a, v, r).value;
            && Later(a, c) && c.closed == a.closed && ParentsIn(c, own)
            && v in c.nodes && G(c.nodes[v]) <= G(r)
  {
  }

  lemma LaterStill<S(!new), E>(a: State<S, E>, b: State<S, E>, c: State<S, E>)
    requires Later(a, b) && Later(b, c)
    ensures Later(a, c)
  {
  }

  lemma StaysRelaxed<S(!new), E(!new)>(a: State<S, E>, c: State<S, E>, u: S, cs: seq<Candidate<S, E>>)
    requires Later(a, c) && u in a.closed && Relaxed(a, u, cs)
    ensures Relaxed(c, u, cs)
  {
  }

  // Registering what u expands to.
  lemma {:induction false} AllOffered<S(!new), E(!new)>(p: Problem<S, E>, a: State<S, E>, u: S,
                                                        cs: seq<Candidate<S, E>>, own: set<S>)
    requires u in a.nodes && u in a.closed && u in own && ParentsIn(a, own) && RegisterAll(p, a, u, cs).Some?
    ensures var c := RegisterAll(p, a, u, cs).value;
            Later(a, c) && c.closed == a.closed && ParentsIn(c, own) && Relaxed(c, u, cs)
  {
    if cs != [] {
      var n := |cs| - 1;
      var m := RegisterAll(p, a, u, cs[..n]).value;
      AllOffered(p, a, u, cs[..n], own);
      RegisterLater(m, cs[n].node, EdgeRecord(p, m, u, cs[n]), own);
      LaterStill(a, m, RegisterAll(p, a, u, cs).value);
      RegisterRelaxes(p, m, u, cs[..n], cs[n]);
      assert cs[..n] + [cs[n]] == cs;
    }
  }

  // ---- The nodes each side has expanded ----

  ghost predicate Owns<S(!new), E(!new)>(p: Problem<S, E>, a: State<S, E>, own: set<S>) {
    && (forall u :: u in own ==> u in a.closed && Relaxed(a, u, p.expand(u)))
    && ParentsIn(a, own)
  }

  // Every closed node was expanded on one side, and on one only.
  ghost predicate Divided<S(!new), E>(a: State<S, E>, mine: set<S>, b: State<S, E>, theirs: set<S>) {
    && mine !! theirs
    && (forall u :: u in a.closed ==> u in mine || u in theirs)
    && (forall u :: u in b.closed ==> u in mine || u in theirs)
  }

  // One of the ends is stored at no more than the given cost.
  ghost predicate Reaches<S(!new), E>(a: State<S, E>, ends: set<S>, cost: real) {
    exists t :: t in ends && t in a.nodes && G(a.nodes[t]) <= cost
  }

  ghost predicate Both<S, E>(a: State<S, E>, b: State<S, E>, u: S) {
    u in a.closed && u in a.nodes && u in b.closed && u in b.nodes
  }

  // What the way through u costs.
  ghost function Through<S, E>(a: State<S, E>, b: State<S, E>, u: S): (cost: real)
    requires Both(a, b, u)
  {
    G(a.nodes[u]) + G(b.nodes[u])
  }

  // A node that the other side expanded and this one closed has left a connector here, or one
  // of the ends was stored at no higher cost.
  ghost predicate Bridged<S(!new), E>(a: State<S, E>, ends: set<S>, b: State<S, E>, theirs: set<S>) {
    forall u :: Both(a, b, u) && u in theirs ==> Reaches(a, ends, Through(a, b, u))
  }

  ghost predicate Halves<S(!new), E(!new)>(p: Problem<S, E>, srcs: set<S>, a: State<S, E>, mine: set<S>,
                                           q: Problem<S, E>, dsts: set<S>, b: State<S, E>, theirs: set<S>) {
    && Owns(p, a, mine) && Owns(q, b, theirs) && Divided(a, mine, b, theirs)
    && Bridged(a, dsts, b, theirs) && Bridged(b, srcs, a, mine)
  }

  lemma HalvesEitherWay<S(!new), E(!new)>(p: Problem<S, E>, srcs: set<S>, a: State<S, E>, mine: set<S>,
                                          q: Problem<S, E>, dsts: set<S>, b: State<S, E>, theirs: set<S>)
    requires Halves(p, srcs, a, mine, q, dsts, b, theirs)
    ensures Halves(q, dsts, b, theirs, p, srcs, a, mine)
  {
    forall u | Both(b, a, u) && u in mine
      ensures Reaches(b, srcs, Through(b, a, u))
    {
      assert Both(a, b, u);
    }
  }

  // ---- One turn ----

  ghost predicate ClosedStored<S(!new), E>(a: State<S, E>) {
    forall u :: u in a.closed ==> u in a.nodes
  }

  // This side has closed u as well.
  lemma BridgedHere<S(!new), E>(a: State<S, E>, c: State<S, E>, ends: set<S>, b: State<S, E>, theirs: set<S>, u: S)
    requires Bridged(a, ends, b, theirs) && ClosedStored(a) && Closes(a, c, u)
    requires Both(c, b, u) && u in theirs ==> Reaches(c, ends, Through(c, b, u))
    ensures Bridged(c, ends, b, theirs)
  {
    forall v | Both(c, b, v) && v in theirs
      ensures Reaches(c, ends, Through(c, b, v))
    {
      if v != u {
        assert v in a.closed && Both(a, b, v);
        var t :| t in ends && t in a.nodes && G(a.nodes[t]) <= Through(a, b, v);
        assert t in c.nodes;
      }
    }
  }

  // The other side is as it was.
  lemma BridgedThere<S(!new), E>(a: State<S, E>, c: State<S, E>, ends: set<S>, b: State<S, E>, mine: set<S>,
                                 more: set<S>)
    requires Bridged(b, ends, a, mine) && ClosedStored(a) && Later(a, c) && (forall u :: u in mine ==> u in a.closed)
    requires forall u :: u in more && u in b.closed ==> u in mine
    ensures Bridged(b, ends, c, more)
  {
    forall v | Both(b, c, v) && v in more
      ensures Reaches(b, ends, Through(b, c, v))
    {
      assert v in a.closed && Both(b, a, v);
    }
  }

  lemma OwnsLater<S(!new), E(!new)>(p: Problem<S, E>, a: State<S, E>, mine: set<S>, c: State<S, E>)
    requires Owns(p, a, mine) && Later(a, c) && ParentsIn(c, mine)
    ensures Owns(p, c, mine)
  {
    forall u | u in mine
      ensures u in c.closed && Relaxed(c, u, p.expand(u))
    {
      assert Relaxed(a, u, p.expand(u));
      StaysRelaxed(a, c, u, p.expand(u));
    }
  }

  lemma ConnectedHalves<S(!new), E(!new)>(p: Problem<S, E>, srcs: set<S>, a: State<S, E>, mine: set<S>,
                                          q: Problem<S, E>, dsts: set<S>, b: State<S, E>, theirs: set<S>, u: S, t: S)
    requires Halves(p, srcs, a, mine, q, dsts, b, theirs) && ClosedStored(a) && IsOpen(a, u)
    requires u in b.closed && u in b.nodes && t in dsts && Connected(a, u, t, G(b.nodes[u])).Some?
    ensures var c := Connected(a, u, t, G(b.nodes[u])).value;
            Halves(p, srcs, c, mine, q, dsts, b, theirs) && Closes(a, c, u)
  {
    var d, c := Close(a, u), Connected(a, u, t, G(b.nodes[u])).value;
    RegisterLater(d, t, ConnectorRecord(d, u, G(b.nodes[u])), mine);
    assert u in d.closed;
    assert Later(a, d);
    LaterStill(a, d, c);
    OwnsLater(p, a, mine, c);
    assert Reaches(c, dsts, Through(c, b, u));
    BridgedHere(a, c, dsts, b, theirs, u);
    BridgedThere(a, c, srcs, b, mine, mine);
  }

  lemma ExpandedHalves<S(!new), E(!new)>(p: Problem<S, E>, srcs: set<S>, a: State<S, E>, mine: set<S>,
                                         q: Problem<S, E>, dsts: set<S>, b: State<S, E>, theirs: set<S>, u: S)
    requires Halves(p, srcs, a, mine, q, dsts, b, theirs) && ClosedStored(a) && IsOpen(a, u)
    requires u !in b.closed && Expanded(p, a, u).Some?
    ensures var c := Expanded(p, a, u).value;
            Halves(p, srcs, c, mine + {u}, q, dsts, b, theirs) && Closes(a, c, u)
  {
    var d, c, more := Close(a, u), Expanded(p, a, u).value, mine + {u};
    assert ParentsIn(d, more) && u in d.closed;
    AllOffered(p, d, u, p.expand(u), more);
    assert Later(a, d);
    LaterStill(a, d, c);
    OwnsMore(p, a, mine, c, u);
    BridgedHere(a, c, dsts, b, theirs, u);
    BridgedThere(a, c, srcs, b, mine, more);
  }

  lemma OwnsMore<S(!new), E(!new)>(p: Problem<S, E>, a: State<S, E>, mine: set<S>, c: State<S, E>, u: S)
    requires Owns(p, a, mine) && Later(a, c) && ParentsIn(c, mine + {u})
    requires u in c.closed && Relaxed(c, u, p.expand(u))
    ensures Owns(p, c, mine + {u})
  {
    forall v | v in mine
      ensures v in c.closed && Relaxed(c, v, p.expand(v))
    {
      assert Relaxed(a, v, p.expand(v));
      StaysRelaxed(a, c, v, p.expand(v));
    }
  }

  lemma TurnHalves<S(!new), E(!new)>(p: Problem<S, E>, srcs: set<S>, a: State<S, E>, mine: set<S>, q: Problem<S, E>,
                                     dsts: set<S>, b: State<S, E>, theirs: set<S>, u: S) returns (more: set<S>)
    requires Joint(p, srcs, a, q, dsts, b) && Halves(p, srcs, a, mine, q, dsts, b, theirs)
    requires IsOpen(a, u) && TurnAt(p, a, b, u).Some?
    ensures more == if u in b.closed then mine else mine + {u}
    ensures var c := TurnAt(p, a, b, u).value; Halves(p, srcs, c, more, q, dsts, b, theirs) && Closes(a, c, u)
  {
    TreeRooted(q, dsts, b);
    if u in b.closed {
      RootIsSource(q, dsts, b, u);
      ConnectedHalves(p, srcs, a, mine, q, dsts, b, theirs, u, RootOf(b, u));
      more := mine;
    } else {
      ExpandedHalves(p, srcs, a, mine, q, dsts, b, theirs, u);
      more := mine + {u};
    }
  }

  lemma DuoHalves<S(!new), E(!new)>(p: Problem<S, E>, srcs: set<S>, q: Problem<S, E>, dsts: set<S>, d: Duo<S, E>,
                                    e: Duo<S, E>, mine: set<S>, theirs: set<S>) returns (mine': set<S>, theirs': set<S>)
    requires Joint(p, srcs, d.forward, q, dsts, d.reverse) && DuoNext(p, q, d, e)
    requires Halves(p, srcs, d.forward, mine, q, dsts, d.reverse, theirs)
    ensures Halves(p, srcs, e.forward, mine', q, dsts, e.reverse, theirs')
  {
    if e.reverse == d.reverse && exists u :: ForwardTurn(p, d, u, Some(e.forward)) {
      var u :| ForwardTurn(p, d, u, Some(e.forward));
      theirs' := theirs;
      mine' := TurnHalves(p, srcs, d.forward, mine, q, dsts, d.reverse, theirs, u);
    } else {
      var u :| ReverseTurn(q, d, u, Some(e.reverse));
      mine' := mine;
      HalvesEitherWay(p, srcs, d.forward, mine, q, dsts, d.reverse, theirs);
      theirs' := TurnHalves(q, dsts, d.reverse, theirs, p, srcs, d.forward, mine, u);
      HalvesEitherWay(q, dsts, e.reverse, theirs', p, srcs, e.forward, mine);
    }
  }

  // In every run the nodes closed so far were expanded by one side each, and all crossings
  // have left their mark.
  lemma {:induction false} RunHalves<S(!new), E(!new)>(p: Problem<S, E>, srcs: set<S>, q: Problem<S, E>, dsts: set<S>,
                                                       run: seq<Duo<S, E>>) returns (mine: set<S>, theirs: set<S>)
    requires IsDuoRun(p, srcs, q, dsts, run)
    ensures Halves(p, srcs, run[|run| - 1].forward, mine, q, dsts, run[|run| - 1].reverse, theirs)
  {
    var n := |run| - 1;
    if n == 0 {
      mine, theirs := {}, {};
    } else {
      var a, b := RunHalves(p, srcs, q, dsts, run[..n]);
      RunKeeps(p, srcs, q, dsts, run[..n]);
      assert DuoNext(p, q, run[n - 1], run[n]);
      mine, theirs := DuoHalves(p, srcs, q, dsts, run[n - 1], run[n], a, b);
    }
  }

  // ---- Two routes of one cost ----

  // No state of the path is closed later than v.
  ghost predicate RanksUpTo<S(!new), E>(s: State<S, E>, src: S, steps: seq<Candidate<S, E>>, v: S) {
    forall x :: x in Visited(src, steps) ==> Rank(s, x) <= Rank(s, v)
  }

  lemma VisitedMore<S(!new), E(!new)>(s: State<S, E>, src: S, steps: seq<Candidate<S, E>>, u: S, c: Candidate<S, E>)
    requires Distinct(Visited(src, steps)) && RanksUpTo(s, src, steps, u) && Rank(s, u) < Rank(s, c.node)
    ensures Distinct(Visited(src, steps + [c])) && RanksUpTo(s, src, steps + [c], c.node)
  {
    assert (steps + [c])[..|steps|] == steps;
    assert c.node !in Visited(src, steps);
  }

  lemma {:induction false} VisitedFrom<S, E>(v: S, c: Candidate<S, E>, steps: seq<Candidate<S, E>>)
    ensures Visited(v, [c] + steps) == [v] + Visited(c.node, steps)
  {
    var q, r := Visited(v, [c] + steps), [v] + Visited(c.node, steps);
    forall i | 0 <= i < |q|
      ensures q[i] == r[i]
    {
      assert i > 0 ==> q[i] == ([c] + steps)[i - 1].node;
      assert i > 1 ==> r[i] == steps[i - 2].node;
    }
  }

  lemma VisitedBefore<S(!new), E(!new)>(s: State<S, E>, v: S, c: Candidate<S, E>, steps: seq<Candidate<S, E>>)
    requires Distinct(Visited(c.node, steps)) && RanksUpTo(s, c.node, steps, c.node) && Rank(s, c.node) < Rank(s, v)
    ensures Distinct(Visited(v, [c] + steps)) && RanksUpTo(s, v, [c] + steps, v)
  {
    VisitedFrom(v, c, steps);
    assert v !in Visited(c.node, steps);
  }

  // The links of v, followed to a source; every edge starts from a node in own.
  lemma {:induction false} ForwardRoute<S(!new), E(!new)>(p: Problem<S, E>, srcs: set<S>, a: State<S, E>, own: set<S>,
                                                          v: S) returns (src: S, steps: seq<Candidate<S, E>>)
    requires Tree(p, srcs, a) && ParentsIn(a, own) && v in a.nodes && !a.nodes[v].connector
    ensures PathTo(p, srcs, src, steps, v) && Cost(steps) == G(a.nodes[v])
    ensures Distinct(Visited(src, steps)) && RanksUpTo(a, src, steps, v) && Inner(steps) <= own
    decreases Rank(a, v)
  {
    var r := a.nodes[v];
    assert GoodRecord(p, srcs, a, v, r, Rank(a, v));
    if r.link.None? {
      src, steps := v, [];
    } else {
      var l, pre := r.link.value, [];
      src, pre := ForwardRoute(p, srcs, a, own, l.parent);
      var c := Candidate(l.edge.value, l.edgeCost, v);
      steps := pre + [c];
      PathExtended(p, src, pre, c);
      VisitedMore(a, src, pre, l.parent, c);
      InnerMore(src, pre, c, own);
    }
  }

  lemma InnerMore<S, E>(src: S, steps: seq<Candidate<S, E>>, c: Candidate<S, E>, own: set<S>)
    requires Inner(steps) <= own && End(src, steps) in own
    ensures Inner(steps + [c]) <= own
  {
    forall i | 0 <= i < |steps|
      ensures (steps + [c])[i].node in own
    {
      assert i < |steps| - 1 ==> steps[i].node in Inner(steps);
    }
  }

  // The links of v in the search from the other end, walked along the graph; every edge ends
  // in a node in own.
  lemma {:induction false} ReverseRoute<S(!new), E(!new)>(p: Problem<S, E>, q: Problem<S, E>, dsts: set<S>,
                                                          b: State<S, E>, own: set<S>, v: S)
    returns (steps: seq<Candidate<S, E>>)
    requires Mirror(p, q) && Tree(q, dsts, b) && ParentsIn(b, own) && v in b.nodes && !b.nodes[v].connector
    ensures IsPath(p, v, steps) && End(v, steps) in dsts && Cost(steps) == G(b.nodes[v])
    ensures Distinct(Visited(v, steps)) && RanksUpTo(b, v, steps, v)
    ensures forall i :: 0 <= i < |steps| ==> steps[i].node in own
    decreases Rank(b, v)
  {
    var r := b.nodes[v];
    assert GoodRecord(q, dsts, b, v, r, Rank(b, v));
    if r.link.None? {
      steps := [];
    } else {
      var l := r.link.value;
      var rest := ReverseRoute(p, q, dsts, b, own, l.parent);
      var c := Candidate(l.edge.value, l.edgeCost, l.parent);
      PathPrepended(p, v, c, rest);
      VisitedBefore(b, v, c, rest);
      steps := [c] + rest;
    }
  }

  // A destination that one side has reached and a source that the other has, at one cost: two
  // routes of that cost with no state in common, unless the ends are joined by one edge or none.
  lemma TwoRoutes<S(!new), E(!new)>(p: Problem<S, E>, srcs: set<S>, a: State<S, E>, mine: set<S>, q: Problem<S, E>,
                                    dsts: set<S>, b: State<S, E>, theirs: set<S>, t: S, s: S)
    requires Mirror(p, q) && Tree(p, srcs, a) && Tree(q, dsts, b) && ParentsIn(a, mine) && ParentsIn(b, theirs)
    requires mine !! theirs
    requires t in dsts && t in a.nodes && !a.nodes[t].connector
    requires s in srcs && s in b.nodes && !b.nodes[s].connector && G(b.nodes[s]) == G(a.nodes[t])
    ensures !Decided(p, srcs, dsts)
  {
    var src, r1 := ForwardRoute(p, srcs, a, mine, t);
    var r2 := ReverseRoute(p, q, dsts, b, theirs, s);
    assert IsRoute(p, srcs, dsts, src, r1) && IsRoute(p, srcs, dsts, s, r2);
    if |r1| == 1 {
      assert r1[..0] == [];
      assert r1[0] in p.expand(src) && r1[0].node == t;
    } else if |r1| >= 2 {
      assert r1[0].node in Inner(r1);
    }
  }

  // ---- The cheapest meeting ----

  ghost predicate IsLeast<S(!new), E>(a: State<S, E>, b: State<S, E>, u: S, cost: real) {
    Both(a, b, u) && Through(a, b, u) == cost && forall v :: Both(a, b, v) ==> cost <= Through(a, b, v)
  }

  lemma {:induction false} LeastAmong<S(!new), E>(a: State<S, E>, b: State<S, E>, q: seq<S>) returns (u: S)
    requires exists v :: v in q && Both(a, b, v)
    ensures u in q && Both(a, b, u) && forall v :: v in q && Both(a, b, v) ==> Through(a, b, u) <= Through(a, b, v)
  {
    var n := |q| - 1;
    if exists v :: v in q[..n] && Both(a, b, v) {
      u := LeastAmong(a, b, q[..n]);
      if Both(a, b, q[n]) && Through(a, b, q[n]) < Through(a, b, u) {
        u := q[n];
      }
    } else {
      u := q[n];
    }
  }

  // Up to the given cost nothing is left open: neither the ends, nor what the other side has
  // stored of the nodes closed here.
  ghost predicate Settled<S(!new), E>(a: State<S, E>, ends: set<S>, b: State<S, E>, most: real) {
    && (forall t :: t in ends && t in a.nodes && G(a.nodes[t]) <= most ==> t in a.closed)
    && (forall t :: t in ends ==> t in b.closed)
    && (forall w :: w in a.closed && w in a.nodes && w in b.nodes && G(a.nodes[w]) + G(b.nodes[w]) <= most ==>
          w in b.closed)
  }

  // What is known at the end of a run that has found nothing up to the given cost.
  ghost predicate Finished<S(!new), E(!new)>(p: Problem<S, E>, srcs: set<S>, a: State<S, E>, mine: set<S>,
                                             q: Problem<S, E>, dsts: set<S>, b: State<S, E>, theirs: set<S>,
                                             most: real) {
    && Mirror(p, q) && Tree(p, srcs, a) && Tree(q, dsts, b) && Halves(p, srcs, a, mine, q, dsts, b, theirs)
    && Settled(a, dsts, b, most) && Settled(b, srcs, a, most) && srcs !! dsts
  }

  lemma AllSettled<S(!new), E(!new)>(a: State<S, E>, b: State<S, E>, ends: set<S>, most: real)
    requires NothingOpen(a) && NothingOpen(b) && ends <= b.nodes.Keys
    ensures Settled(a, ends, b, most)
  {
    assert forall v :: v in a.nodes ==> !IsOpen(a, v);
    assert forall v :: v in b.nodes ==> !IsOpen(b, v);
  }

  lemma FinishedEitherWay<S(!new), E(!new)>(p: Problem<S, E>, srcs: set<S>, a: State<S, E>, mine: set<S>,
                                            q: Problem<S, E>, dsts: set<S>, b: State<S, E>, theirs: set<S>, most: real)
    requires Finished(p, srcs, a, mine, q, dsts, b, theirs, most)
    ensures Finished(q, dsts, b, theirs, p, srcs, a, mine, most)
  {
    HalvesEitherWay(p, srcs, a, mine, q, dsts, b, theirs);
  }

  lemma LeastEitherWay<S(!new), E>(a: State<S, E>, b: State<S, E>, u: S, cost: real)
    requires IsLeast(a, b, u, cost)
    ensures IsLeast(b, a, u, cost)
  {
    forall v | Both(b, a, v)
      ensures cost <= Through(b, a, v)
    {
      assert Both(a, b, v);
    }
  }

  // A destination is stored here at exactly the least cost.
  lemma EndAtLeast<S(!new), E(!new)>(p: Problem<S, E>, srcs: set<S>, a: State<S, E>, mine: set<S>, q: Problem<S, E>,
                                     dsts: set<S>, b: State<S, E>, theirs: set<S>, u: S, cost: real) returns (t: S)
    requires Finished(p, srcs, a, mine, q, dsts, b, theirs, cost) && IsLeast(a, b, u, cost) && u in theirs
    ensures t in dsts && IsLeast(a, b, t, cost) && G(a.nodes[t]) == cost
  {
    assert Reaches(a, dsts, Through(a, b, u));
    t :| t in dsts && t in a.nodes && G(a.nodes[t]) <= cost;
    assert GoodRecord(q, dsts, b, t, b.nodes[t], Rank(b, t));
    assert Both(a, b, t);
  }

  // Such a destination, or the node before it, was expanded here.
  lemma OwnLeast<S(!new), E(!new)>(p: Problem<S, E>, srcs: set<S>, a: State<S, E>, mine: set<S>, q: Problem<S, E>,
                                   dsts: set<S>, b: State<S, E>, theirs: set<S>, t: S, cost: real) returns (w: S)
    requires Finished(p, srcs, a, mine, q, dsts, b, theirs, cost)
    requires t in dsts && IsLeast(a, b, t, cost) && G(a.nodes[t]) == cost
    ensures IsLeast(a, b, w, cost) && w in mine
  {
    if t in mine {
      return t;
    }
    assert GoodRecord(p, srcs, a, t, a.nodes[t], Rank(a, t));
    assert GoodRecord(q, dsts, b, t, b.nodes[t], Rank(b, t));
    var l := a.nodes[t].link.value;
    w := l.parent;
    assert Candidate(l.edge.value, l.edgeCost, t) in p.expand(w);
    assert Candidate(l.edge.value, l.edgeCost, w) in q.expand(t);
    assert Relaxed(b, t, q.expand(t));
    assert Both(a, b, w);
  }

  // Both ends are reached at the least cost.
  lemma EndsAtLeast<S(!new), E(!new)>(p: Problem<S, E>, srcs: set<S>, a: State<S, E>, mine: set<S>, q: Problem<S, E>,
                                      dsts: set<S>, b: State<S, E>, theirs: set<S>, u: S, cost: real)
    returns (t: S, s: S)
    requires Finished(p, srcs, a, mine, q, dsts, b, theirs, cost) && IsLeast(a, b, u, cost) && u in theirs
    ensures t in dsts && IsLeast(a, b, t, cost) && G(a.nodes[t]) == cost
    ensures s in srcs && IsLeast(b, a, s, cost) && G(b.nodes[s]) == cost
  {
    t := EndAtLeast(p, srcs, a, mine, q, dsts, b, theirs, u, cost);
    var w := OwnLeast(p, srcs, a, mine, q, dsts, b, theirs, t, cost);
    FinishedEitherWay(p, srcs, a, mine, q, dsts, b, theirs, cost);
    LeastEitherWay(a, b, w, cost);
    s := EndAtLeast(q, dsts, b, theirs, p, srcs, a, mine, w, cost);
  }

  lemma MeetingMeansTie<S(!new), E(!new)>(p: Problem<S, E>, srcs: set<S>, a: State<S, E>, mine: set<S>,
                                          q: Problem<S, E>, dsts: set<S>, b: State<S, E>, theirs: set<S>, v: S,
                                          most: real)
    requires Both(a, b, v) && Finished(p, srcs, a, mine, q, dsts, b, theirs, most) && Through(a, b, v) <= most
    ensures !Decided(p, srcs, dsts)
  {
    var u := LeastAmong(a, b, a.closed);
    var cost := Through(a, b, u);
    var t, s;
    if u in theirs {
      t, s := EndsAtLeast(p, srcs, a, mine, q, dsts, b, theirs, u, cost);
    } else {
      FinishedEitherWay(p, srcs, a, mine, q, dsts, b, theirs, cost);
      LeastEitherWay(a, b, u, cost);
      s, t := EndsAtLeast(q, dsts, b, theirs, p, srcs, a, mine, u, cost);
    }
    TwoRoutes(p, srcs, a, mine, q, dsts, b, theirs, t, s);
  }

  // If the ends are apart, no edge joins them, and no two separate routes cost the same, nothing is
  // found only when there is nothing to find, whatever the two estimates are.
  lemma NotFoundIsRight<S(!new), E(!new)>(p: Problem<S, E>, srcs: set<S>, q: Problem<S, E>, dsts: set<S>,
                                          run: seq<Duo<S, E>>)
    requires Mirror(p, q) && IsDuoRun(p, srcs, q, dsts, run) && NothingLeft(run[|run| - 1])
    requires Decided(p, srcs, dsts)
    ensures !Reachable(p, srcs, dsts)
  {
    var a, b := run[|run| - 1].forward, run[|run| - 1].reverse;
    NotFoundIsRightIffUntouched(p, srcs, q, dsts, run);
    RunKeeps(p, srcs, q, dsts, run);
    var mine, theirs := RunHalves(p, srcs, q, dsts, run);
    if Reachable(p, srcs, dsts) {
      var v: S;
      if Touches(a, dsts) {
        v :| v in dsts && v in a.nodes;
      } else {
        v :| v in srcs && v in b.nodes;
      }
      assert !IsOpen(a, v) && !IsOpen(b, v);
      AllSettled(a, b, dsts, Through(a, b, v));
      AllSettled(b, a, srcs, Through(a, b, v));
      MeetingMeansTie(p, srcs, a, mine, q, dsts, b, theirs, v, Through(a, b, v));
    }
  }
}
