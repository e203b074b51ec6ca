/**
 One-way A* under a consistent heuristic: closed nodes are optimal, and no ASSERT fires.
 */
module SearchOptimal {
  import opened Wrappers
  import opened Sequences
  import opened SearchSpec
  import opened SearchTree

  // Every edge out of u has been offered to its end point.
  ghost predicate Relaxed<S, E(!new)>(s: State<S, E>, u: S, cs: seq<Candidate<S, E>>) {
    u in s.nodes && forall c :: c in cs ==> c.node in s.nodes && G(s.nodes[c.node]) <= G(s.nodes[u]) + c.cost
  }

  ghost predicate NoConnector<S, E>(s: State<S, E>) {
    forall v :: v in s.nodes ==> !s.nodes[v].connector
  }

  // Nodes are closed in non-decreasing f order, and no open node is below a closed one.
  ghost predicate Monotone<S(!new), E>(s: State<S, E>) {
    && (forall u :: u in s.closed ==> u in s.nodes)
    && (forall i, j :: 0 <= i < j < |s.closed| ==> s.nodes[s.closed[i]].f <= s.nodes[s.closed[j]].f)
    && (forall u, v :: u in s.closed && IsOpen(s, v) ==> s.nodes[u].f <= s.nodes[v].f)
  }

  ghost predicate ClosedOptimal<S(!new), E(!new)>(p: Problem<S, E>, srcs: set<S>, s: State<S, E>) {
    forall u :: u in s.closed ==> u in s.nodes && LowerBound(p, srcs, u, G(s.nodes[u]))
  }

  ghost predicate Core<S(!new), E(!new)>(p: Problem<S, E>, srcs: set<S>, s: State<S, E>) {
    Tree(p, srcs, s) && NoConnector(s) && Monotone(s) && ClosedOptimal(p, srcs, s)
  }

  // The invariant between steps.
  ghost predicate Inv<S(!new), E(!new)>(p: Problem<S, E>, srcs: set<S>, s: State<S, E>) {
    Core(p, srcs, s) && forall u :: u in s.closed ==> Relaxed(s, u, p.expand(u))
  }

  // The invariant inside a step, after the first i candidates of the node just closed.
  ghost predicate Mid<S(!new), E(!new)>(p: Problem<S, E>, srcs: set<S>, s: State<S, E>, u: S, i: nat) {
    && Core(p, srcs, s)
    && s.closed != [] && s.closed[|s.closed| - 1] == u
    && i <= |p.expand(u)|
    && (forall v :: v in s.closed && v != u ==> Relaxed(s, v, p.expand(v)))
    && Relaxed(s, u, p.expand(u)[..i])
  }

  lemma InitialInv<S(!new), E(!new)>(p: Problem<S, E>, srcs: set<S>, s: State<S, E>)
    requires Initial(srcs, s)
    ensures Inv(p, srcs, s)
  {
    InitialTree(p, srcs, s);
  }

  // Every path to a node that is not closed crosses the open list, at a node whose
  // f-value is at most the cost of the path plus the estimate at its end.
  lemma {:induction false} Frontier<S(!new), E(!new)>(p: Problem<S, E>, srcs: set<S>, s: State<S, E>, src: S,
                                                      steps: seq<Candidate<S, E>>)
    returns (y: S)
    requires NonNegative(p) && Consistent(p) && Inv(p, srcs, s)
    requires src in srcs && IsPath(p, src, steps) && End(src, steps) !in s.closed
    ensures IsOpen(s, y) && s.nodes[y].f <= Cost(steps) + p.h(End(src, steps))
  {
    var v := End(src, steps);
    if steps == [] {
      y := src;
      assert GoodRecord(p, srcs, s, src, s.nodes[src], Rank(s, src));
    } else {
      var n := |steps| - 1;
      var rest, c := steps[..n], steps[n];
      var x := End(src, rest);
      if x in s.closed {
        assert PathTo(p, srcs, src, rest, x);
        assert Relaxed(s, x, p.expand(x));
        y := v;
        assert GoodRecord(p, srcs, s, v, s.nodes[v], Rank(s, v));
      } else {
        y := Frontier(p, srcs, s, src, rest);
      }
    }
  }

  // The open node with the lowest f already has its optimal cost.
  lemma FirstIsOptimal<S(!new), E(!new)>(p: Problem<S, E>, srcs: set<S>, s: State<S, E>, u: S)
    requires NonNegative(p) && Consistent(p) && Inv(p, srcs, s) && IsFirst(s, u)
    ensures LowerBound(p, srcs, u, G(s.nodes[u]))
  {
    assert GoodRecord(p, srcs, s, u, s.nodes[u], Rank(s, u));
    forall src, steps | PathTo(p, srcs, src, steps, u) ensures G(s.nodes[u]) <= Cost(steps) {
      var y := Frontier(p, srcs, s, src, steps);
      if s.nodes[u].link.None? {
        CostNonNegative(p, src, steps);
      }
    }
  }

  lemma {:induction false} CostNonNegative<S(!new), E(!new)>(p: Problem<S, E>, src: S, steps: seq<Candidate<S, E>>)
    requires NonNegative(p) && IsPath(p, src, steps)
    ensures 0.0 <= Cost(steps)
  {
    if steps != [] {
      CostNonNegative(p, src, steps[..|steps| - 1]);
    }
  }

  lemma CloseFirst<S(!new), E(!new)>(p: Problem<S, E>, srcs: set<S>, s: State<S, E>, u: S)
    requires NonNegative(p) && Consistent(p) && Inv(p, srcs, s) && IsFirst(s, u)
    ensures Mid(p, srcs, Close(s, u), u, 0)
  {
    FirstIsOptimal(p, srcs, s, u);
    CloseTree(p, srcs, s, u);
    var t := Close(s, u);
    forall i, j | 0 <= i < j < |t.closed| ensures t.nodes[t.closed[i]].f <= t.nodes[t.closed[j]].f {
      if j < |s.closed| {
        assert s.closed[j] == t.closed[j];
      }
      assert t.closed[i] in s.closed;
    }
    forall v | v in t.closed && v != u ensures Relaxed(t, v, p.expand(v)) {
      assert Relaxed(s, v, p.expand(v));
    }
  }

  // A lower bound for the end of an edge holds for the way through its closed start.
  lemma BoundThrough<S(!new), E(!new)>(p: Problem<S, E>, srcs: set<S>, s: State<S, E>, u: S, c: Candidate<S, E>,
                                       g: real)
    requires Tree(p, srcs, s) && u in s.closed && c in p.expand(u) && LowerBound(p, srcs, c.node, g)
    ensures g <= G(s.nodes[u]) + c.cost
  {
    var src, pre := TreePath(p, srcs, s, u);
    var steps := pre + [c];
    assert steps[..|pre|] == pre;
    assert PathTo(p, srcs, src, steps, c.node);
  }

  // The ASSERT on duplicates that are no longer open cannot fire.
  lemma NeverCheaperThanClosed<S(!new), E(!new)>(p: Problem<S, E>, srcs: set<S>, s: State<S, E>, u: S,
                                                 c: Candidate<S, E>)
    requires NonNegative(p) && Tree(p, srcs, s) && ClosedOptimal(p, srcs, s) && u in s.closed && c in p.expand(u)
    ensures Offer(p, s, u, c).Some?
  {
    var v := c.node;
    if v in s.closed {
      BoundThrough(p, srcs, s, u, c, G(s.nodes[v]));
    } else if v in s.nodes {
      assert GoodRecord(p, srcs, s, u, s.nodes[u], Rank(s, u));
    }
  }

  lemma LastIsHighest<S(!new), E(!new)>(s: State<S, E>, w: S)
    requires Monotone(s) && w in s.closed
    ensures s.nodes[w].f <= s.nodes[s.closed[|s.closed| - 1]].f
  {
    var i :| 0 <= i < |s.closed| && s.closed[i] == w;
    assert i < |s.closed| - 1 ==> s.nodes[s.closed[i]].f <= s.nodes[s.closed[|s.closed| - 1]].f;
  }

  lemma EdgeClimbs<S(!new), E(!new)>(p: Problem<S, E>, srcs: set<S>, s: State<S, E>, u: S, c: Candidate<S, E>)
    requires NonNegative(p) && Consistent(p) && c in p.expand(u)
    requires u in s.nodes && !s.nodes[u].connector && GoodRecord(p, srcs, s, u, s.nodes[u], Rank(s, u))
    ensures s.nodes[u].f <= EdgeRecord(p, s, u, c).f
  {
  }

  lemma RegisterMonotone<S(!new), E(!new)>(s: State<S, E>, v: S, r: Record<S, E>)
    requires Monotone(s) && Register(s, v, r).Some?
    requires forall w :: w in s.closed ==> s.nodes[w].f <= r.f
    ensures Monotone(Register(s, v, r).value)
  {
  }

  lemma RegisterRelaxed<S(!new), E(!new)>(s: State<S, E>, v: S, r: Record<S, E>, u: S, cs: seq<Candidate<S, E>>)
    requires Register(s, v, r).Some? && u in s.closed && Relaxed(s, u, cs)
    ensures Relaxed(Register(s, v, r).value, u, cs)
  {
  }

  lemma RegisterRelaxes<S(!new), E(!new)>(p: Problem<S, E>, s: State<S, E>, u: S, cs: seq<Candidate<S, E>>,
                                          c: Candidate<S, E>)
    requires u in s.closed && Relaxed(s, u, cs) && Offer(p, s, u, c).Some?
    ensures Relaxed(Offer(p, s, u, c).value, u, cs + [c])
  {
  }

  // Offering the next candidate of the node just closed.
  lemma RegisterNext<S(!new), E(!new)>(p: Problem<S, E>, srcs: set<S>, s: State<S, E>, u: S, i: nat)
    requires NonNegative(p) && Consistent(p) && Mid(p, srcs, s, u, i) && i < |p.expand(u)|
    ensures var c := p.expand(u)[i];
            var t := Offer(p, s, u, c);
            t.Some? && Mid(p, srcs, t.value, u, i + 1)
  {
    var c := p.expand(u)[i];
    var r := EdgeRecord(p, s, u, c);
    NeverCheaperThanClosed(p, srcs, s, u, c);
    var t := Register(s, c.node, r).value;
    RegisterCore(p, srcs, s, c);
    forall v | v in t.closed && v != u ensures Relaxed(t, v, p.expand(v)) {
      RegisterRelaxed(s, c.node, r, v, p.expand(v));
    }
    RegisterRelaxes(p, s, u, p.expand(u)[..i], c);
    assert p.expand(u)[..i + 1] == p.expand(u)[..i] + [c];
  }

  lemma RegisterCore<S(!new), E(!new)>(p: Problem<S, E>, srcs: set<S>, s: State<S, E>, c: Candidate<S, E>)
    requires NonNegative(p) && Consistent(p) && Core(p, srcs, s)
    requires s.closed != [] && c in p.expand(s.closed[|s.closed| - 1])
    requires Register(s, c.node, EdgeRecord(p, s, s.closed[|s.closed| - 1], c)).Some?
    ensures var t := Register(s, c.node, EdgeRecord(p, s, s.closed[|s.closed| - 1], c)).value;
            Core(p, srcs, t) && t.closed == s.closed && c.node in t.nodes
  {
    var u := s.closed[|s.closed| - 1];
    var r := EdgeRecord(p, s, u, c);
    var t := Register(s, c.node, r).value;
    assert GoodRecord(p, srcs, s, u, s.nodes[u], Rank(s, u));
    RegisterTree(p, srcs, s, c.node, r);
    EdgeClimbs(p, srcs, s, u, c);
    forall w | w in s.closed ensures s.nodes[w].f <= r.f {
      LastIsHighest(s, w);
    }
    RegisterMonotone(s, c.node, r);
  }

  lemma RegisterAllStep<S(!new), E(!new)>(p: Problem<S, E>, s: State<S, E>, u: S, cs: seq<Candidate<S, E>>, i: nat)
    requires u in s.nodes && 0 < i <= |cs| && RegisterAll(p, s, u, cs[..i - 1]).Some?
    ensures var t := RegisterAll(p, s, u, cs[..i - 1]).value;
            RegisterAll(p, s, u, cs[..i]) == Offer(p, t, u, cs[i - 1])
  {
    assert cs[..i][..i - 1] == cs[..i - 1];
  }

  lemma {:induction false} AbortsForGood<S(!new), E(!new)>(p: Problem<S, E>, s: State<S, E>, u: S,
                                                           cs: seq<Candidate<S, E>>, i: nat)
    requires u in s.nodes && i <= |cs| && RegisterAll(p, s, u, cs[..i]).None?
    ensures RegisterAll(p, s, u, cs).None?
    decreases |cs| - i
  {
    if i == |cs| {
      assert cs[..i] == cs;
    } else {
      assert cs[..i + 1][..i] == cs[..i];
      AbortsForGood(p, s, u, cs, i + 1);
    }
  }

  // A whole step from any state the search can be in: it never aborts.
  lemma {:induction false} RegisterPrefix<S(!new), E(!new)>(p: Problem<S, E>, srcs: set<S>, s: State<S, E>, u: S,
                                                            i: nat)
    requires NonNegative(p) && Consistent(p) && Mid(p, srcs, s, u, 0) && i <= |p.expand(u)|
    ensures var t := RegisterAll(p, s, u, p.expand(u)[..i]); t.Some? && Mid(p, srcs, t.value, u, i)
  {
    if i > 0 {
      RegisterPrefix(p, srcs, s, u, i - 1);
      var t := RegisterAll(p, s, u, p.expand(u)[..i - 1]).value;
      RegisterNext(p, srcs, t, u, i - 1);
      RegisterAllStep(p, s, u, p.expand(u), i);
    } else {
      assert p.expand(u)[..0] == [];
    }
  }

  lemma ExpandedInv<S(!new), E(!new)>(p: Problem<S, E>, srcs: set<S>, s: State<S, E>, u: S)
    requires NonNegative(p) && Consistent(p) && Inv(p, srcs, s) && IsFirst(s, u)
    ensures var t := Expanded(p, s, u); t.Some? && Inv(p, srcs, t.value) && t.value.closed == s.closed + [u]
  {
    CloseFirst(p, srcs, s, u);
    RegisterPrefix(p, srcs, Close(s, u), u, |p.expand(u)|);
    assert p.expand(u)[..|p.expand(u)|] == p.expand(u);
    RegisterAllCloses(p, Close(s, u), u, p.expand(u));
  }

  lemma {:induction false} RegisterAllCloses<S(!new), E(!new)>(p: Problem<S, E>, s: State<S, E>, u: S,
                                                               cs: seq<Candidate<S, E>>)
    requires u in s.nodes && RegisterAll(p, s, u, cs).Some?
    ensures RegisterAll(p, s, u, cs).value.closed == s.closed
  {
    if cs != [] {
      RegisterAllCloses(p, s, u, cs[..|cs| - 1]);
    }
  }

  // ---- Whole runs ----

  ghost predicate NoTargetClosed<S, E>(p: Problem<S, E>, s: State<S, E>) {
    forall u :: u in s.closed ==> !p.isTarget(u)
  }

  // One step that does not end the search.
  ghost predicate Next<S(!new), E>(p: Problem<S, E>, s: State<S, E>, t: State<S, E>) {
    exists u :: IsFirst(s, u) && !p.isTarget(u) && Expanded(p, s, u) == Some(t)
  }

  ghost predicate IsRun<S(!new), E>(p: Problem<S, E>, srcs: set<S>, run: seq<State<S, E>>) {
    run != [] && Initial(srcs, run[0]) && forall i :: 0 < i < |run| ==> Next(p, run[i - 1], run[i])
  }

  lemma NextInv<S(!new), E(!new)>(p: Problem<S, E>, srcs: set<S>, s: State<S, E>, t: State<S, E>)
    requires NonNegative(p) && Consistent(p) && Inv(p, srcs, s) && NoTargetClosed(p, s) && Next(p, s, t)
    ensures Inv(p, srcs, t) && NoTargetClosed(p, t)
  {
    var u :| IsFirst(s, u) && !p.isTarget(u) && Expanded(p, s, u) == Some(t);
    ExpandedInv(p, srcs, s, u);
  }

  // In every reachable state the invariant holds, and no step from it can abort.
  lemma {:induction false} ReachableStatesAreSafe<S(!new), E(!new)>(p: Problem<S, E>, srcs: set<S>,
                                                                    run: seq<State<S, E>>)
    requires NonNegative(p) && Consistent(p) && IsRun(p, srcs, run)
    ensures var s := run[|run| - 1];
            && Inv(p, srcs, s)
            && NoTargetClosed(p, s)
            && forall u :: IsFirst(s, u) ==> Expanded(p, s, u).Some?
  {
    var n := |run| - 1;
    if n == 0 {
      InitialInv(p, srcs, run[0]);
    } else {
      ReachableStatesAreSafe(p, srcs, run[..n]);
      assert Next(p, run[n - 1], run[n]);
      NextInv(p, srcs, run[n - 1], run[n]);
    }
    forall u | IsFirst(run[n], u) ensures Expanded(p, run[n], u).Some? {
      ExpandedInv(p, srcs, run[n], u);
    }
  }

  // When the first open node is a target, no path to any target is cheaper.
  lemma FirstTargetIsOptimal<S(!new), E(!new)>(p: Problem<S, E>, srcs: set<S>, s: State<S, E>, u: S, src: S,
                                               steps: seq<Candidate<S, E>>, t: S)
    requires NonNegative(p) && Consistent(p) && Inv(p, srcs, s) && NoTargetClosed(p, s)
    requires IsFirst(s, u) && p.isTarget(t) && PathTo(p, srcs, src, steps, t)
    ensures G(s.nodes[u]) <= Cost(steps)
  {
    assert GoodRecord(p, srcs, s, u, s.nodes[u], Rank(s, u));
    CostNonNegative(p, src, steps);
    var y := Frontier(p, srcs, s, src, steps);
  }

  // When nothing is open, no target can be reached.
  lemma ExhaustedMeansUnreachable<S(!new), E(!new)>(p: Problem<S, E>, srcs: set<S>, s: State<S, E>, src: S,
                                                    steps: seq<Candidate<S, E>>, t: S)
    requires NonNegative(p) && Consistent(p) && Inv(p, srcs, s) && NoTargetClosed(p, s)
    requires (forall v :: !IsOpen(s, v)) && PathTo(p, srcs, src, steps, t)
    ensures !p.isTarget(t)
  {
    if p.isTarget(t) {
      var y := Frontier(p, srcs, s, src, steps);
    }
  }

  // ---- What a finished search has established ----

  // u is a target, and no path to any target costs less than g.
  ghost predicate Optimum<S(!new), E(!new)>(p: Problem<S, E>, srcs: set<S>, u: S, g: real) {
    p.isTarget(u) && forall src, steps, t :: PathTo(p, srcs, src, steps, t) && p.isTarget(t) ==> g <= Cost(steps)
  }

  ghost predicate Unreachable<S(!new), E(!new)>(p: Problem<S, E>, srcs: set<S>) {
    forall src, steps, t :: PathTo(p, srcs, src, steps, t) ==> !p.isTarget(t)
  }

  ghost predicate NothingOpen<S(!new), E>(s: State<S, E>) {
    forall v :: !IsOpen(s, v)
  }

  ghost predicate Running<S(!new), E(!new)>(p: Problem<S, E>, srcs: set<S>, all: set<S>, s: State<S, E>) {
    Inv(p, srcs, s) && NoTargetClosed(p, s) && s.nodes.Keys <= all
  }

  ghost predicate Finished<S(!new), E(!new)>(p: Problem<S, E>, srcs: set<S>, s: State<S, E>, u: S) {
    Tree(p, srcs, s) && u in s.nodes && !s.nodes[u].connector && Optimum(p, srcs, u, G(s.nodes[u]))
  }

  lemma StartsRunning<S(!new), E(!new)>(p: Problem<S, E>, srcs: set<S>, all: set<S>, s: State<S, E>)
    requires Initial(srcs, s) && srcs <= all
    ensures Running(p, srcs, all, s)
  {
    InitialInv(p, srcs, s);
  }

  lemma StopsExhausted<S(!new), E(!new)>(p: Problem<S, E>, srcs: set<S>, all: set<S>, s: State<S, E>)
    requires NonNegative(p) && Consistent(p) && Running(p, srcs, all, s) && NothingOpen(s)
    ensures Unreachable(p, srcs)
  {
    forall src, steps, t | PathTo(p, srcs, src, steps, t) ensures !p.isTarget(t) {
      ExhaustedMeansUnreachable(p, srcs, s, src, steps, t);
    }
  }

  lemma StopsReached<S(!new), E(!new)>(p: Problem<S, E>, srcs: set<S>, all: set<S>, s: State<S, E>, u: S)
    requires NonNegative(p) && Consistent(p) && Running(p, srcs, all, s) && IsFirst(s, u) && p.isTarget(u)
    ensures Finished(p, srcs, Close(s, u), u)
  {
    CloseTree(p, srcs, s, u);
    forall src, steps, t | PathTo(p, srcs, src, steps, t) && p.isTarget(t) ensures G(s.nodes[u]) <= Cost(steps) {
      FirstTargetIsOptimal(p, srcs, s, u, src, steps, t);
    }
  }

  lemma KeepsRunning<S(!new), E(!new)>(p: Problem<S, E>, srcs: set<S>, all: set<S>, s: State<S, E>, u: S)
    requires NonNegative(p) && Consistent(p) && Universe(p, srcs, all)
    requires Running(p, srcs, all, s) && IsFirst(s, u) && !p.isTarget(u)
    ensures var t := Expanded(p, s, u);
            t.Some? && Running(p, srcs, all, t.value) && |s.closed| < |t.value.closed| <= |all|
  {
    ExpandedInv(p, srcs, s, u);
    var t := Expanded(p, s, u).value;
    StaysWithin(p, srcs, all, Close(s, u), u, p.expand(u));
    AtMostAll(t.closed, all);
  }

  lemma {:induction false} StaysWithin<S(!new), E(!new)>(p: Problem<S, E>, srcs: set<S>, all: set<S>, s: State<S, E>,
                                                         u: S, cs: seq<Candidate<S, E>>)
    requires u in s.nodes && s.nodes.Keys <= all && RegisterAll(p, s, u, cs).Some?
    requires forall c :: c in cs ==> c.node in all
    ensures RegisterAll(p, s, u, cs).value.nodes.Keys <= all
  {
    if cs != [] {
      StaysWithin(p, srcs, all, s, u, cs[..|cs| - 1]);
    }
  }

  lemma {:induction false} AtMostAll<T>(q: seq<T>, all: set<T>)
    requires Distinct(q) && forall x :: x in q ==> x in all
    ensures |q| <= |all|
  {
    if q != [] {
      var n := |q| - 1;
      assert forall x :: x in q[..n] ==> x in all - {q[n]};
      AtMostAll(q[..n], all - {q[n]});
    }
  }
}
