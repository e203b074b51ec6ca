/**
 What the estimate must satisfy: an estimate that never exceeds the remaining cost keeps every
 search from failing exactly if it is consistent.
 */
module SearchLimits {
  import opened Wrappers
  import opened SearchSpec
  import opened SearchOptimal
  import opened SearchPlan
  import opened SearchRace

  // The estimate never exceeds the cost of a path to a target.
  ghost predicate Admissible<S(!new), E(!new)>(p: Problem<S, E>) {
    forall u, steps :: IsPath(p, u, steps) && p.isTarget(End(u, steps)) ==> p.h(u) <= Cost(steps)
  }

  lemma {:induction false} EstimateDrops<S(!new), E(!new)>(p: Problem<S, E>, u: S, steps: seq<Candidate<S, E>>)
    requires Consistent(p) && IsPath(p, u, steps)
    ensures p.h(u) <= Cost(steps) + p.h(End(u, steps))
  {
    if steps != [] {
      EstimateDrops(p, u, steps[..|steps| - 1]);
    }
  }

  lemma ConsistentIsAdmissible<S(!new), E(!new)>(p: Problem<S, E>)
    requires Consistent(p)
    ensures Admissible(p)
  {
    forall u, steps | IsPath(p, u, steps) && p.isTarget(End(u, steps))
      ensures p.h(u) <= Cost(steps)
    {
      EstimateDrops(p, u, steps);
    }
  }

  // ---- A new source with two edges into the graph ----

  datatype Attachment<+S, +E> = Attachment(near: S, nearCost: real, far: S, farCost: real, edge: E)

  function Lifted<S, E>(c: Candidate<S, E>): (d: Candidate<Option<S>, E>) {
    Candidate(c.edge, c.cost, Some(c.node))
  }

  function AllLifted<S, E>(cs: seq<Candidate<S, E>>): (ds: seq<Candidate<Option<S>, E>>)
    ensures |ds| == |cs| && forall i :: 0 <= i < |cs| ==> ds[i] == Lifted(cs[i])
  {
    if cs == [] then [] else AllLifted(cs[..|cs| - 1]) + [Lifted(cs[|cs| - 1])]
  }

  // The new source is None; the states of the graph are the others.
  function Attached<S, E>(p: Problem<S, E>, a: Attachment<S, E>): (q: Problem<Option<S>, E>)
    ensures q.expand(None) == [Candidate(a.edge, a.nearCost, Some(a.near)), Candidate(a.edge, a.farCost, Some(a.far))]
    ensures q.h(None) == 0.0 && !q.isTarget(None)
  {
    Problem(
      (x: Option<S>) =>
        if x.Some? then AllLifted(p.expand(x.value))
        else [Candidate(a.edge, a.nearCost, Some(a.near)), Candidate(a.edge, a.farCost, Some(a.far))],
      (x: Option<S>) => if x.Some? then p.h(x.value) else 0.0,
      (x: Option<S>) => x.Some? && p.isTarget(x.value))
  }

  lemma AttachedState<S(!new), E(!new)>(p: Problem<S, E>, a: Attachment<S, E>, x: S)
    ensures Attached(p, a).expand(Some(x)) == AllLifted(p.expand(x))
    ensures Attached(p, a).h(Some(x)) == p.h(x) && Attached(p, a).isTarget(Some(x)) == p.isTarget(x)
  {
  }

  lemma LiftedFrom<S(!new), E(!new)>(p: Problem<S, E>, a: Attachment<S, E>, x: S, d: Candidate<Option<S>, E>)
    returns (c: Candidate<S, E>)
    requires d in Attached(p, a).expand(Some(x))
    ensures c in p.expand(x) && d == Lifted(c)
  {
    AttachedState(p, a, x);
    var i :| 0 <= i < |p.expand(x)| && AllLifted(p.expand(x))[i] == d;
    c := p.expand(x)[i];
  }

  ghost predicate Costs<S, E>(a: Attachment<S, E>) {
    0.0 <= a.nearCost && 0.0 <= a.farCost
  }

  lemma AttachedNonNegative<S(!new), E(!new)>(p: Problem<S, E>, a: Attachment<S, E>)
    requires NonNegative(p) && Costs(a)
    ensures NonNegative(Attached(p, a))
  {
    var q := Attached(p, a);
    forall u, d | d in q.expand(u)
      ensures 0.0 <= d.cost
    {
      if u.Some? {
        var c := LiftedFrom(p, a, u.value, d);
      }
    }
  }

  lemma AttachedConsistent<S(!new), E(!new)>(p: Problem<S, E>, a: Attachment<S, E>)
    requires Consistent(p) && Costs(a)
    ensures Consistent(Attached(p, a))
  {
    var q := Attached(p, a);
    forall u
      ensures 0.0 <= q.h(u) && (q.isTarget(u) ==> q.h(u) == 0.0)
    {
      if u.Some? {
        AttachedState(p, a, u.value);
      }
    }
    forall u, d | d in q.expand(u)
      ensures q.h(u) <= d.cost + q.h(d.node)
    {
      AttachedState(p, a, d.node.value);
      if u.Some? {
        var c := LiftedFrom(p, a, u.value, d);
        AttachedState(p, a, u.value);
      }
    }
  }

  // ---- Consistent estimates never fail ----

  ghost predicate NeverFails<S(!new), E(!new)>(q: Problem<Option<S>, E>) {
    forall run, v :: !Fails(q, None, run, v)
  }

  lemma ConsistentNeverFails<S(!new), E(!new)>(p: Problem<S, E>, a: Attachment<S, E>)
    requires NonNegative(p) && Consistent(p) && Costs(a)
    ensures NeverFails(Attached(p, a))
  {
    var q := Attached(p, a);
    AttachedNonNegative(p, a);
    AttachedConsistent(p, a);
    forall run, v
      ensures !Fails(q, None, run, v)
    {
      if IsRun(q, {None}, run) {
        ReachableStatesAreSafe(q, {None}, run);
      }
    }
  }

  // ---- Others do ----

  // A path of the attached graph that starts inside stays inside.
  lemma {:induction false} PathInside<S(!new), E(!new)>(p: Problem<S, E>, a: Attachment<S, E>, x: S,
                                                        steps: seq<Candidate<Option<S>, E>>)
    returns (inside: seq<Candidate<S, E>>)
    requires IsPath(Attached(p, a), Some(x), steps)
    ensures IsPath(p, x, inside) && Cost(inside) == Cost(steps) && Some(End(x, inside)) == End(Some(x), steps)
    decreases |steps|
  {
    if steps == [] {
      inside := [];
    } else {
      var n := |steps| - 1;
      var before := PathInside(p, a, x, steps[..n]);
      var c := LiftedFrom(p, a, End(x, before), steps[n]);
      inside := before + [c];
      assert inside[..|before|] == before;
    }
  }

  // The attachment that makes an inconsistent edge c of u lose the race.
  function Trap<S, E>(p: Problem<S, E>, u: S, c: Candidate<S, E>): (a: Attachment<S, E>) {
    Attachment(u, 0.0, c.node, c.cost + (p.h(u) - c.cost - p.h(c.node)) / 2.0, c.edge)
  }

  function TrapRace<S, E>(p: Problem<S, E>, u: S, c: Candidate<S, E>): (r: Race<Option<S>>) {
    Race(None, Some(u), Some(c.node), Trap(p, u, c).farCost, p.h(u) + (p.h(u) - c.cost - p.h(c.node)) / 2.0)
  }

  ghost predicate Inconsistent<S, E>(p: Problem<S, E>, u: S, c: Candidate<S, E>) {
    c in p.expand(u) && c.cost + p.h(c.node) < p.h(u)
  }

  lemma TrapIsBeyond<S(!new), E(!new)>(p: Problem<S, E>, u: S, c: Candidate<S, E>)
    requires Admissible(p) && Inconsistent(p, u, c)
    ensures var r := TrapRace(p, u, c); Beyond(Attached(p, Trap(p, u, c)), r.bound, r.early, r.cost)
  {
    var a, r := Trap(p, u, c), TrapRace(p, u, c);
    var q := Attached(p, a);
    forall steps | IsPath(q, r.early, steps) && q.isTarget(End(r.early, steps))
      ensures r.bound <= r.cost + Cost(steps)
    {
      var inside := PathInside(p, a, c.node, steps);
      AttachedState(p, a, End(c.node, inside));
      PathPrepended(p, u, c, inside);
      assert p.h(u) <= Cost([c] + inside);
    }
  }

  lemma TrapIsRace<S(!new), E(!new)>(p: Problem<S, E>, u: S, c: Candidate<S, E>)
    requires NonNegative(p) && Admissible(p) && (forall x :: 0.0 <= p.h(x)) && Inconsistent(p, u, c)
    ensures IsRace(Attached(p, Trap(p, u, c)), TrapRace(p, u, c))
  {
    var a, r := Trap(p, u, c), TrapRace(p, u, c);
    var q := Attached(p, a);
    AttachedNonNegative(p, a);
    TrapIsBeyond(p, u, c);
    AttachedState(p, a, u);
    AttachedState(p, a, c.node);
    forall x
      ensures 0.0 <= q.h(x)
    {
      if x.Some? {
        AttachedState(p, a, x.value);
      }
    }
  }

  // From x only finitely many states can be reached.
  ghost predicate FiniteFrom<S(!new), E(!new)>(p: Problem<S, E>, x: S) {
    exists all :: Universe(p, {x}, all)
  }

  lemma AttachedIsFinite<S(!new), E(!new)>(p: Problem<S, E>, a: Attachment<S, E>) returns (all: set<Option<S>>)
    requires FiniteFrom(p, a.near) && FiniteFrom(p, a.far)
    ensures Universe(Attached(p, a), {None}, all)
  {
    var xs :| Universe(p, {a.near}, xs);
    var ys :| Universe(p, {a.far}, ys);
    all := {None} + set x | x in xs + ys :: Some(x);
    var q := Attached(p, a);
    forall u, d | u in all && d in q.expand(u)
      ensures d.node in all
    {
      if u.Some? {
        var c := LiftedFrom(p, a, u.value, d);
        assert c.node in xs + ys;
      } else {
        assert a.near in xs + ys && a.far in xs + ys;
      }
    }
  }

  lemma TrapUndercuts<S(!new), E(!new)>(p: Problem<S, E>, u: S, c: Candidate<S, E>) returns (i: nat)
    requires Inconsistent(p, u, c)
    ensures Undercuts(Attached(p, Trap(p, u, c)), TrapRace(p, u, c), i)
  {
    AttachedState(p, Trap(p, u, c), u);
    i :| i < |p.expand(u)| && p.expand(u)[i] == c;
    assert AllLifted(p.expand(u))[i] == Lifted(c);
  }

  lemma NoTarget<S(!new), E(!new)>(p: Problem<S, E>, u: S)
    requires Admissible(p) && p.isTarget(u)
    ensures p.h(u) <= 0.0
  {
    var none: seq<Candidate<S, E>> := [];
    assert IsPath(p, u, none) && End(u, none) == u && Cost(none) == 0.0;
  }

  // An edge along which the estimate drops by more than the cost makes some search fail.
  lemma InconsistentFails<S(!new), E(!new)>(p: Problem<S, E>, u: S, c: Candidate<S, E>)
    returns (run: seq<State<Option<S>, E>>, v: Option<S>)
    requires NonNegative(p) && Admissible(p) && (forall x :: 0.0 <= p.h(x)) && Inconsistent(p, u, c)
    requires FiniteFrom(p, u) && FiniteFrom(p, c.node)
    ensures Fails(Attached(p, Trap(p, u, c)), None, run, v)
  {
    var a := Trap(p, u, c);
    var all := AttachedIsFinite(p, a);
    TrapIsRace(p, u, c);
    var i := TrapUndercuts(p, u, c);
    AttachedState(p, a, u);
    if p.isTarget(u) {
      NoTarget(p, u);
    }
    run, v := RaceFails(Attached(p, a), TrapRace(p, u, c), all, i);
  }

  // Of the estimates that never exceed the remaining cost, exactly the consistent ones keep
  // every search from every new source from failing.
  lemma ConsistentIffNeverFails<S(!new), E(!new)>(p: Problem<S, E>)
    requires NonNegative(p) && Admissible(p) && (forall x :: 0.0 <= p.h(x)) && forall x :: FiniteFrom(p, x)
    ensures Consistent(p) <==> forall a: Attachment<S, E> :: Costs(a) ==> NeverFails(Attached(p, a))
  {
    if Consistent(p) {
      forall a: Attachment<S, E> | Costs(a)
        ensures NeverFails(Attached(p, a))
      {
        ConsistentNeverFails(p, a);
      }
    } else {
      var u, c := BadEdge(p);
      assert FiniteFrom(p, u) && FiniteFrom(p, c.node);
      var run, v := InconsistentFails(p, u, c);
      assert Costs(Trap(p, u, c)) && !NeverFails(Attached(p, Trap(p, u, c)));
    }
  }

  lemma BadEdge<S(!new), E(!new)>(p: Problem<S, E>) returns (u: S, c: Candidate<S, E>)
    requires Admissible(p) && (forall x :: 0.0 <= p.h(x)) && !Consistent(p)
    ensures Inconsistent(p, u, c)
  {
    forall x | p.isTarget(x)
      ensures p.h(x) == 0.0
    {
      NoTarget(p, x);
    }
    u, c :| c in p.expand(u) && !(p.h(u) <= c.cost + p.h(c.node));
  }

  // ---- One such graph ----

  // Nodes 1, 2 and 3 in a row; node 3 is the target.
  function Edges(u: int): (r: seq<Candidate<int, int>>) {
    if u == 1 then [Candidate(1, 1.0, 2)] else if u == 2 then [Candidate(2, 20.0, 3)] else []
  }

  // Node 1 is estimated too high next to node 2, but not above its remaining cost of 21.
  function Estimate(u: int): (h: real) {
    if u == 1 then 10.0 else 0.0
  }

  function Remaining(u: int): (h: real) {
    if u == 1 then 21.0 else if u == 2 then 20.0 else 0.0
  }

  function IsThree(u: int): (r: bool) {
    u == 3
  }

  function Row(h: int -> real): (p: Problem<int, int>) {
    Problem(Edges, h, IsThree)
  }

  lemma {:induction false} SamePaths(u: int, steps: seq<Candidate<int, int>>)
    requires IsPath(Row(Estimate), u, steps)
    ensures IsPath(Row(Remaining), u, steps)
  {
    if steps != [] {
      SamePaths(u, steps[..|steps| - 1]);
    }
  }

  lemma EstimateIsAdmissible()
    ensures Admissible(Row(Estimate))
  {
    var p, q := Row(Estimate), Row(Remaining);
    ConsistentIsAdmissible(q);
    forall u, steps | IsPath(p, u, steps) && p.isTarget(End(u, steps))
      ensures p.h(u) <= Cost(steps)
    {
      assert q.isTarget(End(u, steps)) && p.h(u) <= q.h(u);
      SamePaths(u, steps);
    }
  }

  // An estimate can be admissible and still make a search fail.
  lemma AdmissibleIsNotEnough() returns (a: Attachment<int, int>, run: seq<State<Option<int>, int>>, v: Option<int>)
    ensures NonNegative(Row(Estimate)) && Admissible(Row(Estimate)) && Costs(a)
    ensures Fails(Attached(Row(Estimate), a), None, run, v)
  {
    var p, c := Row(Estimate), Candidate(1, 1.0, 2);
    EstimateIsAdmissible();
    assert Universe(p, {1}, {1, 2, 3}) && Universe(p, {2}, {2, 3});
    a := Trap(p, 1, c);
    run, v := InconsistentFails(p, 1, c);
  }
}
