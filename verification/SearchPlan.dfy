/**
 Plans: the sequences of steps a search reports, and the paths they stand for.
 */
module SearchPlan {
  import opened Wrappers
  import opened SearchSpec
  import opened SearchTree

  datatype PlanStep<+S, +E> = PlanStep(edge: Option<E>, earlier: real, cost: real, node: S) {
    function Cumulative(): real { earlier + cost }
  }

  // b continues a along an edge of the graph, and its earlier cost is a's cumulative cost.
  ghost predicate Continues<S, E>(p: Problem<S, E>, a: PlanStep<S, E>, b: PlanStep<S, E>) {
    && b.edge.Some? && Candidate(b.edge.value, b.cost, b.node) in p.expand(a.node)
    && b.earlier == a.Cumulative()
  }

  ghost predicate IsPlan<S, E>(p: Problem<S, E>, plan: seq<PlanStep<S, E>>) {
    && plan != []
    && plan[0].edge.None? && plan[0].earlier == 0.0 && plan[0].cost == 0.0
    && (forall i :: 0 < i < |plan| ==> plan[i].edge.Some?)
    && (forall i :: 0 < i < |plan| ==> Continues(p, plan[i - 1], plan[i]))
  }

  // The edges a plan takes.
  ghost function Steps<S, E>(plan: seq<PlanStep<S, E>>): (steps: seq<Candidate<S, E>>)
    requires forall i :: 0 < i < |plan| ==> plan[i].edge.Some?
  {
    if |plan| <= 1 then [] else
      var n := |plan| - 1;
      Steps(plan[..n]) + [Candidate(plan[n].edge.value, plan[n].cost, plan[n].node)]
  }

  ghost predicate SpellsPath<S, E(!new)>(p: Problem<S, E>, plan: seq<PlanStep<S, E>>, steps: seq<Candidate<S, E>>)
    requires plan != []
  {
    && IsPath(p, plan[0].node, steps)
    && End(plan[0].node, steps) == plan[|plan| - 1].node
    && Cost(steps) == plan[|plan| - 1].Cumulative()
  }

  // A plan is a path whose edge costs telescope to the last cumulative cost.
  lemma {:induction false} PlanIsPath<S(!new), E(!new)>(p: Problem<S, E>, plan: seq<PlanStep<S, E>>)
    requires IsPlan(p, plan)
    ensures SpellsPath(p, plan, Steps(plan))
  {
    if |plan| > 1 {
      var n := |plan| - 1;
      assert Continues(p, plan[n - 1], plan[n]);
      Shortened(p, plan);
      PlanIsPath(p, plan[..n]);
      var c := Candidate(plan[n].edge.value, plan[n].cost, plan[n].node);
      PathExtended(p, plan[0].node, Steps(plan[..n]), c);
    }
  }

  lemma Shortened<S, E>(p: Problem<S, E>, plan: seq<PlanStep<S, E>>)
    requires IsPlan(p, plan) && |plan| > 1
    ensures IsPlan(p, plan[..|plan| - 1])
  {
    var pre := plan[..|plan| - 1];
    forall i | 0 < i < |pre| ensures Continues(p, pre[i - 1], pre[i]) {
      assert Continues(p, plan[i - 1], plan[i]);
    }
  }

  lemma PathExtended<S, E(!new)>(p: Problem<S, E>, src: S, steps: seq<Candidate<S, E>>, c: Candidate<S, E>)
    requires IsPath(p, src, steps) && c in p.expand(End(src, steps))
    ensures IsPath(p, src, steps + [c]) && End(src, steps + [c]) == c.node && Cost(steps + [c]) == Cost(steps) + c.cost
  {
    assert (steps + [c])[..|steps|] == steps;
  }

  lemma {:induction false} PathPrepended<S(!new), E(!new)>(p: Problem<S, E>, x: S, c: Candidate<S, E>,
                                                           steps: seq<Candidate<S, E>>)
    requires c in p.expand(x) && IsPath(p, c.node, steps)
    ensures IsPath(p, x, [c] + steps) && End(x, [c] + steps) == End(c.node, steps)
    ensures Cost([c] + steps) == c.cost + Cost(steps)
    decreases |steps|
  {
    if steps == [] {
      assert [c] + steps == [c] && [c][..0] == [];
      assert IsPath(p, x, [c][..0]) && Cost([c][..0]) == 0.0;
    } else {
      var n := |steps| - 1;
      PathPrepended(p, x, c, steps[..n]);
      assert ([c] + steps)[..n + 1] == [c] + steps[..n];
    }
  }

  // Parent links lead to earlier-closed nodes.
  ghost predicate Rooted<S(!new), E>(s: State<S, E>) {
    forall v {:trigger s.nodes[v].link} :: v in s.nodes && s.nodes[v].link.Some? ==>
      var u := s.nodes[v].link.value.parent; u in s.nodes && Rank(s, u) < Rank(s, v)
  }

  // The plan spelled out by the parent links of v.
  function PlanTo<S(==, !new), E>(s: State<S, E>, v: S): (plan: seq<PlanStep<S, E>>)
    requires Rooted(s) && v in s.nodes
    ensures plan != [] && plan[|plan| - 1].node == v
    decreases Rank(s, v)
  {
    var r := s.nodes[v];
    if r.link.None? then [LastStep(s, v)] else PlanTo(s, r.link.value.parent) + [LastStep(s, v)]
  }

  function LastStep<S, E>(s: State<S, E>, v: S): (step: PlanStep<S, E>)
    requires v in s.nodes && (s.nodes[v].link.Some? ==> s.nodes[v].link.value.parent in s.nodes)
  {
    match s.nodes[v].link
    case None => PlanStep(None, 0.0, 0.0, v)
    case Some(l) => PlanStep(l.edge, G(s.nodes[l.parent]), l.edgeCost, v)
  }

  // Moving one step from the unread part of a plan to the part read backwards.
  lemma TraceStep<S(!new), E>(s: State<S, E>, v: S, done: seq<PlanStep<S, E>>)
    requires Rooted(s) && v in s.nodes
    ensures s.nodes[v].link.None? ==> PlanTo(s, v) + Reversed(done) == Reversed(done + [LastStep(s, v)])
    ensures s.nodes[v].link.Some? ==>
              PlanTo(s, v) + Reversed(done) ==
                  PlanTo(s, s.nodes[v].link.value.parent) + Reversed(done + [LastStep(s, v)])
  {
    assert Reversed(done + [LastStep(s, v)]) == [LastStep(s, v)] + Reversed(done);
  }

  lemma TreeRooted<S(!new), E>(p: Problem<S, E>, srcs: set<S>, s: State<S, E>)
    requires Tree(p, srcs, s)
    ensures Rooted(s)
  {
    forall v | v in s.nodes && s.nodes[v].link.Some?
      ensures var u := s.nodes[v].link.value.parent; u in s.nodes && Rank(s, u) < Rank(s, v)
    {
      assert GoodRecord(p, srcs, s, v, s.nodes[v], Rank(s, v));
    }
  }

  lemma {:induction false} PlanToIsPlan<S(!new), E>(p: Problem<S, E>, srcs: set<S>, s: State<S, E>, v: S)
    requires Tree(p, srcs, s) && Rooted(s) && v in s.nodes && !s.nodes[v].connector
    ensures var plan := PlanTo(s, v);
            IsPlan(p, plan) && plan[0].node in srcs && plan[|plan| - 1].Cumulative() == G(s.nodes[v])
    decreases Rank(s, v)
  {
    assert GoodRecord(p, srcs, s, v, s.nodes[v], Rank(s, v));
    if s.nodes[v].link.Some? {
      var u := s.nodes[v].link.value.parent;
      PlanToIsPlan(p, srcs, s, u);
      Extended(p, PlanTo(s, u), PlanTo(s, v)[|PlanTo(s, u)|]);
    }
  }

  // A plan of problem p from one of srcs to v, of the given cost.
  ghost predicate PlanFor<S, E>(p: Problem<S, E>, srcs: set<S>, v: S, cost: real, plan: seq<PlanStep<S, E>>) {
    && IsPlan(p, plan) && plan[0].node in srcs
    && plan[|plan| - 1].node == v && plan[|plan| - 1].Cumulative() == cost
  }

  lemma PlanToIsFor<S(!new), E>(p: Problem<S, E>, srcs: set<S>, s: State<S, E>, v: S)
    requires Tree(p, srcs, s) && v in s.nodes && !s.nodes[v].connector
    ensures Rooted(s) && PlanFor(p, srcs, v, G(s.nodes[v]), PlanTo(s, v))
  {
    TreeRooted(p, srcs, s);
    PlanToIsPlan(p, srcs, s, v);
  }

  lemma Extended<S, E>(p: Problem<S, E>, plan: seq<PlanStep<S, E>>, b: PlanStep<S, E>)
    requires IsPlan(p, plan) && Continues(p, plan[|plan| - 1], b)
    ensures IsPlan(p, plan + [b])
  {
  }

  // ---- In-place reversal ----

  function Reversed<T>(v: seq<T>): (r: seq<T>)
    ensures |r| == |v| && forall i :: 0 <= i < |v| ==> r[i] == v[|v| - 1 - i]
  {
    seq(|v|, i requires 0 <= i < |v| => v[|v| - 1 - i])
  }

  // All but the outer i elements on either side are reversed.
  ghost predicate Reverses<T>(v: seq<T>, r: seq<T>, i: int) {
    && |r| == |v|
    && (forall k {:trigger r[k]} :: 0 <= k < |v| && i <= k < |v| - i ==> r[k] == v[|v| - 1 - k])
    && (forall k {:trigger r[k]} :: 0 <= k < |v| && !(i <= k < |v| - i) ==> r[k] == v[k])
  }

  lemma ReversesMore<T>(v: seq<T>, r: seq<T>, i: int)
    requires 0 <= i < |v| / 2 && Reverses(v, r, i + 1)
    ensures Reverses(v, r[i := r[|v| - 1 - i]][|v| - 1 - i := r[i]], i)
  {
    var j := |v| - 1 - i;
    assert r[i] == v[i] && r[j] == v[j];
    var s := r[i := r[j]][j := r[i]];
    assert forall k {:trigger s[k]} :: 0 <= k < |v| && k != i && k != j ==> s[k] == r[k];
  }

  method ReverseVector<T>(v: seq<T>) returns (r: seq<T>)
    ensures r == Reversed(v)
  {
    r := v;
    var n, i := |v|, |v| / 2;
    while i > 0
      invariant 0 <= i <= n / 2 && Reverses(v, r, i)
    {
      i := i - 1;
      ReversesMore(v, r, i);
      r := r[i := r[n - 1 - i]][n - 1 - i := r[i]];
    }
  }
}
