/**
 Inputs on which the search from both ends finds nothing although there is a path: a single
 edge, and a source that is a destination.
 */
module TwoWayMiss {
  import opened Wrappers
  import opened SearchSpec
  import opened SearchTree
  import opened SearchOptimal
  import opened SearchPlan
  import opened TwoWaySpec
  import opened TwoWayRuns
  import opened TwoWayComplete
  import opened AStarEngine
  import opened TwoWayEngine

  // ---- Searches whose every turn is forced ----

  // The only turn from d leads to e; no connector is at a head.
  ghost predicate Forced(p: Problem<int, int>, q: Problem<int, int>, d: Duo<int, int>, e: Duo<int, int>) {
    && DuoNext(p, q, d, e) && (forall x :: DuoNext(p, q, d, x) ==> x == e)
    && (forall cost :: !EndsAt(d, cost)) && !Breaks(p, q, d) && !NothingLeft(d)
  }

  // All states of the search, to the end.
  ghost predicate IsScript(p: Problem<int, int>, srcs: set<int>, q: Problem<int, int>, dsts: set<int>,
                           stages: seq<Duo<int, int>>) {
    && stages != [] && Initial(srcs, stages[0].forward) && Initial(dsts, stages[0].reverse)
    && (forall i :: 0 < i < |stages| ==> Forced(p, q, stages[i - 1], stages[i]))
    && NothingLeft(stages[|stages| - 1])
  }

  lemma {:induction false} RunFollowsScript(p: Problem<int, int>, srcs: set<int>, q: Problem<int, int>, dsts: set<int>,
                                            stages: seq<Duo<int, int>>, run: seq<Duo<int, int>>)
    requires IsScript(p, srcs, q, dsts, stages) && IsDuoRun(p, srcs, q, dsts, run)
    ensures |run| <= |stages| && run[|run| - 1] == stages[|run| - 1]
  {
    var n := |run| - 1;
    if n > 0 {
      RunFollowsScript(p, srcs, q, dsts, stages, run[..n]);
      assert DuoNext(p, q, run[n - 1], run[n]);
      if n < |stages| {
        assert Forced(p, q, stages[n - 1], stages[n]);
      }
    }
  }

  // Nowhere on the way is a plan found, or does a turn fail.
  lemma ScriptGoesOn(p: Problem<int, int>, srcs: set<int>, q: Problem<int, int>, dsts: set<int>,
                     stages: seq<Duo<int, int>>, n: nat)
    requires IsScript(p, srcs, q, dsts, stages) && n < |stages|
    ensures (forall cost :: !EndsAt(stages[n], cost)) && !Breaks(p, q, stages[n])
  {
    if n + 1 < |stages| {
      assert Forced(p, q, stages[n + 1 - 1], stages[n + 1]);
    }
  }

  // Nothing is all that such a search can report.
  lemma ScriptFindsNothing(p: Problem<int, int>, srcs: set<int>, q: Problem<int, int>, dsts: set<int>,
                           stages: seq<Duo<int, int>>, run: seq<Duo<int, int>>, o: TwoWayResult<int, int>)
    requires IsScript(p, srcs, q, dsts, stages) && Concludes(p, srcs, q, dsts, run, o)
    ensures o == NotFound
  {
    RunFollowsScript(p, srcs, q, dsts, stages, run);
    ScriptGoesOn(p, srcs, q, dsts, stages, |run| - 1);
  }

  ghost predicate OnlyFirst(s: State<int, int>, u: int) {
    IsFirst(s, u) && (forall x :: IsFirst(s, x) ==> x == u) && !s.nodes[u].connector
  }

  lemma ForwardForced(p: Problem<int, int>, q: Problem<int, int>, d: Duo<int, int>, u: int, c: State<int, int>)
    requires OnlyFirst(d.forward, u) && TurnAt(p, d.forward, d.reverse, u) == Some(c)
    requires forall v :: IsOpen(d.reverse, v) ==> d.forward.nodes[u].f <= d.reverse.nodes[v].f
    ensures Forced(p, q, d, Duo(c, d.reverse))
  {
    assert IsOpen(d.forward, u);
    assert forall x :: !Moves(d.reverse, d.forward, x, false);
    assert forall x :: Moves(d.forward, d.reverse, x, true) ==> x == u;
    assert ForwardTurn(p, d, u, Some(c));
  }

  lemma ReverseForced(p: Problem<int, int>, q: Problem<int, int>, d: Duo<int, int>, u: int, c: State<int, int>)
    requires OnlyFirst(d.reverse, u) && TurnAt(q, d.reverse, d.forward, u) == Some(c)
    requires forall v :: IsOpen(d.forward, v) ==> d.reverse.nodes[u].f < d.forward.nodes[v].f
    ensures Forced(p, q, d, Duo(d.forward, c))
  {
    assert IsOpen(d.reverse, u);
    assert forall x :: !Moves(d.forward, d.reverse, x, true);
    assert forall x :: Moves(d.reverse, d.forward, x, false) ==> x == u;
    assert ReverseTurn(q, d, u, Some(c));
  }

  // ---- Without estimates or targets ----

  function Zero(u: int): (h: real) {
    0.0
  }

  function Never(u: int): (r: bool) {
    false
  }

  function Graph(expand: int -> seq<Candidate<int, int>>): (p: Problem<int, int>) {
    Problem(expand, Zero, Never)
  }

  // ---- A single edge ----

  // The edge from node 0 to node 1, of cost 1.
  function Forward(u: int): (r: seq<Candidate<int, int>>) {
    if u == 0 then [Candidate(0, 1.0, 1)] else []
  }

  function Backward(u: int): (r: seq<Candidate<int, int>>) {
    if u == 1 then [Candidate(0, 1.0, 0)] else []
  }

  // What a search from u knows at first, after expanding u, and after closing v as well.
  function Known0(u: int): (s: State<int, int>) {
    State(map[u := SourceRecord()], [])
  }

  function Known1(u: int, v: int): (s: State<int, int>) {
    State(map[u := SourceRecord(), v := Record(Some(ParentLink(u, Some(0), 1.0, 1.0)), 1.0, false)], [u])
  }

  function Known2(u: int, v: int): (s: State<int, int>) {
    Known1(u, v).(closed := [u, v])
  }

  function EdgeStages(): (stages: seq<Duo<int, int>>) {
    [ Duo(Known0(0), Known0(1)),
      Duo(Known1(0, 1), Known0(1)),
      Duo(Known1(0, 1), Known1(1, 0)),
      Duo(Known2(0, 1), Known1(1, 0)),
      Duo(Known2(0, 1), Known2(1, 0)) ]
  }

  lemma OnlySourceOpen(u: int, v: int)
    requires u != v
    ensures forall x :: IsOpen(Known0(u), x) <==> x == u
    ensures forall x :: IsOpen(Known1(u, v), x) <==> x == v
    ensures forall x :: !IsOpen(Known2(u, v), x)
    ensures Rooted(Known0(u)) && Rooted(Known1(u, v)) && Rooted(Known2(u, v))
  {
    assert Known2(u, v).closed[1] == v;
    assert Rank(Known1(u, v), u) == 0;
    assert Known2(u, v).closed[..1] == [u];
    assert Rank(Known2(u, v), u) == 0;
  }

  lemma Expands(p: Problem<int, int>, u: int, v: int)
    requires u != v && p.expand(u) == [Candidate(0, 1.0, v)] && p.h(v) == 0.0
    ensures Expanded(p, Known0(u), u) == Some(Known1(u, v))
  {
    var s, cs := Close(Known0(u), u), p.expand(u);
    assert s.closed == [u];
    assert cs[..1] == cs && cs[..0] == [];
    RegisterAllStep(p, s, u, cs, 1);
  }

  // The connector leads to the node just closed, is no cheaper, and is dropped.
  lemma Drops(p: Problem<int, int>, u: int, v: int, b: State<int, int>)
    requires u != v && HasMet(b, v) && b.nodes[v] == SourceRecord()
    ensures TurnAt(p, Known1(u, v), b, v) == Some(Known2(u, v))
  {
    assert RootOf(b, v) == v;
    assert Close(Known1(u, v), v).closed == [u, v];
  }

  lemma OnlySourceFirst(u: int, v: int)
    requires u != v
    ensures OnlyFirst(Known0(u), u) && OnlyFirst(Known1(u, v), v)
  {
    OnlySourceOpen(u, v);
    assert IsOpen(Known0(u), u) && IsOpen(Known1(u, v), v);
  }

  // The side that starts, and the other one after it.
  lemma StartsForced(p: Problem<int, int>, q: Problem<int, int>, u: int, v: int)
    requires u != v && p.expand(u) == [Candidate(0, 1.0, v)] && p.h(v) == 0.0
    ensures Forced(p, q, Duo(Known0(u), Known0(v)), Duo(Known1(u, v), Known0(v)))
  {
    OnlySourceFirst(u, v);
    OnlySourceOpen(v, u);
    Expands(p, u, v);
    ForwardForced(p, q, Duo(Known0(u), Known0(v)), u, Known1(u, v));
  }

  lemma AnswersForced(p: Problem<int, int>, q: Problem<int, int>, u: int, v: int)
    requires u != v && q.expand(v) == [Candidate(0, 1.0, u)] && q.h(u) == 0.0
    ensures Forced(p, q, Duo(Known1(u, v), Known0(v)), Duo(Known1(u, v), Known1(v, u)))
  {
    OnlySourceFirst(v, u);
    OnlySourceOpen(u, v);
    Expands(q, v, u);
    ReverseForced(p, q, Duo(Known1(u, v), Known0(v)), v, Known1(v, u));
  }

  lemma EdgeTurn1()
    ensures Forced(Graph(Forward), Graph(Backward), EdgeStages()[0], EdgeStages()[1])
  {
    StartsForced(Graph(Forward), Graph(Backward), 0, 1);
  }

  lemma EdgeTurn2()
    ensures Forced(Graph(Forward), Graph(Backward), EdgeStages()[1], EdgeStages()[2])
  {
    AnswersForced(Graph(Forward), Graph(Backward), 0, 1);
  }

  lemma EdgeTurn3()
    ensures Forced(Graph(Forward), Graph(Backward), EdgeStages()[2], EdgeStages()[3])
  {
    OnlySourceOpen(0, 1);
    OnlySourceOpen(1, 0);
    Drops(Graph(Forward), 0, 1, Known1(1, 0));
    ForwardForced(Graph(Forward), Graph(Backward), EdgeStages()[2], 1, Known2(0, 1));
  }

  lemma EdgeTurn4()
    ensures Forced(Graph(Forward), Graph(Backward), EdgeStages()[3], EdgeStages()[4]) && NothingLeft(EdgeStages()[4])
  {
    OnlySourceOpen(0, 1);
    OnlySourceOpen(1, 0);
    assert Known2(0, 1).closed[0] == 0;
    Drops(Graph(Backward), 1, 0, Known2(0, 1));
    ReverseForced(Graph(Forward), Graph(Backward), EdgeStages()[3], 0, Known2(1, 0));
  }

  lemma {:induction false} OnlyEdge(src: int, steps: seq<Candidate<int, int>>)
    requires IsPath(Graph(Forward), src, steps) && steps != []
    ensures src == 0 && steps == [Candidate(0, 1.0, 1)]
  {
    var n := |steps| - 1;
    if n > 0 {
      OnlyEdge(src, steps[..n]);
    }
  }

  lemma EdgeTurn(i: nat)
    requires 0 < i < 5
    ensures Forced(Graph(Forward), Graph(Backward), EdgeStages()[i - 1], EdgeStages()[i])
  {
    if i == 1 {
      EdgeTurn1();
    } else if i == 2 {
      EdgeTurn2();
    } else if i == 3 {
      EdgeTurn3();
    } else {
      EdgeTurn4();
    }
  }

  lemma EdgeScript()
    ensures IsScript(Graph(Forward), {0}, Graph(Backward), {1}, EdgeStages())
  {
    forall i | 0 < i < 5
      ensures Forced(Graph(Forward), Graph(Backward), EdgeStages()[i - 1], EdgeStages()[i])
    {
      EdgeTurn(i);
    }
    OnlySourceOpen(0, 1);
    OnlySourceOpen(1, 0);
  }

  lemma EdgeHasNoTies()
    ensures NoTies(Graph(Forward), {0}, {1})
  {
    forall s, t, a, b | IsRoute(Graph(Forward), {0}, {1}, s, a) && IsRoute(Graph(Forward), {0}, {1}, t, b)
      ensures s == t && a == b
    {
      OnlyEdge(s, a);
      OnlyEdge(t, b);
    }
  }

  // The destination can be reached, but every run ends with nothing open and nothing found.
  // The ends are apart, and there is no second route.
  lemma SingleEdgeIsMissed()
    ensures IsScript(Graph(Forward), {0}, Graph(Backward), {1}, EdgeStages())
    ensures Mirror(Graph(Forward), Graph(Backward)) && Reachable(Graph(Forward), {0}, {1})
    ensures {0} !! {1} && NoTies(Graph(Forward), {0}, {1}) && !NoDirectEdge(Graph(Forward), {0}, {1})
  {
    EdgeScript();
    EdgeIsPath();
    EdgeHasNoTies();
    assert Candidate(0, 1.0, 1) in Graph(Forward).expand(0);
  }

  lemma EdgeIsPath()
    ensures Reachable(Graph(Forward), {0}, {1})
  {
    var none: seq<Candidate<int, int>> := [];
    assert IsPath(Graph(Forward), 0, none);
    PathExtended(Graph(Forward), 0, none, Candidate(0, 1.0, 1));
    assert PathTo(Graph(Forward), {0}, 0, none + [Candidate(0, 1.0, 1)], 1);
  }

  // The engines, run on that graph, report that there is no path.
  method SearchSingleEdge() returns (o: TwoWayResult<int, int>)
    ensures o == NotFound
  {
    ghost var run;
    SingleEdgeIsMissed();
    o, run := FindTwoWay(Graph(Forward), Graph(Backward), [0], [1], {0, 1});
    assert Elements([0]) == {0} && Elements([1]) == {1};
    ScriptFindsNothing(Graph(Forward), {0}, Graph(Backward), {1}, EdgeStages(), run, o);
  }

  // ---- A source that is a destination ----

  function Nowhere(u: int): (r: seq<Candidate<int, int>>) {
    []
  }

  function Closed0(): (s: State<int, int>) {
    State(map[0 := SourceRecord()], [0])
  }

  function SharedStages(): (stages: seq<Duo<int, int>>) {
    [Duo(Known0(0), Known0(0)), Duo(Closed0(), Known0(0)), Duo(Closed0(), Closed0())]
  }

  lemma SharedTurns()
    ensures var g, s := Graph(Nowhere), SharedStages();
            Forced(g, g, s[0], s[1]) && Forced(g, g, s[1], s[2]) && NothingLeft(s[2])
  {
    var g := Graph(Nowhere);
    assert Close(Known0(0), 0) == Closed0();
    assert forall x :: IsOpen(Known0(0), x) <==> x == 0;
    assert Closed0().closed[0] == 0;
    ForwardForced(g, g, SharedStages()[0], 0, Closed0());
    assert RootOf(Closed0(), 0) == 0;
    ReverseForced(g, g, SharedStages()[1], 0, Closed0());
  }

  // The source is where it is to go, but nothing is found.  No edge joins the ends, and there is
  // no second route.
  lemma SharedEndIsMissed()
    ensures IsScript(Graph(Nowhere), {0}, Graph(Nowhere), {0}, SharedStages())
    ensures Mirror(Graph(Nowhere), Graph(Nowhere)) && Reachable(Graph(Nowhere), {0}, {0})
    ensures NoDirectEdge(Graph(Nowhere), {0}, {0}) && NoTies(Graph(Nowhere), {0}, {0})
  {
    SharedTurns();
    var none: seq<Candidate<int, int>> := [];
    assert PathTo(Graph(Nowhere), {0}, 0, none, 0);
    assert forall src, steps :: IsPath(Graph(Nowhere), src, steps) ==> steps == [];
  }

  method SearchSharedEnd() returns (o: TwoWayResult<int, int>)
    ensures o == NotFound
  {
    ghost var run;
    SharedEndIsMissed();
    o, run := FindTwoWay(Graph(Nowhere), Graph(Nowhere), [0], [0], {0});
    assert Elements([0]) == {0};
    ScriptFindsNothing(Graph(Nowhere), {0}, Graph(Nowhere), {0}, SharedStages(), run, o);
  }
}
