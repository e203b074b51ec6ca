/**
 Two inputs of the search from both ends: a line that can be walked both ways, where it finds a
 cheapest plan, and one with an edge that joins the ends, where it ends with a dearer one.
 */
module TwoWayCost {
  import opened Wrappers
  import opened SearchSpec
  import opened SearchTree
  import opened SearchOptimal
  import opened SearchPlan
  import opened TwoWaySpec
  import opened TwoWayRuns
  import opened TwoWayComplete
  import opened TwoWaySure
  import opened TwoWayBest
  import opened TwoWayMiss
  import opened AStarEngine
  import opened TwoWayEngine
  import TwoWayTie

  // ---- A line ----

  // The nodes 0, 1 and 2, each a step of cost 1 from the next.
  function Line(u: int): (r: seq<Candidate<int, int>>) {
    if u == 0 then [Candidate(0, 1.0, 1)]
    else if u == 1 then [Candidate(0, 1.0, 0), Candidate(0, 1.0, 2)]
    else if u == 2 then [Candidate(0, 1.0, 1)]
    else []
  }

  lemma MirrorLine()
    ensures Opposite(Graph(Line), {0}, Graph(Line), {2}, {0, 1, 2})
  {
  }

  // Backwards it is the same graph, and every route leads through the middle.
  lemma LineIsDecided()
    ensures Suits(Graph(Line), {0}, Graph(Line), {2}) && Decided(Graph(Line), {0}, {2})
  {
    forall src, steps: seq<Candidate<int, int>> | IsRoute(Graph(Line), {0}, {2}, src, steps)
      ensures 1 in Inner(steps)
    {
      StartsWithStep(src, steps);
      assert |steps| > 1;
      assert steps[0].node in Inner(steps);
    }
  }

  lemma {:induction false} StartsWithStep(src: int, steps: seq<Candidate<int, int>>)
    requires IsPath(Graph(Line), src, steps) && src == 0 && steps != []
    ensures steps[0].node == 1
  {
    if |steps| > 1 {
      StartsWithStep(src, steps[..|steps| - 1]);
    } else {
      assert steps[..0] == [];
    }
  }

  lemma {:induction false} StepsCostOne(src: int, steps: seq<Candidate<int, int>>)
    requires IsPath(Graph(Line), src, steps) && src == 0
    ensures End(src, steps) as real <= Cost(steps)
  {
    if steps != [] {
      StepsCostOne(src, steps[..|steps| - 1]);
    }
  }

  lemma LineIsPath()
    ensures var steps := [Candidate(0, 1.0, 1)] + [Candidate(0, 1.0, 2)];
            PathTo(Graph(Line), {0}, 0, steps, 2) && Cost(steps) == 2.0
  {
    var none: seq<Candidate<int, int>>, one := [], [Candidate(0, 1.0, 1)];
    PathExtended(Graph(Line), 0, none, Candidate(0, 1.0, 1));
    assert none + [Candidate(0, 1.0, 1)] == one;
    PathExtended(Graph(Line), 0, one, Candidate(0, 1.0, 2));
  }

  lemma OnlyTwo(o: TwoWayResult<int, int>)
    requires Decides(Graph(Line), {0}, Graph(Line), {2}, o)
    requires o.Found? ==> Sound(Graph(Line), {0}, {2}, o.cost, o.plan)
    ensures o.Found? && o.cost == 2.0
  {
    LineIsDecided();
    LineIsPath();
    PlanIsPath(Graph(Line), o.plan);
    StepsCostOne(0, Steps(o.plan));
  }

  // The engines find the way along the line.
  method SearchLine() returns (o: TwoWayResult<int, int>)
    ensures o.Found? && o.cost == 2.0
  {
    ghost var run;
    MirrorLine();
    assert Elements([0]) == {0} && Elements([2]) == {2};
    o, run := FindTwoWay(Graph(Line), Graph(Line), [0], [2], {0, 1, 2});
    OnlyTwo(o);
  }

  // ---- An edge that joins the ends, and a dearer way to another destination ----

  // The edge from 0 to 1 costs 1; the edges 0 to 2 and 2 to 3 cost 3 and 2.
  function Out(u: int): (r: seq<Candidate<int, int>>) {
    if u == 0 then [Candidate(0, 1.0, 1), Candidate(0, 3.0, 2)]
    else if u == 2 then [Candidate(0, 2.0, 3)]
    else []
  }

  function Back(u: int): (r: seq<Candidate<int, int>>) {
    if u == 1 then [Candidate(0, 1.0, 0)]
    else if u == 2 then [Candidate(0, 3.0, 0)]
    else if u == 3 then [Candidate(0, 2.0, 2)]
    else []
  }

  // What the search from 0 knows after closing its first n nodes.
  function Near(n: nat): (s: State<int, int>) {
    if n == 0 then State(map[0 := SourceRecord()], []) else
      var nodes := map[0 := SourceRecord(), 1 := TwoWayTie.Reached(0, 1.0, 1.0), 2 := TwoWayTie.Reached(0, 3.0, 3.0)];
      if n == 1 then State(nodes, [0])
      else if n == 2 then State(nodes, [0, 1])
      else State(nodes[3 := Record(Some(ParentLink(2, None, 2.0, 5.0)), 5.0, true)], [0, 1, 2])
  }

  // What the search from 1 and 3 knows.
  function Far(n: nat): (s: State<int, int>) {
    if n == 0 then State(map[1 := SourceRecord(), 3 := SourceRecord()], [])
    else if n == 1 then
      State(map[1 := SourceRecord(), 3 := SourceRecord(), 0 := TwoWayTie.Reached(1, 1.0, 1.0)], [1])
    else
      State(map[1 := SourceRecord(), 3 := SourceRecord(), 0 := TwoWayTie.Reached(1, 1.0, 1.0),
                2 := TwoWayTie.Reached(3, 2.0, 2.0)],
            if n == 2 then [1, 3] else if n == 3 then [1, 3, 0] else [1, 3, 0, 2])
  }

  lemma OpenNear(n: nat)
    requires n <= 3
    ensures forall x :: IsOpen(Near(n), x) <==>
                        if n == 0 then x == 0 else if n == 1 then x == 1 || x == 2 else x == n
  {
    var q := Near(n).closed;
    assert n == 1 ==> q[0] == 0;
    assert n == 2 ==> q[0] == 0 && q[1] == 1;
    assert n == 3 ==> q[0] == 0 && q[1] == 1 && q[2] == 2;
  }

  lemma OpenFar(n: nat)
    requires n <= 4
    ensures forall x :: IsOpen(Far(n), x) <==>
                        if n == 0 then x == 1 || x == 3 else if n == 1 then x == 3 || x == 0
                        else if n == 2 then x == 0 || x == 2 else n == 3 && x == 2
  {
    var q := Far(n).closed;
    assert n >= 1 ==> q[0] == 1;
    assert n >= 2 ==> q[0] == 1 && q[1] == 3;
    assert n >= 3 ==> q[0] == 1 && q[1] == 3 && q[2] == 0;
    assert n == 4 ==> q[0] == 1 && q[1] == 3 && q[2] == 0 && q[3] == 2;
  }

  lemma ExpandsOne(p: Problem<int, int>, s: State<int, int>, u: int, c: Candidate<int, int>)
    requires u in s.nodes && p.expand(u) == [c]
    ensures Expanded(p, s, u) == Offer(p, Close(s, u), u, c)
  {
    assert [c][..1] == [c] && [c][..0] == [];
    RegisterAllStep(p, Close(s, u), u, [c], 1);
  }

  // ---- The turns of the search from 0 ----

  lemma NearExpands()
    ensures TurnAt(Graph(Out), Near(0), Far(0), 0) == Some(Near(1))
  {
    var p, s := Graph(Out), Close(Near(0), 0);
    var cs := p.expand(0);
    assert s.closed == [0];
    assert cs[..2] == cs && cs[..1] == [cs[0]] && cs[..0] == [];
    RegisterAllStep(p, s, 0, cs, 1);
    RegisterAllStep(p, s, 0, cs, 2);
  }

  lemma NearDrops(b: State<int, int>)
    requires HasMet(b, 1) && b.nodes[1] == SourceRecord()
    ensures TurnAt(Graph(Out), Near(1), b, 1) == Some(Near(2))
  {
    assert RootOf(b, 1) == 1;
    assert Close(Near(1), 1).closed == [0, 1];
  }

  lemma NearConnects(b: State<int, int>)
    requires HasMet(b, 2) && RootOf(b, 2) == 3 && G(b.nodes[2]) == 2.0
    ensures TurnAt(Graph(Out), Near(2), b, 2) == Some(Near(3))
  {
    assert Close(Near(2), 2).closed == [0, 1, 2];
  }

  // ---- The turns of the search from 1 and 3 ----

  lemma FarExpandsOne()
    ensures TurnAt(Graph(Back), Far(0), Near(1), 1) == Some(Far(1))
  {
    ExpandsOne(Graph(Back), Far(0), 1, Candidate(0, 1.0, 0));
    assert Close(Far(0), 1).closed == [1];
  }

  lemma FarExpandsThree()
    ensures TurnAt(Graph(Back), Far(1), Near(1), 3) == Some(Far(2))
  {
    ExpandsOne(Graph(Back), Far(1), 3, Candidate(0, 2.0, 2));
    assert Close(Far(1), 3).closed == [1, 3];
  }

  lemma FarDrops(a: State<int, int>)
    requires HasMet(a, 0) && a.nodes[0] == SourceRecord()
    ensures TurnAt(Graph(Back), Far(2), a, 0) == Some(Far(3))
  {
    assert RootOf(a, 0) == 0;
    assert Close(Far(2), 0).closed == [1, 3, 0];
  }

  lemma FarExpandsTwo()
    ensures TurnAt(Graph(Back), Far(3), Near(2), 2) == Some(Far(4))
  {
    OpenNear(2);
    ExpandsOne(Graph(Back), Far(3), 2, Candidate(0, 3.0, 0));
    assert Close(Far(3), 2).closed == [1, 3, 0, 2];
  }

  // ---- The ways back ----

  lemma NearRooted()
    ensures Rooted(Near(2))
  {
    TwoWayTie.FirstIndex(Near(2).closed, 0, 0);
    assert Rank(Near(2), 0) == 0;
  }

  lemma FarRanks(n: nat)
    requires n == 2 || n == 4
    ensures Rank(Far(n), 1) < Rank(Far(n), 0) && Rank(Far(n), 3) < Rank(Far(n), 2)
  {
    var q := Far(n).closed;
    TwoWayTie.FirstIndex(q, 1, 0);
    TwoWayTie.FirstIndex(q, 3, 1);
    if n == 4 {
      TwoWayTie.FirstIndex(q, 0, 2);
      TwoWayTie.FirstIndex(q, 2, 3);
    }
  }

  lemma FarRooted(n: nat)
    requires n == 2 || n == 4
    ensures Rooted(Far(n)) && RootOf(Far(n), 2) == 3
  {
    FarRanks(n);
    assert RootOf(Far(n), 3) == 3;
  }

  // ---- The run ----

  ghost function Stage(i: nat): (d: Duo<int, int>) {
    Duo(Near(if i == 0 then 0 else if i < 4 then 1 else if i < 7 then 2 else 3),
        Far(if i < 2 then 0 else if i == 2 then 1 else if i < 5 then 2 else if i == 5 then 3 else 4))
  }

  lemma NearMoves(d: Duo<int, int>, u: int, c: State<int, int>)
    requires Moves(d.forward, d.reverse, u, true) && !d.forward.nodes[u].connector
    requires TurnAt(Graph(Out), d.forward, d.reverse, u) == Some(c)
    ensures DuoNext(Graph(Out), Graph(Back), d, Duo(c, d.reverse))
  {
    assert ForwardTurn(Graph(Out), d, u, Some(c));
  }

  lemma FarMoves(d: Duo<int, int>, u: int, c: State<int, int>)
    requires Moves(d.reverse, d.forward, u, false) && !d.reverse.nodes[u].connector
    requires TurnAt(Graph(Back), d.reverse, d.forward, u) == Some(c)
    ensures DuoNext(Graph(Out), Graph(Back), d, Duo(d.forward, c))
  {
    assert ReverseTurn(Graph(Back), d, u, Some(c));
  }

  lemma Turn1()
    ensures DuoNext(Graph(Out), Graph(Back), Stage(0), Stage(1))
  {
    OpenNear(0);
    OpenFar(0);
    NearExpands();
    NearMoves(Stage(0), 0, Near(1));
  }

  lemma Turn2()
    ensures DuoNext(Graph(Out), Graph(Back), Stage(1), Stage(2))
  {
    OpenNear(1);
    OpenFar(0);
    FarExpandsOne();
    FarMoves(Stage(1), 1, Far(1));
  }

  lemma Turn3()
    ensures DuoNext(Graph(Out), Graph(Back), Stage(2), Stage(3))
  {
    OpenNear(1);
    OpenFar(1);
    FarExpandsThree();
    FarMoves(Stage(2), 3, Far(2));
  }

  lemma Turn4()
    ensures DuoNext(Graph(Out), Graph(Back), Stage(3), Stage(4))
  {
    OpenNear(1);
    OpenFar(2);
    FarRooted(2);
    NearDrops(Far(2));
    NearMoves(Stage(3), 1, Near(2));
  }

  lemma Turn5()
    ensures DuoNext(Graph(Out), Graph(Back), Stage(4), Stage(5))
  {
    OpenNear(2);
    OpenFar(2);
    NearRooted();
    FarDrops(Near(2));
    FarMoves(Stage(4), 0, Far(3));
  }

  lemma Turn6()
    ensures DuoNext(Graph(Out), Graph(Back), Stage(5), Stage(6))
  {
    OpenNear(2);
    OpenFar(3);
    FarExpandsTwo();
    FarMoves(Stage(5), 2, Far(4));
  }

  lemma Turn7()
    ensures DuoNext(Graph(Out), Graph(Back), Stage(6), Stage(7))
  {
    OpenNear(2);
    OpenFar(4);
    FarRooted(4);
    NearConnects(Far(4));
    NearMoves(Stage(6), 2, Near(3));
  }

  lemma Turns(i: nat)
    requires 0 < i < 8
    ensures DuoNext(Graph(Out), Graph(Back), Stage(i - 1), Stage(i))
  {
    if i == 1 {
      Turn1();
    } else if i == 2 {
      Turn2();
    } else if i == 3 {
      Turn3();
    } else if i == 4 {
      Turn4();
    } else if i == 5 {
      Turn5();
    } else if i == 6 {
      Turn6();
    } else {
      Turn7();
    }
  }

  lemma DearerRun() returns (run: seq<Duo<int, int>>)
    ensures IsDuoRun(Graph(Out), {0}, Graph(Back), {1, 3}, run) && run[|run| - 1] == Stage(7)
  {
    run := seq(8, (i: nat) => Stage(i));
    assert run[0] == Stage(0);
    forall i | 0 < i < 8
      ensures DuoNext(Graph(Out), Graph(Back), run[i - 1], run[i])
    {
      Turns(i);
    }
  }

  // The only way from 0 to v.
  function WayTo(v: int): (steps: seq<Candidate<int, int>>) {
    if v == 1 then [Candidate(0, 1.0, 1)]
    else if v == 2 then [Candidate(0, 3.0, 2)]
    else if v == 3 then [Candidate(0, 3.0, 2), Candidate(0, 2.0, 3)]
    else []
  }

  lemma {:induction false} OnlyWay(steps: seq<Candidate<int, int>>)
    requires IsPath(Graph(Out), 0, steps)
    ensures steps == WayTo(End(0, steps))
  {
    if steps != [] {
      var n := |steps| - 1;
      OnlyWay(steps[..n]);
      assert steps == steps[..n] + [steps[n]];
    }
  }

  lemma WaysDiffer(a: seq<Candidate<int, int>>, b: seq<Candidate<int, int>>)
    requires (a == WayTo(1) || a == WayTo(3)) && (b == WayTo(1) || b == WayTo(3)) && Cost(a) == Cost(b)
    ensures a == b
  {
    assert WayTo(1)[..0] == [] && WayTo(3)[..1] == WayTo(2) && WayTo(2)[..0] == [];
  }

  lemma NoTwoCostTheSame()
    ensures NoTies(Graph(Out), {0}, {1, 3})
  {
    forall s, t, a: seq<Candidate<int, int>>, b: seq<Candidate<int, int>> |
      IsRoute(Graph(Out), {0}, {1, 3}, s, a) && IsRoute(Graph(Out), {0}, {1, 3}, t, b) && Cost(a) == Cost(b)
      ensures s == t && a == b
    {
      OnlyWay(a);
      OnlyWay(b);
      WaysDiffer(a, b);
    }
  }

  lemma CheaperWay()
    ensures PathTo(Graph(Out), {0}, 0, WayTo(1), 1) && Cost(WayTo(1)) == 1.0
    ensures !IsCheapest(Graph(Out), {0}, {1, 3}, 5.0)
  {
    var none: seq<Candidate<int, int>> := [];
    PathExtended(Graph(Out), 0, none, Candidate(0, 1.0, 1));
    assert none + [Candidate(0, 1.0, 1)] == WayTo(1);
    assert PathTo(Graph(Out), {0}, 0, WayTo(1), 1) && 1 in {1, 3};
  }

  lemma EndsAtFive()
    ensures EndsAt(Stage(7), 5.0)
  {
    OpenNear(3);
    OpenFar(4);
    assert Moves(Near(3), Far(4), 3, true);
  }

  lemma OutMirrored()
    ensures Mirror(Graph(Out), Graph(Back))
  {
  }

  lemma CostsClimb(expand: int -> seq<Candidate<int, int>>)
    requires forall u, c :: c in expand(u) ==> 0.0 <= c.cost
    ensures Climbs(Graph(expand))
  {
  }

  lemma OutSuits()
    ensures Suits(Graph(Out), {0}, Graph(Back), {1, 3})
  {
    OutMirrored();
    CostsClimb(Out);
    CostsClimb(Back);
  }

  // The estimates are zero everywhere, the ends are apart, and no two routes cost the same; but
  // this run ends with a plan of cost 5, where one of cost 1 exists.
  lemma DearerIsFound() returns (run: seq<Duo<int, int>>)
    ensures Suits(Graph(Out), {0}, Graph(Back), {1, 3}) && {0} !! {1, 3} && NoTies(Graph(Out), {0}, {1, 3})
    ensures IsDuoRun(Graph(Out), {0}, Graph(Back), {1, 3}, run) && EndsAt(run[|run| - 1], 5.0)
    ensures PathTo(Graph(Out), {0}, 0, WayTo(1), 1) && Cost(WayTo(1)) == 1.0
    ensures !IsCheapest(Graph(Out), {0}, {1, 3}, 5.0)
  {
    OutSuits();
    NoTwoCostTheSame();
    run := DearerRun();
    EndsAtFive();
    CheaperWay();
  }
}
