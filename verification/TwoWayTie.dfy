/**
 Two routes of one cost on which the search from both ends finds nothing: each side has stored
 the other end by its own route before it meets the other side.
 */
module TwoWayTie {
  import opened Wrappers
  import opened SearchSpec
  import opened SearchTree
  import opened SearchOptimal
  import opened SearchPlan
  import opened TwoWaySpec
  import opened TwoWayRuns
  import opened TwoWayComplete
  import opened TwoWayMiss
  import opened AStarEngine
  import opened TwoWayEngine

  // The edges 0 to 1 and 2 to 3 cost 1, the edges 0 to 2 and 1 to 3 cost 2.
  function Out(u: int): (r: seq<Candidate<int, int>>) {
    if u == 0 then [Candidate(0, 1.0, 1), Candidate(0, 2.0, 2)]
    else if u == 1 then [Candidate(0, 2.0, 3)]
    else if u == 2 then [Candidate(0, 1.0, 3)]
    else []
  }

  function Back(u: int): (r: seq<Candidate<int, int>>) {
    if u == 3 then [Candidate(0, 1.0, 2), Candidate(0, 2.0, 1)]
    else if u == 2 then [Candidate(0, 2.0, 0)]
    else if u == 1 then [Candidate(0, 1.0, 0)]
    else []
  }

  // Seen from either end: a near node, a far one, and the other end.
  datatype Seen = Seen(root: int, near: int, far: int, other: int)

  const There: Seen := Seen(0, 1, 2, 3)

  const Hither: Seen := Seen(3, 2, 1, 0)

  function Reached(parent: int, cost: real, g: real): (r: Record<int, int>) {
    Record(Some(ParentLink(parent, Some(0), cost, g)), g, false)
  }

  // What a search knows after closing the first n nodes.
  function Known(k: Seen, n: nat): (s: State<int, int>) {
    if n == 0 then State(map[k.root := SourceRecord()], [])
    else if n == 1 then
      State(map[k.root := SourceRecord(), k.near := Reached(k.root, 1.0, 1.0), k.far := Reached(k.root, 2.0, 2.0)],
            [k.root])
    else
      State(map[k.root := SourceRecord(), k.near := Reached(k.root, 1.0, 1.0), k.far := Reached(k.root, 2.0, 2.0),
                k.other := Reached(k.near, 2.0, 3.0)],
            if n == 2 then [k.root, k.near] else if n == 3 then [k.root, k.near, k.far]
            else [k.root, k.near, k.far, k.other])
  }

  ghost predicate Apart(k: Seen) {
    k.root != k.near && k.root != k.far && k.root != k.other && k.near != k.far && k.near != k.other && k.far != k.other
  }

  // The next node to close, and the one after it.
  lemma OpenNow(k: Seen)
    requires Apart(k)
    ensures forall x :: IsOpen(Known(k, 0), x) <==> x == k.root
    ensures forall x :: IsOpen(Known(k, 1), x) <==> x == k.near || x == k.far
    ensures forall x :: IsOpen(Known(k, 2), x) <==> x == k.far || x == k.other
    ensures forall x :: IsOpen(Known(k, 3), x) <==> x == k.other
    ensures forall x :: !IsOpen(Known(k, 4), x)
  {
    assert Known(k, 2).closed[1] == k.near;
    assert Known(k, 3).closed[1] == k.near && Known(k, 3).closed[2] == k.far;
    var last := Known(k, 4).closed;
    assert last[0] == k.root && last[1] == k.near && last[2] == k.far && last[3] == k.other;
  }

  // The node closed after the first n.
  function Upcoming(k: Seen, n: nat): (u: int) {
    if n == 0 then k.root else if n == 1 then k.near else if n == 2 then k.far else k.other
  }

  lemma FirstNow(k: Seen, n: nat)
    requires Apart(k) && n < 4
    ensures OnlyFirst(Known(k, n), Upcoming(k, n)) && Known(k, n).nodes[Upcoming(k, n)].f == n as real
  {
    OpenNow(k);
    assert IsOpen(Known(k, n), Upcoming(k, n));
  }

  lemma OpenAtLeast(k: Seen, n: nat, x: int)
    requires Apart(k) && n <= 4 && IsOpen(Known(k, n), x)
    ensures Known(k, n).nodes[x].f >= n as real
  {
    OpenNow(k);
  }

  // ---- Links lead back to the root ----

  lemma Ranks(k: Seen, n: nat)
    requires Apart(k) && 1 <= n <= 4
    ensures Rank(Known(k, n), k.root) == 0 && Rank(Known(k, n), k.near) >= 1 && Rank(Known(k, n), k.far) >= 1
    ensures n >= 2 ==> Rank(Known(k, n), k.near) == 1 && Rank(Known(k, n), k.other) >= 2
  {
    var q := Known(k, n).closed;
    assert q[0] == k.root;
    FirstIndex(q, k.root, 0);
    if n >= 2 {
      FirstIndex(q, k.near, 1);
    }
  }

  lemma {:induction false} FirstIndex(q: seq<int>, x: int, i: nat)
    requires i < |q| && q[i] == x && forall j :: 0 <= j < i ==> q[j] != x
    ensures IndexOf(q, x) == i
  {
    var n := |q| - 1;
    if i < n {
      assert q[..n][i] == x;
      FirstIndex(q[..n], x, i);
    }
  }

  lemma LeadsBack(k: Seen, n: nat)
    requires Apart(k) && 2 <= n <= 4
    ensures Rooted(Known(k, n))
    ensures RootOf(Known(k, n), k.near) == k.root && RootOf(Known(k, n), k.root) == k.root
  {
    Ranks(k, n);
    var s := Known(k, n);
    forall v | v in s.nodes && s.nodes[v].link.Some?
      ensures var u := s.nodes[v].link.value.parent; u in s.nodes && Rank(s, u) < Rank(s, v)
    {
    }
  }

  // ---- The turns of one side ----

  ghost predicate Fits(p: Problem<int, int>, k: Seen) {
    && p.expand(k.root) == [Candidate(0, 1.0, k.near), Candidate(0, 2.0, k.far)]
    && p.expand(k.near) == [Candidate(0, 2.0, k.other)]
    && p.h == Zero
  }

  lemma ExpandsRoot(p: Problem<int, int>, k: Seen)
    requires Apart(k) && Fits(p, k)
    ensures Expanded(p, Known(k, 0), k.root) == Some(Known(k, 1))
  {
    var s, cs := Close(Known(k, 0), k.root), p.expand(k.root);
    assert s.closed == [k.root];
    assert cs[..2] == cs && cs[..1] == [cs[0]] && cs[..0] == [];
    RegisterAllStep(p, s, k.root, cs, 1);
    RegisterAllStep(p, s, k.root, cs, 2);
  }

  lemma ExpandsNear(p: Problem<int, int>, k: Seen)
    requires Apart(k) && Fits(p, k)
    ensures Expanded(p, Known(k, 1), k.near) == Some(Known(k, 2))
  {
    var s, cs := Close(Known(k, 1), k.near), p.expand(k.near);
    assert s.closed == [k.root, k.near];
    assert cs[..1] == cs && cs[..0] == [];
    RegisterAllStep(p, s, k.near, cs, 1);
  }

  // The connector costs as much as the way to the other end that is known, and is dropped.
  lemma DropsAtFar(p: Problem<int, int>, k: Seen, b: State<int, int>)
    requires Apart(k) && HasMet(b, k.far) && RootOf(b, k.far) == k.other && G(b.nodes[k.far]) == 1.0
    ensures TurnAt(p, Known(k, 2), b, k.far) == Some(Known(k, 3))
  {
    assert Close(Known(k, 2), k.far).closed == [k.root, k.near, k.far];
  }

  lemma DropsAtOther(p: Problem<int, int>, k: Seen, b: State<int, int>)
    requires Apart(k) && HasMet(b, k.other) && RootOf(b, k.other) == k.other && G(b.nodes[k.other]) == 0.0
    ensures TurnAt(p, Known(k, 3), b, k.other) == Some(Known(k, 4))
  {
    assert Close(Known(k, 3), k.other).closed == [k.root, k.near, k.far, k.other];
  }

  // The search from the other end.
  function Flipped(k: Seen): (r: Seen) {
    Seen(k.other, k.far, k.near, k.root)
  }

  // Each turn, when the other side has closed as many nodes or one more.
  lemma TurnGoes(p: Problem<int, int>, k: Seen, n: nat, j: nat)
    requires Apart(k) && Fits(p, k) && n < 4 && n <= j <= n + 1
    ensures Upcoming(k, n) in Known(k, n).nodes
    ensures TurnAt(p, Known(k, n), Known(Flipped(k), j), Upcoming(k, n)) == Some(Known(k, n + 1))
  {
    var b := Known(Flipped(k), j);
    if n == 0 {
      ExpandsRoot(p, k);
    } else if n == 1 {
      ExpandsNear(p, k);
    } else {
      LeadsBack(Flipped(k), j);
      assert b.closed[0] == k.other && b.closed[1] == k.far;
      if n == 2 {
        DropsAtFar(p, k, b);
      } else {
        DropsAtOther(p, k, b);
      }
    }
  }

  // ---- The whole search ----

  function Stage(i: nat, j: nat): (d: Duo<int, int>) {
    Duo(Known(There, i), Known(Hither, j))
  }

  // The sides take turns.
  function Stages(): (stages: seq<Duo<int, int>>)
    ensures |stages| == 9 && forall i :: 0 <= i < 9 ==> stages[i] == Stage((i + 1) / 2, i / 2)
  {
    seq(9, i requires 0 <= i < 9 => Stage((i + 1) / 2, i / 2))
  }

  ghost predicate Goes(i: nat, j: nat, i': nat, j': nat) {
    Forced(Graph(Out), Graph(Back), Stage(i, j), Stage(i', j'))
  }

  lemma ForwardGoes(n: nat)
    requires n < 4
    ensures Goes(n, n, n + 1, n)
  {
    FirstNow(There, n);
    TurnGoes(Graph(Out), There, n, n);
    forall x | IsOpen(Known(Hither, n), x)
      ensures n as real <= Known(Hither, n).nodes[x].f
    {
      OpenAtLeast(Hither, n, x);
    }
    ForwardForced(Graph(Out), Graph(Back), Stage(n, n), Upcoming(There, n), Known(There, n + 1));
  }

  lemma ReverseGoes(n: nat)
    requires n < 4
    ensures Goes(n + 1, n, n + 1, n + 1)
  {
    FirstNow(Hither, n);
    TurnGoes(Graph(Back), Hither, n, n + 1);
    var s := Known(There, n + 1);
    forall x | IsOpen(s, x)
      ensures n as real < s.nodes[x].f
    {
      OpenAtLeast(There, n + 1, x);
    }
    ReverseForced(Graph(Out), Graph(Back), Stage(n + 1, n), Upcoming(Hither, n), Known(Hither, n + 1));
  }

  lemma TieTurn(i: nat)
    requires 0 < i < 9
    ensures Goes(i / 2, (i - 1) / 2, (i + 1) / 2, i / 2)
  {
    if i % 2 == 1 {
      ForwardGoes(i / 2);
    } else {
      ReverseGoes(i / 2 - 1);
    }
  }

  lemma TieStarts()
    ensures Initial({0}, Stage(0, 0).forward) && Initial({3}, Stage(0, 0).reverse) && NothingLeft(Stage(4, 4))
  {
    OpenNow(There);
    OpenNow(Hither);
  }

  lemma TieScript()
    ensures IsScript(Graph(Out), {0}, Graph(Back), {3}, Stages())
  {
    var stages := Stages();
    TieStarts();
    forall i | 0 < i < |stages|
      ensures Forced(Graph(Out), Graph(Back), stages[i - 1], stages[i])
    {
      TieTurn(i);
    }
  }

  lemma TieIsOpposite()
    ensures Opposite(Graph(Out), {0}, Graph(Back), {3}, {0, 1, 2, 3})
  {
  }

  lemma TieIsPath()
    ensures Reachable(Graph(Out), {0}, {3})
  {
    var none: seq<Candidate<int, int>> := [];
    var a, b := Candidate(0, 1.0, 1), Candidate(0, 2.0, 3);
    assert IsPath(Graph(Out), 0, none);
    PathExtended(Graph(Out), 0, none, a);
    PathExtended(Graph(Out), 0, none + [a], b);
    assert PathTo(Graph(Out), {0}, 0, none + [a] + [b], 3);
  }

  // The destination can be reached, but every run ends with nothing open and nothing found.
  // The ends are apart, and no edge joins them.
  lemma TieIsMissed()
    ensures IsScript(Graph(Out), {0}, Graph(Back), {3}, Stages())
    ensures Mirror(Graph(Out), Graph(Back)) && Reachable(Graph(Out), {0}, {3})
    ensures {0} !! {3} && NoDirectEdge(Graph(Out), {0}, {3})
  {
    TieScript();
    TieIsPath();
    TieIsOpposite();
  }

  // The engines, run on that graph, report that there is no path.
  method SearchTie() returns (o: TwoWayResult<int, int>)
    ensures o == NotFound
  {
    ghost var run;
    TieScript();
    TieIsOpposite();
    assert Elements([0]) == {0} && Elements([3]) == {3};
    o, run := FindTwoWay(Graph(Out), Graph(Back), [0], [3], {0, 1, 2, 3});
    ScriptFindsNothing(Graph(Out), {0}, Graph(Back), {3}, Stages(), run, o);
  }
}
