/**
 The invariant every A* search keeps whatever its heuristic: parent links form a tree of
 real edges over closed nodes, rooted in the sources, with costs that add up.
 */
module SearchTree {
  import opened Sequences
  import opened SearchSpec

  // Position of x in q, or |q| if absent.
  function IndexOf<T(==)>(q: seq<T>, x: T): (i: nat)
    ensures i <= |q| && (i < |q| <==> x in q) && (i < |q| ==> q[i] == x)
  {
    if q == [] then 0 else
      var n := |q| - 1;
      if x in q[..n] then IndexOf(q[..n], x) else if q[n] == x then n else n + 1
  }

  // When a node was closed; open nodes come after all closed ones.
  function Rank<S(==), E>(s: State<S, E>, v: S): (r: nat)
    ensures r <= |s.closed| && (r < |s.closed| <==> v in s.closed)
  {
    IndexOf(s.closed, v)
  }

  // l leads to an open or later-closed node from a closed one, and its costs add up.
  ghost predicate GoodLink<S, E>(s: State<S, E>, l: ParentLink<S, E>, rank: nat) {
    && l.parent in s.closed && l.parent in s.nodes
    && Rank(s, l.parent) < rank
    && 0.0 <= l.edgeCost
    && l.cumulative == G(s.nodes[l.parent]) + l.edgeCost
  }

  // A link that is an edge of the graph, recorded with the f-value the heuristic gives.
  ghost predicate IsEdge<S, E>(p: Problem<S, E>, v: S, r: Record<S, E>)
    requires r.link.Some?
  {
    var l := r.link.value;
    && l.edge.Some?
    && Candidate(l.edge.value, l.edgeCost, v) in p.expand(l.parent)
    && r.f == l.cumulative + p.h(v)
  }

  ghost predicate GoodRecord<S, E>(p: Problem<S, E>, srcs: set<S>, s: State<S, E>, v: S, r: Record<S, E>, rank: nat) {
    && 0.0 <= G(r)
    && (if r.link.None? then v in srcs && r.f == 0.0 && !r.connector
        else v !in srcs && GoodLink(s, r.link.value, rank) && (!r.connector ==> IsEdge(p, v, r)))
  }

  ghost predicate Tree<S(!new), E>(p: Problem<S, E>, srcs: set<S>, s: State<S, E>) {
    && Distinct(s.closed)
    && (forall u :: u in s.closed ==> u in s.nodes && !s.nodes[u].connector)
    && srcs <= s.nodes.Keys
    && (forall v {:trigger GoodRecord(p, srcs, s, v, s.nodes[v], Rank(s, v))} :: v in s.nodes ==>
         GoodRecord(p, srcs, s, v, s.nodes[v], Rank(s, v)))
  }

  lemma InitialTree<S(!new), E>(p: Problem<S, E>, srcs: set<S>, s: State<S, E>)
    requires Initial(srcs, s)
    ensures Tree(p, srcs, s)
  {
  }

  // ---- Closing a node ----

  lemma CloseRank<S(!new), E>(s: State<S, E>, u: S, v: S)
    requires u !in s.closed
    ensures v in s.closed ==> Rank(Close(s, u), v) == Rank(s, v)
    ensures v == u ==> Rank(Close(s, u), v) == Rank(s, v) == |s.closed|
    ensures v !in s.closed && v != u ==> Rank(Close(s, u), v) == |s.closed| + 1
  {
    assert (s.closed + [u])[..|s.closed|] == s.closed;
  }

  lemma CloseTree<S(!new), E>(p: Problem<S, E>, srcs: set<S>, s: State<S, E>, u: S)
    requires Tree(p, srcs, s) && IsOpen(s, u) && !s.nodes[u].connector
    ensures Tree(p, srcs, Close(s, u))
  {
    var t := Close(s, u);
    forall v | v in t.nodes ensures GoodRecord(p, srcs, t, v, t.nodes[v], Rank(t, v)) {
      var r := s.nodes[v];
      assert GoodRecord(p, srcs, s, v, r, Rank(s, v));
      CloseRank(s, u, v);
      if r.link.Some? {
        CloseRank(s, u, r.link.value.parent);
      }
    }
  }

  // ---- Registering a node ----

  lemma RegisterTree<S(!new), E>(p: Problem<S, E>, srcs: set<S>, s: State<S, E>, v: S, r: Record<S, E>)
    requires Tree(p, srcs, s)
    requires r.link.Some? && 0.0 <= G(r) && GoodLink(s, r.link.value, |s.closed|)
    requires !r.connector ==> IsEdge(p, v, r)
    requires Register(s, v, r).Some?
    ensures var t := Register(s, v, r).value;
            Tree(p, srcs, t) && t.closed == s.closed && forall u :: u in s.closed ==>
                u in t.nodes && t.nodes[u] == s.nodes[u]
  {
    var t := Register(s, v, r).value;
    if t != s {
      if v in s.nodes {
        assert GoodRecord(p, srcs, s, v, s.nodes[v], Rank(s, v));
      }
      forall w | w in t.nodes ensures GoodRecord(p, srcs, t, w, t.nodes[w], Rank(t, w)) {
        if w != v {
          assert GoodRecord(p, srcs, s, w, s.nodes[w], Rank(s, w));
        }
      }
    }
  }

  // ---- The path the parent links spell out ----

  lemma {:induction false} TreePath<S(!new), E(!new)>(p: Problem<S, E>, srcs: set<S>, s: State<S, E>, v: S)
    returns (src: S, steps: seq<Candidate<S, E>>)
    requires Tree(p, srcs, s) && v in s.nodes && !s.nodes[v].connector
    ensures PathTo(p, srcs, src, steps, v) && Cost(steps) == G(s.nodes[v])
    decreases Rank(s, v)
  {
    var r := s.nodes[v];
    assert GoodRecord(p, srcs, s, v, r, Rank(s, v));
    if r.link.None? {
      src, steps := v, [];
    } else {
      var l := r.link.value;
      var c := Candidate(l.edge.value, l.edgeCost, v);
      var pre;
      src, pre := TreePath(p, srcs, s, l.parent);
      steps := pre + [c];
      assert steps[..|pre|] == pre;
    }
  }
}
