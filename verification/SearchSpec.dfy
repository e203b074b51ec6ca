/**
 What one A* search does, as steps on values: the nodes it has stored (each with its
 primary parent link, f-value and connector flag) and the list of nodes it has closed,
 in closing order.  Every stored node that is not closed is open.
 */
module SearchSpec {
  import opened Wrappers

  // ---- The user's search problem ----

  datatype Candidate<+S, +E> = Candidate(edge: E, cost: real, node: S)

  // The virtual functions: expansion, remaining-cost estimate, target test.
  datatype Problem<!S, !E> = Problem(expand: S -> seq<Candidate<S, E>>, h: S -> real, isTarget: S -> bool)

  ghost predicate NonNegative<S(!new), E(!new)>(p: Problem<S, E>) {
    forall u, c :: c in p.expand(u) ==> 0.0 <= c.cost
  }

  ghost predicate Consistent<S(!new), E(!new)>(p: Problem<S, E>) {
    && (forall u :: 0.0 <= p.h(u))
    && (forall u :: p.isTarget(u) ==> p.h(u) == 0.0)
    && (forall u, c :: c in p.expand(u) ==> p.h(u) <= c.cost + p.h(c.node))
  }

  // A finite set of states that contains the sources and is closed under expansion.
  ghost predicate Universe<S, E(!new)>(p: Problem<S, E>, srcs: set<S>, all: set<S>) {
    srcs <= all && forall u, c :: u in all && c in p.expand(u) ==> c.node in all
  }

  // ---- Paths ----

  function End<S, E>(src: S, steps: seq<Candidate<S, E>>): (v: S) {
    if steps == [] then src else steps[|steps| - 1].node
  }

  function Cost<S, E>(steps: seq<Candidate<S, E>>): (cost: real) {
    if steps == [] then 0.0 else Cost(steps[..|steps| - 1]) + steps[|steps| - 1].cost
  }

  ghost predicate IsPath<S, E(!new)>(p: Problem<S, E>, src: S, steps: seq<Candidate<S, E>>) {
    steps == [] ||
    (var rest := steps[..|steps| - 1];
     IsPath(p, src, rest) && steps[|steps| - 1] in p.expand(End(src, rest)))
  }

  ghost predicate PathTo<S, E(!new)>(p: Problem<S, E>, srcs: set<S>, src: S, steps: seq<Candidate<S, E>>, v: S) {
    src in srcs && IsPath(p, src, steps) && End(src, steps) == v
  }

  // No path from the sources to v costs less than g.
  ghost predicate LowerBound<S(!new), E(!new)>(p: Problem<S, E>, srcs: set<S>, v: S, g: real) {
    forall src, steps :: PathTo(p, srcs, src, steps, v) ==> g <= Cost(steps)
  }

  // ---- Search states ----

  datatype ParentLink<+S, +E> = ParentLink(parent: S, edge: Option<E>, edgeCost: real, cumulative: real)

  datatype Record<+S, +E> = Record(link: Option<ParentLink<S, E>>, f: real, connector: bool)

  datatype State<S, +E> = State(nodes: map<S, Record<S, E>>, closed: seq<S>)

  function G<S, E>(r: Record<S, E>): (g: real) {
    if r.link.None? then 0.0 else r.link.value.cumulative
  }

  predicate IsOpen<S(==), E>(s: State<S, E>, v: S) {
    v in s.nodes && v !in s.closed
  }

  ghost predicate IsFirst<S(!new), E>(s: State<S, E>, u: S) {
    IsOpen(s, u) && forall v :: IsOpen(s, v) ==> s.nodes[u].f <= s.nodes[v].f
  }

  // Registering a node; None is a failed ASSERT: a second source, a cheaper way to a
  // source, or a cheaper way to a node that is already closed.
  function Register<S(==), E>(s: State<S, E>, v: S, r: Record<S, E>): (s': Option<State<S, E>>) {
    if v !in s.nodes then Some(s.(nodes := s.nodes[v := r]))
    else if r.link.None? then None
    else if G(r) < G(s.nodes[v]) then
      if s.nodes[v].link.None? || v in s.closed then None else Some(s.(nodes := s.nodes[v := r]))
    else Some(s)
  }

  function Close<S, E>(s: State<S, E>, u: S): (s': State<S, E>) {
    s.(closed := s.closed + [u])
  }

  function EdgeRecord<S, E>(p: Problem<S, E>, s: State<S, E>, u: S, c: Candidate<S, E>): (r: Record<S, E>)
    requires u in s.nodes
  {
    var g := G(s.nodes[u]) + c.cost;
    Record(Some(ParentLink(u, Some(c.edge), c.cost, g)), g + p.h(c.node), false)
  }

  // Offering a candidate of u; None is a failed ASSERT: a negative cost, or as in Register.
  function Offer<S(==), E>(p: Problem<S, E>, s: State<S, E>, u: S, c: Candidate<S, E>): (s': Option<State<S, E>>)
    requires u in s.nodes
  {
    if c.cost < 0.0 then None else Register(s, c.node, EdgeRecord(p, s, u, c))
  }

  // A connector from u, just closed here, to the far end of a search that reached u from
  // the other side at the given cost.
  function ConnectorRecord<S, E>(s: State<S, E>, u: S, cost: real): (r: Record<S, E>)
    requires u in s.nodes
  {
    var g := G(s.nodes[u]) + cost;
    Record(Some(ParentLink(u, None, cost, g)), g, true)
  }

  // Closing u and registering a connector from it to t.
  function Connected<S(==), E>(s: State<S, E>, u: S, t: S, cost: real): (s': Option<State<S, E>>)
    requires u in s.nodes
  {
    Register(Close(s, u), t, ConnectorRecord(Close(s, u), u, cost))
  }

  function RegisterAll<S(==), E>(p: Problem<S, E>, s: State<S, E>, u: S, cs: seq<Candidate<S,
                                 E>>): (s': Option<State<S, E>>)
    requires u in s.nodes
    ensures s'.Some? ==> s.nodes.Keys <= s'.value.nodes.Keys
  {
    if cs == [] then Some(s) else
      var n := |cs| - 1;
      var m := RegisterAll(p, s, u, cs[..n]);
      if m.None? then None else Offer(p, m.value, u, cs[n])
  }

  // Closing u and registering everything it expands to.
  function Expanded<S(==), E>(p: Problem<S, E>, s: State<S, E>, u: S): (s': Option<State<S, E>>)
    requires u in s.nodes
  {
    RegisterAll(p, Close(s, u), u, p.expand(u))
  }

  function SourceRecord<S, E>(): Record<S, E> {
    Record(None, 0.0, false)
  }

  // All sources registered, nothing closed.
  ghost predicate Initial<S, E>(srcs: set<S>, s: State<S, E>) {
    s.closed == [] && s.nodes == map v | v in srcs :: SourceRecord()
  }
}
