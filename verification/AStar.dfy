/**
 The A* engine: node objects shared between the node storage, the open heap and the closed
 list, whose parent links and f-values are updated in place.

 `view` is what the object graph means as a SearchSpec state.  Each method is tied to the
 corresponding step on values.
 */
module AStarEngine {
  import opened Wrappers
  import opened Sequences
  import opened NodeLists
  import opened SearchSpec
  import opened SearchTree
  import opened SearchOptimal
  import opened SearchPlan

  // A node's fields as a record of the specification.
  ghost function AsRecord<S, E>(link: Option<Link<S, E>>, f: real, connector: bool): (r: Record<S, E>) {
    Record(if link.None? then None
           else Some(ParentLink(link.value.parent.state, link.value.edge, link.value.edgeCost, link.value.cumulative)),
           f, connector)
  }

  function Cumulative<S, E>(link: Option<Link<S, E>>): (g: real) {
    if link.None? then 0.0 else link.value.cumulative
  }

  // What is left to go on from: nothing after a failed ASSERT.
  ghost function After<S, E>(ok: bool, s: State<S, E>): (t: Option<State<S, E>>) {
    if ok then Some(s) else None
  }

  // How a step ended: the search was over, nothing was open, a target was closed, a node was
  // expanded, or an ASSERT failed.
  datatype Outcome = Over | Exhausted | Reached | Grown | Aborted

  // What one step does, from state s with the given head.
  ghost predicate Stepped<S(!new), E(!new)>(p: Problem<S, E>, oneWay: bool, s: State<S, E>, head: Option<S>,
                                            o: Outcome, t: State<S, E>) {
    match head
    case None => o == Exhausted && NothingOpen(s) && t == s
    case Some(u) =>
      && IsFirst(s, u)
      && if s.nodes[u].connector then o == Aborted
         else if oneWay && p.isTarget(u) then o == Reached && t == Close(s, u)
         else if Expanded(p, s, u).None? then o == Aborted
         else o == Grown && Expanded(p, s, u) == Some(t)
  }

  lemma StepExpands<S(!new), E(!new)>(p: Problem<S, E>, oneWay: bool, s: State<S, E>, u: S, ok: bool, t: State<S, E>)
    requires IsFirst(s, u) && !s.nodes[u].connector && !(oneWay && p.isTarget(u)) && Expanded(p, s, u) == After(ok, t)
    ensures Stepped(p, oneWay, s, Some(u), if ok then Grown else Aborted, t)
  {
  }

  // Whether the search goes on, and the node it has ended with, if any before or now.
  ghost predicate Ends<S, E>(o: Outcome, searching: bool, before: Node?<S, E>, success: Node?<S, E>,
                             nodes: set<Node<S, E>>, head: Option<S>) {
    match o
    case Over => !searching && success == before
    case Exhausted => !searching && success == null
    case Reached => !searching && success != null && success in nodes && Some(success.state) == head
    case _ => searching && success == before
  }

  // What a one-way search promises about its result.
  ghost predicate Answer<S(!new), E(!new)>(p: Problem<S, E>, srcs: set<S>, cost: real, plan: seq<PlanStep<S, E>>) {
    if plan == [] then cost == -1.0 && Unreachable(p, srcs)
    else
      var last := plan[|plan| - 1];
      && IsPlan(p, plan) && plan[0].node in srcs
      && last.Cumulative() == cost
      && Optimum(p, srcs, last.node, cost)
  }

  // Storage holds exactly one node object per state.
  ghost predicate Stored<S, E>(storage: map<S, Node<S, E>>, nodes: set<Node<S, E>>) {
    && (forall v :: v in storage ==> storage[v] in nodes && storage[v].state == v)
    && (forall x :: x in nodes ==> x.state in storage && storage[x.state] == x)
  }

  lemma StoredMore<S, E>(storage: map<S, Node<S, E>>, nodes: set<Node<S, E>>, x: Node<S, E>)
    requires Stored(storage, nodes) && x.state !in storage
    ensures Stored(storage[x.state := x], nodes + {x})
  {
  }

  // Every node is either open or closed.
  ghost predicate Divided<S, E>(nodes: set<Node<S, E>>, open: set<Node<S, E>>, closed: set<Node<S, E>>) {
    nodes == open + closed && open !! closed
  }

  // Every node but x is.
  ghost predicate DividedBut<S, E>(nodes: set<Node<S, E>>, open: set<Node<S, E>>, closed: set<Node<S, E>>,
                                   x: Node<S, E>) {
    nodes == open + closed + {x} && open !! closed && x !in open && x !in closed
  }

  lemma Stray<S, E>(nodes: set<Node<S, E>>, open: set<Node<S, E>>, closed: set<Node<S, E>>, x: Node<S, E>)
    requires Divided(nodes, open, closed)
    ensures x !in nodes ==> DividedBut(nodes + {x}, open, closed, x)
    ensures x in open ==> DividedBut(nodes, open - {x}, closed, x)
  {
  }

  lemma Placed<S, E>(nodes: set<Node<S, E>>, open: set<Node<S, E>>, closed: set<Node<S, E>>, x: Node<S, E>)
    requires DividedBut(nodes, open, closed, x)
    ensures Divided(nodes, open + {x}, closed)
    ensures Divided(nodes, open, closed + {x})
  {
  }

  class AStar<S(==, !new), E(!new)> {
    const problem: Problem<S, E>
    const oneWay: bool
    const open: NodeList<S, E>
    var storage: map<S, Node<S, E>>
    var closed: seq<Node<S, E>>
    var searching: bool
    var successNode: Node?<S, E>
    ghost var nodes: set<Node<S, E>>
    ghost var view: State<S, E>

    ghost function ClosedNodes(): (q: set<Node<S, E>>)
      reads `closed
    {
      set x | x in closed
    }

    ghost predicate Linked()
      reads `nodes, nodes`link
    {
      forall x {:trigger x.link} :: x in nodes && x.link.Some? ==> x.link.value.parent in nodes
    }

    // The view holds what the objects hold.
    ghost predicate Shown()
      requires Stored(storage, nodes)
      reads `storage, `nodes, `view, `closed, nodes`link, nodes`f, nodes`connector
    {
      && view.nodes.Keys == storage.Keys
      && (forall v {:trigger view.nodes[v]} :: v in storage ==>
            view.nodes[v] == AsRecord(storage[v].link, storage[v].f, storage[v].connector))
      && |view.closed| == |closed|
         && (forall i {:trigger view.closed[i]} :: 0 <= i < |closed| ==> view.closed[i] == closed[i].state)
    }

    // Storage, links and view, whatever the heap of open nodes looks like.
    ghost predicate Sound()
      reads `storage, `nodes, `closed, `view, nodes`link, nodes`f, nodes`connector
    {
      Stored(storage, nodes) && Linked() && Shown()
    }

    ghost predicate Valid()
      reads `storage, `nodes, `closed, `view, open, nodes
    {
      Sound() && Divided(nodes, open.Members(), ClosedNodes()) && open.Valid()
    }

    // Valid but for x, which is neither open nor closed.
    ghost predicate Loose(x: Node<S, E>)
      reads `storage, `nodes, `closed, `view, open, nodes
    {
      Sound() && DividedBut(nodes, open.Members(), ClosedNodes(), x) && open.Valid()
    }

    // Valid but for the heap order at x.
    ghost predicate Shaky(x: Node<S, E>)
      reads `storage, `nodes, `closed, `view, open, nodes, x`nodelistIndex
    {
      Sound() && Divided(nodes, open.Members(), ClosedNodes()) && x in nodes && open.Disturbed(x)
    }

    constructor (problem: Problem<S, E>, oneWay: bool)
      ensures this.problem == problem && this.oneWay == oneWay
      ensures Valid() && fresh(open) && open.heap == [] && nodes == {} && view == State(map[], []) && !searching
              && successNode == null
    {
      this.problem, this.oneWay := problem, oneWay;
      open := new NodeList();
      storage, closed, searching, successNode, nodes := map[], [], false, null, {};
      view := State(map[], []);
    }

    // ---- Registering ----

    // Nodes are added and never removed.
    twostate predicate MoreNodes()
      reads `nodes
    {
      old(nodes) <= nodes && forall x :: x in nodes && x !in old(nodes) ==> fresh(x)
    }

    // At most the node x is new or changed.
    twostate predicate OnlyChanged(new x: Node<S, E>)
      reads `storage, `nodes, `closed, nodes`link, nodes`f, nodes`connector
    {
      && nodes == old(nodes) + {x} && storage == old(storage)[x.state := x] && closed == old(closed)
      && forall y :: y in old(nodes) && y != x ==>
           y.link == old(y.link) && y.f == old(y.f) && y.connector == old(y.connector)
    }

    twostate lemma StillLinked(new x: Node<S, E>)
      requires old(Linked()) && OnlyChanged(x) && (x.link.Some? ==> x.link.value.parent in nodes)
      ensures Linked()
    {
    }

    twostate lemma StillShown(new x: Node<S, E>)
      requires old(Stored(storage, nodes)) && old(Shown()) && Stored(storage, nodes) && OnlyChanged(x)
      requires view == old(view).(nodes := old(view).nodes[x.state := AsRecord(x.link, x.f, x.connector)])
      ensures Shown()
    {
      forall v | v in storage && v != x.state
        ensures view.nodes[v] == AsRecord(storage[v].link, storage[v].f, storage[v].connector)
      {
        assert old(view).nodes[v] == old(AsRecord(storage[v].link, storage[v].f, storage[v].connector));
      }
    }

    // A new node in storage, neither open nor closed yet.
    method StoreNode(v: S, link: Option<Link<S, E>>, f: real, connector: bool) returns (x: Node<S, E>)
      requires Valid() && v !in storage
      requires link.Some? ==> link.value.parent in nodes
      modifies `storage, `nodes, `view
      ensures Loose(x) == true && MoreNodes() && fresh(x) && nodes == old(nodes) + {x}
      ensures view == old(view).(nodes := old(view).nodes[v := AsRecord(link, f, connector)])
    {
      x := new Node(v, link, f, connector);
      StoredMore(storage, nodes, x);
      Stray(nodes, open.Members(), ClosedNodes(), x);
      label Created:
      storage, nodes := storage[v := x], nodes + {x};
      view := view.(nodes := view.nodes[v := AsRecord(link, f, connector)]);
      StillLinked@Created(x);
      StillShown@Created(x);
    }

    method OpenNode(x: Node<S, E>)
      requires Loose(x)
      modifies open, nodes`nodelistIndex
      ensures Valid()
    {
      Placed(nodes, open.Members(), ClosedNodes(), x);
      open.AddNode(x);
    }

    // A node not seen before.
    method InsertNode(v: S, link: Option<Link<S, E>>, f: real, connector: bool)
      requires Valid() && v !in storage
      requires link.Some? ==> link.value.parent in nodes
      modifies `storage, `nodes, `view, open, nodes`nodelistIndex
      ensures Valid() && MoreNodes()
      ensures view == old(view).(nodes := old(view).nodes[v := AsRecord(link, f, connector)])
    {
      var x := StoreNode(v, link, f, connector);
      OpenNode(x);
    }

    // Overwrites what is known about a node.
    method Overwrite(dup: Node<S, E>, link: Link<S, E>, f: real, connector: bool)
      requires Sound() && dup in nodes && link.parent in nodes
      modifies `view, dup`link, dup`f, dup`connector
      ensures Sound()
      ensures view == old(view).(nodes := old(view).nodes[dup.state := AsRecord(Some(link), f, connector)])
    {
      assert storage[dup.state := dup] == storage && nodes + {dup} == nodes;
      dup.link, dup.f, dup.connector := Some(link), f, connector;
      view := view.(nodes := view.nodes[dup.state := AsRecord(Some(link), f, connector)]);
      StillLinked(dup);
      StillShown(dup);
    }

    // The same; the heap may then be disordered there.
    method Disturb(dup: Node<S, E>, link: Link<S, E>, f: real, connector: bool)
      requires Valid() && dup in nodes && link.parent in nodes
      modifies `view, dup`link, dup`f, dup`connector
      ensures Shaky(dup)
      ensures view == old(view).(nodes := old(view).nodes[dup.state := AsRecord(Some(link), f, connector)])
    {
      Overwrite(dup, link, f, connector);
      open.OneChanged(dup);
    }

    // Overwrites a node and restores the heap.  Fails, with the node already overwritten, if
    // the node is not open.
    method ReplaceNode(dup: Node<S, E>, link: Link<S, E>, f: real, connector: bool) returns (ok: bool)
      requires Valid() && dup in nodes && link.parent in nodes
      modifies `view, open, nodes`nodelistIndex, dup`link, dup`f, dup`connector
      ensures ok <==> dup !in ClosedNodes()
      ensures Valid()
      ensures view == old(view).(nodes := old(view).nodes[dup.state := AsRecord(Some(link), f, connector)])
    {
      Disturb(dup, link, f, connector);
      ok := open.AdjustPosition(dup);
    }

    // Registers a node; false is a failed ASSERT, which ends the program.
    method RegisterNode(v: S, link: Option<Link<S, E>>, f: real, connector: bool, ghost r: Record<S, E>)
      returns (ok: bool)
      requires Valid() && (link.Some? ==> link.value.parent in nodes) && r == AsRecord(link, f, connector)
      modifies `storage, `nodes, `view, open, nodes
      ensures MoreNodes() && (ok ==> Valid())
      ensures Register(old(view), v, r) == After(ok, view)
    {
      if v !in storage {
        InsertNode(v, link, f, connector);
        return true;
      }
      var dup := storage[v];
      ClosedIff(v);
      if link.None? {
        return false;
      }
      if link.value.cumulative < Cumulative(dup.link) {
        if dup.link.None? {
          return false;
        }
        ok := ReplaceNode(dup, link.value, f, connector);
      } else {
        ok := true;
      }
    }

    // A stored state is closed exactly if its node is.
    lemma ClosedIff(v: S)
      requires Valid() && v in storage
      ensures v in view.closed <==> storage[v] in ClosedNodes()
      ensures view.nodes[v] == AsRecord(storage[v].link, storage[v].f, storage[v].connector)
    {
      if v in view.closed {
        var i :| 0 <= i < |closed| && view.closed[i] == v;
        assert closed[i] in ClosedNodes() && closed[i].state == v;
      }
      if storage[v] in ClosedNodes() {
        var i :| 0 <= i < |closed| && closed[i] == storage[v];
        assert view.closed[i] == v;
      }
    }

    // Adds a source; false if it was added before, or once the search has closed a node.
    method AddSrcNode(src: S) returns (ok: bool)
      requires Valid()
      modifies `storage, `nodes, `view, `searching, open, nodes
      ensures ok <==> old(view).closed == [] && src !in old(view).nodes
      ensures MoreNodes()
      ensures ok ==> Valid() && searching && view == old(view).(nodes := old(view).nodes[src := SourceRecord()])
    {
      if closed != [] {
        return false;
      }
      searching := true;
      ok := RegisterNode(src, None, 0.0, false, SourceRecord());
    }

    // ---- Closing ----

    method AppendClosed(x: Node<S, E>)
      requires Loose(x)
      modifies `closed, `view
      ensures Valid() && view == Close(old(view), x.state)
    {
      Placed(nodes, open.Members(), ClosedNodes(), x);
      ghost var grown := ClosedNodes() + {x};
      closed, view := closed + [x], Close(view, x.state);
      assert ClosedNodes() == grown;
    }

    method TakeFirst() returns (x: Node<S, E>)
      requires Valid() && open.heap != []
      modifies open, nodes`nodelistIndex
      ensures Loose(x) && x == old(open.heap[0])
    {
      Stray(nodes, open.Members(), ClosedNodes(), open.heap[0]);
      x := open.GetAndRemoveFirstNode();
    }

    method MoveFirstOpenNodeToClosedList() returns (x: Node<S, E>)
      requires Valid() && open.heap != []
      modifies `closed, `view, open, nodes`nodelistIndex
      ensures Valid() && x == old(open.heap[0]) && x in nodes
      ensures view == Close(old(view), x.state)
    {
      x := TakeFirst();
      AppendClosed(x);
    }

    lemma Shows(x: Node<S, E>)
      requires Valid() && x in nodes
      ensures x.state in view.nodes && view.nodes[x.state] == AsRecord(x.link, x.f, x.connector)
    {
    }

    lemma OpenIsInHeap(v: S)
      requires Valid()
      ensures IsOpen(view, v) <==> v in storage && storage[v] in open.Members()
    {
      if v in storage {
        ClosedIff(v);
      }
    }

    // The head of the heap is an open state of least f-value.
    lemma HeadIsFirst()
      requires Valid() && open.heap != []
      requires forall y :: y in open.Members() ==> open.heap[0].f <= y.f
      ensures IsFirst(view, open.heap[0].state)
    {
      var u := open.heap[0];
      assert u in open.Members();
      Shows(u);
      OpenIsInHeap(u.state);
      forall v | IsOpen(view, v)
        ensures view.nodes[u.state].f <= view.nodes[v].f
      {
        OpenIsInHeap(v);
        Shows(storage[v]);
      }
    }

    method FirstOpenNode() returns (x: Node?<S, E>)
      requires Valid()
      ensures x == null <==> open.heap == []
      ensures x == null ==> NothingOpen(view)
      ensures x != null ==> x == open.heap[0] && x in nodes && IsFirst(view, x.state)
      ensures x != null ==> view.nodes[x.state] == AsRecord(x.link, x.f, x.connector)
    {
      x := open.FirstNode();
      if x == null {
        forall v
          ensures !IsOpen(view, v)
        {
          OpenIsInHeap(v);
        }
      } else {
        HeadIsFirst();
        Shows(x);
      }
    }

    // The node for v, if it is closed.
    method FindInClosedList(v: S) returns (x: Node?<S, E>)
      requires Valid()
      ensures x != null <==> v in view.closed
      ensures x != null ==>
                x in nodes && x.state == v && v in view.nodes && view.nodes[v] == AsRecord(x.link, x.f, x.connector)
    {
      if v !in storage {
        ClosedAreStored(v);
        return null;
      }
      ClosedIff(v);
      var inOpen := open.InList(storage[v]);
      x := if inOpen then null else storage[v];
    }

    lemma ClosedAreStored(v: S)
      requires Valid()
      ensures v in view.closed ==> v in storage
    {
      if v in view.closed {
        var i :| 0 <= i < |closed| && view.closed[i] == v;
        assert closed[i] in ClosedNodes();
      }
    }

    // ---- Expanding ----

    lemma EdgeShows(current: Node<S, E>, c: Candidate<S, E>)
      requires Valid() && current in nodes
      ensures current.state in view.nodes
      ensures var g := Cumulative(current.link) + c.cost;
              EdgeRecord(problem, view, current.state, c) ==
                AsRecord(Some(Link(current, Some(c.edge), c.cost, g)), g + problem.h(c.node), false)
    {
      Shows(current);
    }

    method RegisterCandidate(current: Node<S, E>, c: Candidate<S, E>) returns (ok: bool)
      requires Valid() && current in nodes
      modifies `storage, `nodes, `view, open, nodes
      ensures MoreNodes() && (ok ==> Valid()) && current.state in old(view).nodes
      ensures Offer(problem, old(view), current.state, c) == After(ok, view)
    {
      EdgeShows(current, c);
      if c.cost < 0.0 {
        return false;
      }
      var g := Cumulative(current.link) + c.cost;
      var f := g + problem.h(c.node);
      var link := Some(Link(current, Some(c.edge), c.cost, g));
      ok := RegisterNode(c.node, link, f, false, EdgeRecord(problem, view, current.state, c));
    }

    // Candidate i, once those before it are registered.
    method RegisterNext(current: Node<S, E>, cs: seq<Candidate<S, E>>, i: nat, ghost s: State<S, E>) returns (ok: bool)
      requires Valid() && current in nodes && current.state in s.nodes && i < |cs|
      requires RegisterAll(problem, s, current.state, cs[..i]) == Some(view)
      modifies `storage, `nodes, `view, open, nodes
      ensures MoreNodes() && (ok ==> Valid())
      ensures ok ==> RegisterAll(problem, s, current.state, cs[..i + 1]) == Some(view)
      ensures !ok ==> RegisterAll(problem, s, current.state, cs) == None
    {
      RegisterAllStep(problem, s, current.state, cs, i + 1);
      ok := RegisterCandidate(current, cs[i]);
      if !ok {
        AbortsForGood(problem, s, current.state, cs, i + 1);
      }
    }

    // Registers every candidate of the node just closed, in order.
    method RegisterCandidates(current: Node<S, E>) returns (ok: bool)
      requires Valid() && current in nodes && current.state in view.nodes
      modifies `storage, `nodes, `view, open, nodes
      ensures MoreNodes() && (ok ==> Valid())
      ensures RegisterAll(problem, old(view), current.state, problem.expand(current.state)) == After(ok, view)
    {
      var cs := problem.expand(current.state);
      ghost var s := view;
      assert cs[..0] == [] && cs[..|cs|] == cs;
      for i := 0 to |cs|
        invariant Valid() && MoreNodes()
        invariant RegisterAll(problem, s, current.state, cs[..i]) == Some(view)
      {
        ok := RegisterNext(current, cs, i, s);
        if !ok {
          return;
        }
      }
      ok := true;
    }

    // Closes the head of the heap and registers what it expands to.
    method ExpandFirst() returns (ok: bool)
      requires Valid() && open.heap != []
      modifies `storage, `nodes, `closed, `view, open, nodes
      ensures MoreNodes() && (ok ==> Valid()) && old(open.heap[0].state) in old(view).nodes
      ensures Expanded(problem, old(view), old(open.heap[0].state)) == After(ok, view)
    {
      assert open.heap[0] in open.Members();
      Shows(open.heap[0]);
      var x := MoveFirstOpenNodeToClosedList();
      ok := RegisterCandidates(x);
    }

    method RegisterConnector(current: Node<S, E>, t: S, cost: real) returns (ok: bool)
      requires Valid() && current in nodes
      modifies `storage, `nodes, `view, open, nodes
      ensures MoreNodes() && (ok ==> Valid()) && current.state in old(view).nodes
      ensures Register(old(view), t, ConnectorRecord(old(view), current.state, cost)) == After(ok, view)
    {
      Shows(current);
      var g := Cumulative(current.link) + cost;
      var link := Some(Link(current, None, cost, g));
      assert AsRecord(link, g, true) == ConnectorRecord(view, current.state, cost);
      ok := RegisterNode(t, link, g, true, ConnectorRecord(view, current.state, cost));
    }

    // Closes the head of the heap and registers a connector from it to t.
    method ConnectFirst(t: S, cost: real) returns (ok: bool)
      requires Valid() && open.heap != []
      modifies `storage, `nodes, `closed, `view, open, nodes
      ensures MoreNodes() && (ok ==> Valid()) && old(open.heap[0].state) in old(view).nodes
      ensures Connected(old(view), old(open.heap[0].state), t, cost) == After(ok, view)
    {
      assert open.heap[0] in open.Members();
      Shows(open.heap[0]);
      var x := MoveFirstOpenNodeToClosedList();
      ok := RegisterConnector(x, t, cost);
    }

    // ---- Searching ----

    ghost function Head(): (u: Option<S>)
      reads open
    {
      if open.heap == [] then None else Some(open.heap[0].state)
    }

    method CloseTarget(current: Node<S, E>)
      requires Valid() && open.heap != [] && current == open.heap[0]
      modifies `closed, `view, `searching, `successNode, open, nodes`nodelistIndex
      ensures Valid() == true && view == Close(old(view), current.state)
      ensures !searching && successNode == current && current in nodes
    {
      var x := MoveFirstOpenNodeToClosedList();
      searching, successNode := false, x;
    }

    // Handles the first open node; a connector must not be among the open nodes by then.
    method HandleFirst(current: Node<S, E>) returns (o: Outcome)
      requires Valid() && searching && open.heap != [] && current == open.heap[0]
      requires IsFirst(view, current.state) && view.nodes[current.state].connector == current.connector
      modifies this, open, nodes
      ensures MoreNodes() && (o.Aborted? || Valid())
      ensures Stepped(problem, oneWay, old(view), Some(current.state), o, view)
      ensures Ends(o, searching, old(successNode), successNode, nodes, Some(current.state))
    {
      if current.connector {
        o := Aborted;
      } else if oneWay && problem.isTarget(current.state) {
        CloseTarget(current);
        o := Reached;
      } else {
        ghost var s, u := view, current.state;
        var ok := ExpandFirst();
        o := if ok then Grown else Aborted;
        StepExpands(problem, oneWay, s, u, ok, view);
      }
    }

    method SearchOneStep() returns (o: Outcome)
      requires Valid()
      modifies this, open, nodes
      ensures MoreNodes() && (o.Aborted? || Valid())
      ensures if old(searching) then Stepped(problem, oneWay, old(view), old(Head()), o, view)
              else o == Over && view == old(view)
      ensures Ends(o, searching, old(successNode), successNode, nodes, old(Head()))
    {
      if !searching {
        return Over;
      }
      var current := FirstOpenNode();
      if current == null {
        searching, successNode := false, null;
        o := Exhausted;
      } else {
        o := HandleFirst(current);
      }
    }

    // ---- Plans ----

    // The plan step that ends in p, and the node it comes from (null for a source).
    method ReadStep(p: Node<S, E>) returns (step: PlanStep<S, E>, from: Node?<S, E>)
      requires Valid() && p in nodes && Rooted(view)
      ensures p.state in view.nodes && step == LastStep(view, p.state)
      ensures from == null <==> view.nodes[p.state].link.None?
      ensures from != null ==> from in nodes && from.state == view.nodes[p.state].link.value.parent
    {
      Shows(p);
      match p.link
      case None =>
        step, from := PlanStep(None, 0.0, 0.0, p.state), null;
      case Some(e) =>
        Shows(e.parent);
        step, from := PlanStep(e.edge, Cumulative(e.parent.link), e.edgeCost, p.state), e.parent;
    }

    // The plan to a node, read off the parent links from its end.
    method TracePlanFromNode(final: Node<S, E>) returns (plan: seq<PlanStep<S, E>>)
      requires Valid() && final in nodes && Rooted(view)
      ensures final.state in view.nodes && plan == PlanTo(view, final.state)
    {
      Shows(final);
      ghost var goal := PlanTo(view, final.state);
      var p: Node?<S, E> := final;
      plan := [];
      while p != null
        invariant p != null ==> p in nodes && p.state in view.nodes
        invariant goal == (if p == null then [] else PlanTo(view, p.state)) + Reversed(plan)
        decreases p != null, if p == null then 0 else Rank(view, p.state)
      {
        var step, from := ReadStep(p);
        TraceStep(view, p.state, plan);
        plan, p := plan + [step], from;
      }
      plan := ReverseVector(plan);
    }

    // The plan to x is a path from a source, at the cost recorded for x.
    method TracePlan(x: Node<S, E>, ghost srcs: set<S>) returns (plan: seq<PlanStep<S, E>>)
      requires Valid() && x in nodes && !x.connector && Tree(problem, srcs, view)
      ensures x.state in view.nodes && PlanFor(problem, srcs, x.state, G(view.nodes[x.state]), plan)
      ensures Rooted(view) && plan == PlanTo(view, x.state)
    {
      Shows(x);
      PlanToIsFor(problem, srcs, view, x.state);
      plan := TracePlanFromNode(x);
    }

    // ---- The whole search ----

    // What is known while the search is running, and what once it has stopped.
    ghost predicate Phase(srcs: set<S>, all: set<S>)
      reads this
    {
      if searching then successNode == null && Running(problem, srcs, all, view)
      else if successNode == null then Unreachable(problem, srcs)
      else successNode in nodes && Finished(problem, srcs, view, successNode.state)
    }

    method Advance(ghost srcs: set<S>, ghost all: set<S>)
      requires Valid() && oneWay && searching && Phase(srcs, all)
      requires NonNegative(problem) && Consistent(problem) && Universe(problem, srcs, all)
      modifies this, open, nodes
      ensures Valid() && MoreNodes() && Phase(srcs, all)
      ensures searching ==> |old(view).closed| < |view.closed| <= |all|
    {
      ghost var s, head := view, Head();
      var o := SearchOneStep();
      if head.None? {
        StopsExhausted(problem, srcs, all, s);
      } else if problem.isTarget(head.value) {
        StopsReached(problem, srcs, all, s, head.value);
      } else {
        KeepsRunning(problem, srcs, all, s, head.value);
      }
    }

    // The whole search.  -1 means that no target can be reached; otherwise the plan is a
    // path from a source to a target, its cost is the result, and no path is cheaper.
    method Search(ghost srcs: set<S>, ghost all: set<S>) returns (cost: real, plan: seq<PlanStep<S, E>>)
      requires Valid() && oneWay && Initial(srcs, view)
      requires NonNegative(problem) && Consistent(problem) && Universe(problem, srcs, all)
      modifies this, open, nodes
      ensures Answer(problem, srcs, cost, plan)
    {
      StartsRunning(problem, srcs, all, view);
      searching, successNode := true, null;
      while searching
        invariant Valid() && MoreNodes() && Phase(srcs, all)
        decreases searching, |all| - |view.closed|
      {
        Advance(srcs, all);
      }
      cost, plan := Report(srcs, all);
    }

    method Report(ghost srcs: set<S>, ghost all: set<S>) returns (cost: real, plan: seq<PlanStep<S, E>>)
      requires Valid() && !searching && Phase(srcs, all)
      ensures Answer(problem, srcs, cost, plan)
    {
      if successNode == null {
        return -1.0, [];
      }
      Shows(successNode);
      plan := TracePlan(successNode, srcs);
      cost := Cumulative(successNode.link);
    }
  }

  // A new engine with the given sources, which must be distinct.
  method Prepare<S(==, !new), E(!new)>(problem: Problem<S, E>, oneWay: bool, sources: seq<S>)
    returns (engine: AStar<S, E>)
    requires Distinct(sources)
    ensures engine.Valid() && fresh(engine) && fresh(engine.open) && fresh(engine.nodes)
    ensures engine.problem == problem && engine.oneWay == oneWay && engine.successNode == null
    ensures engine.open.heap != [] ==> engine.searching
    ensures engine.view == Sources(problem, sources)
  {
    engine := new AStar(problem, oneWay);
    for i := 0 to |sources|
      invariant engine.Valid() && fresh(engine) && fresh(engine.open) && fresh(engine.nodes)
      invariant engine.view == Sources(problem, sources[..i])
      invariant engine.successNode == null && (engine.open.heap == [] || engine.searching)
    {
      MoreSources(problem, sources, i);
      var ok := engine.AddSrcNode(sources[i]);
    }
    assert sources[..|sources|] == sources;
  }

  // Using the engine: distinct sources are added one by one, then the search runs.
  method FindCheapest<S(==, !new), E(!new)>(problem: Problem<S, E>, sources: seq<S>, ghost all: set<S>)
    returns (cost: real, plan: seq<PlanStep<S, E>>)
    requires NonNegative(problem) && Consistent(problem) && Distinct(sources)
    requires Universe(problem, Elements(sources), all)
    ensures Answer(problem, Elements(sources), cost, plan)
  {
    var engine := Prepare(problem, true, sources);
    cost, plan := engine.Search(Elements(sources), all);
  }

  ghost function Elements<T>(q: seq<T>): (xs: set<T>) {
    set x | x in q
  }

  ghost function Sources<S(!new), E(!new)>(p: Problem<S, E>, q: seq<S>): (s: State<S, E>)
    ensures Initial(Elements(q), s)
  {
    State(map v | v in Elements(q) :: SourceRecord(), [])
  }

  lemma MoreSources<S(!new), E(!new)>(p: Problem<S, E>, q: seq<S>, i: nat)
    requires Distinct(q) && i < |q|
    ensures q[i] !in Sources(p, q[..i]).nodes
    ensures Sources(p, q[..i + 1]) == State(Sources(p, q[..i]).nodes[q[i] := SourceRecord()], [])
  {
    assert q[..i + 1] == q[..i] + [q[i]];
    assert Elements(q[..i + 1]) == Elements(q[..i]) + {q[i]};
  }
}
