/**
 The indexed binary heap that serves as the open list of the A* engine.

 Search nodes are shared, mutable objects.  Each node carries the heap position it was
 last given (`nodelistIndex`), which is what lets the search find a node again after
 lowering its `f` in place.
 */
module NodeLists {
  import opened Wrappers

  // The primary parent link of a node: how the search reached it.
  // `edge` is None for the connectors of two-way search, whose edge is undefined.
  datatype Link<S, E> = Link(parent: Node<S, E>, edge: Option<E>, edgeCost: real, cumulative: real)

  class Node<S, E> {
    const state: S
    var link: Option<Link<S, E>>
    var f: real
    var connector: bool
    var nodelistIndex: int

    constructor (state: S, link: Option<Link<S, E>>, f: real, connector: bool)
      ensures this.state == state && this.link == link && this.f == f
      ensures this.connector == connector && nodelistIndex == -1
    {
      this.state, this.link, this.f, this.connector := state, link, f, connector;
      nodelistIndex := -1;
    }
  }

  // ---- Heap order, on the sequence of f-values from root to last leaf ----

  function Parent(i: int): (p: int)
    requires 0 < i
    ensures 0 <= p < i && (i == 2 * p + 1 || i == 2 * p + 2)
  {
    (i - 1) / 2
  }

  ghost predicate Ordered(fs: seq<real>) {
    forall i {:trigger Parent(i)} :: 0 < i < |fs| ==> fs[Parent(i)] <= fs[i]
  }

  // Heap order among all positions but k: what is left of `Ordered` once the value at
  // position k has been overwritten with anything at all.
  ghost predicate OrderedExcept(fs: seq<real>, k: int) {
    && (forall i {:trigger Parent(i)} :: 0 < i < |fs| && i != k && Parent(i) != k ==> fs[Parent(i)] <= fs[i])
    && (forall i {:trigger Parent(i)} :: 0 < i < |fs| && Parent(i) == k && 0 < k ==> fs[Parent(k)] <= fs[i])
  }

  ghost predicate AboveChildren(fs: seq<real>, k: int)
    requires 0 <= k < |fs|
  {
    forall i {:trigger Parent(i)} :: 0 < i < |fs| && Parent(i) == k ==> fs[k] <= fs[i]
  }

  ghost predicate BelowParent(fs: seq<real>, k: int)
    requires 0 <= k < |fs|
  {
    0 < k ==> fs[Parent(k)] <= fs[k]
  }

  ghost function Swapped<T>(s: seq<T>, i: int, j: int): (r: seq<T>)
    requires 0 <= i < |s| && 0 <= j < |s|
    ensures multiset(r) == multiset(s)
  {
    s[i := s[j]][j := s[i]]
  }

  // Element i replaced by the last one, which is taken off the end.
  ghost function DropAt<T>(s: seq<T>, i: int): (r: seq<T>)
    requires 0 <= i < |s|
  {
    s[i := s[|s| - 1]][..|s| - 1]
  }

  lemma SiftUp(fs: seq<real>, k: int)
    requires 0 < k < |fs| && OrderedExcept(fs, k) && AboveChildren(fs, k) && fs[k] < fs[Parent(k)]
    ensures var p := Parent(k); var gs := Swapped(fs, k, p); OrderedExcept(gs, p) && AboveChildren(gs, p)
  {
    var p := Parent(k);
    var gs := Swapped(fs, k, p);
    assert 0 < p ==> fs[Parent(p)] <= fs[p];
  }

  lemma SiftDown(fs: seq<real>, k: int)
    requires 0 < k < |fs| && OrderedExcept(fs, Parent(k)) && BelowParent(fs, Parent(k)) && fs[k] < fs[Parent(k)]
    requires forall i {:trigger Parent(i)} :: 0 < i < |fs| && Parent(i) == Parent(k) ==> fs[k] <= fs[i]
    ensures var gs := Swapped(fs, k, Parent(k)); OrderedExcept(gs, k) && BelowParent(gs, k)
  {
  }

  lemma Settled(fs: seq<real>, k: int)
    requires 0 <= k < |fs| && OrderedExcept(fs, k) && AboveChildren(fs, k) && BelowParent(fs, k)
    ensures Ordered(fs)
  {
  }

  // Overwriting one value of a heap leaves it ordered except there.
  lemma Overwritten(fs: seq<real>, gs: seq<real>, k: int)
    requires Ordered(fs) && |gs| <= |fs|
    requires forall i :: 0 <= i < |gs| && i != k ==> gs[i] == fs[i]
    ensures OrderedExcept(gs, k)
  {
    if 0 < k {
      assert Parent(k) < k;
      if k < |fs| {
        assert fs[Parent(k)] <= fs[k];
      }
    }
  }

  lemma Appended(fs: seq<real>, f: real)
    requires Ordered(fs)
    ensures OrderedExcept(fs + [f], |fs|) && AboveChildren(fs + [f], |fs|)
  {
  }

  lemma {:induction false} RootIsLeast(fs: seq<real>, i: int)
    requires Ordered(fs) && 0 <= i < |fs|
    ensures fs[0] <= fs[i]
  {
    if i > 0 {
      RootIsLeast(fs, Parent(i));
    }
  }

  // ---- The heap object ----

  ghost function Values<S, E>(heap: seq<Node<S, E>>): (fs: seq<real>)
    reads heap`f
    ensures |fs| == |heap| && forall i :: 0 <= i < |heap| ==> fs[i] == heap[i].f
  {
    if heap == [] then [] else
      var n := |heap| - 1;
      Values(heap[..n]) + [heap[n].f]
  }

  lemma {:induction false} SwappedValues<S, E>(heap: seq<Node<S, E>>, i: int, j: int)
    requires 0 <= i < |heap| && 0 <= j < |heap|
    ensures Values(Swapped(heap, i, j)) == Swapped(Values(heap), i, j)
  {
  }

  lemma {:induction false} RemovedValues<S, E>(heap: seq<Node<S, E>>, i: int)
    requires 0 <= i < |heap| && Ordered(Values(heap))
    ensures OrderedExcept(Values(DropAt(heap, i)), i)
  {
    Overwritten(Values(heap), Values(DropAt(heap, i)), i);
  }

  // Every member knows its own position.
  ghost predicate Indexed<S, E>(heap: seq<Node<S, E>>)
    reads heap`nodelistIndex
  {
    forall i :: 0 <= i < |heap| ==> heap[i].nodelistIndex == i
  }

  class NodeList<S, E> {
    var heap: seq<Node<S, E>>

    ghost function Members(): (m: set<Node<S, E>>)
      reads this
    {
      set x | x in heap
    }

    ghost predicate Valid()
      reads this, heap`nodelistIndex, heap`f
    {
      Indexed(heap) && Ordered(Values(heap))
    }

    constructor ()
      ensures heap == [] && Valid()
    {
      heap := [];
    }

    // Here and in StepDown, what is known of the heap is compared with true so that it is used
    // as a whole.
    method SwapWithParent(idx: int)
      requires 0 < idx < |heap| && Indexed(heap) == true
      modifies this, heap`nodelistIndex
      ensures heap == Swapped(old(heap), idx, Parent(idx))
      ensures Values(heap) == Swapped(old(Values(heap)), idx, Parent(idx))
      ensures Indexed(heap) == true
    {
      var p := Parent(idx);
      SwappedValues(heap, idx, p);
      ghost var swapped := Swapped(heap, idx, p);
      ghost var values := Values(swapped);
      heap := heap[idx := heap[p]][p := heap[idx]];
      heap[p].nodelistIndex := p;
      heap[idx].nodelistIndex := idx;
      assert heap == swapped;
      assert Indexed(heap);
      assert Values(heap) == values;
    }

    // `AboveChildren` is the sanity check the source makes on entry.
    method MoveUpItem(idx: int)
      requires 0 <= idx < |heap| && Indexed(heap)
      requires OrderedExcept(Values(heap), idx) && AboveChildren(Values(heap), idx)
      modifies this, heap`nodelistIndex
      ensures Valid()
      ensures multiset(heap) == multiset(old(heap))
    {
      var cur := idx;
      while 0 < cur && heap[Parent(cur)].f > heap[cur].f
        invariant 0 <= cur < |heap| && Indexed(heap)
        invariant OrderedExcept(Values(heap), cur) && AboveChildren(Values(heap), cur)
        invariant multiset(heap) == multiset(old(heap))
        decreases cur
      {
        SiftUp(Values(heap), cur);
        SameMembers(heap, old(heap));
        SwapWithParent(cur);
        cur := Parent(cur);
      }
      Settled(Values(heap), cur);
    }

    // Swaps a node with its lesser child if that one is lower.
    method StepDown(cur: int) returns (next: int)
      requires 0 <= cur < |heap| && Indexed(heap) == true
      requires OrderedExcept(Values(heap), cur) == true && BelowParent(Values(heap), cur) == true
      modifies this, heap`nodelistIndex
      ensures multiset(heap) == multiset(old(heap)) && |heap| == |old(heap)| && Indexed(heap) == true
      ensures cur <= next < |heap| && OrderedExcept(Values(heap), next) == true
              && BelowParent(Values(heap), next) == true
      ensures next == cur ==> AboveChildren(Values(heap), cur) == true
    {
      var child := LesserChild(cur);
      if child == |heap| || heap[cur].f <= heap[child].f {
        return cur;
      }
      SiftDown(Values(heap), child);
      SwapWithParent(child);
      return child;
    }

    // `BelowParent` is the sanity check the source makes on entry.
    method MoveDownItem(idx: int)
      requires 0 <= idx < |heap| && Indexed(heap)
      requires OrderedExcept(Values(heap), idx) && BelowParent(Values(heap), idx)
      modifies this, heap`nodelistIndex
      ensures Valid()
      ensures multiset(heap) == multiset(old(heap))
    {
      var cur, settled := idx, false;
      while !settled
        invariant 0 <= cur < |heap| && Indexed(heap)
        invariant OrderedExcept(Values(heap), cur) && BelowParent(Values(heap), cur)
        invariant multiset(heap) == multiset(old(heap))
        invariant settled ==> AboveChildren(Values(heap), cur)
        decreases |heap| - cur, !settled
      {
        SameMembers(heap, old(heap));
        var next := StepDown(cur);
        cur, settled := next, next == cur;
      }
      Settled(Values(heap), cur);
    }

    // The child of k with the lower f (the left one if equal), or |heap| if k is a leaf.
    method LesserChild(k: int) returns (child: int)
      requires 0 <= k < |heap|
      ensures child == |heap| || (k < child < |heap| && Parent(child) == k)
      ensures forall i {:trigger Parent(i)} :: 0 < i < |heap| && Parent(i) == k ==>
                child < |heap| && Values(heap)[child] <= Values(heap)[i]
    {
      var left, right := 2 * k + 1, 2 * k + 2;
      if right < |heap| {
        child := if heap[left].f <= heap[right].f then left else right;
      } else if left < |heap| {
        child := left;
      } else {
        child := |heap|;
      }
    }

    method AdjustItemLocation(idx: int)
      requires 0 <= idx < |heap| && Indexed(heap) && OrderedExcept(Values(heap), idx)
      modifies this, heap`nodelistIndex
      ensures Valid()
      ensures multiset(heap) == multiset(old(heap))
    {
      if idx == 0 || heap[Parent(idx)].f <= heap[idx].f {
        MoveDownItem(idx);
      } else {
        MoveUpItem(idx);
      }
    }

    // Order is lost at most where item is.
    ghost predicate Disturbed(item: Node<S, E>)
      reads this, item`nodelistIndex, heap`nodelistIndex, heap`f
    {
      && Indexed(heap)
      && if item in heap then OrderedExcept(Values(heap), item.nodelistIndex) else Ordered(Values(heap))
    }

    // A heap stays one, except where a member is given another f.
    twostate lemma OneChanged(item: Node<S, E>)
      requires old(Valid()) && heap == old(heap)
      requires forall y :: y in heap ==> y.nodelistIndex == old(y.nodelistIndex)
      requires forall y :: y in heap && y != item ==> y.f == old(y.f)
      ensures Disturbed(item)
    {
      ghost var fs := old(Values(heap));
      if item in heap {
        Overwritten(fs, Values(heap), item.nodelistIndex);
      } else {
        assert Values(heap) == fs;
      }
    }

    // Restores the heap after the f of `item` was changed to an arbitrary value.
    method AdjustPosition(item: Node<S, E>) returns (found: bool)
      requires Disturbed(item)
      modifies this, Members()`nodelistIndex
      ensures Valid()
      ensures Members() == old(Members()) && |heap| == |old(heap)|
      ensures found <==> item in Members()
    {
      found := InList(item);
      if found {
        AdjustItemLocation(item.nodelistIndex);
        SameMembers(heap, old(heap));
      }
    }

    method InList(item: Node<S, E>) returns (b: bool)
      requires Indexed(heap)
      ensures b <==> item in Members()
    {
      var idx := item.nodelistIndex;
      b := 0 <= idx < |heap| && heap[idx] == item;
    }

    // Puts a node behind the last one.
    method Append(x: Node<S, E>)
      requires Indexed(heap) && x !in heap
      modifies this, x`nodelistIndex
      ensures heap == old(heap) + [x] && Indexed(heap) && Values(heap) == old(Values(heap)) + [x.f]
    {
      heap := heap + [x];
      x.nodelistIndex := |heap| - 1;
    }

    method AddNode(x: Node<S, E>)
      requires Valid() && x !in Members()
      modifies this, Members()`nodelistIndex, x`nodelistIndex
      ensures Valid()
      ensures Members() == old(Members()) + {x} && |heap| == |old(heap)| + 1
    {
      Appended(Values(heap), x.f);
      Append(x);
      MoveUpItem(|heap| - 1);
      PushedSet(old(heap), x, heap);
    }

    ghost predicate IndexedExcept(idx: int)
      requires 0 <= idx < |heap|
      reads this, heap`nodelistIndex
    {
      forall i :: 0 <= i < |heap| && i != idx ==> heap[i].nodelistIndex == i && heap[i] != heap[idx]
    }

    // Puts the last node into position idx.
    method OverwriteWithLast(idx: int)
      requires 0 <= idx < |heap| && IndexedExcept(idx)
      modifies this, heap`nodelistIndex
      ensures heap == DropAt(old(heap), idx) && Values(heap) == old(Values(DropAt(heap, idx)))
      ensures forall i :: 0 <= i < |heap| ==> heap[i] in old(heap)
      ensures Indexed(heap)
    {
      var n := |heap| - 1;
      ghost var values := Values(DropAt(heap, idx));
      heap := heap[idx := heap[n]];
      heap[idx].nodelistIndex := idx;
      heap := heap[..n];
      assert forall i :: 0 <= i < |heap| ==> heap[i] == old(heap)[if i == idx then n else i];
      assert Values(heap) == values;
    }

    method RemoveItem(idx: int)
      requires 0 <= idx < |heap| && IndexedExcept(idx) && Ordered(Values(heap))
      modifies this, Members()`nodelistIndex
      ensures Valid()
      ensures multiset(heap) == multiset(old(heap)) - multiset{old(heap)[idx]}
      ensures Members() == old(Members()) - {old(heap)[idx]}
    {
      RemovedValues(heap, idx);
      OverwriteWithLast(idx);
      if idx < |heap| {
        AdjustItemLocation(idx);
      }
      RemovedSet(old(heap), idx, heap);
    }

    // The index is cleared first; when `x` was the only member, RemoveItem sets it again.
    method GetAndRemoveFirstNode() returns (x: Node?<S, E>)
      requires Valid()
      modifies this, Members()`nodelistIndex
      ensures Valid()
      ensures x == null <==> old(heap) == []
      ensures x != null ==>
                && x == old(heap)[0]
                && (forall y :: y in old(Members()) ==> x.f <= y.f)
                && x in old(Members()) && Members() == old(Members()) - {x} && |heap| == |old(heap)| - 1
    {
      if heap == [] {
        return null;
      }
      x := heap[0];
      forall i | 0 <= i < |heap| ensures x.f <= heap[i].f {
        RootIsLeast(Values(heap), i);
      }
      x.nodelistIndex := -1;
      RemoveItem(0);
    }

    method FirstNode() returns (x: Node?<S, E>)
      requires Valid()
      ensures x == null <==> heap == []
      ensures x != null ==> x == heap[0] && x in Members() && forall y :: y in Members() ==> x.f <= y.f
    {
      if heap == [] {
        return null;
      }
      forall i | 0 <= i < |heap| ensures heap[0].f <= heap[i].f {
        RootIsLeast(Values(heap), i);
      }
      x := heap[0];
    }
  }

  lemma SameMembers<T>(a: seq<T>, b: seq<T>)
    requires multiset(a) == multiset(b)
    ensures |a| == |b|
    ensures forall i :: 0 <= i < |a| ==> a[i] in b
    ensures forall i :: 0 <= i < |b| ==> b[i] in a
  {
    assert |a| == |multiset(a)|;
    forall i | 0 <= i < |a| ensures a[i] in b {
      assert a[i] in multiset(b);
    }
    forall i | 0 <= i < |b| ensures b[i] in a {
      assert b[i] in multiset(a);
    }
  }

  lemma RemovedMembers<T>(s: seq<T>, i: int)
    requires 0 <= i < |s|
    ensures multiset(DropAt(s, i)) == multiset(s) - multiset{s[i]}
  {
    var n := |s| - 1;
    assert s == s[..n] + [s[n]];
    if i < n {
      assert s[i := s[n]][..n] == s[..n][i := s[n]];
    } else {
      assert s[i := s[n]][..n] == s[..n];
    }
  }

  lemma PushedSet<T>(s: seq<T>, x: T, r: seq<T>)
    requires multiset(r) == multiset(s + [x])
    ensures (set y | y in r) == (set y | y in s) + {x} && |r| == |s| + 1
  {
    SameMembers(r, s + [x]);
    forall y
      ensures y in r <==> y in s || y == x
    {
      assert y in r <==> y in s + [x];
    }
  }

  lemma RemovedSet<T>(s: seq<T>, i: int, r: seq<T>)
    requires 0 <= i < |s| && forall j :: 0 <= j < |s| && j != i ==> s[j] != s[i]
    requires multiset(r) == multiset(DropAt(s, i))
    ensures multiset(r) == multiset(s) - multiset{s[i]}
    ensures (set x | x in r) == (set x | x in s) - {s[i]} && |r| == |s| - 1
  {
    var n := |s| - 1;
    var t := DropAt(s, i);
    RemovedMembers(s, i);
    SameMembers(r, t);
    forall j | 0 <= j < |s| && j != i ensures s[j] in r {
      assert t[if j == n then i else j] == s[j];
    }
    forall k | 0 <= k < |t| ensures t[k] in s && t[k] != s[i] {
      assert t[k] == s[if k == i then n else k];
    }
  }
}
