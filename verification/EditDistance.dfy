/**
 The edit distance: a table filled cell by cell, the metric it computes, and the shortest
 edit script it stands for.
 */
module EditDistance {
  function Min(a: nat, b: nat): (m: nat) {
    if a <= b then a else b
  }

  function Chop<T>(s: seq<T>): (r: seq<T>)
    requires s != []
    ensures s == r + [s[|s| - 1]] && |r| == |s| - 1
  {
    s[..|s| - 1]
  }

  function Differ<T(==)>(s: seq<T>, t: seq<T>): (n: nat)
    requires s != [] && t != []
  {
    if s[|s| - 1] == t[|t| - 1] then 0 else 1
  }

  // The reference definition, on the last elements of both sequences.
  function Distance<T(==)>(s: seq<T>, t: seq<T>): (n: nat)
    decreases |s| + |t|
  {
    if s == [] then |t|
    else if t == [] then |s|
    else Min(Min(Distance(Chop(s), t) + 1, Distance(s, Chop(t)) + 1), Distance(Chop(s), Chop(t)) + Differ(s, t))
  }

  // ---- The distance is a metric ----

  lemma {:induction false} DistanceBounds<T>(s: seq<T>, t: seq<T>)
    ensures |s| - |t| <= Distance(s, t) && |t| - |s| <= Distance(s, t) <= |s| + |t|
    decreases |s| + |t|
  {
    if s != [] && t != [] {
      DistanceBounds(Chop(s), t);
      DistanceBounds(s, Chop(t));
      DistanceBounds(Chop(s), Chop(t));
    }
  }

  lemma {:induction false} ZeroIffEqual<T>(s: seq<T>, t: seq<T>)
    ensures Distance(s, t) == 0 <==> s == t
    decreases |s| + |t|
  {
    if s != [] && t != [] {
      ZeroIffEqual(Chop(s), Chop(t));
      assert s == t ==> Chop(s) == Chop(t);
    }
  }

  lemma {:induction false} Symmetric<T>(s: seq<T>, t: seq<T>)
    ensures Distance(s, t) == Distance(t, s)
    decreases |s| + |t|
  {
    if s != [] && t != [] {
      Symmetric(Chop(s), t);
      Symmetric(s, Chop(t));
      Symmetric(Chop(s), Chop(t));
    }
  }

  lemma {:induction false} Triangle<T>(s: seq<T>, t: seq<T>, u: seq<T>)
    ensures Distance(s, u) <= Distance(s, t) + Distance(t, u)
    decreases |s| + |t| + |u|
  {
    DistanceBounds(s, t);
    DistanceBounds(t, u);
    DistanceBounds(s, u);
    if s != [] && t != [] && u != [] {
      Triangle(Chop(s), t, u);
      Triangle(s, t, Chop(u));
      Triangle(s, Chop(t), u);
      Triangle(s, Chop(t), Chop(u));
      Triangle(Chop(s), Chop(t), u);
      Triangle(Chop(s), Chop(t), Chop(u));
    }
  }

  // ---- Edit scripts ----

  datatype Edit<T> = Insert(at: nat, x: T) | Delete(at: nat) | Substitute(at: nat, x: T)

  ghost predicate Applies<T>(e: Edit<T>, s: seq<T>) {
    if e.Insert? then e.at <= |s| else e.at < |s|
  }

  function Applied<T>(e: Edit<T>, s: seq<T>): (r: seq<T>)
    requires Applies(e, s)
  {
    match e
    case Insert(at, x) => s[..at] + [x] + s[at..]
    case Delete(at) => s[..at] + s[at + 1..]
    case Substitute(at, x) => s[..at] + [x] + s[at + 1..]
  }

  // Whether the edits, done one after the other, turn s into t.
  ghost predicate Turns<T>(script: seq<Edit<T>>, s: seq<T>, t: seq<T>) {
    if script == [] then s == t
    else Applies(script[0], s) && Turns(script[1..], Applied(script[0], s), t)
  }

  // A common tail adds nothing.
  lemma {:induction false} CommonTail<T>(a: seq<T>, b: seq<T>, c: seq<T>)
    ensures Distance(a + c, b + c) <= Distance(a, b)
    decreases |c|
  {
    if c == [] {
      assert a + c == a && b + c == b;
    } else {
      assert Chop(a + c) == a + Chop(c) && Chop(b + c) == b + Chop(c);
      CommonTail(a, b, Chop(c));
    }
  }

  lemma OneLonger<T>(s: seq<T>, t: seq<T>)
    requires t != []
    ensures Distance(s, t) <= Distance(s, Chop(t)) + 1
  {
    DistanceBounds(s, []);
  }

  lemma LastAdded<T>(a: seq<T>, x: T)
    ensures Distance(a, a + [x]) <= 1 && Distance(a + [x], a) <= 1
  {
    OneLonger(a, a + [x]);
    assert Chop(a + [x]) == a;
    ZeroIffEqual(a, a);
    Symmetric(a, a + [x]);
  }

  lemma LastChanged<T>(a: seq<T>, x: T, y: T)
    ensures Distance(a + [x], a + [y]) <= 1
  {
    assert Chop(a + [x]) == a && Chop(a + [y]) == a;
    ZeroIffEqual(a, a);
  }

  lemma SplitAt<T>(s: seq<T>, at: nat)
    requires at < |s|
    ensures s == s[..at] + [s[at]] + s[at + 1..]
  {
  }

  lemma MiddleDropped<T>(a: seq<T>, x: T, c: seq<T>)
    ensures Distance(a + [x] + c, a + c) <= 1
  {
    LastAdded(a, x);
    CommonTail(a + [x], a, c);
  }

  lemma MiddleChanged<T>(a: seq<T>, x: T, y: T, c: seq<T>)
    ensures Distance(a + [x] + c, a + [y] + c) <= 1
  {
    LastChanged(a, x, y);
    CommonTail(a + [x], a + [y], c);
  }

  lemma OneEdit<T>(e: Edit<T>, s: seq<T>)
    requires Applies(e, s)
    ensures Distance(s, Applied(e, s)) <= 1
  {
    match e
    case Insert(at, x) =>
      assert s == s[..at] + s[at..];
      LastAdded(s[..at], x);
      CommonTail(s[..at], s[..at] + [x], s[at..]);
    case Delete(at) =>
      SplitAt(s, at);
      MiddleDropped(s[..at], s[at], s[at + 1..]);
    case Substitute(at, x) =>
      SplitAt(s, at);
      MiddleChanged(s[..at], s[at], x, s[at + 1..]);
  }

  // No script is shorter than the distance.
  lemma {:induction false} NoShorterScript<T>(script: seq<Edit<T>>, s: seq<T>, t: seq<T>)
    requires Turns(script, s, t)
    ensures Distance(s, t) <= |script|
    decreases |script|
  {
    if script == [] {
      ZeroIffEqual(s, t);
    } else {
      var mid := Applied(script[0], s);
      NoShorterScript(script[1..], mid, t);
      OneEdit(script[0], s);
      Triangle(s, mid, t);
    }
  }

  lemma AppliedBefore<T>(e: Edit<T>, s: seq<T>, c: seq<T>)
    requires Applies(e, s)
    ensures Applies(e, s + c) && Applied(e, s + c) == Applied(e, s) + c
  {
    if e.Insert? {
      assert (s + c)[..e.at] == s[..e.at] && (s + c)[e.at..] == s[e.at..] + c;
    } else {
      assert (s + c)[..e.at] == s[..e.at] && (s + c)[e.at + 1..] == s[e.at + 1..] + c;
    }
  }

  // A script works the same way in front of a tail it does not reach.
  lemma {:induction false} TailKept<T>(script: seq<Edit<T>>, s: seq<T>, t: seq<T>, c: seq<T>)
    requires Turns(script, s, t)
    ensures Turns(script, s + c, t + c)
    decreases |script|
  {
    if script != [] {
      TailKept(script[1..], Applied(script[0], s), t, c);
      AppliedBefore(script[0], s, c);
    }
  }

  lemma {:induction false} OneMore<T>(script: seq<Edit<T>>, e: Edit<T>, s: seq<T>, t: seq<T>)
    requires Turns(script, s, t) && Applies(e, t)
    ensures Turns(script + [e], s, Applied(e, t))
    decreases |script|
  {
    if script == [] {
      assert (script + [e])[1..] == [];
    } else {
      OneMore(script[1..], e, Applied(script[0], s), t);
      assert (script + [e])[1..] == script[1..] + [e];
    }
  }

  // A script as long as the distance.
  function ShortestScript<T(==)>(s: seq<T>, t: seq<T>): (script: seq<Edit<T>>)
    ensures |script| == Distance(s, t)
    decreases |s| + |t|
  {
    if s == [] && t == [] then []
    else if s == [] || (t != [] && Distance(s, t) == Distance(s, Chop(t)) + 1) then
      ShortestScript(s, Chop(t)) + [Insert(|t| - 1, t[|t| - 1])]
    else if t == [] || Distance(s, t) == Distance(Chop(s), t) + 1 then
      ShortestScript(Chop(s), t) + [Delete(|t|)]
    else
      ShortestScript(Chop(s), Chop(t)) + if Differ(s, t) == 0 then [] else [Substitute(|t| - 1, t[|t| - 1])]
  }

  lemma {:induction false} ShortestScriptTurns<T>(s: seq<T>, t: seq<T>)
    ensures Turns(ShortestScript(s, t), s, t)
    decreases |s| + |t|
  {
    if s == [] && t == [] {
    } else if s == [] || (t != [] && Distance(s, t) == Distance(s, Chop(t)) + 1) {
      ShortestScriptTurns(s, Chop(t));
      InsertLast(ShortestScript(s, Chop(t)), s, Chop(t), t[|t| - 1]);
    } else if t == [] || Distance(s, t) == Distance(Chop(s), t) + 1 {
      ShortestScriptTurns(Chop(s), t);
      DeleteLast(ShortestScript(Chop(s), t), Chop(s), t, s[|s| - 1]);
    } else {
      ShortestScriptTurns(Chop(s), Chop(t));
      ChangeLast(ShortestScript(Chop(s), Chop(t)), Chop(s), Chop(t), s[|s| - 1], t[|t| - 1]);
    }
  }

  lemma InsertLast<T>(script: seq<Edit<T>>, s: seq<T>, t: seq<T>, y: T)
    requires Turns(script, s, t)
    ensures Turns(script + [Insert(|t|, y)], s, t + [y])
  {
    OneMore(script, Insert(|t|, y), s, t);
    assert Applied(Insert(|t|, y), t) == t + [y];
  }

  lemma DeleteLast<T>(script: seq<Edit<T>>, s: seq<T>, t: seq<T>, x: T)
    requires Turns(script, s, t)
    ensures Turns(script + [Delete(|t|)], s + [x], t)
  {
    TailKept(script, s, t, [x]);
    OneMore(script, Delete(|t|), s + [x], t + [x]);
    assert Applied(Delete(|t|), t + [x]) == t;
  }

  lemma ChangeLast<T>(script: seq<Edit<T>>, s: seq<T>, t: seq<T>, x: T, y: T)
    requires Turns(script, s, t)
    ensures Turns(script + if x == y then [] else [Substitute(|t|, y)], s + [x], t + [y])
  {
    TailKept(script, s, t, [x]);
    if x == y {
      assert script + [] == script;
    } else {
      OneMore(script, Substitute(|t|, y), s + [x], t + [x]);
      assert Applied(Substitute(|t|, y), t + [x]) == t + [y];
    }
  }

  // The distance is the length of a shortest script: one of that length exists and none is
  // shorter.
  lemma DistanceIsShortest<T>(s: seq<T>, t: seq<T>)
    ensures exists script: seq<Edit<T>> :: |script| == Distance(s, t) && Turns(script, s, t)
    ensures forall script: seq<Edit<T>> :: Turns(script, s, t) ==> Distance(s, t) <= |script|
  {
    ShortestScriptTurns(s, t);
    forall script: seq<Edit<T>> | Turns(script, s, t)
      ensures Distance(s, t) <= |script|
    {
      NoShorterScript(script, s, t);
    }
  }

  // ---- The table ----

  // The distance of two prefixes, the value of one cell.
  ghost function Cell<T>(s: seq<T>, t: seq<T>, i: nat, j: nat): (n: nat)
    requires i <= |s| && j <= |t|
  {
    Distance(s[..i], t[..j])
  }

  lemma CellAt<T>(s: seq<T>, t: seq<T>, i: nat, j: nat)
    requires i <= |s| && j <= |t|
    ensures i == 0 ==> Cell(s, t, i, j) == j
    ensures j == 0 ==> Cell(s, t, i, j) == i
    ensures i > 0 && j > 0 ==>
              Cell(s, t, i, j) == Min(Min(Cell(s, t, i - 1, j) + 1, Cell(s, t, i, j - 1) + 1),
                                      Cell(s, t, i - 1, j - 1) + if s[i - 1] == t[j - 1] then 0 else 1)
  {
    if i > 0 && j > 0 {
      assert Chop(s[..i]) == s[..i - 1] && Chop(t[..j]) == t[..j - 1];
    }
  }

  twostate predicate Untouched(d: array2<nat>, row: nat)
    reads d
  {
    forall a, b :: 0 <= a < d.Length0 && 0 <= b < d.Length1 && a != row ==> d[a, b] == old(d[a, b])
  }

  // Row i of the table is filled up to column n.
  ghost predicate RowFilled<T>(d: array2<nat>, s: seq<T>, t: seq<T>, i: nat, n: nat)
    requires d.Length0 == |s| + 1 && d.Length1 == |t| + 1 && i <= |s| && n <= |t| + 1
    reads d
  {
    forall b :: 0 <= b < n ==> d[i, b] == Cell(s, t, i, b)
  }

  method FillFirstRow<T(==)>(d: array2<nat>, s: seq<T>, t: seq<T>)
    requires d.Length0 == |s| + 1 && d.Length1 == |t| + 1
    requires d[0, 0] == 0
    modifies d
    ensures RowFilled(d, s, t, 0, |t| + 1) && Untouched(d, 0)
  {
    CellAt(s, t, 0, 0);
    for j := 1 to |t| + 1
      invariant RowFilled(d, s, t, 0, j) && Untouched(d, 0)
    {
      d[0, j] := j;
      CellAt(s, t, 0, j);
    }
  }

  method CellValue<T(==)>(d: array2<nat>, s: seq<T>, t: seq<T>, i: nat, j: nat) returns (n: nat)
    requires d.Length0 == |s| + 1 && d.Length1 == |t| + 1 && 1 <= i <= |s| && 1 <= j <= |t|
    requires RowFilled(d, s, t, i - 1, |t| + 1) && RowFilled(d, s, t, i, j)
    ensures n == Cell(s, t, i, j)
  {
    CellAt(s, t, i, j);
    var above, before, corner := d[i - 1, j], d[i, j - 1], d[i - 1, j - 1];
    n := Min(Min(above + 1, before + 1), corner + if s[i - 1] == t[j - 1] then 0 else 1);
  }

  method FillRow<T(==)>(d: array2<nat>, s: seq<T>, t: seq<T>, i: nat)
    requires d.Length0 == |s| + 1 && d.Length1 == |t| + 1 && 1 <= i <= |s|
    requires RowFilled(d, s, t, i - 1, |t| + 1) && d[i, 0] == i
    modifies d
    ensures RowFilled(d, s, t, i, |t| + 1) && Untouched(d, i)
  {
    CellAt(s, t, i, 0);
    for j := 1 to |t| + 1
      invariant RowFilled(d, s, t, i - 1, |t| + 1) && RowFilled(d, s, t, i, j) && Untouched(d, i)
    {
      d[i, j] := CellValue(d, s, t, i, j);
    }
  }

  method FillFirstColumn(d: array2<nat>)
    requires d.Length0 > 0 && d.Length1 > 0
    modifies d
    ensures forall a :: 0 <= a < d.Length0 ==> d[a, 0] == a
  {
    d[0, 0] := 0;
    for i := 1 to d.Length0
      invariant forall a :: 0 <= a < i ==> d[a, 0] == a
    {
      d[i, 0] := i;
    }
  }

  method EditDistance<T(==)>(s: seq<T>, t: seq<T>) returns (n: nat)
    ensures n == Distance(s, t)
  {
    var d := new nat[|s| + 1, |t| + 1];
    FillFirstColumn(d);
    FillFirstRow(d, s, t);
    for i := 1 to |s| + 1
      invariant RowFilled(d, s, t, i - 1, |t| + 1)
      invariant forall a :: i <= a < d.Length0 ==> d[a, 0] == a
    {
      FillRow(d, s, t, i);
    }
    n := d[|s|, |t|];
    assert s[..|s|] == s && t[..|t|] == t;
  }
}
