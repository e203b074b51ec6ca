/**
 Sequences without repetition, taking a value out of a sequence, and spreading a function over
 one.
 */
module Sequences {
  ghost predicate Distinct<T>(s: seq<T>) {
    forall i, j :: 0 <= i < j < |s| ==> s[i] != s[j]
  }

  // A list without the first occurrence of a value.
  function Dropping<T(==)>(s: seq<T>, x: T): (r: seq<T>) {
    if s == [] then [] else if s[0] == x then s[1..] else [s[0]] + Dropping(s[1..], x)
  }

  lemma {:induction false} DroppingAt<T>(s: seq<T>, i: nat)
    requires i < |s| && s[i] !in s[..i]
    ensures Dropping(s, s[i]) == s[..i] + s[i + 1..]
  {
    if i > 0 {
      assert s[1..][..i - 1] == s[1..i];
      DroppingAt(s[1..], i - 1);
    }
  }

  lemma {:induction false} DroppingDistinct<T>(s: seq<T>, x: T)
    requires Distinct(s)
    ensures Distinct(Dropping(s, x)) && |Dropping(s, x)| <= |s|
    ensures forall y :: y in Dropping(s, x) <==> y in s && y != x
  {
    if s != [] {
      DroppingDistinct(s[1..], x);
      assert s == [s[0]] + s[1..] && s[0] !in s[1..];
      var w := Dropping(s[1..], x);
      assert forall j :: 0 <= j < |w| ==> w[j] in w;
    }
  }

  lemma {:induction false} DroppingAbsent<T>(s: seq<T>, x: T)
    requires x !in s
    ensures Dropping(s, x) == s
  {
    if s != [] {
      DroppingAbsent(s[1..], x);
    }
  }

  function Spread<A, B>(f: A -> seq<B>, s: seq<A>): (r: seq<B>) {
    if s == [] then [] else Spread(f, s[..|s| - 1]) + f(s[|s| - 1])
  }

  lemma {:induction false} SpreadAppend<A, B>(f: A -> seq<B>, a: seq<A>, b: seq<A>)
    ensures Spread(f, a + b) == Spread(f, a) + Spread(f, b)
    decreases |b|
  {
    if b == [] {
      assert a + b == a;
    } else {
      assert (a + b)[..|a + b| - 1] == a + b[..|b| - 1];
      SpreadAppend(f, a, b[..|b| - 1]);
    }
  }

  lemma SpreadFirst<A, B>(f: A -> seq<B>, s: seq<A>, rest: seq<B>)
    requires s != []
    ensures Spread(f, s) + rest == f(s[0]) + (Spread(f, s[1..]) + rest)
    ensures |Spread(f, s)| == |f(s[0])| + |Spread(f, s[1..])|
  {
    SpreadAppend(f, [s[0]], s[1..]);
    assert [s[0]] + s[1..] == s;
    SpreadOne(f, s[0]);
    Regroup(f(s[0]), Spread(f, s[1..]), rest);
  }

  lemma SpreadOne<A, B>(f: A -> seq<B>, x: A)
    ensures Spread(f, [x]) == f(x)
  {
    assert [x][..0] == [];
    assert Spread(f, [x][..0]) == [];
  }

  lemma Regroup<T>(a: seq<T>, b: seq<T>, c: seq<T>)
    ensures a + (b + c) == a + b + c
  {
  }
}
