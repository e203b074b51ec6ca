/**
 Zero-terminated text, as the string utilities read it: bytes up to a terminating zero.
 */
module CStrings {
  type Byte = x: int | 0 <= x < 256

  // The byte at an index; a zero stands after the last one.
  function CharAt(s: seq<Byte>, i: nat): (b: Byte) {
    if i < |s| then s[i] else 0
  }

  // Characters are signed: the bytes from 128 on are negative, and so count as spaces.
  predicate IsSpace(b: Byte) {
    b != 0 && (b <= 32 || b >= 128)
  }

  function Skipped(t: seq<Byte>): (r: seq<Byte>)
    ensures |r| <= |t|
  {
    if t != [] && IsSpace(t[0]) then Skipped(t[1..]) else t
  }

  // Exactly the bytes from 1 to 32 and from 128 on are skipped, up to the first other one.
  lemma {:induction false} SpacesAreSkipped(a: seq<Byte>, t: seq<Byte>)
    requires forall i :: 0 <= i < |a| ==> 1 <= a[i] <= 32 || 128 <= a[i] <= 255
    requires t == [] || t[0] == 0 || 33 <= t[0] <= 127
    ensures Skipped(a + t) == t
    decreases |a|
  {
    if a == [] {
      assert a + t == t;
    } else {
      assert (a + t)[1..] == a[1..] + t;
      SpacesAreSkipped(a[1..], t);
    }
  }

  method SkipSpaces(s: seq<Byte>, start: nat) returns (i: nat)
    requires start <= |s|
    ensures start <= i <= |s| && s[i..] == Skipped(s[start..])
  {
    i := start;
    while IsSpace(CharAt(s, i))
      invariant start <= i <= |s| && Skipped(s[i..]) == Skipped(s[start..])
      decreases |s| - i
    {
      assert s[i..][1..] == s[i + 1..];
      i := i + 1;
    }
  }
}
