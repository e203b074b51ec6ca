/**
 The alphabet of Base64, and the texts that decode.
 */
module Base64Inputs {
  import opened Wrappers
  import opened CStrings
  import opened Base64
  import opened Base64Laws

  // Table 1 of RFC 4648, in order.
  const Capitals: string := "ABCDEFGHIJKLMNOPQRSTUVWXYZ"

  const Smalls: string := "abcdefghijklmnopqrstuvwxyz"

  const Numerals: string := "0123456789"

  const Alphabet: string := Capitals + Smalls + Numerals + "+/"

  lemma InOrder(s: string, first: char, v: nat)
    requires (s == Capitals && first == 'A') || (s == Smalls && first == 'a') || (s == Numerals && first == '0')
    requires v < |s|
    ensures s[v] as int == first as int + v
  {
    assert v in {0, 1, 2, 3, 4, 5, 6, 7, 8, 9, 10, 11, 12, 13, 14, 15, 16, 17, 18, 19, 20, 21, 22, 23, 24, 25};
  }

  lemma LettersAreTheAlphabet(v: nat)
    requires v < 64
    ensures |Alphabet| == 64 && Letter(v) == Alphabet[v] as int && Sextet(Letter(v)) == Some(v)
  {
    SextetOfLetter(v);
    if v < 26 {
      InOrder(Capitals, 'A', v);
    } else if v < 52 {
      InOrder(Smalls, 'a', v - 26);
    } else if v < 62 {
      InOrder(Numerals, '0', v - 52);
    }
  }

  // Nothing but letters and fillers reads as a digit.
  lemma OnlyLettersRead(b: Byte)
    ensures Sextet(b).Some? <==> b == '=' as int || exists v: nat :: v < 64 && b == Letter(v)
  {
    if Sextet(b).Some? && b != Filler {
      assert b == Letter(Sextet(b).value);
    }
    if v: nat :| v < 64 && b == Letter(v) {
      SextetOfLetter(v);
    }
  }

  // ---- Texts without spaces ----

  ghost predicate IsCodeByte(b: Byte) {
    IsLetter(b) || b == Filler
  }

  ghost predicate AllCode(t: seq<Byte>, n: int) {
    forall i :: 0 <= i < n && i < |t| ==> IsCodeByte(t[i])
  }

  // Groups of four letters and fillers; only the last may hold fillers, and at most two.
  ghost predicate IsCode(t: seq<Byte>) {
    |t| % 4 == 0 && AllCode(t, |t|) && Fillers(t, |t|) <= 2 && (|t| > 4 ==> Fillers(t, |t| - 4) == 0)
  }

  ghost predicate HasNoSpaces(t: seq<Byte>) {
    forall i :: 0 <= i < |t| ==> t[i] != 0 && !IsSpace(t[i])
  }

  lemma CodeByteReads(b: Byte)
    ensures IsCodeByte(b) <==> Sextet(b).Some?
  {
    OnlyLettersRead(b);
  }

  lemma {:induction false} NumberReads(t: seq<Byte>, k: nat)
    ensures Number(t, k).Some? <==> k <= |t| && AllCode(t, k)
  {
    if k > 0 {
      NumberReads(t, k - 1);
      CodeByteReads(CharAt(t, k - 1));
      CodeByteReads(0);
    }
  }

  lemma {:induction false} FillersSplit(t: seq<Byte>, k: nat)
    requires 4 <= k <= |t|
    ensures Fillers(t, k) == Fillers(t, 4) + Fillers(t[4..], k - 4)
  {
    if k > 4 {
      FillersSplit(t, k - 1);
    }
  }

  lemma AllCodeSplits(t: seq<Byte>)
    requires |t| >= 4
    ensures AllCode(t, |t|) <==> AllCode(t, 4) && AllCode(t[4..], |t| - 4)
  {
    assert forall i :: 4 <= i < |t| ==> t[i] == t[4..][i - 4];
  }

  // A group and the text after it.
  ghost predicate Splits(t: seq<Byte>, rest: seq<Byte>) {
    && |t| == 4 + |rest|
    && (AllCode(t, |t|) <==> AllCode(t, 4) && AllCode(rest, |rest|))
    && (forall k: nat :: k <= |rest| ==> Fillers(t, 4 + k) == Fillers(t, 4) + Fillers(rest, k))
  }

  lemma SplitsAtFour(t: seq<Byte>)
    requires |t| >= 4
    ensures Splits(t, t[4..])
  {
    AllCodeSplits(t);
    forall k: nat | k <= |t[4..]|
      ensures Fillers(t, 4 + k) == Fillers(t, 4) + Fillers(t[4..], k)
    {
      FillersSplit(t, 4 + k);
    }
  }

  lemma CodeSplits(t: seq<Byte>, rest: seq<Byte>)
    requires Splits(t, rest)
    ensures IsCode(t) <==>
            AllCode(t, 4) && if Fillers(t, 4) == 0 then IsCode(rest) else |t| == 4 && Fillers(t, 4) <= 2
  {
    var n, k := |rest|, |rest| - 4;
    assert Fillers(t, 4 + n) == Fillers(t, 4) + Fillers(rest, n);
    if n >= 4 {
      assert Fillers(t, 4 + k) == Fillers(t, 4) + Fillers(rest, k);
    }
  }

  // A text without spaces decodes exactly if it is such groups, to three bytes for each group and
  // one less for each filler.
  lemma {:induction false} DecodesIffCode(t: seq<Byte>)
    requires HasNoSpaces(t)
    ensures Decoded(t).Some? <==> IsCode(t)
    ensures Decoded(t).Some? ==> |Decoded(t).value| == |t| / 4 * 3 - Fillers(t, |t|)
    decreases |t|
  {
    if t != [] {
      NumberReads(t, 4);
      if |t| >= 4 {
        var rest := t[4..];
        assert Skipped(rest) == rest;
        DecodesIffCode(rest);
        SplitsAtFour(t);
        assert Fillers(t, 4 + |rest|) == Fillers(t, 4) + Fillers(rest, |rest|);
        CodeSplits(t, rest);
      }
    }
  }
}
