/**
 What Base64 text promises: it decodes to the bytes it was made from, it spells their bits
 six at a time, and its lines have seventy-six letters.
 */
module Base64Laws {
  import opened Wrappers
  import opened CStrings
  import opened Sequences
  import opened Base64

  // ---- The round trip ----

  // The four sextets of a number below 2^24.
  function Digit(n: nat, i: nat): (d: nat)
    requires i < 4
    ensures d < 64
  {
    if i == 0 then n / 262144 % 64 else if i == 1 then n / 4096 % 64 else if i == 2 then n / 64 % 64 else n % 64
  }

  lemma DigitsMake(n: nat)
    requires n < 0x100_0000
    ensures ((Digit(n, 0) * 64 + Digit(n, 1)) * 64 + Digit(n, 2)) * 64 + Digit(n, 3) == n
  {
    assert n / 4096 / 64 == n / 262144;
    assert n / 64 / 64 == n / 4096;
  }

  // A number whose low sextets are zero may have them written as fillers.
  ghost predicate FillersFit(n: nat, fillers: nat) {
    fillers <= 2 && (fillers >= 1 ==> n % 64 == 0) && (fillers == 2 ==> n % 4096 == 0)
  }

  lemma PackedFits(s: seq<Byte>)
    requires s != []
    ensures FillersFit(FirstPacked(s), FirstFillers(s))
  {
    var n: nat := FirstPacked(s);
    var c1: int, c2: int := CharAt(s, 0), CharAt(s, 1);
    if |s| == 1 {
      SextetsOf(n, 16 * c1);
      SextetOf(n, 1024 * c1);
    } else if |s| == 2 {
      SextetOf(n, 1024 * c1 + 4 * c2);
    }
  }

  lemma SextetOf(n: nat, q: nat)
    requires n == 64 * q
    ensures n % 64 == 0
  {
  }

  lemma SextetsOf(n: nat, q: nat)
    requires n == 4096 * q
    ensures n % 4096 == 0
  {
  }

  lemma QuadDigits(n: nat, fillers: nat, i: nat)
    requires n < 0x100_0000 && FillersFit(n, fillers) && i < 4
    ensures Sextet(Quad(n, fillers)[i]) == Some(Digit(n, i))
    ensures Quad(n, fillers)[i] == Filler <==> i >= 4 - fillers
    ensures !IsSpace(Quad(n, fillers)[i]) && Quad(n, fillers)[i] != 0
  {
    SextetOfLetter(Digit(n, i));
  }

  lemma QuadReads(n: nat, fillers: nat, t: seq<Byte>)
    requires n < 0x100_0000 && FillersFit(n, fillers)
    ensures Number(Quad(n, fillers) + t, 4) == Some(n) && Fillers(Quad(n, fillers) + t, 4) == fillers
    ensures CharAt(Quad(n, fillers) + t, 0) != 0 && Skipped(Quad(n, fillers) + t) == Quad(n, fillers) + t
  {
    var q := Quad(n, fillers) + t;
    QuadDigits(n, fillers, 0);
    QuadDigits(n, fillers, 1);
    QuadDigits(n, fillers, 2);
    QuadDigits(n, fillers, 3);
    assert Number(q, 1) == Some(Digit(n, 0));
    assert Number(q, 2) == Some(Digit(n, 0) * 64 + Digit(n, 1));
    assert Fillers(q, 2) == 0 && Fillers(q, 3) == if fillers == 2 then 1 else 0;
    DigitsMake(n);
  }

  function Head(s: seq<Byte>): (r: seq<Byte>)
    requires s != []
    ensures s == r + AfterFirst(s)
  {
    if |s| > 2 then s[..3] else s
  }

  lemma BytesOfPacked(c1: Byte, c2: Byte, c3: Byte)
    ensures Packed(c1, c2, c3) / 65536 == c1
    ensures Packed(c1, c2, c3) / 256 % 256 == c2
    ensures Packed(c1, c2, c3) % 256 == c3
  {
    var x: int, y: int, z: int := c1, c2, c3;
    assert Packed(c1, c2, c3) / 256 == 256 * x + y;
  }

  lemma UnpackedHead(s: seq<Byte>)
    requires s != []
    ensures Unpacked(FirstPacked(s), FirstFillers(s)) == Head(s)
  {
    BytesOfPacked(CharAt(s, 0), CharAt(s, 1), CharAt(s, 2));
    assert FirstPacked(s) == Packed(CharAt(s, 0), CharAt(s, 1), CharAt(s, 2));
  }

  lemma DecodedQuad(n: nat, fillers: nat, t: seq<Byte>)
    requires n < 0x100_0000 && FillersFit(n, fillers) && (fillers > 0 ==> t == [])
    requires Decoded(Skipped(t)).Some?
    ensures Decoded(Quad(n, fillers) + t) == Some(Unpacked(n, fillers) + Decoded(Skipped(t)).value)
  {
    QuadReads(n, fillers, t);
    assert (Quad(n, fillers) + t)[4..] == t;
  }

  lemma {:induction false} DecodesBack(s: seq<Byte>, written: nat, split: bool)
    ensures Decoded(Skipped(EncodedFrom(s, written, split))) == Some(s)
    decreases |s|
  {
    if s != [] {
      var n, fillers, t := FirstPacked(s), FirstFillers(s), EncodedFrom(AfterFirst(s), written + 4, split);
      DecodesBack(AfterFirst(s), written + 4, split);
      PackedFits(s);
      QuadReads(n, fillers, t);
      DecodedQuad(n, fillers, t);
      UnpackedHead(s);
      BreakIsSkipped(s, written, split);
    }
  }

  lemma BreakIsSkipped(s: seq<Byte>, written: nat, split: bool)
    requires s != []
    ensures var q := Quad(FirstPacked(s), FirstFillers(s)) + EncodedFrom(AfterFirst(s), written + 4, split);
      Skipped(q) == q ==> Skipped(EncodedFrom(s, written, split)) == q
  {
    var q := Quad(FirstPacked(s), FirstFillers(s)) + EncodedFrom(AfterFirst(s), written + 4, split);
    if Breaks(written, split) {
      assert EncodedFrom(s, written, split) == [Newline] + q;
      assert ([Newline] + q)[1..] == q;
    } else {
      assert EncodedFrom(s, written, split) == q;
    }
  }

  // Decoding an encoding gives the bytes back, in lines or not.
  lemma RoundTrip(s: seq<Byte>, split: bool)
    ensures Decoded(Skipped(Encoded(s, split))) == Some(s)
  {
    DecodesBack(s, 0, split);
  }

  method EncodeThenDecode(s: seq<Byte>, split: bool) returns (r: seq<Byte>)
    ensures r == s
  {
    RoundTrip(s, split);
    var text := EncodeString_Base64(s, split);
    r := DecodeString_Base64(text);
  }

  // ---- The bits ----

  // The low k bits of a number, the high one first.
  function BitsOf(n: nat, k: nat): (r: seq<bool>)
    ensures |r| == k
  {
    if k == 0 then [] else BitsOf(n / 2, k - 1) + [n % 2 == 1]
  }

  function Pow2(m: nat): (n: nat)
    ensures n > 0
  {
    if m == 0 then 1 else 2 * Pow2(m - 1)
  }

  lemma {:induction false} BitsJoin(a: nat, b: nat, k: nat, m: nat)
    requires b < Pow2(m)
    ensures BitsOf(a * Pow2(m) + b, k + m) == BitsOf(a, k) + BitsOf(b, m)
  {
    if m > 0 {
      BitsJoin(a, b / 2, k, m - 1);
      HalfOfJoined(a, b, Pow2(m - 1));
    } else {
      assert a * Pow2(0) + b == a;
    }
  }

  lemma HalfOfJoined(a: nat, b: nat, w: nat)
    ensures a * (2 * w) + b == 2 * (a * w) + b
    ensures (a * (2 * w) + b) / 2 == a * w + b / 2 && (a * (2 * w) + b) % 2 == b % 2
  {
    var x := a * w;
    assert a * (2 * w) == 2 * x;
    assert (2 * x + b) / 2 == x + b / 2 && (2 * x + b) % 2 == b % 2;
  }

  lemma SixMore(a: nat, d: nat, k: nat)
    requires d < 64
    ensures BitsOf(a * 64 + d, k + 6) == BitsOf(a, k) + BitsOf(d, 6)
  {
    assert Pow2(6) == 64;
    BitsJoin(a, d, k, 6);
  }

  lemma EightMore(a: nat, c: Byte, k: nat)
    ensures BitsOf(a * 256 + c, k + 8) == BitsOf(a, k) + BitsOf(c, 8)
  {
    assert Pow2(8) == 256;
    BitsJoin(a, c, k, 8);
  }

  function ByteBits(c: Byte): (r: seq<bool>) {
    BitsOf(c, 8)
  }

  function LetterBits(b: Byte): (r: seq<bool>) {
    if b == Filler then [] else match Sextet(b) case Some(v) => BitsOf(v, 6) case None => []
  }

  // The bits of the input, eight from each byte.
  function BitsIn(s: seq<Byte>): (r: seq<bool>) {
    Spread(ByteBits, s)
  }

  // The bits of a text, six from each letter; fillers and line breaks have none.
  function BitsSpelled(t: seq<Byte>): (r: seq<bool>) {
    Spread(LetterBits, t)
  }

  // Letters spell the bits of the number they make, and bytes hold those of theirs.
  lemma {:induction false} LettersSpellNumber(t: seq<Byte>, k: nat)
    requires k <= |t| && Number(t, k).Some? && Filler !in t[..k]
    ensures BitsSpelled(t[..k]) == BitsOf(Number(t, k).value, 6 * k)
  {
    if k > 0 {
      assert t[..k][..k - 1] == t[..k - 1] && t[..k][k - 1] == t[k - 1];
      LettersSpellNumber(t, k - 1);
      SixMore(Number(t, k - 1).value, Sextet(t[k - 1]).value, 6 * (k - 1));
    }
  }

  function Value(s: seq<Byte>): (n: nat) {
    if s == [] then 0 else Value(s[..|s| - 1]) * 256 + s[|s| - 1]
  }

  lemma {:induction false} BytesHoldValue(s: seq<Byte>)
    ensures BitsIn(s) == BitsOf(Value(s), 8 * |s|)
  {
    if s != [] {
      BytesHoldValue(s[..|s| - 1]);
      EightMore(Value(s[..|s| - 1]), s[|s| - 1], 8 * (|s| - 1));
    }
  }

  lemma {:induction false} FillersSpellNothing(t: seq<Byte>, k: nat)
    requires k <= |t| && forall i :: k <= i < |t| ==> t[i] == Filler
    ensures BitsSpelled(t) == BitsSpelled(t[..k])
  {
    if k == |t| {
      assert t[..k] == t;
    } else {
      assert t[..|t| - 1][..k] == t[..k];
      FillersSpellNothing(t[..|t| - 1], k);
    }
  }

  // The fillers of a text for n bytes, and the zero bits that complete its last letter.
  function FillersNeeded(n: nat): (k: nat)
    ensures k <= 2
  {
    if n % 3 == 0 then 0 else 3 - n % 3
  }

  function Padding(n: nat): (k: nat) {
    2 * FillersNeeded(n)
  }

  lemma HeadValue(s: seq<Byte>)
    requires s != []
    ensures |s| > 2 ==> Value(Head(s)) == FirstPacked(s)
    ensures |s| == 2 ==> Value(Head(s)) * 256 == FirstPacked(s)
    ensures |s| == 1 ==> Value(Head(s)) * 65536 == FirstPacked(s)
  {
    var h := Head(s);
    assert Value(h[..1]) == s[0] by {
      assert h[..1][..0] == [] && h[..1][0] == s[0];
    }
    if |s| > 1 {
      assert h[..2][..1] == h[..1] && h[..2][1] == s[1];
      assert Value(h[..2]) == Value(h[..1]) * 256 + s[1];
    }
    assert h[..|h|] == h;
  }

  ghost predicate FilledFrom(q: seq<Byte>, k: int) {
    forall i :: 0 <= i < |q| ==> (q[i] == Filler <==> i >= k)
  }

  lemma QuadFilled(n: nat, fillers: nat)
    requires n < 0x100_0000 && FillersFit(n, fillers)
    ensures FilledFrom(Quad(n, fillers), 4 - fillers)
  {
    forall i | 0 <= i < 4
      ensures Quad(n, fillers)[i] == Filler <==> i >= 4 - fillers
    {
      QuadDigits(n, fillers, i);
    }
  }

  // The number of a group is that of its bytes, shifted to make up for the fillers.
  ghost predicate Shifted(v: nat, n: nat, fillers: nat) {
    if fillers == 0 then n == v else if fillers == 1 then n == v * 256 else n == v * 65536
  }

  lemma QuadValue(q: seq<Byte>, n: nat, fillers: nat, v: nat)
    requires |q| == 4 && Number(q, 4) == Some(n) && fillers <= 2 && FilledFrom(q, 4 - fillers) && Shifted(v, n, fillers)
    ensures Number(q, 4 - fillers) == Some(v * Pow2(2 * fillers))
  {
    QuadNumber(q, n, fillers);
    assert Pow2(4) == 16 && Pow2(2) == 4 && Pow2(0) == 1;
  }

  lemma QuadNumber(q: seq<Byte>, n: nat, fillers: nat)
    requires |q| == 4 && fillers <= 2 && Number(q, 4) == Some(n) && forall i :: 4 - fillers <= i < 4 ==> q[i] == Filler
    ensures fillers >= 1 ==> Number(q, 3).Some? && Number(q, 3).value * 64 == n
    ensures fillers == 2 ==> Number(q, 2).Some? && Number(q, 2).value * 4096 == n
  {
    assert Number(q, 4).Some? ==> Number(q, 3).Some?;
    assert Number(q, 3).Some? ==> Number(q, 2).Some?;
  }

  lemma GroupSpells(q: seq<Byte>, n: nat, fillers: nat, v: nat, shift: nat, k: nat)
    requires |q| == 4 && Number(q, 4) == Some(n) && fillers <= 2 && FilledFrom(q, 4 - fillers) && Shifted(v, n, fillers)
    requires shift == 2 * fillers && k + shift == 6 * (4 - fillers)
    ensures BitsSpelled(q) == BitsOf(v * Pow2(shift), k + shift)
  {
    QuadValue(q, n, fillers, v);
    FillersSpellNothing(q, 4 - fillers);
    LettersSpellNumber(q, 4 - fillers);
  }

  lemma ShiftedBits(v: nat, shift: nat, k: nat)
    ensures BitsOf(v * Pow2(shift), k + shift) == BitsOf(v, k) + BitsOf(0, shift)
  {
    BitsJoin(v, 0, k, shift);
    assert v * Pow2(shift) + 0 == v * Pow2(shift);
  }

  lemma GroupBits(h: seq<Byte>, q: seq<Byte>, n: nat, fillers: nat, v: nat)
    requires |q| == 4 && Number(q, 4) == Some(n) && fillers <= 2 && FilledFrom(q, 4 - fillers)
    requires |h| == 3 - fillers && v == Value(h) && Shifted(v, n, fillers)
    ensures BitsSpelled(q) == BitsIn(h) + BitsOf(0, 2 * fillers)
  {
    var shift: nat, k: nat := 2 * fillers, 8 * |h|;
    GroupSpells(q, n, fillers, v, shift, k);
    ShiftedBits(v, shift, k);
    BytesHoldValue(h);
  }

  lemma FirstBits(s: seq<Byte>)
    requires s != []
    ensures BitsSpelled(Quad(FirstPacked(s), FirstFillers(s))) == BitsIn(Head(s)) + BitsOf(0, 2 * FirstFillers(s))
  {
    var n, fillers, quad := FirstPacked(s), FirstFillers(s), Quad(FirstPacked(s), FirstFillers(s));
    PackedFits(s);
    QuadReads(n, fillers, []);
    assert quad + [] == quad;
    QuadFilled(n, fillers);
    HeadValue(s);
    GroupBits(Head(s), quad, n, fillers, Value(Head(s)));
  }

  lemma BreakSpellsNothing(q: seq<Byte>, breaks: bool)
    ensures BitsSpelled((if breaks then [Newline] else []) + q) == BitsSpelled(q)
  {
    if breaks {
      SpreadAppend(LetterBits, [Newline], q);
      assert BitsSpelled([Newline]) == [];
    } else {
      assert [] + q == q;
    }
  }

  lemma WrittenBits(s: seq<Byte>, written: nat, split: bool)
    requires s != []
    ensures BitsSpelled(Written(s, written, split)) == BitsIn(Head(s)) + BitsOf(0, Padding(|Head(s)|))
  {
    FirstBits(s);
    BreakSpellsNothing(Quad(FirstPacked(s), FirstFillers(s)), Breaks(written, split));
    HeadPadding(s);
  }

  lemma HeadPadding(s: seq<Byte>)
    requires s != []
    ensures Padding(|Head(s)|) == 2 * FirstFillers(s)
  {
  }

  // The letters spell the bits of the input, six at a time, and the zeros that complete the
  // last letter.
  lemma {:induction false} SpellsTheInput(s: seq<Byte>, written: nat, split: bool)
    ensures BitsSpelled(EncodedFrom(s, written, split)) == BitsIn(s) + BitsOf(0, Padding(|s|))
    decreases |s|
  {
    if s != [] {
      var h, rest := Head(s), AfterFirst(s);
      SpellsTheInput(rest, written + 4, split);
      SpreadAppend(LetterBits, Written(s, written, split), EncodedFrom(rest, written + 4, split));
      WrittenBits(s, written, split);
      SpreadAppend(ByteBits, h, rest);
      PaddingComesLast(BitsIn(h), BitsIn(rest), |h|, |rest|);
    }
  }

  lemma PaddingComesLast(a: seq<bool>, b: seq<bool>, h: nat, rest: nat)
    requires h == 3 || (1 <= h <= 2 && rest == 0 && b == [])
    ensures (a + BitsOf(0, Padding(h))) + (b + BitsOf(0, Padding(rest))) == (a + b) + BitsOf(0, Padding(h + rest))
  {
    assert h == 3 ==> Padding(h + rest) == Padding(rest);
  }

  // ---- The layout ----

  // The letters, without line breaks.
  function WithoutBreaks(t: seq<Byte>): (r: seq<Byte>) {
    if t == [] then [] else (if t[0] == Newline then [] else [t[0]]) + WithoutBreaks(t[1..])
  }

  lemma {:induction false} WithoutBreaksAppend(a: seq<Byte>, b: seq<Byte>)
    ensures WithoutBreaks(a + b) == WithoutBreaks(a) + WithoutBreaks(b)
    decreases |a|
  {
    if a == [] {
      assert a + b == b;
    } else {
      assert (a + b)[1..] == a[1..] + b;
      WithoutBreaksAppend(a[1..], b);
    }
  }

  lemma {:induction false} NoBreaks(t: seq<Byte>)
    requires forall i :: 0 <= i < |t| ==> t[i] != Newline
    ensures WithoutBreaks(t) == t
  {
    if t != [] {
      NoBreaks(t[1..]);
    }
  }

  lemma QuadHasNoBreaks(s: seq<Byte>)
    requires s != []
    ensures forall i :: 0 <= i < 4 ==> Quad(FirstPacked(s), FirstFillers(s))[i] != Newline
  {
  }

  // Splitting adds line breaks and nothing else.
  lemma {:induction false} SplitAddsBreaks(s: seq<Byte>, written: nat)
    ensures WithoutBreaks(EncodedFrom(s, written, true)) == EncodedFrom(s, written, false)
    decreases |s|
  {
    if s != [] {
      var quad, later := Quad(FirstPacked(s), FirstFillers(s)), EncodedFrom(AfterFirst(s), written + 4, true);
      SplitAddsBreaks(AfterFirst(s), written + 4);
      WithoutBreaksAppend(Written(s, written, true), later);
      QuadHasNoBreaks(s);
      NoBreaks(quad);
      WithoutBreaksAppend([Newline], quad);
      assert WithoutBreaks([Newline]) == [] && [] + quad == quad;
    }
  }

  // The position in the text after a number of letters.
  function Position(written: nat): (p: nat) {
    if written == 0 then 0 else written + (written - 1) / 76
  }

  lemma RowAndColumn(written: nat, q: nat, r: nat)
    requires written == 76 * q + r && 1 <= r <= 76
    ensures Position(written) == 77 * q + r && Position(written) % 77 == r && (written % 76 == 0 <==> r == 76)
  {
    By76(written - 1, q, r - 1);
    By77(77 * q + r, q, r);
    if r == 76 {
      By76(written, q + 1, 0);
    } else {
      By76(written, q, r);
    }
  }

  lemma By76(n: nat, q: nat, r: nat)
    requires n == 76 * q + r && r < 76
    ensures n / 76 == q && n % 76 == r
  {
  }

  lemma By77(n: nat, q: nat, r: nat)
    requires n == 77 * q + r && r < 77
    ensures n / 77 == q && n % 77 == r
  {
  }

  // A line that is not full has room for four letters more.
  lemma RoomForFour(written: nat, q: nat, r: nat)
    requires written % 4 == 0 && written == 76 * q + r && r < 76
    ensures r <= 72
  {
    assert r == 4 * (written / 4 - 19 * q);
  }

  lemma NextPosition(written: nat)
    requires written % 4 == 0
    ensures Position(written + 4) == Position(written) + (if Breaks(written, true) then 5 else 4)
    ensures if Breaks(written, true) then Position(written) % 77 == 76 else Position(written) % 77 <= 72
  {
    if written > 0 {
      var q := (written - 1) / 76;
      var r := written - 76 * q;
      RowAndColumn(written, q, r);
      if r == 76 {
        RowAndColumn(written + 4, q + 1, 4);
      } else {
        RoomForFour(written, q, r);
        RowAndColumn(written + 4, q, r + 4);
      }
    }
  }

  // Breaks stand where the place in the text, starting at p, is the last of seventy-seven.
  ghost predicate BreaksFrom(t: seq<Byte>, p: nat) {
    forall i :: 0 <= i < |t| ==> (t[i] == Newline <==> (p + i) % 77 == 76)
  }

  lemma BreaksAppend(a: seq<Byte>, b: seq<Byte>, p: nat)
    requires BreaksFrom(a, p) && BreaksFrom(b, p + |a|)
    ensures BreaksFrom(a + b, p)
  {
    forall i | 0 <= i < |a + b|
      ensures (a + b)[i] == Newline <==> (p + i) % 77 == 76
    {
      if i >= |a| {
        assert p + |a| + (i - |a|) == p + i;
        assert (a + b)[i] == b[i - |a|];
      }
    }
  }

  lemma WrittenBreaks(s: seq<Byte>, written: nat)
    requires s != [] && written % 4 == 0
    ensures BreaksFrom(Written(s, written, true), Position(written))
    ensures Position(written + 4) == Position(written) + |Written(s, written, true)|
  {
    var w := Written(s, written, true);
    NextPosition(written);
    QuadHasNoBreaks(s);
    forall i | 0 <= i < |w|
      ensures w[i] == Newline <==> (Position(written) + i) % 77 == 76
    {
      InLine(Position(written), i, Breaks(written, true));
    }
  }

  // Lines have seventy-six letters: a break stands at every seventy-seventh place and nowhere
  // else.
  lemma {:induction false} BreaksAreEvery77(s: seq<Byte>, written: nat)
    requires written % 4 == 0
    ensures BreaksFrom(EncodedFrom(s, written, true), Position(written))
    decreases |s|
  {
    if s != [] {
      WrittenBreaks(s, written);
      BreaksAreEvery77(AfterFirst(s), written + 4);
      BreaksAppend(Written(s, written, true), EncodedFrom(AfterFirst(s), written + 4, true), Position(written));
    }
  }

  // In a whole text those are the places 76, 153 and so on; without splitting there are none.
  lemma LinesAreFull(s: seq<Byte>, i: nat)
    ensures i < |Encoded(s, true)| ==> (Encoded(s, true)[i] == Newline <==> i % 77 == 76)
    ensures i < |Encoded(s, false)| ==> Encoded(s, false)[i] != Newline
  {
    BreaksAreEvery77(s, 0);
    NoLineBreaks(s, 0);
  }

  lemma {:induction false} NoLineBreaks(s: seq<Byte>, written: nat)
    ensures forall i :: 0 <= i < |EncodedFrom(s, written, false)| ==> EncodedFrom(s, written, false)[i] != Newline
    decreases |s|
  {
    if s != [] {
      QuadHasNoBreaks(s);
      NoLineBreaks(AfterFirst(s), written + 4);
    }
  }

  lemma InLine(p: nat, i: nat, breaks: bool)
    requires if breaks then p % 77 == 76 && i <= 4 else p % 77 <= 72 && i <= 3
    ensures (p + i) % 77 == 76 <==> breaks && i == 0
  {
    if !breaks {
      assert (p + i) % 77 == p % 77 + i;
    }
  }

  ghost predicate IsLetter(b: Byte) {
    exists v: nat :: v < 64 && b == Letter(v)
  }

  // Letters first, then the fillers, which complete the last group of four.
  ghost predicate WellFilled(t: seq<Byte>, n: nat) {
    && |t| == (n + 2) / 3 * 4
    && (forall i :: 0 <= i < |t| - FillersNeeded(n) ==> IsLetter(t[i]))
    && (forall i :: |t| - FillersNeeded(n) <= i < |t| ==> t[i] == Filler)
  }

  lemma QuadLetter(n: nat, fillers: nat, i: nat)
    requires n < 0x100_0000 && fillers <= 2 && i < 4 - fillers
    ensures IsLetter(Quad(n, fillers)[i])
  {
    assert Quad(n, fillers)[i] == Letter(Digit(n, i));
  }

  lemma GroupFilled(n: nat, h: nat)
    requires n < 0x100_0000 && 1 <= h <= 3 && FillersFit(n, 3 - h)
    ensures WellFilled(Quad(n, 3 - h), h)
  {
    var q := Quad(n, 3 - h);
    QuadFilled(n, 3 - h);
    forall i | 0 <= i < h + 1
      ensures IsLetter(q[i])
    {
      QuadLetter(n, 3 - h, i);
    }
    assert FillersNeeded(h) == 3 - h;
  }

  lemma FilledAppend(a: seq<Byte>, b: seq<Byte>, h: nat, n: nat)
    requires WellFilled(a, h) && WellFilled(b, n) && (h == 3 || (1 <= h <= 2 && n == 0))
    ensures WellFilled(a + b, h + n)
  {
    assert h == 3 ==> FillersNeeded(h + n) == FillersNeeded(n) && (h + n + 2) / 3 == (n + 2) / 3 + 1;
  }

  lemma {:induction false} LettersThenFillers(s: seq<Byte>, written: nat)
    ensures WellFilled(EncodedFrom(s, written, false), |s|)
    decreases |s|
  {
    if s != [] {
      var quad, later := Quad(FirstPacked(s), FirstFillers(s)), EncodedFrom(AfterFirst(s), written + 4, false);
      LettersThenFillers(AfterFirst(s), written + 4);
      PackedFits(s);
      GroupFilled(FirstPacked(s), |Head(s)|);
      FilledAppend(quad, later, |Head(s)|, |AfterFirst(s)|);
      assert EncodedFrom(s, written, false) == quad + later;
    }
  }
}
