/**
 Fields and rows that the writer does not write: signs, white space, comments, unquoted text, and
 numbers that do not fit.
 */
module CsvForms {
  import opened Wrappers
  import opened CStrings
  import opened CEscape
  import opened CsvSpec

  // ---- Numbers ----

  ghost predicate AreDigits(t: seq<Byte>) {
    forall i :: 0 <= i < |t| ==> '0' as int <= t[i] <= '9' as int
  }

  // What the standard library takes for white space.
  ghost predicate AreWhite(t: seq<Byte>) {
    forall i :: 0 <= i < |t| ==> t[i] in {9, 10, 11, 12, 13, 32}
  }

  ghost predicate StartsWithDigit(t: seq<Byte>) {
    t != [] && '0' as int <= t[0] <= '9' as int
  }

  lemma {:induction false} WhiteRunIs(w: seq<Byte>, t: seq<Byte>)
    requires AreWhite(w) && (t == [] || t[0] !in {9, 10, 11, 12, 13, 32})
    ensures WhiteRun(w + t) == |w|
    decreases |w|
  {
    if w == [] {
      assert w + t == t;
    } else {
      assert (w + t)[1..] == w[1..] + t;
      WhiteRunIs(w[1..], t);
    }
  }

  lemma {:induction false} DigitRunIs(d: seq<Byte>, t: seq<Byte>)
    requires AreDigits(d) && !StartsWithDigit(t)
    ensures DigitRun(d + t) == |d|
    decreases |d|
  {
    if d == [] {
      assert d + t == t;
    } else {
      assert (d + t)[1..] == d[1..] + t;
      DigitRunIs(d[1..], t);
    }
  }

  // The number that decimal digits stand for.
  function Decimals(d: seq<Byte>): (n: int)
    ensures AreDigits(d) ==> n >= 0
  {
    if d == [] then 0 else Decimals(d[..|d| - 1]) * 10 + (d[|d| - 1] - '0' as int)
  }

  lemma {:induction false} DigitValueIs(d: seq<Byte>, t: seq<Byte>, k: nat)
    requires AreDigits(d) && k <= |d|
    ensures forall i :: 0 <= i < k ==> IsDigit((d + t)[i])
    ensures DigitValue(d + t, k) == Decimals(d[..k])
  {
    if k > 0 {
      DigitValueIs(d, t, k - 1);
      assert d[..k][..k - 1] == d[..k - 1];
    }
  }

  lemma DigitsParse(d: seq<Byte>, t: seq<Byte>, negative: bool)
    requires AreDigits(d) && !StartsWithDigit(t)
    ensures ParsedDigits(d + t, negative) ==
            if d == [] then None else Some((ToInt32(Clamped(if negative then -Decimals(d) else Decimals(d))), t))
  {
    DigitRunIs(d, t);
    DigitValueIs(d, t, |d|);
    assert d[..|d|] == d && (d + t)[|d|..] == t;
  }

  ghost predicate IsSign(sign: seq<Byte>) {
    sign == [] || sign == ['+' as int] || sign == ['-' as int]
  }

  // A byte that white space and a sign stop at.
  ghost predicate Stops(t: seq<Byte>) {
    t == [] || t[0] !in {9, 10, 11, 12, 13, 32, '+' as int, '-' as int}
  }

  lemma DigitsFollow(w: seq<Byte>, sign: seq<Byte>, u: seq<Byte>, all: seq<Byte>)
    requires all == w + (sign + u) && IsSign(sign)
    ensures |sign| == 1 ==> all[|w| + 1..] == u && CharAt(all, |w|) == sign[0]
    ensures sign == [] ==> all[|w|..] == u
  {
  }

  lemma SignReads(w: seq<Byte>, sign: seq<Byte>, u: seq<Byte>, all: seq<Byte>)
    requires AreWhite(w) && IsSign(sign) && (sign == [] ==> Stops(u)) && all == w + (sign + u)
    ensures ParsedNumber(all) ==
            match ParsedDigits(u, sign == ['-' as int])
            case None => (0, all)
            case Some(r) => r
  {
    WhiteRunIs(w, sign + u);
    DigitsFollow(w, sign, u, all);
  }

  // White space, perhaps a sign, and digits are read up to the first other byte.
  lemma NumberReads(w: seq<Byte>, sign: seq<Byte>, d: seq<Byte>, t: seq<Byte>)
    requires AreWhite(w) && IsSign(sign) && AreDigits(d) && d != [] && !StartsWithDigit(t)
    ensures var n := if sign == ['-' as int] then -Decimals(d) else Decimals(d);
            ParsedNumber(w + (sign + (d + t))) == (ToInt32(Clamped(n)), t)
  {
    SignReads(w, sign, d + t, w + (sign + (d + t)));
    DigitsParse(d, t, sign == ['-' as int]);
  }

  // Without a digit the number is zero and nothing is read.
  lemma NoNumberReads(w: seq<Byte>, sign: seq<Byte>, t: seq<Byte>)
    requires AreWhite(w) && IsSign(sign) && !StartsWithDigit(t) && (sign == [] ==> Stops(t))
    ensures ParsedNumber(w + (sign + t)) == (0, w + (sign + t))
  {
    SignReads(w, sign, t, w + (sign + t));
    assert [] + t == t;
    DigitsParse([], t, sign == ['-' as int]);
  }

  // What fits is kept; what does not is cut to 64 bits at the nearer end, and to 32 by its last bits.
  lemma NumbersAreCut(n: int)
    ensures -0x8000_0000 <= n < 0x8000_0000 ==> ToInt32(Clamped(n)) == n
    ensures -0x8000_0000_0000_0000 <= n < 0x8000_0000_0000_0000 ==> (ToInt32(Clamped(n)) - n) % 0x1_0000_0000 == 0
    ensures n >= 0x8000_0000_0000_0000 ==> ToInt32(Clamped(n)) == -1
    ensures n < -0x8000_0000_0000_0000 ==> ToInt32(Clamped(n)) == 0
  {
  }

  // ---- Ends, comments and unquoted fields ----

  ghost predicate AreSpaces(t: seq<Byte>) {
    forall i :: 0 <= i < |t| ==> 1 <= t[i] <= 32 || 128 <= t[i] <= 255
  }

  ghost predicate StartsWithSpace(t: seq<Byte>) {
    t != [] && (1 <= t[0] <= 32 || 128 <= t[0] <= 255)
  }

  // After spaces there must be nothing, a zero or a comment.
  lemma EndsIs(a: seq<Byte>, t: seq<Byte>)
    requires AreSpaces(a) && !StartsWithSpace(t)
    ensures Ends(a + t) <==> t == [] || t[0] == 0 || t[0] == '#' as int
  {
    SpacesAreSkipped(a, t);
  }

  // A field for a number is one if nothing but that follows the number.
  lemma NumberFieldReads(w: seq<Byte>, sign: seq<Byte>, d: seq<Byte>, a: seq<Byte>, t: seq<Byte>)
    requires AreWhite(w) && IsSign(sign) && AreDigits(d) && d != []
    requires AreSpaces(a) && !StartsWithSpace(t) && !StartsWithDigit(a + t) && 0 !in t
    ensures var n := if sign == ['-' as int] then -Decimals(d) else Decimals(d);
            Parsed(NumberKind, w + (sign + (d + (a + t)))) ==
              if t == [] || t[0] == '#' as int then Some(Number(ToInt32(Clamped(n)))) else None
  {
    NumberReads(w, sign, d, a + t);
    EndsIs(a, t);
    ZeroFreeParts(w, sign, d, a, t);
    ZeroFree(w + (sign + (d + (a + t))));
  }

  lemma ZeroFreeParts(w: seq<Byte>, sign: seq<Byte>, d: seq<Byte>, a: seq<Byte>, t: seq<Byte>)
    requires AreWhite(w) && IsSign(sign) && AreDigits(d) && AreSpaces(a) && 0 !in t
    ensures 0 !in w + (sign + (d + (a + t)))
  {
    assert 0 !in w && 0 !in sign && 0 !in d && 0 !in a;
  }

  lemma {:induction false} ZeroFree(s: seq<Byte>)
    requires 0 !in s
    ensures UpToZero(s) == s
  {
    if s != [] {
      ZeroFree(s[1..]);
    }
  }

  lemma {:induction false} FieldLengthIs(f: seq<Byte>, t: seq<Byte>, d: Byte)
    requires 0 !in f && d !in f && (t == [] || t[0] == 0 || t[0] == d)
    ensures FieldLength(f + t, d) == |f|
    decreases |f|
  {
    if f == [] {
      assert f + t == t;
    } else {
      assert (f + t)[1..] == f[1..] + t;
      FieldLengthIs(f[1..], t, d);
    }
  }

  // A field without a quote is read up to the delimiter, with the spaces after it, but not those
  // before it.
  lemma UnquotedTextReads(a: seq<Byte>, f: seq<Byte>, t: seq<Byte>, d: Byte)
    requires d != 0 && AreSpaces(a) && 0 !in f && d !in f && (t == [] || t[0] == 0 || t[0] == d)
    requires !StartsWithSpace(f + t) && (f != [] ==> f[0] != '"' as int) && d != '"' as int
    ensures ReadField(TextKind, a + (f + t), true, d) == Some((Text(f), t))
  {
    SpacesAreSkipped(a, f + t);
    FieldLengthIs(f, t, d);
    assert (f + t)[..|f|] == f && (f + t)[|f|..] == t;
    ZeroFree(f);
  }

  // A field after the first must begin with the delimiter.
  lemma NoDelimiterFails(kind: Kind, t: seq<Byte>, d: Byte)
    requires d != 0 && (t == [] || t[0] != d)
    ensures ReadField(kind, t, false, d) == None
  {
  }

  // ---- Writing ----

  // Fields are written one after the other, with a delimiter between any two.
  lemma RowIsWritten(row: seq<Field>, f: Field, d: Byte)
    ensures RowText([], d) == [] && RowText([f], d) == Printed(f)
    ensures row != [] ==> RowText(row + [f], d) == RowText(row, d) + [d] + Printed(f)
  {
    assert (row + [f])[..|row|] == row;
    assert [f][..0] == [] && [] + Printed(f) == Printed(f);
  }
}
