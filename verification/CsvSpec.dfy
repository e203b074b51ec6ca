/**
 Rows of quoted strings and decimal numbers, separated by a delimiter.
 */
module CsvSpec {
  import opened Wrappers
  import opened CStrings
  import opened CEscape

  type Int32 = x: int | -0x8000_0000 <= x < 0x8000_0000

  datatype Field = Text(s: seq<Byte>) | Number(n: Int32)

  datatype Kind = TextKind | NumberKind

  const Minus: Byte := 45

  const Hash: Byte := 35

  // ---- Decimal numbers ----

  function Digits(n: nat): (r: seq<Byte>)
    ensures r != []
  {
    if n < 10 then [48 + n] else Digits(n / 10) + [48 + n % 10]
  }

  function Decimal(n: int): (r: seq<Byte>)
    ensures r != []
  {
    if n < 0 then [Minus] + Digits(-n) else Digits(n)
  }

  // The leading digits of a text, and the number the first k of them make.
  function DigitRun(t: seq<Byte>): (k: nat)
    ensures k <= |t| && forall i :: 0 <= i < k ==> IsDigit(t[i])
    ensures k < |t| ==> !IsDigit(t[k])
  {
    if t == [] || !IsDigit(t[0]) then 0 else 1 + DigitRun(t[1..])
  }

  function DigitOf(b: Byte): (n: nat)
    requires IsDigit(b)
  {
    b - 48
  }

  function DigitValue(t: seq<Byte>, k: nat): (n: nat)
    requires k <= |t| && forall i :: 0 <= i < k ==> IsDigit(t[i])
  {
    if k == 0 then 0 else DigitValue(t, k - 1) * 10 + DigitOf(t[k - 1])
  }

  function WhiteRun(t: seq<Byte>): (k: nat)
    ensures k <= |t|
  {
    if t != [] && (9 <= t[0] <= 13 || t[0] == 32) then 1 + WhiteRun(t[1..]) else 0
  }

  function Clamped(n: int): (r: int) {
    if n < -0x8000_0000_0000_0000 then -0x8000_0000_0000_0000
    else if n > 0x7fff_ffff_ffff_ffff then 0x7fff_ffff_ffff_ffff
    else n
  }

  function ToInt32(n: int): (r: Int32) {
    (n + 0x8000_0000) % 0x1_0000_0000 - 0x8000_0000
  }

  // A run of digits after a sign, read into a 64-bit number and stored into a 32-bit one.
  function ParsedDigits(t: seq<Byte>, negative: bool): (r: Option<(Int32, seq<Byte>)>) {
    var k := DigitRun(t);
    if k == 0 then None
    else
      var n: int := DigitValue(t, k);
      Some((ToInt32(Clamped(if negative then -n else n)), t[k..]))
  }

  // White space, a sign and digits, as the standard library reads them; without digits the
  // number is zero and nothing is read.
  function ParsedNumber(t: seq<Byte>): (r: (Int32, seq<Byte>)) {
    var w := WhiteRun(t);
    var sign := CharAt(t, w);
    var digits := if w < |t| && (sign == Minus || sign == 43) then t[w + 1..] else t[w..];
    match ParsedDigits(digits, sign == Minus)
    case None => (0, t)
    case Some(r) => r
  }

  // ---- Writing ----

  function Printed(f: Field): (r: seq<Byte>) {
    match f
    case Text(s) => Escaped(s)
    case Number(n) => Decimal(n)
  }

  function RowText(row: seq<Field>, d: Byte): (r: seq<Byte>) {
    if row == [] then []
    else RowText(row[..|row| - 1], d) + (if |row| > 1 then [d] else []) + Printed(row[|row| - 1])
  }

  // ---- Reading ----

  // The bytes before the first zero.
  function UpToZero(s: seq<Byte>): (r: seq<Byte>) {
    if s == [] || s[0] == 0 then [] else [s[0]] + UpToZero(s[1..])
  }

  // The bytes before the next delimiter or the end of the text.
  function FieldLength(t: seq<Byte>, d: Byte): (k: nat)
    ensures k <= |t|
  {
    if CharAt(t, 0) == 0 || t[0] == d then 0 else 1 + FieldLength(t[1..], d)
  }

  function SkippedBut(t: seq<Byte>, d: Byte): (r: seq<Byte>)
    ensures |r| <= |t|
  {
    if t != [] && IsSpace(t[0]) && t[0] != d then SkippedBut(t[1..], d) else t
  }

  // The contents of a field that starts the text, quoted or not, and what follows it.
  function Contents(t: seq<Byte>, d: Byte): (r: Option<(seq<Byte>, seq<Byte>)>) {
    if CharAt(t, 0) == Quote then
      match UnescapedString(t)
      case None => None
      case Some((s, used)) => Some((s, t[used..]))
    else Some((t[..FieldLength(t, d)], t[FieldLength(t, d)..]))
  }

  // The end of a field or of a row: nothing but spaces, or a comment.
  predicate Ends(t: seq<Byte>) {
    CharAt(Skipped(t), 0) == 0 || CharAt(Skipped(t), 0) == Hash
  }

  function Parsed(kind: Kind, contents: seq<Byte>): (r: Option<Field>) {
    var t := UpToZero(contents);
    match kind
    case TextKind => Some(Text(t))
    case NumberKind => if Ends(ParsedNumber(t).1) then Some(Number(ParsedNumber(t).0)) else None
  }

  // One field, after a delimiter unless it is the first.
  function ReadField(kind: Kind, t: seq<Byte>, first: bool, d: Byte): (r: Option<(Field, seq<Byte>)>)
    requires d != 0
  {
    if !first && CharAt(t, 0) != d then None
    else
      match Contents(Skipped(if first then t else t[1..]), d)
      case None => None
      case Some((contents, rest)) =>
        match Parsed(kind, contents)
        case None => None
        case Some(f) => Some((f, SkippedBut(rest, d)))
  }

  function ReadRow(kinds: seq<Kind>, t: seq<Byte>, d: Byte): (r: Option<(seq<Field>, seq<Byte>)>)
    requires d != 0
    ensures r.Some? ==> |r.value.0| == |kinds|
  {
    if kinds == [] then Some(([], t))
    else
      match ReadRow(kinds[..|kinds| - 1], t, d)
      case None => None
      case Some((fields, rest)) =>
        match ReadField(kinds[|kinds| - 1], rest, |kinds| == 1, d)
        case None => None
        case Some((f, after)) => Some((fields + [f], after))
  }

  // ---- Numbers read back ----

  lemma {:induction false} DigitsAreDigits(n: nat)
    ensures forall i :: 0 <= i < |Digits(n)| ==> IsDigit(Digits(n)[i])
  {
    if n >= 10 {
      DigitsAreDigits(n / 10);
    }
  }

  lemma {:induction false} AllDigits(t: seq<Byte>)
    requires forall i :: 0 <= i < |t| ==> IsDigit(t[i])
    ensures DigitRun(t) == |t|
  {
    if t != [] {
      AllDigits(t[1..]);
    }
  }

  lemma {:induction false} DigitValuePrefix(a: seq<Byte>, b: seq<Byte>, k: nat)
    requires k <= |a| && forall i :: 0 <= i < |a| ==> IsDigit(a[i])
    ensures DigitValue(a + b, k) == DigitValue(a, k)
  {
    if k > 0 {
      DigitValuePrefix(a, b, k - 1);
    }
  }

  lemma {:induction false} DigitsValue(n: nat)
    ensures forall i :: 0 <= i < |Digits(n)| ==> IsDigit(Digits(n)[i])
    ensures DigitValue(Digits(n), |Digits(n)|) == n
  {
    DigitsAreDigits(n);
    if n >= 10 {
      DigitsValue(n / 10);
      DigitValuePrefix(Digits(n / 10), [48 + n % 10], |Digits(n / 10)|);
    } else {
      assert DigitValue([48 + n], 0) == 0;
    }
  }

  lemma SmallNumber(n: Int32)
    ensures ToInt32(Clamped(n)) == n
  {
  }

  lemma DigitsRead(n: nat, m: int)
    requires m == n || -m == n
    ensures ParsedDigits(Digits(n), m < 0) == Some((ToInt32(Clamped(m)), []))
  {
    var t := Digits(n);
    DigitsValue(n);
    AllDigits(t);
    assert t[|t|..] == [];
  }

  // A printed number reads as itself.
  lemma DecimalReads(n: Int32)
    ensures ParsedNumber(Decimal(n)) == (n, [])
  {
    SmallNumber(n);
    var m: int := n;
    if n < 0 {
      DigitsRead(-m, m);
      assert Decimal(n)[1..] == Digits(-m);
    } else {
      DigitsRead(n, n);
      DigitsAreDigits(n);
      assert Decimal(n)[0..] == Digits(n);
      assert WhiteRun(Decimal(n)) == 0;
    }
  }
}
