/**
 Writing a row and reading it back.
 */
module Csv {
  import opened Wrappers
  import opened CStrings
  import opened CEscape
  import opened CsvSpec
  import opened Sequences

  // A delimiter that no printed number contains and that does not end the text, as a comma.
  ghost predicate Separates(d: Byte) {
    d != 0 && !IsDigit(d) && d != Minus
  }

  // What is left of a field: strings are cut at their first zero.
  function Kept(f: Field): (r: Field) {
    match f
    case Text(s) => Text(UpToZero(s))
    case Number(n) => f
  }

  function KindOf(f: Field): (k: Kind) {
    if f.Text? then TextKind else NumberKind
  }

  function KeptRow(row: seq<Field>): (r: seq<Field>)
    ensures |r| == |row| && forall i :: 0 <= i < |r| ==> r[i] == Kept(row[i])
  {
    if row == [] then [] else KeptRow(row[..|row| - 1]) + [Kept(row[|row| - 1])]
  }

  function Kinds(row: seq<Field>): (r: seq<Kind>)
    ensures |r| == |row| && forall i :: 0 <= i < |r| ==> r[i] == KindOf(row[i])
  {
    if row == [] then [] else Kinds(row[..|row| - 1]) + [KindOf(row[|row| - 1])]
  }

  // ---- One field ----

  // The text after a field: nothing, or the next delimiter.
  ghost predicate Follows(tail: seq<Byte>, d: Byte) {
    tail == [] || tail[0] == d
  }

  lemma {:induction false} WholeField(a: seq<Byte>, tail: seq<Byte>, d: Byte)
    requires Follows(tail, d) && forall i :: 0 <= i < |a| ==> a[i] != 0 && a[i] != d
    ensures FieldLength(a + tail, d) == |a|
    decreases |a|
  {
    if a == [] {
      assert a + tail == tail;
    } else {
      assert (a + tail)[1..] == a[1..] + tail;
      WholeField(a[1..], tail, d);
    }
  }

  lemma DecimalBytes(n: int)
    ensures forall i :: 0 <= i < |Decimal(n)| ==> IsDigit(Decimal(n)[i]) || Decimal(n)[i] == Minus
  {
    DigitsAreDigits(if n < 0 then -n else n);
  }

  lemma NumberContents(n: int, tail: seq<Byte>, d: Byte)
    requires Separates(d) && Follows(tail, d)
    ensures Contents(Decimal(n) + tail, d) == Some((Decimal(n), tail))
    ensures Skipped(Decimal(n) + tail) == Decimal(n) + tail
  {
    var a := Decimal(n);
    DecimalBytes(n);
    WholeField(a, tail, d);
    assert (a + tail)[0] == a[0];
    assert (a + tail)[..|a|] == a && (a + tail)[|a|..] == tail;
  }

  lemma TextContents(s: seq<Byte>, tail: seq<Byte>, d: Byte)
    ensures Contents(Escaped(s) + tail, d) == Some((s, tail))
    ensures Skipped(Escaped(s) + tail) == Escaped(s) + tail
  {
    UnescapeReadsEscape(s, tail);
    assert (Escaped(s) + tail)[|Escaped(s)|..] == tail;
  }

  lemma {:induction false} NoZero(s: seq<Byte>)
    requires forall i :: 0 <= i < |s| ==> s[i] != 0
    ensures UpToZero(s) == s
  {
    if s != [] {
      NoZero(s[1..]);
    }
  }

  lemma {:induction false} CutIffZero(s: seq<Byte>)
    ensures UpToZero(s) == s <==> 0 !in s
  {
    if s != [] {
      CutIffZero(s[1..]);
      assert s == [s[0]] + s[1..];
      if s[0] != 0 {
        assert UpToZero(s) == s ==> UpToZero(s)[1..] == s[1..];
      }
    }
  }

  lemma NumberParses(n: Int32)
    ensures Parsed(NumberKind, Decimal(n)) == Some(Number(n))
  {
    DecimalBytes(n);
    NoZero(Decimal(n));
    DecimalReads(n);
  }

  lemma FieldContents(f: Field, tail: seq<Byte>, d: Byte)
    requires Separates(d) && Follows(tail, d)
    ensures Skipped(Printed(f) + tail) == Printed(f) + tail
    ensures var c := Contents(Printed(f) + tail, d);
      c.Some? && c.value.1 == tail && Parsed(KindOf(f), c.value.0) == Some(Kept(f))
  {
    match f
    case Text(s) => TextContents(s, tail, d);
    case Number(n) =>
      NumberContents(n, tail, d);
      NumberParses(n);
  }

  lemma FieldReads(f: Field, tail: seq<Byte>, first: bool, d: Byte, t: seq<Byte>)
    requires Separates(d) && Follows(tail, d)
    requires t == (if first then [] else [d]) + (Printed(f) + tail)
    ensures ReadField(KindOf(f), t, first, d) == Some((Kept(f), tail))
  {
    FieldContents(f, tail, d);
    assert (if first then t else t[1..]) == Printed(f) + tail;
  }

  // ---- A row ----

  lemma LastField(row: seq<Field>, d: Byte, tail: seq<Byte>)
    requires row != []
    ensures RowText(row, d) + tail ==
              RowText(row[..|row| - 1], d) + ((if |row| == 1 then [] else [d]) + (Printed(row[|row| - 1]) + tail))
  {
    var a, b, c := RowText(row[..|row| - 1], d), if |row| > 1 then [d] else [], Printed(row[|row| - 1]);
    Regroup(a + b, c, tail);
    Regroup(a, b, c + tail);
  }

  lemma {:induction false} RowReads(row: seq<Field>, tail: seq<Byte>, d: Byte)
    requires Separates(d) && Follows(tail, d)
    ensures ReadRow(Kinds(row), RowText(row, d) + tail, d) == Some((KeptRow(row), tail))
  {
    if row == [] {
      assert [] + tail == tail;
    } else {
      var n := |row| - 1;
      var last := (if n == 0 then [] else [d]) + (Printed(row[n]) + tail);
      LastField(row, d, tail);
      FieldReads(row[n], tail, n == 0, d, last);
      assert Kinds(row)[..n] == Kinds(row[..n]);
      if n == 0 {
        assert row[..n] == [];
        assert [] + last == last;
      } else {
        RowReads(row[..n], last, d);
      }
    }
  }

  // Reading a written row gives the row with its strings cut at the first zero, and leaves
  // nothing; so it gives the row back exactly when no string holds a zero.
  lemma RowRoundTrip(row: seq<Field>, d: Byte)
    requires Separates(d)
    ensures ReadRow(Kinds(row), RowText(row, d), d) == Some((KeptRow(row), []))
    ensures ReadRow(Kinds(row), RowText(row, d), d) == Some((row, [])) <==>
              forall i :: 0 <= i < |row| && row[i].Text? ==> 0 !in row[i].s
  {
    RowReads(row, [], d);
    assert RowText(row, d) + [] == RowText(row, d);
    forall i | 0 <= i < |row|
      ensures Kept(row[i]) == row[i] <==> (row[i].Text? ==> 0 !in row[i].s)
    {
      if row[i].Text? {
        CutIffZero(row[i].s);
      }
    }
    assert KeptRow(row) == row <==> forall i :: 0 <= i < |row| ==> Kept(row[i]) == row[i];
  }

  // A written row is read back to its end, but for what follows a zero in a string.
  predicate Recovers(row: seq<Field>, d: Byte)
    requires d != 0
  {
    match ReadRow(Kinds(row), RowText(row, d), d)
    case None => false
    case Some((fields, rest)) => fields == KeptRow(row) && Ends(rest)
  }

  // A number whose text starts with the delimiter.
  function StartingWith(d: Byte): (n: Int32)
    requires IsDigit(d) || d == Minus
    ensures Decimal(n)[0] == d
  {
    if d == Minus then -1 else d - 48
  }

  lemma NothingLeft(t: seq<Byte>, d: Byte)
    requires t != [] && t[0] == d && (IsDigit(d) || d == Minus)
    ensures ReadField(NumberKind, t, true, d) == Some((Number(0), t)) && !Ends(t)
  {
    assert Skipped(t) == t && FieldLength(t, d) == 0;
    assert t[..0] == [] && t[0..] == t;
  }

  lemma DelimiterFails(d: Byte)
    requires IsDigit(d) || d == Minus
    ensures !Recovers([Number(StartingWith(d))], d)
  {
    var row, t := [Number(StartingWith(d))], Decimal(StartingWith(d));
    assert row[..0] == [];
    assert RowText(row, d) == [] + [] + t == t;
    NothingLeft(t, d);
    var kinds := Kinds(row);
    assert kinds[..0] == [];
    assert ReadRow(kinds[..0], t, d) == Some(([], t));
  }

  // The delimiters that work are exactly those, of all that do not end the text.
  lemma SeparatesIffRecovers(d: Byte)
    requires d != 0
    ensures Separates(d) <==> forall row :: Recovers(row, d)
  {
    if Separates(d) {
      forall row
        ensures Recovers(row, d)
      {
        RowRoundTrip(row, d);
      }
    } else {
      DelimiterFails(d);
    }
  }

  // ---- The writer ----

  class SerializeCSV {
    const delimiter: Byte
    var ss: seq<Byte>
    var count: nat

    // The row written so far.
    ghost predicate Wrote(row: seq<Field>)
      reads this
    {
      ss == RowText(row, delimiter) && count == |row|
    }

    constructor (delimiter: Byte)
      ensures this.delimiter == delimiter && Wrote([])
    {
      this.delimiter := delimiter;
      ss, count := [], 0;
    }

    method Put(v: Field, ghost row: seq<Field>)
      requires Wrote(row)
      modifies this
      ensures Wrote(row + [v])
    {
      assert (row + [v])[..|row|] == row;
      if count > 0 {
        ss := ss + [delimiter];
      }
      match v {
        case Text(s) =>
          var escaped := EscapeString_C(s);
          ss := ss + escaped;
        case Number(n) =>
          ss := ss + Decimal(n);
      }
      count := count + 1;
    }
  }

  // ---- The reader ----

  class DeserializeCSV {
    const text: seq<Byte>
    const delimiter: Byte
    var ptr: nat
    var fieldCount: nat
    var ok: bool

    ghost predicate Valid()
      reads this
    {
      delimiter != 0 && ptr <= |text|
    }

    constructor (text: seq<Byte>, delimiter: Byte)
      requires delimiter != 0
      ensures this.text == text && this.delimiter == delimiter
      ensures Valid() && ok && ptr == 0 && fieldCount == 0
    {
      this.text, this.delimiter := text, delimiter;
      ptr, fieldCount, ok := 0, 0, true;
    }

    method FieldEnd(start: nat) returns (end: nat)
      requires Valid() && start <= |text|
      ensures start <= end <= |text| && end - start == FieldLength(text[start..], delimiter)
    {
      end := start;
      while CharAt(text, end) != 0 && CharAt(text, end) != delimiter
        invariant start <= end <= |text|
        invariant FieldLength(text[start..], delimiter) == end - start + FieldLength(text[end..], delimiter)
        decreases |text| - end
      {
        assert text[end..][1..] == text[end + 1..];
        end := end + 1;
      }
    }

    method SkipSpacesButDelimiter(start: nat) returns (end: nat)
      requires Valid() && start <= |text|
      ensures start <= end <= |text| && text[end..] == SkippedBut(text[start..], delimiter)
    {
      end := start;
      while IsSpace(CharAt(text, end)) && CharAt(text, end) != delimiter
        invariant start <= end <= |text| && SkippedBut(text[end..], delimiter) == SkippedBut(text[start..], delimiter)
        decreases |text| - end
      {
        assert text[end..][1..] == text[end + 1..];
        end := end + 1;
      }
    }

    // The contents of the field at an index, and the index after it.
    method TakeContents(s: nat) returns (r: Option<(seq<Byte>, nat)>)
      requires Valid() && s <= |text|
      ensures match Contents(text[s..], delimiter)
        case None => r == None
        case Some((contents, rest)) =>
          && r.Some? && r.value.0 == contents && s <= r.value.1 <= |text|
          && text[r.value.1..] == rest
    {
      if CharAt(text, s) == Quote {
        var u := UnescapeString_C(text[s..]);
        match u
        case None => r := None;
        case Some((field, used)) =>
          assert text[s..][used..] == text[s + used..];
          r := Some((field, s + used));
      } else {
        var end := FieldEnd(s);
        assert text[s..][..end - s] == text[s..end];
        r := Some((text[s..end], end));
      }
    }

    // Reads the next field; without success the reader fails and stays failed.
    method Get(kind: Kind) returns (v: Field)
      requires Valid()
      modifies this
      ensures Valid() && fieldCount == old(fieldCount) + 1
      ensures !old(ok) ==> !ok && ptr == old(ptr)
      ensures old(ok) ==>
        match ReadField(kind, text[old(ptr)..], old(fieldCount) == 0, delimiter)
        case None => !ok
        case Some((f, rest)) => ok && v == f && text[ptr..] == rest
    {
      v := Number(0);
      var first := fieldCount == 0;
      fieldCount := fieldCount + 1;
      if !ok {
        return;
      }
      if !first && CharAt(text, ptr) != delimiter {
        ok := false;
        return;
      }
      var start := if first then ptr else ptr + 1;
      assert first || text[ptr..][1..] == text[start..];
      var s := SkipSpaces(text, start);
      var contents := TakeContents(s);
      match contents
      case None =>
        ok := false;
      case Some((field, end)) =>
        var parsed := Parsed(kind, field);
        ptr := end;
        if parsed.None? {
          ok := false;
        } else {
          v := parsed.value;
          ptr := SkipSpacesButDelimiter(end);
        }
    }

    // Only spaces or a comment may follow the last field.
    method End()
      requires Valid()
      modifies this
      ensures Valid() && ok == (old(ok) && Ends(text[old(ptr)..]))
    {
      if ok {
        ptr := SkipSpaces(text, ptr);
        if CharAt(text, ptr) != 0 && CharAt(text, ptr) != Hash {
          ok := false;
        }
      }
    }
  }

  // ---- Both ----

  method WriteRow(row: seq<Field>, delimiter: Byte) returns (text: seq<Byte>)
    ensures text == RowText(row, delimiter)
  {
    var w := new SerializeCSV(delimiter);
    assert row[..0] == [];
    for i := 0 to |row|
      invariant w.delimiter == delimiter && w.Wrote(row[..i])
    {
      assert row[..i] + [row[i]] == row[..i + 1];
      w.Put(row[i], row[..i]);
    }
    assert row[..|row|] == row;
    text := w.ss;
  }

  ghost predicate ReadSoFar(r: DeserializeCSV, kinds: seq<Kind>, row: seq<Field>, i: nat)
    requires i <= |kinds| && r.Valid()
    reads r
  {
    && r.fieldCount == i
    && (r.ok <==> ReadRow(kinds[..i], r.text, r.delimiter).Some?)
    && (r.ok ==> ReadRow(kinds[..i], r.text, r.delimiter) == Some((row, r.text[r.ptr..])))
  }

  method ReadWholeRow(kinds: seq<Kind>, text: seq<Byte>, delimiter: Byte) returns (ok: bool, row: seq<Field>)
    requires delimiter != 0
    ensures match ReadRow(kinds, text, delimiter)
      case None => !ok
      case Some((fields, rest)) => ok == Ends(rest) && (ok ==> row == fields)
  {
    var r := new DeserializeCSV(text, delimiter);
    row := [];
    assert text[0..] == text;
    for i := 0 to |kinds|
      invariant r.Valid() && r.text == text && r.delimiter == delimiter
      invariant ReadSoFar(r, kinds, row, i)
    {
      assert kinds[..i + 1][..i] == kinds[..i];
      var v := r.Get(kinds[i]);
      row := row + [v];
    }
    assert kinds[..|kinds|] == kinds;
    r.End();
    ok := r.ok;
  }

  // A row is read back as it was written, but for what follows a zero in a string.
  method WriteThenRead(row: seq<Field>, delimiter: Byte) returns (ok: bool, r: seq<Field>)
    requires delimiter != 0
    ensures ok && r == KeptRow(row) <==> Recovers(row, delimiter)
    ensures Separates(delimiter) ==> ok && r == KeptRow(row)
    ensures Separates(delimiter) && (forall i :: 0 <= i < |row| && row[i].Text? ==> 0 !in row[i].s) ==> r == row
  {
    if Separates(delimiter) {
      RowRoundTrip(row, delimiter);
    }
    var text := WriteRow(row, delimiter);
    ok, r := ReadWholeRow(Kinds(row), text, delimiter);
  }
}
