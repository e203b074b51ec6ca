/**
 Strings in double quotes, escaped with backslashes.
 */
module CEscape {
  import opened Wrappers
  import opened CStrings
  import opened Sequences

  const Quote: Byte := 34

  const Backslash: Byte := 92

  // ---- Escaping ----

  // The letter that stands for a control character after a backslash: b, t, n, f or r.
  function ControlLetter(c: Byte): (r: Option<Byte>) {
    if c == 8 then Some(98)
    else if c == 9 then Some(116)
    else if c == 10 then Some(110)
    else if c == 12 then Some(102)
    else if c == 13 then Some(114)
    else None
  }

  function Octal(c: Byte): (r: seq<Byte>)
    requires c < 64
  {
    [Backslash, 48 + c / 64, 48 + c % 64 / 8, 48 + c % 8]
  }

  function EscapedByte(c: Byte): (r: seq<Byte>)
    ensures 0 < |r| <= 4
  {
    if c < 32 then
      match ControlLetter(c)
      case Some(letter) => [Backslash, letter]
      case None => Octal(c)
    else if c == Quote || c == Backslash then [Backslash, c]
    else [c]
  }

  function EscapedBytes(s: seq<Byte>): (r: seq<Byte>) {
    Spread(EscapedByte, s)
  }

  function Escaped(s: seq<Byte>): (r: seq<Byte>) {
    [Quote] + EscapedBytes(s) + [Quote]
  }

  method EscapeString_C(input: seq<Byte>) returns (s: seq<Byte>)
    ensures s == Escaped(input)
  {
    s := [Quote];
    for i := 0 to |input|
      invariant s == [Quote] + EscapedBytes(input[..i])
    {
      assert input[..i + 1][..i] == input[..i];
      s := s + EscapedByte(input[i]);
    }
    assert input[..|input|] == input;
    s := s + [Quote];
  }

  // ---- Unescaping ----

  predicate IsDigit(b: Byte) {
    48 <= b <= 57
  }

  predicate IsHexDigit(b: Byte) {
    IsDigit(b) || 65 <= b <= 70 || 97 <= b <= 102
  }

  function HexValue(b: Byte): (n: nat)
    requires IsHexDigit(b)
    ensures n < 16
  {
    if IsDigit(b) then b - 48 else if b <= 70 then b - 55 else b - 87
  }

  // The character a letter after a backslash stands for.
  function Control(b: Byte): (r: Option<Byte>) {
    if b == 110 then Some(10)
    else if b == 116 then Some(9)
    else if b == 114 then Some(13)
    else if b == 98 then Some(8)
    else if b == 102 then Some(12)
    else if b == Quote || b == 47 || b == Backslash then Some(b)
    else None
  }

  // What a backslash and the bytes after it stand for, and how many bytes that takes.
  // Unknown sequences stand for nothing.
  function AfterBackslash(t: seq<Byte>): (r: (seq<Byte>, nat))
    ensures r.1 >= 2
  {
    var b := CharAt(t, 1);
    if Control(b).Some? then ([Control(b).value], 2)
    else if b == 117 then
      var a, b, c, e := CharAt(t, 2), CharAt(t, 3), CharAt(t, 4), CharAt(t, 5);
      if IsHexDigit(a) && IsHexDigit(b) && IsHexDigit(c) && IsHexDigit(e) then
        var d := ((HexValue(a) * 16 + HexValue(b)) * 16 + HexValue(c)) * 16 + HexValue(e);
        (if d >= 256 then [] else [d], 6)
      else ([], 2)
    else if IsDigit(b) && IsDigit(CharAt(t, 2)) && IsDigit(CharAt(t, 3)) then
      ([((b - 48) * 64 + (CharAt(t, 2) - 48) * 8 + (CharAt(t, 3) - 48)) % 256], 4)
    else ([], 2)
  }

  function Item(t: seq<Byte>): (r: (seq<Byte>, nat))
    ensures r.1 >= 1
  {
    if CharAt(t, 0) == Backslash then AfterBackslash(t) else ([CharAt(t, 0)], 1)
  }

  // The string up to the closing quote or the end of the text, and the bytes that takes.  A
  // backslash with nothing after it leads out of the text: None.
  function Unescaped(t: seq<Byte>): (r: Option<(seq<Byte>, nat)>)
    ensures r.Some? ==> r.value.1 <= |t|
    decreases |t|
  {
    if CharAt(t, 0) == 0 then Some(([], 0))
    else if CharAt(t, 0) == Quote then Some(([], 1))
    else if Item(t).1 > |t| then None
    else
      match Unescaped(t[Item(t).1..])
      case None => None
      case Some((more, used)) => Some((Item(t).0 + more, Item(t).1 + used))
  }

  // Spaces and an opening quote come first; without the quote nothing is read.
  function UnescapedString(t: seq<Byte>): (r: Option<(seq<Byte>, nat)>)
    ensures r.Some? ==> r.value.1 <= |t|
  {
    var s := Skipped(t);
    if CharAt(s, 0) != Quote then Some(([], 0))
    else
      match Unescaped(s[1..])
      case None => None
      case Some((result, used)) => Some((result, |t| - |s| + 1 + used))
  }

  // What has been read and what is still to be read make up the whole.
  ghost predicate Continues(whole: Option<(seq<Byte>, nat)>, result: seq<Byte>, used: nat, t: seq<Byte>) {
    match Unescaped(t)
    case None => whole == None
    case Some((more, n)) => whole == Some((result + more, used + n))
  }

  lemma ItemContinues(whole: Option<(seq<Byte>, nat)>, result: seq<Byte>, used: nat, t: seq<Byte>)
    requires Continues(whole, result, used, t) == true && CharAt(t, 0) != 0 && CharAt(t, 0) != Quote
    ensures Item(t).1 > |t| ==> whole == None
    ensures Item(t).1 <= |t| ==> Continues(whole, result + Item(t).0, used + Item(t).1, t[Item(t).1..]) == true
  {
    if Item(t).1 <= |t| && Unescaped(t[Item(t).1..]).Some? {
      var more := Unescaped(t[Item(t).1..]).value.0;
      assert result + (Item(t).0 + more) == result + Item(t).0 + more;
    }
  }

  lemma EndContinues(whole: Option<(seq<Byte>, nat)>, result: seq<Byte>, used: nat, t: seq<Byte>)
    requires Continues(whole, result, used, t) == true && (CharAt(t, 0) == 0 || CharAt(t, 0) == Quote)
    ensures whole == Some((result, used + if CharAt(t, 0) == Quote then 1 else 0))
  {
    assert result + [] == result;
  }

  // Reads one item.
  method TakeItem(input: seq<Byte>, s: nat) returns (item: seq<Byte>, next: nat)
    requires s <= |input|
    ensures (item, next - s) == Item(input[s..]) && next > s
    ensures next <= |input| ==> input[next..] == input[s..][next - s..]
  {
    var r := Item(input[s..]);
    item, next := r.0, s + r.1;
  }

  // Reads items up to the closing quote or the end of the text.
  method UnescapeItems(input: seq<Byte>, start: nat) returns (r: Option<(seq<Byte>, nat)>)
    requires start <= |input|
    ensures r == Unescaped(input[start..])
  {
    ghost var whole := Unescaped(input[start..]);
    var s, result: seq<Byte> := start, [];
    assert whole.Some? ==> [] + whole.value.0 == whole.value.0;
    while CharAt(input, s) != 0
      invariant start <= s <= |input| && Continues(whole, result, s - start, input[s..]) == true
      decreases |input| - s
    {
      if CharAt(input, s) == Quote {
        EndContinues(whole, result, s - start, input[s..]);
        return Some((result, s + 1 - start));
      }
      ItemContinues(whole, result, s - start, input[s..]);
      var item, next := TakeItem(input, s);
      if next > |input| {
        return None;
      }
      result, s := result + item, next;
    }
    EndContinues(whole, result, s - start, input[s..]);
    r := Some((result, s - start));
  }

  method UnescapeString_C(input: seq<Byte>) returns (r: Option<(seq<Byte>, nat)>)
    ensures r == UnescapedString(input)
  {
    var s := SkipSpaces(input, 0);
    assert input[0..] == input;
    if CharAt(input, s) != Quote {
      return Some(([], 0));
    }
    assert input[s..][1..] == input[s + 1..];
    var items := UnescapeItems(input, s + 1);
    match items
    case None => r := None;
    case Some((result, used)) => r := Some((result, s + 1 + used));
  }

  // ---- The round trip ----

  lemma OctalReads(c: Byte, rest: seq<Byte>)
    requires c < 32
    ensures AfterBackslash(Octal(c) + rest) == ([c], 4)
  {
    var t := Octal(c) + rest;
    assert c / 64 == 0 && c % 64 / 8 == c / 8;
    assert CharAt(t, 1) == 48 && CharAt(t, 2) == 48 + c / 8 && CharAt(t, 3) == 48 + c % 8;
  }

  lemma LetterReads(letter: Byte, rest: seq<Byte>)
    requires Control(letter).Some?
    ensures AfterBackslash([Backslash, letter] + rest) == ([Control(letter).value], 2)
  {
    assert CharAt([Backslash, letter] + rest, 1) == letter;
  }

  // The escape of one byte reads as that byte, whatever follows.
  lemma ByteReads(c: Byte, rest: seq<Byte>)
    ensures Item(EscapedByte(c) + rest) == ([c], |EscapedByte(c)|)
    ensures CharAt(EscapedByte(c) + rest, 0) != 0 && CharAt(EscapedByte(c) + rest, 0) != Quote
  {
    if c < 32 {
      if ControlLetter(c).Some? {
        LetterReads(ControlLetter(c).value, rest);
      } else {
        OctalReads(c, rest);
      }
    } else if c == Quote || c == Backslash {
      LetterReads(c, rest);
    }
  }

  // Reading a text up to a quote gives a string and takes a number of bytes.
  ghost predicate Reads(t: seq<Byte>, s: seq<Byte>, used: nat) {
    Unescaped(t) == Some((s, used))
  }

  lemma ByteThenMore(c: Byte, t: seq<Byte>, more: seq<Byte>, used: nat, text: seq<Byte>, s: seq<Byte>)
    requires Reads(t, more, used) == true && text == EscapedByte(c) + t && s == [c] + more
    ensures Reads(text, s, |EscapedByte(c)| + used) == true
  {
    ByteReads(c, t);
    assert text[|EscapedByte(c)|..] == t;
  }

  lemma NoByteReads(text: seq<Byte>)
    requires CharAt(text, 0) == Quote
    ensures Reads(text, [], 1) == true
  {
  }

  // The conclusion is compared with true so that it is used as a whole.
  lemma {:induction false} BytesRead(s: seq<Byte>, rest: seq<Byte>)
    requires CharAt(rest, 0) == Quote
    ensures Reads(EscapedBytes(s) + rest, s, |EscapedBytes(s)| + 1) == true
    decreases |s|
  {
    if s == [] {
      assert EscapedBytes(s) + rest == rest;
      NoByteReads(rest);
    } else {
      SpreadFirst(EscapedByte, s, rest);
      BytesRead(s[1..], rest);
      ByteThenMore(s[0], EscapedBytes(s[1..]) + rest, s[1..], |EscapedBytes(s[1..])| + 1, EscapedBytes(s) + rest, s);
    }
  }

  // Unescaping reads exactly the escaped string, whatever follows it, and gives it back.
  lemma UnescapeReadsEscape(s: seq<Byte>, rest: seq<Byte>)
    ensures UnescapedString(Escaped(s) + rest) == Some((s, |Escaped(s)|))
  {
    var t := Escaped(s) + rest;
    assert Skipped(t) == t;
    assert t[1..] == EscapedBytes(s) + ([Quote] + rest);
    BytesRead(s, [Quote] + rest);
  }
}
