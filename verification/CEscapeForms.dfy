/**
 The escape sequences, one by one, as the C++ language writes them.
 */
module CEscapeForms {
  import opened CStrings
  import opened CEscape

  function Bytes(s: string): (r: seq<Byte>)
    requires forall i :: 0 <= i < |s| ==> s[i] as int < 256
    ensures |r| == |s| && forall i :: 0 <= i < |s| ==> r[i] == s[i] as int
  {
    seq(|s|, i requires 0 <= i < |s| => s[i] as int)
  }

  // ---- Writing ----

  // Control characters with a name are written as a letter, all others by three octal digits.
  lemma ControlsAreWritten(c: Byte)
    requires c < 32
    ensures c == 8 ==> EscapedByte(c) == Bytes("\\b")
    ensures c == 9 ==> EscapedByte(c) == Bytes("\\t")
    ensures c == 10 ==> EscapedByte(c) == Bytes("\\n")
    ensures c == 12 ==> EscapedByte(c) == Bytes("\\f")
    ensures c == 13 ==> EscapedByte(c) == Bytes("\\r")
    ensures c !in {8, 9, 10, 12, 13} ==> EscapedByte(c) == Bytes("\\0") + ['0' as int + c / 8, '0' as int + c % 8]
  {
  }

  lemma OthersAreWritten(c: Byte)
    requires c >= 32
    ensures EscapedByte(c) == if c == '"' as int || c == '\\' as int then ['\\' as int, c] else [c]
  {
  }

  // ---- Reading ----

  lemma SimpleEscapesRead(rest: seq<Byte>)
    ensures Item(Bytes("\\b") + rest) == ([8], 2)
    ensures Item(Bytes("\\t") + rest) == ([9], 2)
    ensures Item(Bytes("\\n") + rest) == ([10], 2)
    ensures Item(Bytes("\\f") + rest) == ([12], 2)
    ensures Item(Bytes("\\r") + rest) == ([13], 2)
    ensures Item(Bytes("\\\"") + rest) == (Bytes("\""), 2)
    ensures Item(Bytes("\\\\") + rest) == (Bytes("\\"), 2)
    ensures Item(Bytes("\\/") + rest) == (Bytes("/"), 2)
  {
    assert Bytes("\\b") == [92, 98] && Bytes("\\t") == [92, 116] && Bytes("\\n") == [92, 110];
    assert Bytes("\\f") == [92, 102] && Bytes("\\r") == [92, 114] && Bytes("\\\"") == [92, 34];
    assert Bytes("\\\\") == [92, 92] && Bytes("\\/") == [92, 47];
    assert Bytes("\"") == [34] && Bytes("\\") == [92] && Bytes("/") == [47];
  }

  // Three digits are taken as octal, eight and nine among them; what does not fit in a byte is cut.
  lemma OctalEscapesRead(a: nat, b: nat, c: nat, rest: seq<Byte>)
    requires a < 10 && b < 10 && c < 10
    ensures Item(['\\' as int, '0' as int + a, '0' as int + b, '0' as int + c] + rest) ==
            ([(64 * a + 8 * b + c) % 256], 4)
  {
  }

  // A hexadecimal digit with its value, in either case.
  ghost predicate IsHexOf(b: Byte, v: nat) {
    if v < 10 then b == '0' as int + v
    else v < 16 && (b == 'a' as int + (v - 10) || b == 'A' as int + (v - 10))
  }

  lemma HexReads(b: Byte, v: nat)
    requires IsHexOf(b, v)
    ensures IsHexDigit(b) && HexValue(b) == v
  {
  }

  lemma HexDigitsAreThose(b: Byte)
    ensures IsHexDigit(b) <==> exists v: nat :: v < 16 && IsHexOf(b, v)
  {
    if IsHexDigit(b) {
      assert IsHexOf(b, HexValue(b));
    }
  }

  // Four hexadecimal digits after a u give a byte if their number fits in one, and nothing if not.
  lemma UniversalEscapesRead(digits: seq<Byte>, v: seq<nat>, rest: seq<Byte>)
    requires |digits| == |v| == 4 && forall i :: 0 <= i < 4 ==> IsHexOf(digits[i], v[i])
    ensures var n := 4096 * v[0] + 256 * v[1] + 16 * v[2] + v[3];
            Item(Bytes("\\u") + digits + rest) == (if n < 256 then [n] else [], 6)
  {
    var t := Bytes("\\u") + digits + rest;
    assert t[0] == 92 && t[1] == 117 && t[2] == digits[0] && t[3] == digits[1];
    assert t[4] == digits[2] && t[5] == digits[3];
    HexReads(digits[0], v[0]);
    HexReads(digits[1], v[1]);
    HexReads(digits[2], v[2]);
    HexReads(digits[3], v[3]);
  }

  // Any other byte after a backslash stands for nothing, and so does a digit without two more.
  lemma UnknownEscapesAreDropped(b: Byte, rest: seq<Byte>)
    requires b !in Bytes("btnfru/\\\"")
    requires IsDigit(b) ==> |rest| < 2 || !IsDigit(rest[0]) || !IsDigit(rest[1])
    ensures Item(['\\' as int, b] + rest) == ([], 2)
  {
    var known := Bytes("btnfru/\\\"");
    assert known[0] == 98 && known[1] == 116 && known[2] == 110 && known[3] == 102 && known[4] == 114;
    assert known[5] == 117 && known[6] == 47 && known[7] == 92 && known[8] == 34;
  }

  // A u without four hexadecimal digits stands for nothing.
  lemma ShortUniversalIsDropped(rest: seq<Byte>, i: nat)
    requires i < 4 && (i < |rest| ==> !IsHexDigit(rest[i]))
    ensures Item(Bytes("\\u") + rest) == ([], 2)
  {
    var t := Bytes("\\u") + rest;
    assert t[0] == 92 && t[1] == 117;
    assert CharAt(t, i + 2) == CharAt(rest, i);
  }

  lemma PlainBytesRead(b: Byte, rest: seq<Byte>)
    requires b != '\\' as int
    ensures Item([b] + rest) == ([b], 1)
  {
  }
}
