/**
 Base64 text: section 4 of RFC 4648, with the line length of section 6.8 of RFC 2045.
 */
module Base64 {
  import opened Wrappers
  import opened CStrings
  import opened Sequences

  // The sixty-four characters: A to Z, a to z, 0 to 9, + and /.
  function Letter(v: nat): (b: Byte)
    requires v < 64
  {
    if v < 26 then 65 + v
    else if v < 52 then 97 + v - 26
    else if v < 62 then 48 + v - 52
    else if v == 62 then 43 else 47
  }

  const Filler: Byte := 61

  const Newline: Byte := 10

  // ---- Encoding ----

  // Three bytes as one number.
  function Packed(c1: Byte, c2: Byte, c3: Byte): (n: nat)
    ensures n < 0x100_0000
  {
    c1 * 65536 + c2 * 256 + c3
  }

  function Quad(n: nat, fillers: nat): (r: seq<Byte>)
    requires n < 0x100_0000
    ensures |r| == 4
  {
    [ Letter(n / 262144 % 64),
      Letter(n / 4096 % 64),
      if fillers == 2 then Filler else Letter(n / 64 % 64),
      if fillers >= 1 then Filler else Letter(n % 64) ]
  }

  // The first group of at most three bytes: its number, its fillers and what follows it.
  function FirstPacked(s: seq<Byte>): (n: nat)
    requires s != []
    ensures n < 0x100_0000
  {
    Packed(s[0], if |s| > 1 then s[1] else 0, if |s| > 2 then s[2] else 0)
  }

  function FirstFillers(s: seq<Byte>): (n: nat)
    requires s != []
    ensures n <= 2
  {
    if |s| > 2 then 0 else 3 - |s|
  }

  function AfterFirst(s: seq<Byte>): (r: seq<Byte>)
    requires s != []
    ensures |r| < |s|
  {
    if |s| > 2 then s[3..] else []
  }

  predicate Breaks(written: nat, split: bool) {
    split && written > 0 && written % 76 == 0
  }

  // A group of four letters, on a new line when the line is full.
  function Written(s: seq<Byte>, written: nat, split: bool): (r: seq<Byte>)
    requires s != []
  {
    (if Breaks(written, split) then [Newline] else []) + Quad(FirstPacked(s), FirstFillers(s))
  }

  // The text of the bytes still to be encoded, after a number of written letters.
  function EncodedFrom(s: seq<Byte>, written: nat, split: bool): (r: seq<Byte>)
    decreases |s|
  {
    if s == [] then [] else Written(s, written, split) + EncodedFrom(AfterFirst(s), written + 4, split)
  }

  function Encoded(s: seq<Byte>, split: bool): (r: seq<Byte>) {
    EncodedFrom(s, 0, split)
  }

  lemma TailOf(s: seq<Byte>, i: nat, k: nat)
    requires i + k <= |s|
    ensures s[i..][k..] == s[i + k..]
  {
  }

  // Takes the next group of bytes.
  method TakeGroup(input: seq<Byte>, start: nat) returns (n: nat, fillers: nat, next: nat)
    requires start < |input|
    ensures n == FirstPacked(input[start..]) && fillers == FirstFillers(input[start..])
    ensures start < next <= |input| && input[next..] == AfterFirst(input[start..])
  {
    var i := start;
    var c1, c2, c3 := input[i], 0, 0;
    fillers := 0;
    if i < |input| - 2 {
      c2, c3, i := input[i + 1], input[i + 2], i + 2;
    } else if i == |input| - 2 {
      c2, i, fillers := input[i + 1], i + 1, 1;
    } else {
      fillers := 2;
    }
    n, next := Packed(c1, c2, c3), i + 1;
  }

  method EncodeString_Base64(input: seq<Byte>, split: bool) returns (result: seq<Byte>)
    ensures result == Encoded(input, split)
  {
    result := [];
    var written: nat, i: nat := 0, 0;
    assert input[0..] == input;
    while i < |input|
      invariant i <= |input|
      invariant result + EncodedFrom(input[i..], written, split) == Encoded(input, split)
    {
      var n, fillers, next := TakeGroup(input, i);
      ghost var group := Written(input[i..], written, split);
      Regroup(result, group, EncodedFrom(input[next..], written + 4, split));
      var line := if split && written > 0 && written % 76 == 0 then [Newline] else [];
      result := result + (line + Quad(n, fillers));
      written, i := written + 4, next;
    }
  }

  // ---- Decoding ----

  function Sextet(b: Byte): (r: Option<nat>)
    ensures r.Some? ==> r.value < 64
  {
    if 65 <= b <= 90 then Some(b - 65)
    else if 97 <= b <= 122 then Some(b - 97 + 26)
    else if 48 <= b <= 57 then Some(b - 48 + 52)
    else if b == 43 then Some(62)
    else if b == 47 then Some(63)
    else if b == Filler then Some(0)
    else None
  }

  lemma SextetOfLetter(v: nat)
    requires v < 64
    ensures Sextet(Letter(v)) == Some(v) && Letter(v) != Filler && !IsSpace(Letter(v)) && Letter(v) != 0
  {
  }

  // The first k letters as one number, if all are valid.
  function Number(t: seq<Byte>, k: nat): (r: Option<nat>) {
    if k == 0 then Some(0)
    else
      var before, digit := Number(t, k - 1), Sextet(CharAt(t, k - 1));
      if before.Some? && digit.Some? then Some(before.value * 64 + digit.value) else None
  }

  function Fillers(t: seq<Byte>, k: nat): (n: nat)
    ensures n <= k
  {
    if k == 0 then 0 else Fillers(t, k - 1) + if CharAt(t, k - 1) == Filler then 1 else 0
  }

  lemma {:induction false} NumberBound(t: seq<Byte>, k: nat)
    ensures Number(t, k).Some? ==> k <= |t|
    ensures k == 4 && Number(t, k).Some? ==> Number(t, k).value < 0x100_0000
  {
    if k > 0 {
      NumberBound(t, k - 1);
      NumberUpTo(t, k);
    }
  }

  function Power(k: nat): (n: nat) {
    if k == 0 then 1 else 64 * Power(k - 1)
  }

  lemma {:induction false} NumberUpTo(t: seq<Byte>, k: nat)
    ensures Number(t, k).Some? ==> Number(t, k).value < Power(k)
  {
    if k > 0 {
      NumberUpTo(t, k - 1);
    }
  }

  function Unpacked(n: nat, fillers: nat): (r: seq<Byte>)
    requires n < 0x100_0000
  {
    [n / 65536] + (if fillers <= 1 then [n / 256 % 256] else []) + (if fillers == 0 then [n % 256] else [])
  }

  // Reads groups of four letters up to the end of the text; spaces may follow each group.
  function Decoded(t: seq<Byte>): (r: Option<seq<Byte>>)
    decreases |t|
  {
    if CharAt(t, 0) == 0 then Some([])
    else
      NumberBound(t, 4);
      var n, fillers := Number(t, 4), Fillers(t, 4);
      if n.None? then None
      else
        var rest := Skipped(t[4..]);
        if fillers > 0 && (CharAt(rest, 0) != 0 || fillers > 2) then None
        else
          var more := Decoded(rest);
          if more.None? then None else Some(Unpacked(n.value, fillers) + more.value)
  }

  // Reads one group; never beyond the character that ends the text.
  method ReadGroup(input: seq<Byte>, s: nat) returns (n: Option<nat>, fillers: nat)
    requires s <= |input|
    ensures n == Number(input[s..], 4) && (n.Some? ==> fillers == Fillers(input[s..], 4))
  {
    ghost var t := input[s..];
    n, fillers := Some(0), 0;
    for i := 0 to 4
      invariant n.Some? && n == Number(t, i) && fillers == Fillers(t, i) && s + i <= |input|
    {
      var next := CharAt(input, s + i);
      assert next == CharAt(t, i);
      var c := Sextet(next);
      if c.None? {
        NotThenLater(t, i + 1, 4);
        return None, 0;
      }
      if next == Filler {
        fillers := fillers + 1;
      }
      n := Some(n.value * 64 + c.value);
    }
  }

  lemma {:induction false} NotThenLater(t: seq<Byte>, k: nat, m: nat)
    requires Number(t, k).None? && k <= m
    ensures Number(t, m).None?
  {
    if k < m {
      NotThenLater(t, k, m - 1);
    }
  }

  // What has been decoded and what is still to be read make up the whole result.
  ghost predicate Continues(whole: Option<seq<Byte>>, result: seq<Byte>, t: seq<Byte>) {
    whole == if Decoded(t).Some? then Some(result + Decoded(t).value) else None
  }

  lemma DecodedGroup(whole: Option<seq<Byte>>, result: seq<Byte>, t: seq<Byte>, n: nat, fillers: nat, rest: seq<Byte>)
    requires Continues(whole, result, t) && CharAt(t, 0) != 0 && Number(t, 4) == Some(n) && fillers == Fillers(t, 4)
    requires |t| >= 4 && n < 0x100_0000 && rest == Skipped(t[4..])
    ensures if fillers > 0 && (CharAt(rest, 0) != 0 || fillers > 2) then whole == None
            else Continues(whole, result + Unpacked(n, fillers), rest)
  {
    if Decoded(rest).Some? {
      Regroup(result, Unpacked(n, fillers), Decoded(rest).value);
    }
  }

  lemma NoGroup(whole: Option<seq<Byte>>, result: seq<Byte>, t: seq<Byte>)
    requires Continues(whole, result, t) && CharAt(t, 0) != 0 && Number(t, 4) == None
    ensures whole == None
  {
  }

  method DecodeString_Base64(input: seq<Byte>) returns (result: seq<Byte>)
    ensures result == match Decoded(Skipped(input)) case Some(r) => r case None => []
  {
    result := [];
    var s := SkipSpaces(input, 0);
    assert input[0..] == input;
    ghost var whole := Decoded(Skipped(input));
    assert whole.Some? ==> [] + whole.value == whole.value;
    while CharAt(input, s) != 0
      invariant s <= |input| && Continues(whole, result, input[s..]) == true
      decreases |input| - s
    {
      ghost var t := input[s..];
      NumberBound(t, 4);
      var n, fillers := ReadGroup(input, s);
      if n.None? {
        NoGroup(whole, result, t);
        return [];
      }
      TailOf(input, s, 4);
      s := SkipSpaces(input, s + 4);
      DecodedGroup(whole, result, t, n.value, fillers, input[s..]);
      if fillers > 0 && (CharAt(input, s) != 0 || fillers > 2) {
        return [];
      }
      result := result + Unpacked(n.value, fillers);
    }
  }
}
