/**
 The Porter stemmer in place: a buffer whose word ends at k, and a mark j before a suffix.
 */
module PorterStemmer {
  import opened Porter

  class Stemmer {
    const b: array<char>
    var k: int
    var j: int

    ghost predicate Valid()
      reads this
    {
      0 <= k < b.Length && -1 <= j < b.Length
    }

    ghost function Word(): (w: string)
      requires Valid()
      reads this, b
    {
      b[..k + 1]
    }

    constructor (b: array<char>, k: int)
      requires 0 <= k < b.Length
      ensures this.b == b && this.k == k && Valid()
    {
      this.b, this.k, this.j := b, k, -1;
    }

    // ---- Reading ----

    function ConsAt(i: nat): (r: bool)
      requires i < b.Length
      reads this, b
      ensures r == Cons(b[..], i)
    {
      if IsVowelLetter(b[i]) then false
      else if b[i] == 'y' then i == 0 || !ConsAt(i - 1)
      else true
    }

    // The end of a sequence of consonants or of vowels; there are no transitions within it.
    method SkipWhile(start: nat, consonants: bool, ghost w: string) returns (i: nat)
      requires Valid() && w == b[..] && start <= j + 1 && (start == 0 || Cons(w, start - 1) == consonants)
      ensures start <= i <= j + 1 && (i == 0 || Cons(w, i - 1) == consonants)
      ensures Transitions(w, i) == Transitions(w, start)
      ensures i <= j ==> Cons(w, i) != consonants
    {
      i := start;
      while i <= j && ConsAt(i) == consonants
        invariant start <= i <= j + 1 && (i == 0 || Cons(w, i - 1) == consonants)
        invariant Transitions(w, i) == Transitions(w, start)
      {
        i := i + 1;
      }
    }

    // The measure of the letters up to j.
    method M() returns (n: nat)
      requires Valid()
      ensures n == Measure(b[..j + 1])
    {
      ghost var w := b[..];
      TransitionsPrefix(w, j + 1, j + 1);
      assert w[..j + 1] == b[..j + 1];
      n := 0;
      var i := SkipWhile(0, true, w);
      if i > j {
        return;
      }
      i := i + 1;
      while true
        invariant 1 <= i <= j + 1 && n == Transitions(w, i) && !Cons(w, i - 1)
        decreases j + 1 - i
      {
        i := SkipWhile(i, false, w);
        if i > j {
          return;
        }
        i, n := i + 1, n + 1;
        i := SkipWhile(i, true, w);
        if i > j {
          return;
        }
        i := i + 1;
      }
    }

    method VowelInStem() returns (r: bool)
      requires Valid()
      ensures r == HasVowel(b[..j + 1])
    {
      ghost var w := b[..];
      assert w[..j + 1] == b[..j + 1];
      for i := 0 to j + 1
        invariant forall x :: 0 <= x < i ==> Cons(w, x)
      {
        if !ConsAt(i) {
          ConsPrefix(w, j + 1, i);
          return true;
        }
      }
      NoVowelBefore(w, j + 1);
      return false;
    }

    method DoubleC() returns (r: bool)
      requires Valid()
      ensures r == DoubleCons(Word())
    {
      if k < 1 || b[k] != b[k - 1] {
        return false;
      }
      ConsPrefix(b[..], k + 1, k);
      assert b[..][..k + 1] == Word();
      return ConsAt(k);
    }

    // Whether the letters i - 2 to i are a consonant, a vowel and a consonant.
    method CvcAt(i: int) returns (r: bool)
      requires Valid() && -1 <= i <= k
      ensures r == Cvc(Word(), i + 1)
    {
      assert b[..][..k + 1] == Word();
      if i < 2 {
        return false;
      }
      ConsPrefix(b[..], k + 1, i);
      ConsPrefix(b[..], k + 1, i - 1);
      ConsPrefix(b[..], k + 1, i - 2);
      if !ConsAt(i) || ConsAt(i - 1) || !ConsAt(i - 2) {
        return false;
      }
      return b[i] != 'w' && b[i] != 'x' && b[i] != 'y';
    }

    // Whether the word ends with s; if so, marks the letter before it.
    method Ends(s: string) returns (r: bool)
      requires Valid() && s != ""
      modifies this`j
      ensures Valid() && r == EndsWith(Word(), s)
      ensures j == if r then k - |s| else old(j)
    {
      if s[|s| - 1] != b[k] {
        assert Word()[k] == b[k];
        LastDiffers(Word(), s);
        return false;
      }
      if |s| > k + 1 {
        return false;
      }
      assert Word()[k + 1 - |s|..] == b[k + 1 - |s|..k + 1];
      if b[k + 1 - |s|..k + 1] != s {
        return false;
      }
      j := k - |s|;
      return true;
    }

    // ---- Writing ----

    // Replaces what follows the mark.
    method SetTo(s: string)
      requires Valid() && 0 <= j + |s| < b.Length
      modifies this`k, b
      ensures Valid() && k == j + |s| && Word() == old(b[..j + 1]) + s
      ensures forall i :: j + |s| < i < b.Length ==> b[i] == old(b[i])
    {
      forall i | 0 <= i < |s| {
        b[j + 1 + i] := s[i];
      }
      k := j + |s|;
    }

    // ---- Rules ----

    // The letter at the mark; before the buffer there may be anything.
    function LetterAt(i: int, before: char): (c: char)
      requires -1 <= i < b.Length
      reads this, b
    {
      if i >= 0 then b[i] else before
    }

    // Replaces the suffix after the mark if the measure before it is more than least.
    method Replace(suffix: string, replacement: string, least: nat)
      requires Valid() && EndsWith(Word(), suffix) && j == k - |suffix| && 0 < |suffix| && |replacement| <= |suffix|
      modifies this`k, b
      ensures Valid() && k <= old(k) && Word() == Replaced(old(Word()), suffix, replacement, least)
      ensures forall i :: old(k) < i < b.Length ==> b[i] == old(b[i])
    {
      assert Drop(Word(), |suffix|) == b[..j + 1];
      var m := M();
      if m > least {
        MeasuredIsLong(b[..j + 1]);
        SetTo(replacement);
      }
    }

    // Whether a rule is to be tried; marks the letter before its suffix.  A word that is the
    // suffix and nothing more may go either way when the rule asks for a letter before it.
    method RuleApplies(r: Rule, before: char) returns (yes: bool)
      requires Valid() && r.suffix != ""
      modifies this`j
      ensures Valid()
      ensures yes ==>
                EndsWith(Word(), r.suffix) && j == k - |r.suffix| && (Matches(Word(), r) || |Word()| == |r.suffix|)
      ensures !yes ==> !Matches(Word(), r)
    {
      var found := Ends(r.suffix);
      yes := found && (r.after == "" || LetterAt(j, before) in r.after);
    }

    // The first rule to be tried, or the number of rules.
    method FindRule(rules: seq<Rule>, before: char, ghost w: string, ghost least: nat) returns (i: nat)
      requires Valid() && Usable(rules) && w == Word()
      modifies this`j
      ensures Valid() && i <= |rules| && w == Word()
      ensures Rewritten(w, rules, least) == Rewritten(w, rules[i..], least)
      ensures i < |rules| ==>
                && EndsWith(w, rules[i].suffix) && j == k - |rules[i].suffix|
                && (Matches(w, rules[i]) || |w| == |rules[i].suffix|)
    {
      assert rules[0..] == rules;
      for n := 0 to |rules|
        invariant Valid() && w == Word() && Rewritten(w, rules, least) == Rewritten(w, rules[n..], least)
      {
        var applies := RuleApplies(rules[n], before);
        if applies {
          return n;
        }
        RuleMissed(w, rules, n, least);
      }
      return |rules|;
    }

    // Tries rules in turn; applies the first that matches if the measure allows it.
    method TryRules(rules: seq<Rule>, least: nat, before: char)
      requires Valid() && Usable(rules)
      modifies this, b
      ensures Valid() && k <= old(k) && Word() == Rewritten(old(Word()), rules, least)
      ensures forall i :: old(k) < i < b.Length ==> b[i] == old(b[i])
    {
      var i := FindRule(rules, before, Word(), least);
      if i < |rules| {
        RuleTaken(Word(), rules, i, least);
        Replace(rules[i].suffix, rules[i].replacement, least);
      }
    }

    // ---- Steps ----

    method Step1aInPlace()
      requires Valid() && k >= 1
      modifies this, b
      ensures Valid() && k <= old(k) && Word() == Step1a(old(Word()))
      ensures forall i :: old(k) < i < b.Length ==> b[i] == old(b[i])
    {
      if b[k] != 's' {
        LastDiffers(Word(), "sses");
        LastDiffers(Word(), "ies");
      } else {
        var sses := Ends("sses");
        if sses {
          k := k - 2;
        } else {
          TakeS(Word());
        }
      }
    }

    method TakeS(ghost w: string)
      requires Valid() && w == Word() && k >= 1 && b[k] == 's' && !EndsWith(w, "sses")
      modifies this, b
      ensures Valid() && k <= old(k) && Word() == Step1a(w)
      ensures forall i :: old(k) < i < b.Length ==> b[i] == old(b[i])
    {
      var ies := Ends("ies");
      if ies {
        TakeIes(w);
      } else {
        TakeOneS(w);
      }
    }

    method TakeIes(ghost w: string)
      requires Valid() && w == Word() && EndsWith(w, "ies") && !EndsWith(w, "sses") && j == k - 3
      modifies this, b
      ensures Valid() && k <= old(k) && Word() == Step1a(w)
      ensures forall i :: old(k) < i < b.Length ==> b[i] == old(b[i])
    {
      assert Drop(w, 3) == b[..j + 1];
      SetTo("i");
    }

    method TakeOneS(ghost w: string)
      requires Valid() && w == Word() && k >= 1 && b[k] == 's' && !EndsWith(w, "ies") && !EndsWith(w, "sses")
      modifies this`k
      ensures Valid() && k <= old(k) && Word() == Step1a(w)
    {
      assert EndsInOneS(w) <==> b[k - 1] != 's';
      if b[k - 1] != 's' {
        assert Drop(w, 1) == b[..k];
        k := k - 1;
      }
    }

    // Adds an e to a word with the given end.
    method AddE(s: string) returns (r: bool)
      requires Valid() && |s| == 2 && k + 1 < b.Length
      modifies this, b
      ensures Valid() && r == old(EndsWith(Word(), s))
      ensures r ==> k == old(k) + 1 && Word() == old(Word()) + "e"
      ensures !r ==> k == old(k) && j == old(j) && Word() == old(Word())
      ensures forall i :: old(k) + 1 < i < b.Length ==> b[i] == old(b[i])
    {
      ghost var w := Word();
      r := Ends(s);
      if r {
        EAppended(w, s);
        assert Drop(w, |s|) == b[..j + 1];
        SetTo(s + "e");
      }
    }

    // Completes a word that has lost -ed or -ing.
    method Restore()
      requires Valid() && j == k && k + 1 < b.Length
      modifies this, b
      ensures Valid() && k <= old(k) + 1 && Word() == Restored(old(Word()))
      ensures forall i :: old(k) + 1 < i < b.Length ==> b[i] == old(b[i])
    {
      var done := AddE("at");
      if !done {
        done := AddE("bl");
      }
      if !done {
        done := AddE("iz");
      }
      if !done {
        RestoreEnd();
      }
    }

    method RestoreEnd()
      requires Valid() && j == k && k + 1 < b.Length
      requires !EndsWith(Word(), "at") && !EndsWith(Word(), "bl") && !EndsWith(Word(), "iz")
      modifies this`k, b
      ensures Valid() && k <= old(k) + 1 && Word() == Restored(old(Word()))
      ensures forall i :: old(k) + 1 < i < b.Length ==> b[i] == old(b[i])
    {
      var double := DoubleC();
      if double {
        Undouble();
      } else {
        var m := M();
        var cvc := CvcAt(k);
        if m == 1 && cvc {
          SetTo("e");
        }
      }
    }

    // Drops the last of two consonants, unless they are l, s or z.
    method Undouble()
      requires Valid() && DoubleCons(Word())
      modifies this`k
      ensures Valid() && k <= old(k)
      ensures Word() == old(if Word()[k] in "lsz" then Word() else Drop(Word(), 1))
    {
      ghost var w := Word();
      k := k - 1;
      assert Word() == Drop(w, 1) && b[k] == w[k + 1];
      if b[k] == 'l' || b[k] == 's' || b[k] == 'z' {
        k := k + 1;
      }
    }

    // Takes off what follows the mark after a stem with a vowel.
    method TakeOff(ghost w: string, ghost n: nat)
      requires Valid() && w == Word() && j < k && n == k - j
      modifies this, b
      ensures Valid() && k <= old(k) && Word() == TakenOff(w, n)
      ensures forall i :: old(k) < i < b.Length ==> b[i] == old(b[i])
    {
      assert Drop(w, n) == b[..j + 1];
      var vowel := VowelInStem();
      if vowel {
        k := j;
        assert Word() == Drop(w, n);
        Restore();
      }
    }

    method TakeEed(ghost w: string)
      requires Valid() && w == Word() && k - j == 3
      modifies this`k
      ensures Valid() && k <= old(k) && Word() == if Measure(Drop(w, 3)) > 0 then Drop(w, 1) else w
    {
      assert Drop(w, 3) == b[..j + 1];
      var m := M();
      if m > 0 {
        k := k - 1;
      }
    }

    // Marks -ed or -ing.
    method FindEdOrIng(ghost w: string) returns (found: bool)
      requires Valid() && w == Word()
      modifies this`j
      ensures Valid() && w == Word()
      ensures found == (EdOrIng(w) > 0) && (found ==> k - j == EdOrIng(w))
    {
      found := Ends("ed");
      if !found {
        found := Ends("ing");
      }
    }

    method Step1bInPlace()
      requires Valid()
      modifies this, b
      ensures Valid() && k <= old(k) && Word() == Step1b(old(Word()))
      ensures forall i :: old(k) < i < b.Length ==> b[i] == old(b[i])
    {
      ghost var w := Word();
      var eed := Ends("eed");
      if eed {
        TakeEed(w);
      } else {
        var found := FindEdOrIng(w);
        if found {
          TakeOff(w, EdOrIng(w));
        }
      }
    }

    method Step1cInPlace()
      requires Valid()
      modifies this, b
      ensures Valid() && k == old(k) && Word() == Step1c(old(Word()))
      ensures forall i :: old(k) < i < b.Length ==> b[i] == old(b[i])
    {
      var y := Ends("y");
      if y {
        assert Drop(Word(), 1) == b[..j + 1];
        var vowel := VowelInStem();
        if vowel {
          b[k] := 'i';
        }
      }
    }

    // A switch on the letter at a distance from the end, which may lie before the buffer.
    method SwitchOn(groups: seq<Group>, at: nat, least: nat, before: char)
      requires Valid() && 1 <= at <= 2 && GoodGroups(groups, at) && AllUsable(groups)
      modifies this, b
      ensures Valid() && k <= old(k) && Word() == Rewritten(old(Word()), AllRules(groups), least)
      ensures forall i :: old(k) < i < b.Length ==> b[i] == old(b[i])
    {
      var letter := LetterAt(k + 1 - at, before);
      SwitchRewrites(Word(), groups, at, letter, least);
      CasesAreUsable(groups, letter);
      TryRules(Cases(groups, letter), least, before);
    }

    method Step2InPlace(before: char)
      requires Valid()
      modifies this, b
      ensures Valid() && k <= old(k) && Word() == Step2(old(Word()))
      ensures forall i :: old(k) < i < b.Length ==> b[i] == old(b[i])
    {
      Table2IsGood();
      Table2IsUsable();
      SwitchOn(Table2(), 2, 0, before);
    }

    method Step3InPlace(before: char)
      requires Valid()
      modifies this, b
      ensures Valid() && k <= old(k) && Word() == Step3(old(Word()))
      ensures forall i :: old(k) < i < b.Length ==> b[i] == old(b[i])
    {
      Table3IsGood();
      Table3IsUsable();
      SwitchOn(Table3(), 1, 0, before);
    }

    method Step4InPlace(before: char)
      requires Valid()
      modifies this, b
      ensures Valid() && k <= old(k) && Word() == Step4(old(Word()))
      ensures forall i :: old(k) < i < b.Length ==> b[i] == old(b[i])
    {
      Table4IsGood();
      Table4IsUsable();
      SwitchOn(Table4(), 2, 1, before);
    }

    method Step5aInPlace()
      requires Valid() && j == k
      modifies this`k
      ensures Valid() && k <= old(k) && Word() == Step5a(old(Word()))
    {
      ghost var w := Word();
      LastLetter(w, 'e');
      if b[k] == 'e' {
        var a := M();
        var cvc := CvcAt(k - 1);
        if a > 1 || (a == 1 && !cvc) {
          MeasuredIsLong(w);
          k := k - 1;
        }
      }
    }

    // The measure is still that of the letters up to the mark.
    method Step5InPlace()
      requires Valid()
      modifies this
      ensures Valid() && k <= old(k) && Word() == Step5(old(Word()))
    {
      j := k;
      Step5aInPlace();
      LastLetter(Word(), 'l');
      if b[k] == 'l' {
        var double := DoubleC();
        var m := M();
        if double && m > 1 {
          k := k - 1;
        }
      }
    }

    method Step1InPlace()
      requires Valid() && k >= 2
      modifies this, b
      ensures Valid() && k <= old(k) && Word() == Step1(old(Word()))
      ensures forall i :: old(k) < i < b.Length ==> b[i] == old(b[i])
    {
      Step1aInPlace();
      Step1bInPlace();
      Step1cInPlace();
    }

    method Steps2To4(before: char)
      requires Valid()
      modifies this, b
      ensures Valid() && k <= old(k) && Word() == Step4(Step3(Step2(old(Word()))))
      ensures forall i :: old(k) < i < b.Length ==> b[i] == old(b[i])
    {
      Step2InPlace(before);
      Step3InPlace(before);
      Step4InPlace(before);
    }

    // All steps.  The byte before the buffer, if one is read, makes no difference.
    method Steps(before: char, ghost w: string)
      requires Valid() && w == Word() && k >= 2
      modifies this, b
      ensures Valid() && k <= old(k) && IsStem(Word(), w)
      ensures forall i :: old(k) < i < b.Length ==> b[i] == old(b[i])
    {
      Step1InPlace();
      Steps2To4(before);
      Step5InPlace();
    }
  }

  lemma LastLetter(w: string, c: char)
    requires w != ""
    ensures EndsWith(w, [c]) <==> w[|w| - 1] == c
  {
    assert w[|w| - 1..] == [w[|w| - 1]];
  }

  // Stems the word that ends at k and returns the new end; nothing after k is written.
  method Stem(b: array<char>, k: int, before: char) returns (end: int)
    requires -1 <= k < b.Length
    modifies b
    ensures -1 <= end <= k && (k >= 0 ==> end >= 0)
    ensures IsStem(b[..end + 1], old(b[..k + 1]))
    ensures forall i :: k < i < b.Length ==> b[i] == old(b[i])
  {
    ghost var w := b[..k + 1];
    if k <= 1 {
      ShortIsStem(w);
      return k;
    }
    var z := new Stemmer(b, k);
    z.Steps(before, w);
    end := z.k;
  }

  // What stemming promises of a result.
  ghost predicate IsStem(r: string, w: string) {
    r == Stemmed(w)
  }

  lemma ShortIsStem(w: string)
    requires |w| <= 2
    ensures IsStem(w, w)
  {
  }

  method StemTerm(term: string, before: char) returns (r: string)
    ensures r == Stemmed(term)
  {
    if term == "" {
      return term;
    }
    var buffer := new char[|term|](i requires 0 <= i < |term| => term[i]);
    assert buffer[..|term|] == term;
    var end := Stem(buffer, |term| - 1, before);
    r := buffer[..end + 1];
    assert IsStem(r, term);
  }

  lemma EAppended(w: string, s: string)
    requires EndsWith(w, s)
    ensures Drop(w, |s|) + (s + "e") == w + "e"
  {
    assert w == Drop(w, |s|) + s;
  }

  lemma RuleTaken(w: string, rules: seq<Rule>, i: nat, least: nat)
    requires Usable(rules) && i < |rules| && EndsWith(w, rules[i].suffix)
    requires Matches(w, rules[i]) || |w| == |rules[i].suffix|
    ensures Rewritten(w, rules[i..], least) == Replaced(w, rules[i].suffix, rules[i].replacement, least)
  {
    var r := rules[i];
    if !Matches(w, r) {
      assert w == r.suffix && r.after != "";
      assert forall j :: i < j < |rules| ==> !Matches(w, rules[j]);
      assert Measure(Drop(w, |r.suffix|)) == 0;
    }
  }

  lemma RuleMissed(w: string, rules: seq<Rule>, i: nat, least: nat)
    requires i < |rules| && !Matches(w, rules[i])
    ensures Rewritten(w, rules[i..], least) == Rewritten(w, rules[i + 1..], least)
  {
    assert rules[i..][1..] == rules[i + 1..];
  }

  lemma LastDiffers(w: string, s: string)
    requires w != "" && s != "" && w[|w| - 1] != s[|s| - 1]
    ensures !EndsWith(w, s)
  {
    assert |s| <= |w| ==> w[|w| - |s|..][|s| - 1] == w[|w| - 1];
  }
}
