/**
 The rules of the stemmer as published: Porter, "An algorithm for suffix stripping", with the
 departures the library marks.
 */
module PorterPublished {
  import opened Wrappers
  import opened Porter

  // ---- Letters and endings ----

  // A consonant is a letter other than a, e, i, o and u, and other than y after a consonant.
  lemma ConsonantsAre(w: string, i: nat)
    requires i < |w|
    ensures Cons(w, i) <==> w[i] !in {'a', 'e', 'i', 'o', 'u'} && !(w[i] == 'y' && i > 0 && Cons(w, i - 1))
  {
  }

  // A word has a vowel if any letter, from the first to the last, is one.
  lemma VowelAnywhere(s: string, c: char, t: string)
    requires c in {'a', 'e', 'i', 'o', 'u'}
    ensures HasVowel(s + [c] + t)
  {
    assert (s + [c] + t)[|s|] == c;
    assert !Cons(s + [c] + t, |s|);
  }

  lemma NoVowels(w: string)
    requires forall i :: 0 <= i < |w| ==> Cons(w, i)
    ensures !HasVowel(w)
  {
  }

  ghost predicate EndsIn(w: string, letters: set<char>) {
    w != "" && w[|w| - 1] in letters
  }

  lemma ShortEnding(s: string, a: string, e: string)
    requires |e| <= |a|
    ensures EndsWith(s + a, e) <==> EndsWith(a, e)
  {
    assert (s + a)[|s + a| - |e|..] == a[|a| - |e|..];
  }

  lemma LongEnding(s: string, a: string, b: string)
    ensures EndsWith(s + a, b + a) <==> EndsWith(s, b)
  {
    if |b| <= |s| {
      assert (s + a)[|s| - |b|..] == s[|s| - |b|..] + a;
      assert s[|s| - |b|..] + a == b + a ==> (s[|s| - |b|..] + a)[..|b|] == (b + a)[..|b|];
      assert (s[|s| - |b|..] + a)[..|b|] == s[|s| - |b|..] && (b + a)[..|b|] == b;
    }
  }

  lemma Dropped(s: string, a: string, b: string)
    ensures Drop(s + (a + b), |b|) == s + a && Drop(s + b, |b|) == s
  {
  }

  // ---- Step 1a ----

  lemma SsesToSs(s: string)
    ensures Step1a(s + "sses") == s + "ss"
  {
    ShortEnding(s, "sses", "sses");
    Dropped(s, "ss", "es");
    assert "ss" + "es" == "sses";
  }

  lemma IesToI(s: string)
    ensures Step1a(s + "ies") == s + "i"
  {
    LongEnding(s + "i", "es", "ss");
    assert s + "i" + "es" == s + "ies" && "ss" + "es" == "sses";
    ShortEnding(s, "ies", "ies");
    Dropped(s, "", "ies");
  }

  lemma SsStays(s: string)
    ensures Step1a(s + "ss") == s + "ss"
  {
    LongEnding(s + "s", "s", "sse");
    LongEnding(s + "s", "s", "ie");
    assert s + "s" + "s" == s + "ss" && "sse" + "s" == "sses" && "ie" + "s" == "ies";
    assert (s + "s")[|s|] == 's' && (s + "ss")[|s|] == 's';
  }

  lemma SGoes(s: string)
    requires s != "" && !EndsIn(s, {'s'}) && !EndsWith(s, "sse") && !EndsWith(s, "ie")
    ensures Step1a(s + "s") == s
  {
    LongEnding(s, "s", "sse");
    LongEnding(s, "s", "ie");
    assert "sse" + "s" == "sses" && "ie" + "s" == "ies";
    Dropped(s, "", "s");
  }

  lemma WithoutSStays(s: string)
    requires !EndsIn(s, {'s'})
    ensures Step1a(s) == s
  {
  }

  // ---- Step 1b ----

  lemma EedToEe(s: string)
    ensures Step1b(s + "eed") == if Measure(s) > 0 then s + "ee" else s + "eed"
  {
    ShortEnding(s, "eed", "eed");
    Dropped(s, "", "eed");
    Dropped(s, "ee", "d");
    assert "ee" + "d" == "eed";
  }

  lemma EdGoes(s: string)
    requires !EndsIn(s, {'e'})
    ensures Step1b(s + "ed") == if HasVowel(s) then Restored(s) else s + "ed"
  {
    LongEnding(s, "ed", "e");
    assert "e" + "ed" == "eed";
    ShortEnding(s, "ed", "ed");
    Dropped(s, "", "ed");
  }

  lemma IngGoes(s: string)
    ensures Step1b(s + "ing") == if HasVowel(s) then Restored(s) else s + "ing"
  {
    ShortEnding(s, "ing", "eed");
    ShortEnding(s, "ing", "ed");
    ShortEnding(s, "ing", "ing");
    Dropped(s, "", "ing");
  }

  lemma NeitherStays(w: string)
    requires !EndsWith(w, "ed") && !EndsWith(w, "ing")
    ensures Step1b(w) == w
  {
  }

  // What is left gets its e back, or loses one of two consonants.
  lemma EIsRestored(s: string)
    ensures Restored(s + "at") == s + "ate" && Restored(s + "bl") == s + "ble" && Restored(s + "iz") == s + "ize"
  {
    ShortEnding(s, "at", "at");
    ShortEnding(s, "bl", "bl");
    ShortEnding(s, "iz", "iz");
    assert s + "at" + "e" == s + "ate" && s + "bl" + "e" == s + "ble" && s + "iz" + "e" == s + "ize";
  }

  ghost predicate NeedsE(w: string) {
    EndsWith(w, "at") || EndsWith(w, "bl") || EndsWith(w, "iz")
  }

  lemma SameTwoEnd(w: string)
    requires |w| >= 2 && w[|w| - 1] == w[|w| - 2]
    ensures !NeedsE(w)
  {
    var e := w[|w| - 2..];
    assert e[0] == e[1];
  }

  lemma DoubleRestored(w: string)
    requires DoubleCons(w)
    ensures Restored(w) == if EndsIn(w, {'l', 's', 'z'}) then w else Drop(w, 1)
  {
    SameTwoEnd(w);
  }

  lemma DoublesAreHalved(s: string, c: char)
    requires Cons(s + [c, c], |s| + 1)
    ensures Restored(s + [c, c]) == if c in {'l', 's', 'z'} then s + [c, c] else s + [c]
  {
    var w := s + [c, c];
    assert Drop(w, 1) == s + [c];
    DoubleRestored(w);
  }

  // Consonant, vowel, consonant at the end, the last one not w, x or y.
  ghost predicate IsShort(w: string) {
    var n := |w|;
    && n >= 3 && Cons(w, n - 3) && !Cons(w, n - 2) && Cons(w, n - 1)
    && w[n - 1] !in {'w', 'x', 'y'}
  }

  lemma ShortIsCvc(w: string)
    ensures IsShort(w) <==> Cvc(w, |w|)
  {
  }

  lemma DoubleIs(w: string)
    ensures DoubleCons(w) <==> |w| >= 2 && w[|w| - 1] == w[|w| - 2] && Cons(w, |w| - 1)
  {
  }

  lemma ShortGetsE(w: string)
    requires !NeedsE(w) && !DoubleCons(w)
    ensures Restored(w) == if Measure(w) == 1 && IsShort(w) then w + "e" else w
  {
    ShortIsCvc(w);
  }

  // ---- Step 1c ----

  lemma YToI(s: string)
    ensures Step1c(s + "y") == if HasVowel(s) then s + "i" else s + "y"
    ensures !EndsIn(s, {'y'}) ==> Step1c(s) == s
  {
    ShortEnding(s, "y", "y");
    Dropped(s, "", "y");
  }

  // ---- Step 5 ----

  lemma MeasureBeforeVowel(s: string)
    ensures Measure(s + "e") == Measure(s)
  {
    var w := s + "e";
    assert w[..|s|] == s;
    TransitionsPrefix(w, |s|, |s|);
  }

  lemma FinalE(s: string)
    ensures Step5a(s + "e") == if Measure(s) > 1 || (Measure(s) == 1 && !IsShort(s)) then s else s + "e"
    ensures !EndsIn(s, {'e'}) ==> Step5a(s) == s
  {
    var w := s + "e";
    ShortEnding(s, "e", "e");
    Dropped(s, "", "e");
    MeasureBeforeVowel(s);
    assert w[..|s|] == s;
    if |s| >= 3 {
      ConsPrefix(w, |s|, |s| - 1);
      ConsPrefix(w, |s|, |s| - 2);
      ConsPrefix(w, |s|, |s| - 3);
    }
  }

  // The measure is that of the word before the step.
  lemma FinalLl(w: string, s: string)
    ensures Step5a(w) == s + "ll" ==> Step5(w) == if Measure(w) > 1 then s + "l" else s + "ll"
    ensures !EndsWith(Step5a(w), "ll") ==> Step5(w) == Step5a(w)
  {
    var v := Step5a(w);
    if v == s + "ll" {
      ShortEnding(s, "ll", "l");
      Dropped(s, "l", "l");
      assert "l" + "l" == "ll";
      assert v[|s| + 1] == 'l';
    }
    if EndsWith(v, "l") && DoubleCons(v) {
      assert v[|v| - 2..] == "ll";
    }
  }

  // ---- Steps 2, 3 and 4 ----

  // Of the rules that match, x has the longest suffix.
  ghost predicate IsLongest(w: string, rules: seq<Rule>, x: Rule) {
    x in rules && Matches(w, x) && forall y :: y in rules && Matches(w, y) ==> |y.suffix| <= |x.suffix|
  }

  lemma SameSuffixSameRule(rules: seq<Rule>, x: Rule, y: Rule)
    requires LongestFirst(rules) && x in rules && y in rules && x.suffix == y.suffix
    ensures x == y
  {
    var i :| 0 <= i < |rules| && rules[i] == x;
    var j :| 0 <= j < |rules| && rules[j] == y;
    assert EndsWith(x.suffix, y.suffix) && EndsWith(y.suffix, x.suffix);
  }

  lemma LongestIsFirst(w: string, groups: seq<Group>, at: nat, x: Rule)
    requires at > 0 && GoodGroups(groups, at) && AllLongestFirst(groups) && IsLongest(w, AllRules(groups), x)
    ensures FirstMatch(w, AllRules(groups)) == Some(x)
  {
    LongestMatch(w, groups, at, x);
    var y := FirstMatch(w, AllRules(groups)).value;
    MatchIsInCase(w, groups, at, x);
    MatchIsInCase(w, groups, at, y);
    CasesLongestFirst(groups, w[|w| - at]);
    SameSuffixSameRule(Cases(groups, w[|w| - at]), x, y);
  }

  lemma NothingMatches(w: string, rules: seq<Rule>)
    requires forall x :: x in rules ==> !Matches(w, x)
    ensures FirstMatch(w, rules) == None
  {
  }

  // The rule with the longest suffix replaces it if the measure of what comes before is more than
  // the given number; without any the word stays.
  ghost predicate Applies(w: string, rules: seq<Rule>, least: nat, r: string) {
    && (forall x :: IsLongest(w, rules, x) ==>
          r == if Measure(Drop(w, |x.suffix|)) > least then Drop(w, |x.suffix|) + x.replacement else w)
    && ((forall x :: x in rules ==> !Matches(w, x)) ==> r == w)
  }

  lemma RewrittenApplies(w: string, groups: seq<Group>, at: nat, least: nat)
    requires at > 0 && GoodGroups(groups, at) && AllLongestFirst(groups)
    ensures Applies(w, AllRules(groups), least, Rewritten(w, AllRules(groups), least))
  {
    forall x | IsLongest(w, AllRules(groups), x)
      ensures FirstMatch(w, AllRules(groups)) == Some(x)
    {
      LongestIsFirst(w, groups, at, x);
    }
    if forall x :: x in AllRules(groups) ==> !Matches(w, x) {
      NothingMatches(w, AllRules(groups));
    }
  }

  // The suffixes of step 2 by the letter before the last: a, c, e and l, then o, s, t and g.  The
  // suffixes bli and logi are departures.
  function Published2(): (rules: seq<Rule>) {
    Published2First() + Published2Last()
  }

  function Published2First(): (rules: seq<Rule>) {
    [ R("ational", "ate"), R("tional", "tion"), R("enci", "ence"), R("anci", "ance"), R("izer", "ize"),
      R("bli", "ble"), R("alli", "al"), R("entli", "ent"), R("eli", "e"), R("ousli", "ous") ]
  }

  function Published2Last(): (rules: seq<Rule>) {
    [ R("ization", "ize"), R("ation", "ate"), R("ator", "ate"), R("alism", "al"), R("iveness", "ive"),
      R("fulness", "ful"), R("ousness", "ous"), R("aliti", "al"), R("iviti", "ive"), R("biliti", "ble"),
      R("logi", "log") ]
  }

  function Published3(): (rules: seq<Rule>) {
    [ R("icate", "ic"), R("ative", ""), R("alize", "al"), R("iciti", "ic"), R("ical", "ic"), R("ful", ""),
      R("ness", "") ]
  }

  // The suffix ion goes after s or t only.
  function Published4(): (rules: seq<Rule>) {
    Published4First() + Published4Last()
  }

  function Published4First(): (rules: seq<Rule>) {
    [ R("al", ""), R("ance", ""), R("ence", ""), R("er", ""), R("ic", ""), R("able", ""), R("ible", ""), R("ant", ""),
      R("ement", ""), R("ment", ""), R("ent", "") ]
  }

  function Published4Last(): (rules: seq<Rule>) {
    [ Rule("ion", "", "st"), R("ou", ""), R("ism", ""), R("ate", ""), R("iti", ""), R("ous", ""), R("ive", ""),
      R("ize", "") ]
  }

  lemma {:induction false} FlatAppend(a: seq<Group>, b: seq<Group>)
    ensures AllRules(a + b) == AllRules(a) + AllRules(b)
  {
    if a == [] {
      assert a + b == b;
    } else {
      assert (a + b)[1..] == a[1..] + b;
      FlatAppend(a[1..], b);
    }
  }

  lemma FlatTwo(a: Group, b: Group)
    ensures AllRules([a, b]) == a.rules + b.rules
  {
    assert [a, b][1..] == [b] && [b][1..] == [];
    assert AllRules([b]) == b.rules + AllRules([]) == b.rules;
  }

  lemma FlatFour(a: Group, b: Group, c: Group, d: Group)
    ensures AllRules([a, b, c, d]) == a.rules + b.rules + (c.rules + d.rules)
  {
    assert [a, b, c, d] == [a, b] + [c, d];
    FlatAppend([a, b], [c, d]);
    FlatTwo(a, b);
    FlatTwo(c, d);
  }

  lemma Table3IsPublished()
    ensures AllRules(Table3()) == Published3()
  {
    var t := Table3();
    FlatFour(t[0], t[1], t[2], t[3]);
    assert t == [t[0], t[1], t[2], t[3]];
  }

  lemma FourGroups(t: seq<Group>, a: Group, b: Group, c: Group, d: Group)
    requires |t| == 4 && t[0] == a && t[1] == b && t[2] == c && t[3] == d
    ensures AllRules(t) == a.rules + b.rules + (c.rules + d.rules)
  {
    assert t == [a, b, c, d];
    FlatFour(a, b, c, d);
  }

  // The rules of the first four groups, and of the other ones.
  lemma FirstFour(t: seq<Group>)
    requires |t| >= 4
    ensures AllRules(t) == t[0].rules + t[1].rules + (t[2].rules + t[3].rules) + AllRules(t[4..])
  {
    var first, rest := t[..4], t[4..];
    assert t == first + rest;
    FlatAppend(first, rest);
    FourGroups(first, t[0], t[1], t[2], t[3]);
  }

  lemma Rules2First()
    ensures var t := Table2(); t[0].rules + t[1].rules + (t[2].rules + t[3].rules) == Published2First()
  {
  }

  lemma Rules2Last()
    ensures var t := Table2(); t[4].rules + t[5].rules + (t[6].rules + t[7].rules) == Published2Last()
  {
  }

  lemma Table2IsPublished()
    ensures AllRules(Table2()) == Published2()
  {
    var t := Table2();
    FirstFour(t);
    FlatFour(t[4], t[5], t[6], t[7]);
    assert t[4..] == [t[4], t[5], t[6], t[7]];
    Rules2First();
    Rules2Last();
  }

  lemma SixGroups(t: seq<Group>)
    requires |t| == 6
    ensures AllRules(t) == t[0].rules + t[1].rules + (t[2].rules + t[3].rules) + (t[4].rules + t[5].rules)
  {
    FirstFour(t);
    FlatTwo(t[4], t[5]);
    assert t[4..] == [t[4], t[5]];
  }

  lemma Table4FirstIsPublished()
    ensures AllRules(Table4First()) == Published4First()
  {
    SixGroups(Table4First());
  }

  lemma Table4LastIsPublished()
    ensures AllRules(Table4Last()) == Published4Last()
  {
    SixGroups(Table4Last());
  }

  lemma Table4IsPublished()
    ensures AllRules(Table4()) == Published4()
  {
    FlatAppend(Table4First(), Table4Last());
    Table4FirstIsPublished();
    Table4LastIsPublished();
  }

  lemma Step2IsPublished(w: string)
    ensures Applies(w, Published2(), 0, Step2(w))
  {
    Table2IsGood();
    Table2LongestFirst();
    RewrittenApplies(w, Table2(), 2, 0);
    Table2IsPublished();
  }

  lemma Step3IsPublished(w: string)
    ensures Applies(w, Published3(), 0, Step3(w))
  {
    Table3IsGood();
    Table3LongestFirst();
    RewrittenApplies(w, Table3(), 1, 0);
    Table3IsPublished();
  }

  lemma Step4IsPublished(w: string)
    ensures Applies(w, Published4(), 1, Step4(w))
  {
    Table4IsGood();
    Table4LongestFirst();
    RewrittenApplies(w, Table4(), 2, 1);
    Table4IsPublished();
  }

  // One pair of step 2, where no longer suffix matches.
  lemma PairApplies(s: string, rules: seq<Rule>, x: Rule, least: nat, r: string)
    requires Applies(s + x.suffix, rules, least, r) && IsLongest(s + x.suffix, rules, x)
    ensures r == if Measure(s) > least then s + x.replacement else s + x.suffix
  {
    Dropped(s, "", x.suffix);
  }

  lemma SuffixesUpTo(s: string, rules: seq<Rule>, x: Rule, most: nat)
    requires x in rules && x.after == "" && |x.suffix| == most
    requires forall i :: 0 <= i < |rules| ==> |rules[i].suffix| <= most
    ensures IsLongest(s + x.suffix, rules, x)
  {
    ShortEnding(s, x.suffix, x.suffix);
  }

  // ---- All steps, on one kind of word ----

  lemma Lengths2()
    ensures forall i :: 0 <= i < |Published2()| ==> |Published2()[i].suffix| <= 7
    ensures R("ization", "ize") in Published2()
  {
    assert Published2()[10] == R("ization", "ize");
  }

  lemma IzationToIze(s: string)
    requires Measure(s) > 0
    ensures Step2(s + "ization") == s + "ize"
  {
    var x := R("ization", "ize");
    Lengths2();
    SuffixesUpTo(s, Published2(), x, 7);
    Step2IsPublished(s + "ization");
    PairApplies(s, Published2(), x, 0, Step2(s + "ization"));
  }

  lemma AlizeToAl(s: string)
    requires Measure(s) > 0
    ensures Step3(s + "alize") == s + "al"
  {
    var x := R("alize", "al");
    assert Published3()[2] == x;
    SuffixesUpTo(s, Published3(), x, 5);
    Step3IsPublished(s + "alize");
    PairApplies(s, Published3(), x, 0, Step3(s + "alize"));
  }

  lemma AlGoes(s: string)
    requires Measure(s) > 1
    ensures Step4(s + "al") == s
  {
    var w, x, t := s + "al", R("al", ""), Table4();
    Table4IsGood();
    Table4IsPublished();
    assert Published4()[0] == x;
    ShortEnding(s, "al", "al");
    forall y | y in Published4() && Matches(w, y)
      ensures |y.suffix| <= 2
    {
      MatchIsInCase(w, t, 2, y);
      assert t[0] == Group('a', [x]);
    }
    Step4IsPublished(w);
    PairApplies(s, Published4(), x, 1, Step4(w));
    assert s + "" == s;
  }

  lemma PluralOfN(b: string)
    requires EndsIn(b, {'n'})
    ensures Step1(b + "s") == b
  {
    SGoes(b);
    NeitherStays(b);
    YToI(b);
  }

  lemma FinalR(s: string)
    requires EndsIn(s, {'r'})
    ensures Step5(s) == s
  {
    FinalE(s);
    FinalLl(s, s);
  }

  lemma SameWord(s: string, a: string)
    requires a == s + "al"
    ensures a + "ize" == s + "alize"
  {
  }

  lemma ThenStep3(b: string, c: string, a: string)
    requires Step2(b) == c && Step3(c) == a
    ensures Step3(Step2(b)) == a
  {
  }

  lemma IzationAndAlize(s: string, a: string)
    requires Measure(s) > 0 && a == s + "al" && Measure(a) > 0
    ensures Step3(Step2(a + "ization")) == a
  {
    IzationToIze(a);
    SameWord(s, a);
    AlizeToAl(s);
    ThenStep3(a + "ization", a + "ize", a);
  }

  lemma AlAndNothing(s: string)
    requires EndsIn(s, {'r'}) && Measure(s) > 1
    ensures Step5(Step4(s + "al")) == s
  {
    AlGoes(s);
    FinalR(s);
  }

  lemma AllSteps(w: string, b: string, a: string, r: string)
    requires |w| > 2 && Step1(w) == b && Step3(Step2(b)) == a && Step5(Step4(a)) == r
    ensures Stemmed(w) == r
  {
  }

  // As in generalizations: -s, -ization, -alize and -al go one after the other.
  lemma SuffixesGoInOrder(s: string, a: string, b: string, w: string)
    requires EndsIn(s, {'r'}) && Measure(s) > 1
    requires a == s + "al" && Measure(a) > 0 && b == a + "ization" && w == b + "s"
    ensures Stemmed(w) == s
  {
    PluralOfN(b);
    IzationAndAlize(s, a);
    AlAndNothing(s);
    AllSteps(w, b, a, s);
  }
}
