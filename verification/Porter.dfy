/**
 The Porter stemmer, as functions from words to words.
 */
module Porter {
  import opened Sequences
  import opened Wrappers

  // ---- Letters ----

  predicate IsVowelLetter(c: char) {
    c == 'a' || c == 'e' || c == 'i' || c == 'o' || c == 'u'
  }

  // A y is a consonant at the beginning and after a vowel.
  predicate Cons(w: string, i: nat)
    requires i < |w|
  {
    if IsVowelLetter(w[i]) then false
    else if w[i] == 'y' then i == 0 || !Cons(w, i - 1)
    else true
  }

  lemma {:induction false} ConsPrefix(w: string, n: nat, i: nat)
    requires i < n <= |w|
    ensures Cons(w[..n], i) == Cons(w, i)
  {
    if w[i] == 'y' && i > 0 {
      ConsPrefix(w, n, i - 1);
    }
  }

  predicate TurnsAt(w: string, i: nat)
    requires 0 < i < |w|
  {
    !Cons(w, i - 1) && Cons(w, i)
  }

  // The positions below n at which a vowel sequence gives way to a consonant sequence.
  function Transitions(w: string, n: nat): (m: nat)
    requires n <= |w|
  {
    if n <= 1 then 0
    else Transitions(w, n - 1) + if TurnsAt(w, n - 1) then 1 else 0
  }

  // The measure m of a word of the form [C](VC)^m[V].
  function Measure(w: string): (m: nat) {
    Transitions(w, |w|)
  }

  ghost function TransitionSet(w: string, n: nat): (r: set<nat>)
    requires n <= |w|
  {
    set i: nat | 0 < i < n && TurnsAt(w, i)
  }

  lemma {:induction false} TransitionsCount(w: string, n: nat)
    requires n <= |w|
    ensures Transitions(w, n) == |TransitionSet(w, n)|
  {
    if n <= 1 {
      assert TransitionSet(w, n) == {};
    } else {
      TransitionsCount(w, n - 1);
      assert TransitionSet(w, n) == TransitionSet(w, n - 1) + if TurnsAt(w, n - 1) then {n - 1} else {};
    }
  }

  lemma {:induction false} TransitionsPrefix(w: string, k: nat, n: nat)
    requires n <= k <= |w|
    ensures Transitions(w[..k], n) == Transitions(w, n)
  {
    if n > 1 {
      TransitionsPrefix(w, k, n - 1);
      ConsPrefix(w, k, n - 2);
      ConsPrefix(w, k, n - 1);
    }
  }

  predicate HasVowel(w: string) {
    exists i :: 0 <= i < |w| && !Cons(w, i)
  }

  lemma NoVowelBefore(w: string, n: nat)
    requires n <= |w| && forall x :: 0 <= x < n ==> Cons(w, x)
    ensures !HasVowel(w[..n])
  {
    forall x | 0 <= x < |w[..n]|
      ensures Cons(w[..n], x)
    {
      ConsPrefix(w, n, x);
    }
  }

  predicate DoubleCons(w: string) {
    |w| >= 2 && w[|w| - 1] == w[|w| - 2] && Cons(w, |w| - 1)
  }

  // Consonant, vowel, consonant before position n, the last one not w, x or y.
  predicate Cvc(w: string, n: nat)
    requires n <= |w|
  {
    && n >= 3 && Cons(w, n - 1) && !Cons(w, n - 2) && Cons(w, n - 3)
    && w[n - 1] != 'w' && w[n - 1] != 'x' && w[n - 1] != 'y'
  }

  // ---- Suffixes ----

  predicate EndsWith(w: string, s: string) {
    |s| <= |w| && w[|w| - |s|..] == s
  }

  function Drop(w: string, n: nat): (r: string)
    requires n <= |w|
  {
    w[..|w| - n]
  }

  // Replaces a suffix; a rule may ask for the letter before it.
  datatype Rule = Rule(suffix: string, replacement: string, after: string)

  predicate Matches(w: string, r: Rule) {
    EndsWith(w, r.suffix) &&
    (r.after == "" || (|w| > |r.suffix| && w[|w| - |r.suffix| - 1] in r.after))
  }

  function FirstMatch(w: string, rules: seq<Rule>): (r: Option<Rule>)
    ensures r.Some? ==> r.value in rules && Matches(w, r.value)
    ensures r.None? ==> forall x :: x in rules ==> !Matches(w, x)
  {
    if rules == [] then None
    else if Matches(w, rules[0]) then Some(rules[0])
    else FirstMatch(w, rules[1..])
  }

  // A suffix is replaced if the measure of the stem is more than least.
  function Replaced(w: string, suffix: string, replacement: string, least: nat): (r: string)
    requires EndsWith(w, suffix)
  {
    if Measure(Drop(w, |suffix|)) > least then Drop(w, |suffix|) + replacement else w
  }

  // The first rule that matches is applied if the measure of the stem is more than least.
  function Rewritten(w: string, rules: seq<Rule>, least: nat): (r: string) {
    match FirstMatch(w, rules)
    case None => w
    case Some(rule) =>
      Replaced(w, rule.suffix, rule.replacement, least)
  }

  // ---- Tables by letter ----

  // Rules under the letter they have at a distance from their end.
  datatype Group = Group(letter: char, rules: seq<Rule>)

  function AllRules(groups: seq<Group>): (r: seq<Rule>) {
    if groups == [] then [] else groups[0].rules + AllRules(groups[1..])
  }

  // The rules a switch on the letter tries.
  function Cases(groups: seq<Group>, letter: char): (r: seq<Rule>) {
    if groups == [] then []
    else if groups[0].letter == letter then groups[0].rules
    else Cases(groups[1..], letter)
  }

  // Every rule of a group has the group's letter and does not lengthen the word.
  ghost predicate GoodRule(r: Rule, letter: char, at: nat) {
    0 < at <= |r.suffix| && r.suffix[|r.suffix| - at] == letter && |r.replacement| <= |r.suffix|
  }

  ghost predicate GoodRules(rules: seq<Rule>, letter: char, at: nat) {
    forall i :: 0 <= i < |rules| ==> GoodRule(rules[i], letter, at)
  }

  // No two groups have the same letter.
  ghost predicate GoodGroups(groups: seq<Group>, at: nat) {
    AllGoodRules(groups, at) && DistinctLetters(groups)
  }

  ghost predicate AllGoodRules(groups: seq<Group>, at: nat) {
    forall i :: 0 <= i < |groups| ==> GoodRules(groups[i].rules, groups[i].letter, at)
  }

  ghost predicate DistinctLetters(groups: seq<Group>) {
    forall i, j :: 0 <= i < j < |groups| ==> groups[i].letter != groups[j].letter
  }

  lemma MatchHasLetter(w: string, r: Rule, letter: char, at: nat)
    requires GoodRule(r, letter, at) && Matches(w, r)
    ensures |w| >= at && w[|w| - at] == letter
  {
    assert w[|w| - |r.suffix|..][|r.suffix| - at] == r.suffix[|r.suffix| - at];
  }

  lemma NoMatch(w: string, rules: seq<Rule>, letter: char, at: nat)
    requires at > 0 && GoodRules(rules, letter, at) && (|w| < at || w[|w| - at] != letter)
    ensures forall r :: r in rules ==> !Matches(w, r)
  {
    forall r | r in rules
      ensures !Matches(w, r)
    {
      if Matches(w, r) {
        MatchHasLetter(w, r, letter, at);
      }
    }
  }

  lemma {:induction false} FirstOfTwo(w: string, a: seq<Rule>, b: seq<Rule>)
    ensures FirstMatch(w, a + b) == if FirstMatch(w, a).Some? then FirstMatch(w, a) else FirstMatch(w, b)
  {
    if a == [] {
      assert a + b == b;
    } else {
      assert (a + b)[1..] == a[1..] + b;
      FirstOfTwo(w, a[1..], b);
    }
  }

  lemma {:induction false} NoMatchInGroups(w: string, groups: seq<Group>, at: nat)
    requires at > 0 && GoodGroups(groups, at)
    requires forall i :: 0 <= i < |groups| ==> |w| < at || w[|w| - at] != groups[i].letter
    ensures FirstMatch(w, AllRules(groups)) == None
  {
    if groups != [] {
      NoMatch(w, groups[0].rules, groups[0].letter, at);
      NoMatchInGroups(w, groups[1..], at);
      FirstOfTwo(w, groups[0].rules, AllRules(groups[1..]));
    }
  }

  // Switching on a letter finds the rule that a scan of the whole table finds.
  lemma {:induction false} SwitchIsScan(w: string, groups: seq<Group>, at: nat)
    requires GoodGroups(groups, at) && 0 < at <= |w|
    ensures FirstMatch(w, Cases(groups, w[|w| - at])) == FirstMatch(w, AllRules(groups))
  {
    if groups != [] {
      FirstOfTwo(w, groups[0].rules, AllRules(groups[1..]));
      if groups[0].letter == w[|w| - at] {
        NoMatchInGroups(w, groups[1..], at);
      } else {
        NoMatch(w, groups[0].rules, groups[0].letter, at);
        SwitchIsScan(w, groups[1..], at);
      }
    }
  }

  // Rules with a condition on the letter before come before no rule that their own suffix
  // ends with; so it does not matter what is read before the first letter of a word.
  ghost predicate Usable(rules: seq<Rule>) {
    && (forall i :: 0 <= i < |rules| ==> rules[i].suffix != "" && |rules[i].replacement| <= |rules[i].suffix|)
    && (forall i, j :: 0 <= i < j < |rules| && rules[i].after != "" ==> !EndsWith(rules[i].suffix, rules[j].suffix))
  }

  // ---- The tables ----

  // No suffix in a group ends with an earlier one of the group.
  ghost predicate LongestFirst(rules: seq<Rule>) {
    forall i, j :: 0 <= i < j < |rules| ==> !EndsWith(rules[j].suffix, rules[i].suffix)
  }

  function R(suffix: string, replacement: string): (r: Rule) {
    Rule(suffix, replacement, "")
  }

  function Rules2L(): (r: seq<Rule>) {
    [R("bli", "ble"), R("alli", "al"), R("entli", "ent"), R("eli", "e"), R("ousli", "ous")]
  }

  function Rules2S(): (r: seq<Rule>) {
    [R("alism", "al"), R("iveness", "ive"), R("fulness", "ful"), R("ousness", "ous")]
  }

  // By the letter before the last.
  function Table2(): (r: seq<Group>) {
    [ Group('a', [R("ational", "ate"), R("tional", "tion")]),
      Group('c', [R("enci", "ence"), R("anci", "ance")]),
      Group('e', [R("izer", "ize")]),
      Group('l', Rules2L()),
      Group('o', [R("ization", "ize"), R("ation", "ate"), R("ator", "ate")]),
      Group('s', Rules2S()),
      Group('t', [R("aliti", "al"), R("iviti", "ive"), R("biliti", "ble")]),
      Group('g', [R("logi", "log")]) ]
  }

  // By the last letter.
  function Table3(): (r: seq<Group>) {
    [ Group('e', [R("icate", "ic"), R("ative", ""), R("alize", "al")]),
      Group('i', [R("iciti", "ic")]),
      Group('l', [R("ical", "ic"), R("ful", "")]),
      Group('s', [R("ness", "")]) ]
  }

  function Rules4N(): (r: seq<Rule>) {
    [R("ant", ""), R("ement", ""), R("ment", ""), R("ent", "")]
  }

  function Rules4O(): (r: seq<Rule>) {
    [Rule("ion", "", "st"), R("ou", "")]
  }

  // By the letter before the last.
  function Table4(): (r: seq<Group>) {
    Table4First() + Table4Last()
  }

  function Table4First(): (r: seq<Group>) {
    [ Group('a', [R("al", "")]),
      Group('c', [R("ance", ""), R("ence", "")]),
      Group('e', [R("er", "")]),
      Group('i', [R("ic", "")]),
      Group('l', [R("able", ""), R("ible", "")]),
      Group('n', Rules4N()) ]
  }

  function Table4Last(): (r: seq<Group>) {
    [ Group('o', Rules4O()),
      Group('s', [R("ism", "")]),
      Group('t', [R("ate", ""), R("iti", "")]),
      Group('u', [R("ous", "")]),
      Group('v', [R("ive", "")]),
      Group('z', [R("ize", "")]) ]
  }

  // The larger groups and tables.  Comparing with true keeps the verifier from taking a predicate
  // apart.
  lemma Rules2LAreGood()
    ensures GoodRules(Rules2L(), 'l', 2)
  {
  }

  lemma Rules2SAreGood()
    ensures GoodRules(Rules2S(), 's', 2)
  {
  }

  lemma Table2Letters()
    ensures DistinctLetters(Table2()) == true
  {
  }

  lemma Table2IsGood()
    ensures GoodGroups(Table2(), 2)
  {
    Rules2LAreGood();
    Rules2SAreGood();
    Table2Letters();
  }

  lemma Table3IsGood()
    ensures GoodGroups(Table3(), 1)
  {
  }

  lemma Table4Letters()
    ensures DistinctLetters(Table4())
  {
  }

  lemma Rules4NAreGood()
    ensures GoodRules(Rules4N(), 'n', 2)
  {
  }

  lemma Table4FirstIsGood()
    ensures AllGoodRules(Table4First(), 2)
  {
    Rules4NAreGood();
  }

  lemma Table4LastIsGood()
    ensures AllGoodRules(Table4Last(), 2)
  {
  }

  lemma GoodRulesAppend(a: seq<Group>, b: seq<Group>, at: nat)
    requires AllGoodRules(a, at) && AllGoodRules(b, at)
    ensures AllGoodRules(a + b, at)
  {
  }

  lemma Table4IsGood()
    ensures GoodGroups(Table4(), 2)
  {
    Table4FirstIsGood();
    Table4LastIsGood();
    GoodRulesAppend(Table4First(), Table4Last(), 2);
    Table4Letters();
  }

  ghost predicate AllUsable(groups: seq<Group>) {
    forall i :: 0 <= i < |groups| ==> Usable(groups[i].rules)
  }

  lemma {:induction false} CasesAreUsable(groups: seq<Group>, letter: char)
    requires AllUsable(groups)
    ensures Usable(Cases(groups, letter))
  {
    if groups != [] && groups[0].letter != letter {
      CasesAreUsable(groups[1..], letter);
    }
  }

  ghost predicate Unconditional(rules: seq<Rule>) {
    forall j :: 0 <= j < |rules| ==> rules[j].after == ""
  }

  ghost predicate UnconditionalOrUsable(groups: seq<Group>) {
    forall i :: 0 <= i < |groups| ==> Unconditional(groups[i].rules) || Usable(groups[i].rules)
  }

  lemma UnconditionalIsUsable(groups: seq<Group>, at: nat)
    requires at > 0 && GoodGroups(groups, at) == true && UnconditionalOrUsable(groups) == true
    ensures AllUsable(groups) == true
  {
    forall i | 0 <= i < |groups|
      ensures Usable(groups[i].rules)
    {
      assert forall j :: 0 <= j < |groups[i].rules| ==> GoodRule(groups[i].rules[j], groups[i].letter, at);
    }
  }

  lemma Table2IsUsable()
    ensures AllUsable(Table2())
  {
    Table2IsGood();
    Table2IsUnconditional();
    UnconditionalIsUsable(Table2(), 2);
  }

  lemma Table2IsUnconditional()
    ensures UnconditionalOrUsable(Table2()) == true
  {
    assert Unconditional(Rules2L()) && Unconditional(Rules2S());
  }

  lemma Table3IsUsable()
    ensures AllUsable(Table3())
  {
    Table3IsGood();
    UnconditionalIsUsable(Table3(), 1);
  }

  lemma Rules4OAreUsable()
    ensures Usable(Rules4O())
  {
  }

  lemma Table4IsUsable()
    ensures AllUsable(Table4())
  {
    Rules4OAreUsable();
    Table4IsGood();
    Table4IsConditional();
    UnconditionalIsUsable(Table4(), 2);
  }

  lemma Table4IsConditional()
    ensures forall i :: 0 <= i < |Table4()| ==> Unconditional(Table4()[i].rules) || Table4()[i].rules == Rules4O()
  {
  }

  lemma {:induction false} CasesAreGood(groups: seq<Group>, letter: char, at: nat)
    requires at > 0 && GoodGroups(groups, at)
    ensures GoodRules(Cases(groups, letter), letter, at)
  {
    if groups != [] && groups[0].letter != letter {
      CasesAreGood(groups[1..], letter, at);
    }
  }

  // The switch may read any letter when the word is too short to have one there.
  lemma SwitchRewrites(w: string, groups: seq<Group>, at: nat, letter: char, least: nat)
    requires at > 0 && GoodGroups(groups, at) && (|w| >= at ==> letter == w[|w| - at])
    ensures Rewritten(w, Cases(groups, letter), least) == Rewritten(w, AllRules(groups), least)
  {
    if |w| >= at {
      SwitchIsScan(w, groups, at);
    } else {
      CasesAreGood(groups, letter, at);
      NoMatch(w, Cases(groups, letter), letter, at);
      NoMatchInGroups(w, groups, at);
    }
  }

  // ---- The longest suffix ----

  ghost predicate AllLongestFirst(groups: seq<Group>) {
    forall i :: 0 <= i < |groups| ==> LongestFirst(groups[i].rules)
  }

  // Of two suffixes of a word the longer ends with the shorter.
  lemma SuffixesNest(w: string, a: string, b: string)
    requires EndsWith(w, a) && EndsWith(w, b) && |a| <= |b|
    ensures EndsWith(b, a)
  {
    assert w[|w| - |b|..][|b| - |a|..] == w[|w| - |a|..];
  }

  lemma {:induction false} FirstIsLongest(w: string, rules: seq<Rule>, x: Rule)
    requires LongestFirst(rules) && x in rules && Matches(w, x)
    ensures FirstMatch(w, rules).Some? && |x.suffix| <= |FirstMatch(w, rules).value.suffix|
  {
    if Matches(w, rules[0]) {
      if |x.suffix| > |rules[0].suffix| {
        SuffixesNest(w, rules[0].suffix, x.suffix);
      }
    } else {
      FirstIsLongest(w, rules[1..], x);
    }
  }

  lemma {:induction false} CasesLongestFirst(groups: seq<Group>, letter: char)
    requires AllLongestFirst(groups)
    ensures LongestFirst(Cases(groups, letter))
  {
    if groups != [] && groups[0].letter != letter {
      CasesLongestFirst(groups[1..], letter);
    }
  }

  lemma {:induction false} MatchIsInCase(w: string, groups: seq<Group>, at: nat, x: Rule)
    requires at > 0 && GoodGroups(groups, at) && x in AllRules(groups) && Matches(w, x)
    ensures |w| >= at && x in Cases(groups, w[|w| - at])
  {
    if x in groups[0].rules {
      MatchHasLetter(w, x, groups[0].letter, at);
    } else {
      MatchIsInCase(w, groups[1..], at, x);
      assert exists i :: 0 <= i < |groups[1..]| && groups[1..][i].letter == w[|w| - at] by {
        CaseHasLetter(groups[1..], w[|w| - at], x);
      }
    }
  }

  lemma {:induction false} CaseHasLetter(groups: seq<Group>, letter: char, x: Rule)
    requires x in Cases(groups, letter)
    ensures exists i :: 0 <= i < |groups| && groups[i].letter == letter
  {
    if groups[0].letter != letter {
      CaseHasLetter(groups[1..], letter, x);
      var i :| 0 <= i < |groups[1..]| && groups[1..][i].letter == letter;
      assert groups[i + 1].letter == letter;
    }
  }

  // The rule that is applied has the longest suffix of all rules that match, in whatever
  // order they are listed.
  lemma LongestMatch(w: string, groups: seq<Group>, at: nat, x: Rule)
    requires at > 0 && GoodGroups(groups, at) && AllLongestFirst(groups)
    requires x in AllRules(groups) && Matches(w, x)
    ensures FirstMatch(w, AllRules(groups)).Some? && |x.suffix| <= |FirstMatch(w, AllRules(groups)).value.suffix|
  {
    MatchIsInCase(w, groups, at, x);
    CasesLongestFirst(groups, w[|w| - at]);
    FirstIsLongest(w, Cases(groups, w[|w| - at]), x);
    SwitchIsScan(w, groups, at);
  }

  // Suffixes that differ t letters from the end.
  lemma Apart(a: string, b: string, t: nat)
    requires t < |a| && t < |b| && a[|a| - 1 - t] != b[|b| - 1 - t]
    ensures !EndsWith(a, b)
  {
    assert |b| <= |a| ==> a[|a| - |b|..][|b| - 1 - t] == a[|a| - 1 - t];
  }

  // The letter of a suffix t letters from its end.
  function LetterFrom(r: Rule, t: nat): (c: char)
    requires t < |r.suffix|
  {
    r.suffix[|r.suffix| - 1 - t]
  }

  // Of any two suffixes the earlier is longer, or they differ t letters from the end.
  ghost predicate Ranked(rules: seq<Rule>, t: nat) {
    && (forall i :: 0 <= i < |rules| ==> t < |rules[i].suffix|)
    && (forall i, j :: 0 <= i < j < |rules| ==>
          |rules[i].suffix| > |rules[j].suffix| || LetterFrom(rules[i], t) != LetterFrom(rules[j], t))
  }

  // Their letters t from the end, written out.
  ghost predicate Letters(rules: seq<Rule>, t: nat, letters: string) {
    |rules| == |letters| && forall i :: 0 <= i < |rules| ==>
        t < |rules[i].suffix| && LetterFrom(rules[i], t) == letters[i]
  }

  lemma DistinctIsLongestFirst(rules: seq<Rule>, t: nat, letters: string)
    requires Letters(rules, t, letters) && Distinct(letters)
    ensures LongestFirst(rules)
  {
    RankedIsLongestFirst(rules, t);
  }

  lemma RankedIsLongestFirst(rules: seq<Rule>, t: nat)
    requires Ranked(rules, t)
    ensures LongestFirst(rules)
  {
    forall i, j | 0 <= i < j < |rules|
      ensures !EndsWith(rules[j].suffix, rules[i].suffix)
    {
      if |rules[i].suffix| <= |rules[j].suffix| {
        Apart(rules[j].suffix, rules[i].suffix, t);
      }
    }
  }

  lemma Rules2LLongestFirst()
    ensures LongestFirst(Rules2L())
  {
    DistinctIsLongestFirst(Rules2L(), 2, "bltes");
  }

  lemma Rules2SLongestFirst()
    ensures LongestFirst(Rules2S())
  {
    DistinctIsLongestFirst(Rules2S(), 4, "aels");
  }

  lemma Table2LongestFirst()
    ensures AllLongestFirst(Table2())
  {
    Rules2LLongestFirst();
    Rules2SLongestFirst();
  }

  lemma Table3LongestFirst()
    ensures AllLongestFirst(Table3())
  {
  }

  lemma Rules4NLongestFirst()
    ensures LongestFirst(Rules4N())
  {
    RankedIsLongestFirst(Rules4N(), 2);
  }

  lemma Table4LongestFirst()
    ensures AllLongestFirst(Table4())
  {
    Rules4NLongestFirst();
    assert AllLongestFirst(Table4First());
    assert AllLongestFirst(Table4Last());
  }

  // The rules of each step, and the longest suffix among those that match.
  ghost predicate TakesLongest(w: string, rules: seq<Rule>, x: Rule) {
    x in rules && Matches(w, x) ==> FirstMatch(w, rules).Some? && |x.suffix| <= |FirstMatch(w, rules).value.suffix|
  }

  lemma Step2TakesLongest(w: string, x: Rule)
    ensures TakesLongest(w, AllRules(Table2()), x)
  {
    Table2IsGood();
    Table2LongestFirst();
    if x in AllRules(Table2()) && Matches(w, x) {
      LongestMatch(w, Table2(), 2, x);
    }
  }

  lemma Step3TakesLongest(w: string, x: Rule)
    ensures TakesLongest(w, AllRules(Table3()), x)
  {
    Table3IsGood();
    Table3LongestFirst();
    if x in AllRules(Table3()) && Matches(w, x) {
      LongestMatch(w, Table3(), 1, x);
    }
  }

  lemma Step4TakesLongest(w: string, x: Rule)
    ensures TakesLongest(w, AllRules(Table4()), x)
  {
    Table4IsGood();
    Table4LongestFirst();
    if x in AllRules(Table4()) && Matches(w, x) {
      LongestMatch(w, Table4(), 2, x);
    }
  }

  // ---- The steps ----

  // Plurals.
  function Step1a(w: string): (r: string) {
    if EndsWith(w, "sses") then Drop(w, 2)
    else if EndsWith(w, "ies") then Drop(w, 3) + "i"
    else if EndsInOneS(w) then Drop(w, 1)
    else w
  }

  predicate EndsInOneS(w: string) {
    |w| >= 2 && w[|w| - 1] == 's' && w[|w| - 2] != 's'
  }

  // The end of a word that has lost -ed or -ing.
  function Restored(w: string): (r: string) {
    if EndsWith(w, "at") || EndsWith(w, "bl") || EndsWith(w, "iz") then w + "e"
    else if DoubleCons(w) then
      var c := w[|w| - 1];
      if c == 'l' || c == 's' || c == 'z' then w else Drop(w, 1)
    else if Measure(w) == 1 && Cvc(w, |w|) then w + "e"
    else w
  }

  // An ending of n letters is taken off if a vowel comes before it.
  function TakenOff(w: string, n: nat): (r: string)
    requires n <= |w|
  {
    if HasVowel(Drop(w, n)) then Restored(Drop(w, n)) else w
  }

  // The length of a final -ed or -ing.
  function EdOrIng(w: string): (n: nat)
    ensures n <= |w|
  {
    if EndsWith(w, "ed") then 2 else if EndsWith(w, "ing") then 3 else 0
  }

  function Step1b(w: string): (r: string) {
    if EndsWith(w, "eed") then
      if Measure(Drop(w, 3)) > 0 then Drop(w, 1) else w
    else if EdOrIng(w) > 0 then TakenOff(w, EdOrIng(w))
    else w
  }

  function Step1c(w: string): (r: string) {
    if EndsWith(w, "y") && HasVowel(Drop(w, 1)) then Drop(w, 1) + "i" else w
  }

  function Step2(w: string): (r: string) {
    Rewritten(w, AllRules(Table2()), 0)
  }

  function Step3(w: string): (r: string) {
    Rewritten(w, AllRules(Table3()), 0)
  }

  function Step4(w: string): (r: string) {
    Rewritten(w, AllRules(Table4()), 1)
  }

  function Step5a(w: string): (r: string) {
    if EndsWith(w, "e") && (Measure(w) > 1 || (Measure(w) == 1 && !Cvc(w, |w| - 1))) then Drop(w, 1) else w
  }

  // The measure is that of the word before the step.
  function Step5(w: string): (r: string) {
    var v := Step5a(w);
    if EndsWith(v, "l") && DoubleCons(v) && Measure(w) > 1 then Drop(v, 1) else v
  }

  function Step1(w: string): (r: string) {
    Step1c(Step1b(Step1a(w)))
  }

  // Words of one or two letters are left alone.
  function Stemmed(w: string): (r: string) {
    if |w| <= 2 then w else Step5(Step4(Step3(Step2(Step1(w)))))
  }

  // ---- What every step keeps ----

  // A word becomes no longer and does not vanish, and its first letter stays.
  ghost predicate Shortens(w: string, r: string) {
    1 <= |r| <= |w| && r[0] == w[0]
  }

  lemma {:induction false} AllRulesAreGood(groups: seq<Group>, at: nat)
    requires GoodGroups(groups, at)
    ensures forall x :: x in AllRules(groups) ==> |x.replacement| <= |x.suffix|
  {
    if groups != [] {
      AllRulesAreGood(groups[1..], at);
      assert GoodRules(groups[0].rules, groups[0].letter, at);
    }
  }

  lemma MeasuredIsLong(w: string)
    requires Measure(w) > 0
    ensures |w| >= 2
  {
  }

  lemma RewrittenShortens(w: string, groups: seq<Group>, at: nat, least: nat)
    requires w != "" && GoodGroups(groups, at)
    ensures Shortens(w, Rewritten(w, AllRules(groups), least))
  {
    AllRulesAreGood(groups, at);
    var f := FirstMatch(w, AllRules(groups));
    if f.Some? && Measure(Drop(w, |f.value.suffix|)) > least {
      MeasuredIsLong(Drop(w, |f.value.suffix|));
    }
  }

  lemma Step1aShortens(w: string)
    requires |w| >= 2
    ensures Shortens(w, Step1a(w))
  {
    if EndsWith(w, "ies") && |w| == 3 {
      assert w == "ies";
    }
  }

  lemma RestoredShortens(w: string, v: string)
    requires 1 <= |w| < |v| && w[0] == v[0]
    ensures Shortens(v, Restored(w))
  {
  }

  lemma Step1bShortens(w: string)
    requires w != ""
    ensures Shortens(w, Step1b(w))
  {
    if EdOrIng(w) > 0 && HasVowel(Drop(w, EdOrIng(w))) {
      RestoredShortens(Drop(w, EdOrIng(w)), w);
    }
  }

  lemma Step1cShortens(w: string)
    requires w != ""
    ensures Shortens(w, Step1c(w))
  {
  }

  lemma Step5Shortens(w: string)
    requires w != ""
    ensures Shortens(w, Step5(w))
  {
    if Measure(w) > 0 {
      MeasuredIsLong(w);
    }
  }

  // Stemming never lengthens a word, never empties it and keeps its first letter.
  lemma StemmingShortens(w: string)
    requires w != ""
    ensures Shortens(w, Stemmed(w))
  {
    if |w| > 2 {
      var a := Step1a(w);
      Step1aShortens(w);
      var b := Step1b(a);
      Step1bShortens(a);
      var c := Step1c(b);
      Step1cShortens(b);
      var d := Step2(c);
      Table2IsGood();
      RewrittenShortens(c, Table2(), 2, 0);
      var e := Step3(d);
      Table3IsGood();
      RewrittenShortens(d, Table3(), 1, 0);
      Table4IsGood();
      RewrittenShortens(e, Table4(), 2, 1);
      Step5Shortens(Step4(e));
    }
  }
}
