/**
 All variants of a phrase: every word may be replaced by its completion or abbreviation.

 The combinations are enumerated depth first, with an explicit stack and one shared board
 that holds the words chosen so far.
 */
module Variants {
  import opened Sequences

  // The dictionary, and the normalization applied to what it returns.
  datatype Dictionary = Dictionary(completions: map<string, string>, abbreviations: map<string, string>,
                                   normalize: string -> string)

  function WordVariants(d: Dictionary, word: string): (r: seq<string>)
    ensures |r| > 0 && r[0] == word
  {
    [word]
    + (if word in d.completions then [d.normalize(d.completions[word])] else [])
    + (if word in d.abbreviations then [d.normalize(d.abbreviations[word])] else [])
  }

  function AllWordVariants(d: Dictionary, words: seq<string>): (v: seq<seq<string>>)
    ensures |v| == |words| && forall i :: 0 <= i < |v| ==> v[i] == WordVariants(d, words[i])
  {
    if words == [] then [] else AllWordVariants(d, words[..|words| - 1]) + [WordVariants(d, words[|words| - 1])]
  }

  method HasVariants(d: Dictionary, words: seq<string>) returns (has: bool)
    ensures has <==> exists i :: 0 <= i < |words| && |WordVariants(d, words[i])| > 1
  {
    for i := 0 to |words|
      invariant forall k :: 0 <= k < i ==> |WordVariants(d, words[k])| == 1
    {
      if words[i] in d.completions || words[i] in d.abbreviations {
        return true;
      }
    }
    return false;
  }

  function Join(words: seq<string>, delim: string): (s: string) {
    if words == [] then ""
    else if |words| == 1 then words[0]
    else Join(words[..|words| - 1], delim) + delim + words[|words| - 1]
  }

  function JoinAll(boards: seq<seq<string>>): (r: seq<string>)
    ensures |r| == |boards|
  {
    if boards == [] then [] else JoinAll(boards[..|boards| - 1]) + [Join(boards[|boards| - 1], " ")]
  }

  lemma JoinAllMore(boards: seq<seq<string>>, board: seq<string>)
    ensures JoinAll(boards + [board]) == JoinAll(boards) + [Join(board, " ")]
  {
    assert (boards + [board])[..|boards|] == boards;
  }

  // ---- The enumeration ----

  // The boards that begin with a prefix, in the order of the search; of the variants of a
  // word the last is taken first.
  ghost function Expand(v: seq<seq<string>>, prefix: seq<string>): (r: seq<seq<string>>)
    requires |prefix| <= |v|
    decreases |v| - |prefix|, 1, 0
  {
    if |prefix| == |v| then [prefix] else ExpandFirst(v, prefix, |v[|prefix|]|)
  }

  // The same, with the next word among its first n variants.
  ghost function ExpandFirst(v: seq<seq<string>>, prefix: seq<string>, n: nat): (r: seq<seq<string>>)
    requires |prefix| < |v| && n <= |v[|prefix|]|
    decreases |v| - |prefix|, 0, n
  {
    if n == 0 then [] else Expand(v, prefix + [v[|prefix|][n - 1]]) + ExpandFirst(v, prefix, n - 1)
  }

  // In how many ways the words of a board from position k on can be chosen.
  function Ways(v: seq<seq<string>>, k: nat, board: seq<string>): (n: nat)
    requires k <= |v| == |board|
    decreases |v| - k
  {
    if k == |v| then 1 else multiset(v[k])[board[k]] * Ways(v, k + 1, board)
  }

  ghost predicate Begins(v: seq<seq<string>>, prefix: seq<string>, board: seq<string>)
    requires |prefix| <= |v|
  {
    |board| == |v| && board[..|prefix|] == prefix
  }

  // Every board is emitted once for each way to choose it.
  lemma {:induction false} ExpandCount(v: seq<seq<string>>, prefix: seq<string>, board: seq<string>)
    requires |prefix| <= |v|
    ensures multiset(Expand(v, prefix))[board] == if Begins(v, prefix, board) then Ways(v, |prefix|, board) else 0
    decreases |v| - |prefix|, 1, 0
  {
    if |prefix| == |v| {
      assert Begins(v, prefix, board) ==> board == prefix by {
        assert board[..|board|] == board;
      }
      assert prefix[..|prefix|] == prefix;
    } else {
      var k := |prefix|;
      ExpandFirstCount(v, prefix, |v[k]|, board);
      assert v[k][..|v[k]|] == v[k];
    }
  }

  lemma {:induction false} ExpandFirstCount(v: seq<seq<string>>, prefix: seq<string>, n: nat, board: seq<string>)
    requires |prefix| < |v| && n <= |v[|prefix|]|
    ensures multiset(ExpandFirst(v, prefix, n))[board] ==
      if Begins(v, prefix, board) then multiset(v[|prefix|][..n])[board[|prefix|]] * Ways(v, |prefix| + 1, board) else 0
    decreases |v| - |prefix|, 0, n
  {
    if n > 0 {
      var k := |prefix|;
      var choice := v[k][n - 1];
      ExpandFirstCount(v, prefix, n - 1, board);
      ExpandCount(v, prefix + [choice], board);
      BeginsLonger(v, prefix, choice, board);
      CountsAdd(Expand(v, prefix + [choice]), ExpandFirst(v, prefix, n - 1), board);
      if Begins(v, prefix, board) {
        OneMoreChoice(v[k], n, board[k], Ways(v, k + 1, board));
      }
    }
  }

  lemma CountsAdd<T>(a: seq<T>, b: seq<T>, x: T)
    ensures multiset(a + b)[x] == multiset(a)[x] + multiset(b)[x]
  {
  }

  lemma OneMoreChoice(choices: seq<string>, n: nat, word: string, ways: nat)
    requires 0 < n <= |choices|
    ensures multiset(choices[..n])[word] * ways ==
              multiset(choices[..n - 1])[word] * ways + if choices[n - 1] == word then ways else 0
  {
    assert choices[..n] == choices[..n - 1] + [choices[n - 1]];
    OneMoreWay(multiset(choices[..n - 1])[word], ways);
  }

  lemma BeginsLonger(v: seq<seq<string>>, prefix: seq<string>, choice: string, board: seq<string>)
    requires |prefix| < |v|
    ensures Begins(v, prefix + [choice], board) <==> Begins(v, prefix, board) && board[|prefix|] == choice
  {
    if |board| == |v| {
      assert board[..|prefix| + 1] == board[..|prefix|] + [board[|prefix|]];
    }
  }

  lemma OneMoreWay(m: nat, ways: nat)
    ensures (m + 1) * ways == m * ways + ways
  {
  }

  // The number of boards.
  function Combinations(v: seq<seq<string>>, k: nat): (n: nat)
    requires k <= |v|
    decreases |v| - k
  {
    if k == |v| then 1 else |v[k]| * Combinations(v, k + 1)
  }

  lemma {:induction false} ExpandSize(v: seq<seq<string>>, prefix: seq<string>)
    requires |prefix| <= |v|
    ensures |Expand(v, prefix)| == Combinations(v, |prefix|)
    decreases |v| - |prefix|, 1, 0
  {
    if |prefix| < |v| {
      ExpandFirstSize(v, prefix, |v[|prefix|]|);
    }
  }

  lemma {:induction false} ExpandFirstSize(v: seq<seq<string>>, prefix: seq<string>, n: nat)
    requires |prefix| < |v| && n <= |v[|prefix|]|
    ensures |ExpandFirst(v, prefix, n)| == n * Combinations(v, |prefix| + 1)
    decreases |v| - |prefix|, 0, n
  {
    if n > 0 {
      ExpandFirstSize(v, prefix, n - 1);
      ExpandSize(v, prefix + [v[|prefix|][n - 1]]);
      OneMoreWay(n - 1, Combinations(v, |prefix| + 1));
    }
  }

  ghost predicate Chosen(v: seq<seq<string>>, k: nat, board: seq<string>)
    requires |board| == |v|
  {
    forall i :: k <= i < |v| ==> board[i] in v[i]
  }

  lemma {:induction false} WaysIffChosen(v: seq<seq<string>>, k: nat, board: seq<string>)
    requires k <= |v| == |board|
    ensures Ways(v, k, board) > 0 <==> Chosen(v, k, board)
    decreases |v| - k
  {
    if k < |v| {
      WaysIffChosen(v, k + 1, board);
      assert Chosen(v, k, board) <==> board[k] in v[k] && Chosen(v, k + 1, board);
    }
  }

  // The boards are the cartesian product of the lists of variants.
  lemma ExpandIsProduct(v: seq<seq<string>>)
    ensures forall board :: board in Expand(v, []) <==> |board| == |v| && forall i :: 0 <= i < |v| ==> board[i] in v[i]
    ensures |Expand(v, [])| == Combinations(v, 0)
  {
    ExpandSize(v, []);
    forall board
      ensures board in Expand(v, []) <==> |board| == |v| && forall i :: 0 <= i < |v| ==> board[i] in v[i]
    {
      ExpandCount(v, [], board);
      if |board| == |v| {
        WaysIffChosen(v, 0, board);
      }
    }
  }

  ghost predicate Own(v: seq<seq<string>>, words: seq<string>) {
    |v| == |words| && forall i :: 0 <= i < |v| ==> v[i] != [] && v[i][0] == words[i]
  }

  // The phrase as it was comes last.
  lemma {:induction false} OriginalIsLast(v: seq<seq<string>>, words: seq<string>, k: nat)
    requires k <= |v| && Own(v, words)
    ensures var r := Expand(v, words[..k]); r != [] && r[|r| - 1] == words
    decreases |v| - k
  {
    if k == |v| {
      assert words[..k] == words;
    } else {
      OriginalIsLast(v, words, k + 1);
      assert words[..k] + [v[k][0]] == words[..k + 1];
      FirstChoiceIsLast(v, words[..k], |v[k]|);
    }
  }

  lemma {:induction false} FirstChoiceIsLast(v: seq<seq<string>>, prefix: seq<string>, n: nat)
    requires |prefix| < |v| && 0 < n <= |v[|prefix|]| && Expand(v, prefix + [v[|prefix|][0]]) != []
    ensures var r, s := ExpandFirst(v, prefix, n), Expand(v, prefix + [v[|prefix|][0]]);
            r != [] && r[|r| - 1] == s[|s| - 1]
    decreases n
  {
    if n == 1 {
      assert ExpandFirst(v, prefix, 0) == [];
    } else {
      FirstChoiceIsLast(v, prefix, n - 1);
    }
  }

  // ---- The search ----

  datatype Item = Item(pos: int, word: string)

  // The stack holds positions in order; no item is deeper than the one on top.
  ghost predicate Stacked(stack: seq<Item>, size: nat) {
    && (forall i :: 0 <= i < |stack| ==> -1 <= stack[i].pos < size)
    && (forall i, j :: 0 <= i < j < |stack| ==> stack[i].pos <= stack[j].pos)
  }

  // A stack and the item on top of it.
  ghost predicate Topped(base: seq<Item>, e: Item, size: nat) {
    Stacked(base, size) && -1 <= e.pos < size && forall i :: 0 <= i < |base| ==> base[i].pos <= e.pos
  }

  lemma StackedTop(base: seq<Item>, e: Item, size: nat)
    requires Stacked(base + [e], size)
    ensures Topped(base, e, size)
  {
    var s := base + [e];
    assert s[|base|] == e && forall i :: 0 <= i < |base| ==> base[i] == s[i];
  }

  // The boards an item stands for: the prefix it extends is the board up to its position.
  ghost function OfItem(v: seq<seq<string>>, board: seq<string>, e: Item): (r: seq<seq<string>>)
    requires |board| == |v| && -1 <= e.pos < |v|
  {
    if e.pos == -1 then Expand(v, []) else Expand(v, board[..e.pos] + [e.word])
  }

  // The boards still to come.
  ghost function Rest(v: seq<seq<string>>, board: seq<string>, stack: seq<Item>): (r: seq<seq<string>>)
    requires |board| == |v| && forall i :: 0 <= i < |stack| ==> -1 <= stack[i].pos < |v|
  {
    if stack == [] then []
    else OfItem(v, board, stack[|stack| - 1]) + Rest(v, board, stack[..|stack| - 1])
  }

  // The steps the search takes from position pos on, and in all.
  ghost function Steps(v: seq<seq<string>>, pos: int): (n: nat)
    requires -1 <= pos < |v|
    ensures n > 0
    decreases |v| - pos
  {
    if pos == |v| - 1 then 1 else 1 + |v[pos + 1]| * Steps(v, pos + 1)
  }

  ghost function AllSteps(v: seq<seq<string>>, stack: seq<Item>): (n: nat)
    requires forall i :: 0 <= i < |stack| ==> -1 <= stack[i].pos < |v|
  {
    if stack == [] then 0 else Steps(v, stack[|stack| - 1].pos) + AllSteps(v, stack[..|stack| - 1])
  }

  // Writing at a position leaves the prefixes of the items that are not deeper.
  lemma {:induction false} RestKept(v: seq<seq<string>>, board: seq<string>, stack: seq<Item>, pos: nat, word: string)
    requires |board| == |v| && pos < |v| && forall i :: 0 <= i < |stack| ==> -1 <= stack[i].pos <= pos
    ensures Rest(v, board[pos := word], stack) == Rest(v, board, stack)
  {
    if stack != [] {
      var q := stack[|stack| - 1].pos;
      RestKept(v, board, stack[..|stack| - 1], pos, word);
      if q >= 0 {
        assert board[pos := word][..q] == board[..q];
      }
    }
  }

  ghost function Children(choices: seq<string>, pos: nat, n: nat): (r: seq<Item>)
    requires n <= |choices|
    ensures |r| == n && forall i :: 0 <= i < n ==> r[i].pos == pos
  {
    if n == 0 then [] else Children(choices, pos, n - 1) + [Item(pos, choices[n - 1])]
  }

  lemma RestTop(v: seq<seq<string>>, board: seq<string>, base: seq<Item>, e: Item)
    requires |board| == |v| && -1 <= e.pos < |v| && forall i :: 0 <= i < |base| ==> -1 <= base[i].pos < |v|
    ensures Rest(v, board, base + [e]) == OfItem(v, board, e) + Rest(v, board, base)
  {
    assert (base + [e])[..|base|] == base;
  }

  lemma {:induction false} RestChildren(v: seq<seq<string>>, board: seq<string>, base: seq<Item>, pos: nat, n: nat)
    requires |board| == |v| && pos < |v| && n <= |v[pos]|
    requires forall i :: 0 <= i < |base| ==> -1 <= base[i].pos < |v|
    ensures Rest(v, board, base + Children(v[pos], pos, n)) == ExpandFirst(v, board[..pos], n) + Rest(v, board, base)
  {
    if n == 0 {
      assert base + Children(v[pos], pos, 0) == base;
    } else {
      var e, fewer := Item(pos, v[pos][n - 1]), base + Children(v[pos], pos, n - 1);
      RestChildren(v, board, base, pos, n - 1);
      RestTop(v, board, fewer, e);
      assert base + Children(v[pos], pos, n) == fewer + [e];
      Regroup(OfItem(v, board, e), ExpandFirst(v, board[..pos], n - 1), Rest(v, board, base));
    }
  }

  lemma {:induction false} StepsChildren(v: seq<seq<string>>, base: seq<Item>, pos: nat, n: nat)
    requires pos < |v| && n <= |v[pos]| && forall i :: 0 <= i < |base| ==> -1 <= base[i].pos < |v|
    ensures AllSteps(v, base + Children(v[pos], pos, n)) == n * Steps(v, pos) + AllSteps(v, base)
  {
    if n == 0 {
      assert base + Children(v[pos], pos, 0) == base;
    } else {
      var s := base + Children(v[pos], pos, n);
      assert s[..|s| - 1] == base + Children(v[pos], pos, n - 1);
      StepsChildren(v, base, pos, n - 1);
      OneMoreWay(n - 1, Steps(v, pos));
    }
  }

  method PushVariants(stack: seq<Item>, choices: seq<string>, pos: nat) returns (r: seq<Item>)
    ensures r == stack + Children(choices, pos, |choices|)
  {
    r := stack;
    for i := 0 to |choices|
      invariant r == stack + Children(choices, pos, i)
    {
      r := r + [Item(pos, choices[i])];
    }
  }

  // What has been emitted and what is still to come are all boards, in order.
  ghost predicate Halfway(v: seq<seq<string>>, board: seq<string>, stack: seq<Item>, boards: seq<seq<string>>) {
    && |board| == |v|
    && Stacked(stack, |v|)
    && boards + Rest(v, board, stack) == Expand(v, [])
  }

  function Written(board: seq<string>, e: Item): (r: seq<string>)
    requires -1 <= e.pos < |board|
    ensures |r| == |board|
  {
    if e.pos >= 0 then board[e.pos := e.word] else board
  }

  lemma WrittenKeepsRest(v: seq<seq<string>>, board: seq<string>, base: seq<Item>, e: Item)
    requires |board| == |v| && Topped(base, e, |v|)
    ensures Rest(v, Written(board, e), base) == Rest(v, board, base)
  {
    if e.pos >= 0 {
      RestKept(v, board, base, e.pos, e.word);
    }
  }

  // The item on top stands for the boards that begin with the written prefix.
  lemma TopExpands(v: seq<seq<string>>, board: seq<string>, e: Item)
    requires |board| == |v| && -1 <= e.pos < |v|
    ensures OfItem(v, board, e) == Expand(v, Written(board, e)[..e.pos + 1])
  {
    if e.pos >= 0 {
      assert Written(board, e)[..e.pos + 1] == board[..e.pos] + [e.word];
    }
  }

  lemma Completed(v: seq<seq<string>>, board: seq<string>, base: seq<Item>, e: Item, boards: seq<seq<string>>)
    requires Topped(base, e, |v|) && Halfway(v, board, base + [e], boards) && e.pos == |v| - 1
    ensures Halfway(v, Written(board, e), base, boards + [Written(board, e)])
  {
    var next := Written(board, e);
    WrittenKeepsRest(v, board, base, e);
    TopExpands(v, board, e);
    assert next[..e.pos + 1] == next;
    RestTop(v, board, base, e);
    Regroup(boards, [next], Rest(v, board, base));
  }

  lemma ChildrenStack(v: seq<seq<string>>, base: seq<Item>, e: Item, choices: seq<string>)
    requires Topped(base, e, |v|) && e.pos + 1 < |v|
    ensures Stacked(base + Children(choices, e.pos + 1, |choices|), |v|) == true
  {
  }

  lemma DeepenedRest(v: seq<seq<string>>, board: seq<string>, base: seq<Item>, e: Item)
    requires |board| == |v| && Topped(base, e, |v|) && e.pos + 1 < |v|
    ensures Rest(v, Written(board, e), base + Children(v[e.pos + 1], e.pos + 1, |v[e.pos + 1]|)) ==
              Rest(v, board, base + [e])
  {
    var next, pos := Written(board, e), e.pos + 1;
    WrittenKeepsRest(v, board, base, e);
    TopExpands(v, board, e);
    RestTop(v, board, base, e);
    assert Expand(v, next[..pos]) == ExpandFirst(v, next[..pos], |v[pos]|);
    RestChildren(v, next, base, pos, |v[pos]|);
  }

  lemma Deepened(v: seq<seq<string>>, board: seq<string>, base: seq<Item>, e: Item, boards: seq<seq<string>>)
    requires Topped(base, e, |v|) && Halfway(v, board, base + [e], boards) && e.pos + 1 < |v|
    ensures Halfway(v, Written(board, e), base + Children(v[e.pos + 1], e.pos + 1, |v[e.pos + 1]|), boards)
  {
    ChildrenStack(v, base, e, v[e.pos + 1]);
    DeepenedRest(v, board, base, e);
  }

  // Either way fewer steps are left.
  lemma TopStep(v: seq<seq<string>>, base: seq<Item>, e: Item)
    requires Topped(base, e, |v|) && Stacked(base + [e], |v|)
    ensures AllSteps(v, base + [e]) == Steps(v, e.pos) + AllSteps(v, base)
  {
    assert (base + [e])[..|base|] == base;
  }

  // What is known of a stack is compared with true so that it is used as a whole.
  lemma ChildrenSteps(v: seq<seq<string>>, base: seq<Item>, e: Item, stack: seq<Item>)
    requires Topped(base, e, |v|) == true && Stacked(base + [e], |v|) == true && Stacked(stack, |v|) == true
    requires e.pos + 1 < |v| && stack == base + Children(v[e.pos + 1], e.pos + 1, |v[e.pos + 1]|)
    ensures AllSteps(v, stack) < AllSteps(v, base + [e])
  {
    TopStep(v, base, e);
    StepsChildren(v, base, e.pos + 1, |v[e.pos + 1]|);
  }

  // Replacing the item on top by its children goes on from the same boards, with fewer steps.
  lemma Descends(v: seq<seq<string>>, board: seq<string>, base: seq<Item>, e: Item, stack: seq<Item>,
                 boards: seq<seq<string>>)
    requires Topped(base, e, |v|) && Stacked(base + [e], |v|)
             && Halfway(v, board, base + [e], boards)
    requires e.pos + 1 < |v| && stack == base + Children(v[e.pos + 1], e.pos + 1, |v[e.pos + 1]|)
    ensures Stacked(stack, |v|) && Halfway(v, Written(board, e), stack, boards)
    ensures AllSteps(v, stack) < AllSteps(v, base + [e])
  {
    ChildrenStack(v, base, e, v[e.pos + 1]);
    Deepened(v, board, base, e, boards);
    ChildrenSteps(v, base, e, stack);
  }

  // Pushes the variants of the word after the one on top.
  method Descend(d: Dictionary, words: seq<string>, board: seq<string>, base: seq<Item>, e: Item,
                 ghost boards: seq<seq<string>>)
    returns (next: seq<string>, stack: seq<Item>)
    requires |board| == |words| && Topped(base, e, |words|) && Stacked(base + [e], |words|)
             && e.pos + 1 < |words|
    requires Halfway(AllWordVariants(d, words), board, base + [e], boards)
    ensures |next| == |words| && Stacked(stack, |words|)
    ensures Halfway(AllWordVariants(d, words), next, stack, boards)
    ensures AllSteps(AllWordVariants(d, words), stack) < AllSteps(AllWordVariants(d, words), base + [e])
  {
    ghost var v := AllWordVariants(d, words);
    next := Written(board, e);
    stack := PushVariants(base, WordVariants(d, words[e.pos + 1]), e.pos + 1);
    Descends(v, board, base, e, stack, boards);
  }

  lemma Begun(v: seq<seq<string>>, board: seq<string>)
    requires |board| == |v|
    ensures Halfway(v, board, [Item(-1, "")], [])
  {
    RestTop(v, board, [], Item(-1, ""));
    assert [] + [Item(-1, "")] == [Item(-1, "")];
  }

  method SearchVariants(d: Dictionary, words: seq<string>) returns (ret: seq<string>)
    requires words != []
    ensures ret == JoinAll(Expand(AllWordVariants(d, words), []))
  {
    ghost var v := AllWordVariants(d, words);
    ghost var boards: seq<seq<string>> := [];
    var stack, board := [Item(-1, "")], seq(|words|, _ => "");
    ret := [];
    Begun(v, board);
    while stack != []
      invariant |board| == |words| && Stacked(stack, |v|)
      invariant Halfway(v, board, stack, boards) && ret == JoinAll(boards)
      decreases AllSteps(v, stack)
    {
      var top, base := stack[|stack| - 1], stack[..|stack| - 1];
      assert stack == base + [top];
      StackedTop(base, top, |v|);
      if top.pos == |words| - 1 {
        Completed(v, board, base, top, boards);
        TopStep(v, base, top);
        stack, board := base, Written(board, top);
        ret := ret + [Join(board, " ")];
        JoinAllMore(boards, board);
        boards := boards + [board];
      } else {
        board, stack := Descend(d, words, board, base, top, boards);
      }
    }
    assert boards + [] == boards;
  }

  // The words are those the phrase was split into.  Without a variant the phrase itself is
  // returned.
  method GetAllVariants(d: Dictionary, phrase: string, words: seq<string>) returns (ret: seq<string>)
    ensures words == [] ==> ret == []
    ensures words != [] && (forall i :: 0 <= i < |words| ==> |WordVariants(d, words[i])| == 1) ==> ret == [phrase]
    ensures words != [] && (exists i :: 0 <= i < |words| && |WordVariants(d, words[i])| > 1) ==>
      ret == JoinAll(Expand(AllWordVariants(d, words), []))
  {
    if words == [] {
      return [];
    }
    var has := HasVariants(d, words);
    if !has {
      return [phrase];
    }
    ret := SearchVariants(d, words);
  }
}
