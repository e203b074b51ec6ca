/**
 The variants of a phrase, told from the dictionary alone.
 */
module VariantPhrases {
  import opened Variants

  // ---- Joined words ----

  // The pieces of a text between its spaces.
  function Pieces(s: string): (r: seq<string>)
    ensures r != []
  {
    if s == "" then [""]
    else
      var before, c := Pieces(s[..|s| - 1]), s[|s| - 1];
      if c == ' ' then before + [""] else before[..|before| - 1] + [before[|before| - 1] + [c]]
  }

  ghost predicate HasNoSpace(w: string) {
    ' ' !in w
  }

  lemma {:induction false} WordIsPiece(s: string, w: string)
    requires HasNoSpace(w)
    ensures Pieces(s + " " + w) == Pieces(s) + [w]
  {
    var t := s + " " + w;
    if w == "" {
      assert t[..|t| - 1] == s;
    } else {
      var n := |w| - 1;
      WordIsPiece(s, w[..n]);
      assert t[..|t| - 1] == s + " " + w[..n];
      assert w == w[..n] + [w[n]];
    }
  }

  lemma {:induction false} OnePiece(w: string)
    requires HasNoSpace(w)
    ensures Pieces(w) == [w]
  {
    if w != "" {
      OnePiece(w[..|w| - 1]);
      assert w == w[..|w| - 1] + [w[|w| - 1]];
    }
  }

  lemma JoinMore(first: seq<string>, w: string)
    requires first != []
    ensures Join(first + [w], " ") == Join(first, " ") + " " + w
  {
    assert (first + [w])[..|first|] == first;
  }

  lemma PieceAdded(first: seq<string>, w: string)
    requires first != [] && HasNoSpace(w) && Pieces(Join(first, " ")) == first
    ensures Pieces(Join(first + [w], " ")) == first + [w]
  {
    JoinMore(first, w);
    WordIsPiece(Join(first, " "), w);
  }

  ghost predicate HaveNoSpaces(words: seq<string>) {
    forall i :: 0 <= i < |words| ==> HasNoSpace(words[i])
  }

  // Joined with spaces, words without spaces can be told apart again.
  lemma {:induction false} JoinedWordsArePieces(words: seq<string>)
    requires words != [] && HaveNoSpaces(words)
    ensures Pieces(Join(words, " ")) == words
  {
    var first, w := words[..|words| - 1], words[|words| - 1];
    if first == [] {
      OnePiece(w);
    } else {
      JoinedWordsArePieces(first);
      PieceAdded(first, w);
      assert words == first + [w];
    }
  }

  // ---- The phrases ----

  // Each word is itself, or what the dictionary has for it, normalized.
  ghost predicate IsVariantOf(d: Dictionary, words: seq<string>, board: seq<string>) {
    |board| == |words| && forall i :: 0 <= i < |words| ==>
      || board[i] == words[i]
      || (words[i] in d.completions && board[i] == d.normalize(d.completions[words[i]]))
      || (words[i] in d.abbreviations && board[i] == d.normalize(d.abbreviations[words[i]]))
  }

  lemma WordVariantIs(d: Dictionary, word: string, w: string)
    ensures w in WordVariants(d, word) <==>
            || w == word
            || (word in d.completions && w == d.normalize(d.completions[word]))
            || (word in d.abbreviations && w == d.normalize(d.abbreviations[word]))
  {
  }

  lemma BoardIsVariant(d: Dictionary, words: seq<string>, board: seq<string>)
    ensures board in Expand(AllWordVariants(d, words), []) <==> IsVariantOf(d, words, board)
  {
    var v := AllWordVariants(d, words);
    ExpandIsProduct(v);
    if |board| == |words| {
      forall i | 0 <= i < |words|
        ensures board[i] in v[i] <==>
                || board[i] == words[i]
                || (words[i] in d.completions && board[i] == d.normalize(d.completions[words[i]]))
                || (words[i] in d.abbreviations && board[i] == d.normalize(d.abbreviations[words[i]]))
      {
        WordVariantIs(d, words[i], board[i]);
      }
    }
  }

  lemma {:induction false} JoinAllHas(boards: seq<seq<string>>, s: string)
    ensures s in JoinAll(boards) <==> exists board :: board in boards && s == Join(board, " ")
  {
    if boards != [] {
      var n := |boards| - 1;
      JoinAllHas(boards[..n], s);
      assert boards == boards[..n] + [boards[n]];
      if s in JoinAll(boards[..n]) {
        var board :| board in boards[..n] && s == Join(board, " ");
        assert board in boards;
      } else if s == Join(boards[n], " ") {
        assert boards[n] in boards;
      }
    }
  }

  // The phrases are those in which every word is itself or what the dictionary has for it; the
  // words as they were come last.
  lemma PhrasesAreVariants(d: Dictionary, words: seq<string>, s: string)
    requires words != []
    ensures var r := JoinAll(Expand(AllWordVariants(d, words), []));
            && (s in r <==> exists board :: IsVariantOf(d, words, board) && s == Join(board, " "))
            && r != [] && r[|r| - 1] == Join(words, " ")
  {
    var v := AllWordVariants(d, words);
    var boards := Expand(v, []);
    JoinAllHas(boards, s);
    forall board
      ensures board in boards <==> IsVariantOf(d, words, board)
    {
      BoardIsVariant(d, words, board);
    }
    OriginalIsLast(v, words, 0);
    assert words[..0] == [];
    JoinAllLast(boards);
  }

  lemma JoinAllLast(boards: seq<seq<string>>)
    requires boards != []
    ensures JoinAll(boards)[|boards| - 1] == Join(boards[|boards| - 1], " ")
  {
  }

  // Without spaces in the dictionary or the words, different choices give different phrases.
  lemma PhrasesDiffer(d: Dictionary, words: seq<string>, a: seq<string>, b: seq<string>)
    requires words != [] && IsVariantOf(d, words, a) && IsVariantOf(d, words, b)
    requires HaveNoSpaces(a) && HaveNoSpaces(b)
    ensures Join(a, " ") == Join(b, " ") <==> a == b
  {
    JoinedWordsArePieces(a);
    JoinedWordsArePieces(b);
  }
}
