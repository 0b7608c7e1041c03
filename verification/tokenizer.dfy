/** The word-level view of the input that the command scanner walks over:
    split on the space character, empty pieces dropped, newlines stripped
    before a word is compared, and one line counted per word holding a newline. */
module Tokenizer {
  import opened Strings

  /** Keeps the non-empty pieces, in order. */
  function NonEmpty(ps: seq<string>): (r: seq<string>)
    ensures forall i :: 0 <= i < |r| ==> r[i] != "" && r[i] in ps
    ensures Concat(r) == Concat(ps)
    ensures |r| <= |ps|
    ensures (forall i :: 0 <= i < |ps| ==> ps[i] != "") ==> r == ps
  {
    if |ps| == 0 then []
    else if ps[0] == "" then NonEmpty(ps[1..])
    else [ps[0]] + NonEmpty(ps[1..])
  }

  lemma {:induction false} NonEmptyAppend(a: seq<string>, b: seq<string>)
    ensures NonEmpty(a + b) == NonEmpty(a) + NonEmpty(b)
    decreases |a|
  {
    if |a| == 0 {
      assert a + b == b;
    } else {
      assert (a + b)[1..] == a[1..] + b;
      NonEmptyAppend(a[1..], b);
    }
  }

  /** `lines.split(" ").filter(|c| !c.is_empty())`: the words of the input,
      each non-empty and free of spaces, which run together give back the
      input minus its spaces. */
  function Tokens(lines: string): (ws: seq<string>)
    ensures forall i :: 0 <= i < |ws| ==> ws[i] != "" && ' ' !in ws[i]
    ensures Concat(ws) == Without(lines, ' ')
  {
    ConcatSplit(lines, ' ');
    NonEmpty(Split(lines, ' '))
  }

  /** A space splits the input into two halves tokenized independently. */
  lemma TokensAround(a: string, b: string)
    ensures Tokens(a + " " + b) == Tokens(a) + Tokens(b)
  {
    SplitAround(a, b, ' ');
    NonEmptyAppend(Split(a, ' '), Split(b, ' '));
  }

  /** A run of one or more spaces separates words like a single space does. */
  lemma {:induction false} TokensAcrossGap(a: string, n: nat, b: string)
    requires n >= 1
    ensures Tokens(a + Spaces(n) + b) == Tokens(a) + Tokens(b)
    decreases n
  {
    var rest := Spaces(n - 1) + b;
    assert Tokens(rest) == Tokens(b) by {
      if n > 1 {
        assert rest == "" + Spaces(n - 1) + b;
        TokensAcrossGap("", n - 1, b);
        TokensOfEmpty();
      } else {
        assert Spaces(n - 1) == "";
        assert rest == b;
      }
    }
    assert Tokens(a + Spaces(n) + b) == Tokens(a) + Tokens(rest) by {
      assert a + Spaces(n) + b == a + " " + rest;
      TokensAround(a, rest);
    }
  }

  lemma TokensOfEmpty()
    ensures Tokens("") == []
  {
  }

  /** A non-empty piece of text without spaces is one word. */
  lemma TokensOfWord(w: string)
    requires w != "" && ' ' !in w
    ensures Tokens(w) == [w]
  {
    SplitNoSeparator(w, ' ');
  }

  /** Tokenizing is the inverse of joining words with single spaces. */
  lemma TokensJoin(ws: seq<string>)
    requires forall i :: 0 <= i < |ws| ==> ws[i] != "" && ' ' !in ws[i]
    ensures Tokens(JoinWith(ws, ' ')) == ws
  {
    if |ws| == 0 {
    } else {
      SplitJoinWith(ws, ' ');
    }
  }

  /** `word.replace("\n", "")`. */
  function Clean(word: string): (w: string)
    ensures '\n' !in w
    ensures forall c :: c in w <==> c in word && c != '\n'
  {
    Without(word, '\n')
  }

  /** The newline-stripped form of each word. */
  function Cleaned(ws: seq<string>): (r: seq<string>)
    ensures |r| == |ws|
    ensures forall i :: 0 <= i < |ws| ==> r[i] == Clean(ws[i])
  {
    seq(|ws|, i requires 0 <= i < |ws| => Clean(ws[i]))
  }

  /** `is_end_of_line`: the word holds at least one newline. */
  predicate EndsLine(word: string) {
    '\n' in word
  }

  /** The number of words that hold a newline: how far the line counter moves. */
  function NewlineCount(ws: seq<string>): (n: nat)
    ensures n <= |ws|
    ensures n == 0 <==> forall i :: 0 <= i < |ws| ==> !EndsLine(ws[i])
  {
    if |ws| == 0 then 0
    else (if EndsLine(ws[0]) then 1 else 0) + NewlineCount(ws[1..])
  }

  lemma {:induction false} NewlineCountAppend(a: seq<string>, b: seq<string>)
    ensures NewlineCount(a + b) == NewlineCount(a) + NewlineCount(b)
    decreases |a|
  {
    if |a| == 0 {
      assert a + b == b;
    } else {
      assert (a + b)[1..] == a[1..] + b;
      NewlineCountAppend(a[1..], b);
    }
  }
}
