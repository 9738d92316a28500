/** When two texts agree on a stretch, their lexical chains agree on it too.

    This is what lets an edit be re-scanned: the chain of the edited text follows the chain of
    each piece it was built from. */
module Agreement {
  import opened Chars
  import opened Lexing

  /** `t` repeats `s[lo..hi]`, moved right by `d`. */
  ghost predicate Agree(s: Text, t: Text, d: nat, lo: nat, hi: nat) {
    && lo <= hi <= |s| && hi + d <= |t|
    && forall k {:trigger s[k]} :: lo <= k < hi ==> s[k] == t[k + d]
  }

  /** No character that could extend the lexeme before it. */
  predicate Inert(c: char) {
    !IsQuote(c) && c != '-' && c != '*'
  }

  /** The shared stretch runs to the end of both texts. */
  ghost predicate Tail(s: Text, t: Text, d: nat, hi: nat) {
    hi == |s| && |t| == |s| + d
  }

  /** A lexeme of `s` ending at `stop` is not affected by what differs at `hi` and beyond: it
      stops before it, both texts end there, or both continue with an inert character. */
  ghost predicate Settled(s: Text, t: Text, d: nat, hi: nat, stop: nat) {
    || stop < hi
    || Tail(s, t, d, hi)
    || (stop == hi < |s| && hi + d < |t| && Inert(s[hi]) && Inert(t[hi + d]))
  }

  function ShiftOption(r: Option<nat>, d: nat): Option<nat> {
    match r case Some(n) => Some(n + d) case None => None
  }

  function ShiftLexeme(r: Lexeme, d: nat): Lexeme {
    match r
    case Code => Code
    case Skip(n) => Skip(n + d)
    case Unclosed(e) => Unclosed(e.Shift(d))
  }

  /** The lexeme of `s` at `i` ends before `hi`, or at `hi` with nothing after it in either
      text that could extend it. */
  ghost predicate Cut(s: Text, t: Text, d: nat, hi: nat, i: nat)
    requires i < |s|
  {
    Next(s, i).Ok? && Ends(s, t, d, hi, Next(s, i).value) &&
    (IsLineComment(s, i) ==> Next(s, i).value < hi || s[Next(s, i).value - 1] == '\n')
  }

  ghost predicate Ends(s: Text, t: Text, d: nat, hi: nat, stop: nat) {
    || stop < hi
    || (stop == hi && hi + d < |t| && Inert(t[hi + d]) && (hi < |s| ==> Inert(s[hi])))
  }

  lemma {:induction false} LineEndAgrees(s: Text, t: Text, d: nat, lo: nat, hi: nat, i: nat)
    requires Agree(s, t, d, lo, hi) && lo <= i <= |s|
    requires Tail(s, t, d, hi) || (i < LineEnd(s, i) <= hi && s[LineEnd(s, i) - 1] == '\n')
    ensures i + d <= |t| && LineEnd(t, i + d) == LineEnd(s, i) + d
    decreases |s| - i
  {
    if i < |s| && s[i] != '\n' {
      LineEndAgrees(s, t, d, lo, hi, i + 1);
    }
  }

  lemma {:induction false} BlockEndAgrees(s: Text, t: Text, d: nat, lo: nat, hi: nat, i: nat)
    requires Agree(s, t, d, lo, hi) && lo <= i
    requires Tail(s, t, d, hi) || (BlockEnd(s, i).Some? && BlockEnd(s, i).value <= hi)
    ensures BlockEnd(t, i + d) == ShiftOption(BlockEnd(s, i), d)
    decreases |s| - i
  {
    if i + 1 < |s| && !(s[i] == '*' && s[i + 1] == '/') {
      BlockEndAgrees(s, t, d, lo, hi, i + 1);
    }
  }

  lemma {:induction false} QuoteEndAgrees(s: Text, t: Text, d: nat, lo: nat, hi: nat, q: char, i: nat)
    requires Agree(s, t, d, lo, hi) && lo <= i && IsQuote(q)
    requires Tail(s, t, d, hi) || (QuoteEnd(s, q, i).Some? && Ends(s, t, d, hi, QuoteEnd(s, q, i).value))
    ensures QuoteEnd(t, q, i + d) == ShiftOption(QuoteEnd(s, q, i), d)
    decreases |s| - i
  {
    if i < |s| {
      if s[i] == '\\' && i + 1 < |s| {
        QuoteEndAgrees(s, t, d, lo, hi, q, i + 2);
      } else if s[i] == q {
        if i + 1 < |s| && s[i + 1] == q {
          QuoteEndAgrees(s, t, d, lo, hi, q, i + 2);
        }
      } else {
        QuoteEndAgrees(s, t, d, lo, hi, q, i + 1);
      }
    }
  }

  lemma HeadsAgree(s: Text, t: Text, d: nat, lo: nat, hi: nat, i: nat)
    requires Agree(s, t, d, lo, hi) && lo <= i < hi
    requires Tail(s, t, d, hi) || Ends(s, t, d, hi, i + 1)
    ensures IsLineComment(t, i + d) == IsLineComment(s, i)
    ensures StartsTwo(t, i + d, '/', '*') == StartsTwo(s, i, '/', '*')
    ensures s[i] == t[i + d]
  {
    if i + 1 < hi {
      assert s[i + 1] == t[i + 1 + d];
    }
  }

  /** The lexeme at `i` is the same in both texts. */
  lemma NonCodeAgrees(s: Text, t: Text, d: nat, lo: nat, hi: nat, i: nat)
    requires Agree(s, t, d, lo, hi) && lo <= i < hi
    requires Tail(s, t, d, hi) || Cut(s, t, d, hi, i)
    ensures NonCode(t, i + d) == ShiftLexeme(NonCode(s, i), d)
  {
    HeadsAgree(s, t, d, lo, hi, i);
    if IsLineComment(s, i) {
      LineEndAgrees(s, t, d, lo, hi, i);
    } else if StartsTwo(s, i, '/', '*') {
      BlockEndAgrees(s, t, d, lo, hi, i + 2);
    } else if IsQuote(s[i]) {
      QuoteEndAgrees(s, t, d, lo, hi, s[i], i + 1);
    }
  }

  lemma NextAgrees(s: Text, t: Text, d: nat, lo: nat, hi: nat, i: nat)
    requires Agree(s, t, d, lo, hi) && lo <= i < hi
    requires Tail(s, t, d, hi) || Cut(s, t, d, hi, i)
    ensures Next(t, i + d) == ShiftIndex(Next(s, i), d)
  {
    NonCodeAgrees(s, t, d, lo, hi, i);
    hide NonCode;
  }

  /** A lexeme ending before `hi` is cut off there. */
  lemma CutBefore(s: Text, t: Text, d: nat, hi: nat, i: nat)
    requires i < |s| && Next(s, i).Ok? && Next(s, i).value < hi
    ensures Cut(s, t, d, hi, i)
  {
  }

  /** So is one ending at `hi`, when both texts continue there with inert characters. */
  lemma CutAt(s: Text, t: Text, d: nat, hi: nat, i: nat)
    requires i < |s| && Next(s, i).Ok? && Next(s, i).value <= hi < |s| && hi + d < |t|
    requires Inert(s[hi]) && Inert(t[hi + d])
    ensures Cut(s, t, d, hi, i)
  {
  }

  /** A chain inside the shared stretch is a chain of both texts. */
  lemma {:induction false} WalkAgrees(s: Text, t: Text, d: nat, lo: nat, hi: nat, i: nat, j: nat)
    requires Agree(s, t, d, lo, hi) && lo <= i && j <= hi && Walk(s, i, j)
    requires Settled(s, t, d, hi, j)
    ensures Walk(t, i + d, j + d)
    decreases |s| - i
  {
    hide Next;
    if i < j {
      WalkForward(s, Next(s, i).value, j);
      if Next(s, i).value < hi {
        CutBefore(s, t, d, hi, i);
      } else if !Tail(s, t, d, hi) {
        CutAt(s, t, d, hi, i);
      }
      NextAgrees(s, t, d, lo, hi, i);
      WalkAgrees(s, t, d, lo, hi, Next(s, i).value, j);
    }
  }
}
