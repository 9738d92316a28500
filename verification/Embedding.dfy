/** Text that can stand between parentheses without changing what surrounds it. */
module Embedding {
  import opened Chars
  import opened Lexing
  import opened Agreement
  import opened Scanners

  function Paren(p: Text): (r: Text)
    ensures |r| == |p| + 2 && r[0] == '('
  {
    "(" + p + ")"
  }

  /** Between parentheses the text stays there: its quotes and comments are closed, its
      parentheses balanced, and it does not end inside a line comment. */
  predicate Embeddable(p: Text) {
    Match(Paren(p), 1, 1, 0) == Ok(|p| + 1)
  }

  lemma {:induction false} MatchWord(t: Text, i: nat, end: nat, depth: nat, open: nat)
    requires i <= end <= |t| && 0 < depth
    requires forall k :: i <= k < end ==> IsIdentifierChar(t[k])
    ensures Match(t, i, depth, open) == Match(t, end, depth, open)
    decreases end - i
  {
    hide NonCode;
    if i < end {
      PlainIsCode(t, i);
      MatchWord(t, i + 1, end, depth, open);
    }
  }

  /** Text that closes `inner` parentheses leaves the outer `depth` ones as they were. */
  lemma {:induction false} MatchThrough(t: Text, i: nat, inner: nat, open: nat, c: nat, depth: nat, outer: nat)
    requires 0 < inner && 0 < depth && Match(t, i, inner, open) == Ok(c)
    ensures Match(t, i, depth + inner, outer) == Match(t, c + 1, depth, outer)
    decreases |t| - i
  {
    hide NonCode;
    match NonCode(t, i)
    case Skip(n) => MatchThrough(t, n, inner, open, c, depth, outer);
    case Code =>
      if t[i] == '(' {
        MatchThrough(t, i + 1, inner + 1, open, c, depth, outer);
      } else if t[i] == ')' {
        if inner > 1 {
          MatchThrough(t, i + 1, inner - 1, open, c, depth, outer);
        }
      } else {
        MatchThrough(t, i + 1, inner, open, c, depth, outer);
      }
  }

  lemma EmbeddedMatch(t: Text, a: nat, p: Text)
    requires Embeddable(p) && StartsWith(t, a, Paren(p))
    ensures Match(t, a + 1, 1, a) == Ok(a + |p| + 1)
  {
    hide StartsWith, Paren;
    var s := Paren(p);
    StartsWithAt(t, a, s, |s| - 1);
    forall k {:trigger s[k]} | 0 <= k < |s| ensures s[k] == t[k + a] {
      StartsWithAt(t, a, s, k);
    }
    MatchAgrees(s, t, a, 0, |s|, 1, 1, 0);
  }

  /** A parenthesised text is matched as a whole exactly when it is embeddable. */
  lemma EmbeddedExactly(t: Text, a: nat, p: Text)
    requires StartsWith(t, a, Paren(p))
    ensures Match(t, a + 1, 1, a) == Ok(a + |p| + 1) <==> Embeddable(p)
  {
    hide StartsWith, Paren;
    if Embeddable(p) {
      EmbeddedMatch(t, a, p);
    } else {
      var s := Paren(p);
      StartsWithAt(t, a, s, |s| - 1);
      var rest := t[a..];
      forall k {:trigger rest[k]} | 0 <= k < |s| ensures rest[k] == s[k] {
        StartsWithAt(t, a, s, k);
      }
      MatchAgrees(rest, t, a, 0, |rest|, 1, 1, 0);
      if Match(rest, 1, 1, 0) == Ok(|p| + 1) {
        MatchAgrees(rest, s, 0, 0, |s|, 1, 1, 0);
      }
    }
  }

  lemma MatchEmbedded(t: Text, a: nat, p: Text, depth: nat, open: nat)
    requires Embeddable(p) && StartsWith(t, a, Paren(p)) && 0 < depth
    ensures Match(t, a, depth, open) == Match(t, a + |p| + 2, depth, open)
  {
    hide NonCode, Paren, Embeddable, StartsWith;
    EmbeddedMatch(t, a, p);
    StartsWithAt(t, a, Paren(p), 0);
    PlainIsCode(t, a);
    MatchThrough(t, a + 1, 1, a, a + |p| + 1, depth, open);
  }

  lemma MatchHere(t: Text, i: nat, open: nat)
    requires i < |t| && t[i] == ')'
    ensures Match(t, i, 1, open) == Ok(i)
  {
    PlainIsCode(t, i);
  }
}
