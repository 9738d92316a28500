/** Re-scanning an edited template finds the conjunction that was asked for. */
module PredicateRescan {
  import opened Chars
  import opened Lexing
  import opened Agreement
  import opened Scanners
  import opened Embedding
  import opened Predicates

  /** The WHERE scan passes over parenthesised text and comes back to the depth it had. */
  lemma {:induction false} ScanThrough(t: Text, i: nat, inner: nat, open: nat, c: nat, depth: nat, w: Option<nat>)
    requires 0 < inner && Match(t, i, inner, open) == Ok(c) && (w.Some? ==> w.value <= i)
    ensures i <= c < |t| && Scan(t, i, depth + inner, w) == Scan(t, c + 1, depth, w)
    decreases |t| - i
  {
    hide NonCode;
    if IsIdentifierStart(t[i]) {
      var end := WordEnd(t, i + 1);
      WordEndFacts(t, i + 1);
      MatchWord(t, i, end, inner, open);
      ScanThrough(t, end, inner, open, c, depth, w);
    } else {
      match NonCode(t, i)
      case Skip(n) =>
        SkipIsNoParenthesis(t, i);
        ScanThrough(t, n, inner, open, c, depth, w);
      case Code =>
        if t[i] == '(' {
          ScanThrough(t, i + 1, inner + 1, open, c, depth, w);
        } else if t[i] == ')' {
          if inner > 1 {
            ScanThrough(t, i + 1, inner - 1, open, c, depth, w);
          }
        } else {
          ScanThrough(t, i + 1, inner, open, c, depth, w);
        }
    }
  }

  lemma SkipIsNoParenthesis(t: Text, i: nat)
    requires i < |t| && !IsCode(t, i)
    ensures t[i] != '(' && t[i] != ')'
  {
  }

  lemma ScanEmbedded(t: Text, a: nat, p: Text, depth: nat, w: Option<nat>)
    requires Embeddable(p) && StartsWith(t, a, Paren(p))
    requires w.Some? ==> w.value <= a
    ensures Scan(t, a, depth, w) == Scan(t, a + |p| + 2, depth, w)
  {
    hide NonCode;
    EmbeddedMatch(t, a, p);
    StartsWithAt(t, a, Paren(p), 0);
    PlainIsCode(t, a);
    ScanThrough(t, a + 1, 1, a, a + |p| + 1, depth, w);
  }

  lemma MatchAnd(t: Text, j: nat, depth: nat, open: nat)
    requires StartsWith(t, j, AndText()) && 0 < depth
    ensures Match(t, j, depth, open) == Match(t, j + 5, depth, open)
  {
    hide NonCode;
    forall k | j <= k < j + 5 ensures k < |t| && t[k] == " AND "[k - j] {
      StartsWithAt(t, j, " AND ", k - j);
    }
    PlainIsCode(t, j);
    MatchWord(t, j + 1, j + 4, depth, open);
    PlainIsCode(t, j + 4);
  }

  /** Conjoined embeddable texts are embeddable again. */
  lemma EmbeddableConjunction(a: Text, b: Text)
    requires Embeddable(a) && Embeddable(b)
    ensures Embeddable(Paren(a) + AndText() + Paren(b))
  {
    hide NonCode, Match, StartsWith, Embeddable, Paren, AndText;
    var inner := Paren(a) + AndText() + Paren(b);
    var t := Paren(inner);
    ParenInside(inner);
    StartsWithSplit(t, 1, Paren(a) + AndText(), Paren(b));
    StartsWithSplit(t, 1, Paren(a), AndText());
    MatchEmbedded(t, 1, a, 1, 0);
    MatchAnd(t, |a| + 3, 1, 0);
    MatchEmbedded(t, |a| + 8, b, 1, 0);
    MatchHere(t, |t| - 1, 0);
    EmbeddableByMatch(inner);
  }

  lemma ParenInside(p: Text)
    ensures StartsWith(Paren(p), 1, p) && Paren(p)[|p| + 1] == ')'
  {
    StartsWithPlaced("(", p, ")");
  }

  lemma EmbeddableByMatch(p: Text)
    requires Match(Paren(p), 1, 1, 0) == Ok(|p| + 1)
    ensures Embeddable(p)
  {
  }

  lemma EmbeddableInParentheses(p: Text)
    requires Embeddable(p)
    ensures Embeddable(Paren(p))
  {
    hide NonCode, Match, StartsWith, Embeddable, Paren;
    var t := Paren(Paren(p));
    ParenInside(Paren(p));
    MatchEmbedded(t, 1, p, 1, 0);
    MatchHere(t, |t| - 1, 0);
    EmbeddableByMatch(Paren(p));
  }

  // ------------------------------------------------------------------------------------------
  // The edited text is scanned like the template up to the edit

  lemma WordAgrees(s: Text, t: Text, lo: nat, hi: nat, i: nat, end: nat)
    requires Agree(s, t, 0, lo, hi) && lo <= i <= end <= hi
    ensures s[i..end] == t[i..end]
  {
    assert |s[i..end]| == |t[i..end]|;
    forall k | 0 <= k < end - i ensures s[i..end][k] == t[i..end][k] {
      assert s[i + k] == t[i + k + 0];
    }
  }

  /** The word at `i` is the same in both texts. */
  lemma SameWord(s: Text, t: Text, hi: nat, i: nat)
    requires Agree(s, t, 0, 0, hi) && i < hi < |t| && WordEnd(s, i + 1) <= hi
    requires WordEnd(s, i + 1) == hi ==> !IsIdentifierChar(t[hi])
    ensures WordEnd(t, i + 1) == WordEnd(s, i + 1) && s[i] == t[i]
    ensures s[i..WordEnd(s, i + 1)] == t[i..WordEnd(s, i + 1)]
  {
    hide IsIdentifierChar, WordEnd;
    WordEndAgrees(s, t, 0, 0, hi, i + 1);
    WordAgrees(s, t, 0, hi, i, WordEnd(s, i + 1));
  }

  /** A template cut at its boundary keyword and continued with another word. */
  lemma {:induction false} ScanToBoundary(s: Text, t: Text, i: nat, depth: nat, w: Option<nat>)
    requires i <= |s| && (w.Some? ==> w.value <= i)
    requires Scan(s, i, depth, w).Ok?
    requires var p := Scan(s, i, depth, w).value;
             p.boundary < |s| && p.boundary < |t| && Agree(s, t, 0, 0, p.boundary)
             && IsIdentifierStart(t[p.boundary])
    ensures var p := Scan(s, i, depth, w).value;
            Scan(t, i, depth, w) == Scan(t, p.boundary, 0, p.whereEnd)
    decreases |s| - i
  {
    hide Next, IsBoundary, Upper, IsIdentifierChar, IsIdentifierStart;
    var p := Scan(s, i, depth, w).value;
    var b := p.boundary;
    ScanFacts(s, i, depth, w);
    StartIsChar(s[b]);
    StartIsChar(t[b]);
    if i < b {
      if IsIdentifierStart(s[i]) {
        var end := WordEnd(s, i + 1);
        WordEndFacts(s, i + 1);
        SameWord(s, t, b, i);
        var word := Upper(s[i..end]);
        if depth == 0 && word == "WHERE" && w.None? {
          ScanToBoundary(s, t, end, depth, Some(end));
        } else {
          ScanToBoundary(s, t, end, depth, w);
        }
      } else {
        CutAt(s, t, 0, b, i);
        NextAgrees(s, t, 0, 0, b, i);
        ScanToBoundary(s, t, Next(s, i).value, DepthAfter(s[i], depth), w);
      }
    }
  }

  lemma StartIsChar(c: char)
    requires IsIdentifierStart(c)
    ensures IsIdentifierChar(c) && Inert(c)
  {
  }

  /** A template cut after its WHERE and continued with a space. */
  lemma {:induction false} ScanToWhere(s: Text, t: Text, i: nat, depth: nat)
    requires i <= |s| && Scan(s, i, depth, None).Ok?
    requires var p := Scan(s, i, depth, None).value;
             && p.whereEnd.Some? && p.whereEnd.value < |t|
             && Agree(s, t, 0, 0, p.whereEnd.value) && t[p.whereEnd.value] == ' '
    ensures var w := Scan(s, i, depth, None).value.whereEnd;
            i <= w.value <= |t| && Scan(t, i, depth, None) == Scan(t, w.value, 0, w)
    decreases |s| - i
  {
    hide Next, IsBoundary, Upper, IsIdentifierStart;
    var w := Scan(s, i, depth, None).value.whereEnd.value;
    ScanFacts(s, i, depth, None);
    if IsIdentifierStart(s[i]) {
      var end := WordEnd(s, i + 1);
      var word := Upper(s[i..end]);
      if depth == 0 && word == "WHERE" {
        ScanFacts(s, end, depth, Some(end));
      } else {
        ScanFacts(s, end, depth, None);
      }
      SameWord(s, t, w, i);
      if !(depth == 0 && word == "WHERE") {
        ScanToWhere(s, t, end, depth);
      }
    } else {
      var n := Next(s, i).value;
      ScanFacts(s, n, DepthAfter(s[i], depth), None);
      CutBefore(s, t, 0, w, i);
      NextAgrees(s, t, 0, 0, w, i);
      ScanToWhere(s, t, n, DepthAfter(s[i], depth));
    }
  }

  /** A template scanned to its end and continued on a new line, which also ends a comment. */
  lemma {:induction false} ScanToEnd(s: Text, t: Text, i: nat, depth: nat, w: Option<nat>)
    requires i <= |s| && (w.Some? ==> w.value <= i)
    requires Scan(s, i, depth, w).Ok? && Scan(s, i, depth, w).value.boundary == |s|
    requires |s| < |t| && Agree(s, t, 0, 0, |s|) && t[|s|] == '\n'
    ensures var p := Scan(s, i, depth, w).value;
            Scan(t, i, depth, w) == Scan(t, |s| + 1, p.depth, p.whereEnd)
    decreases |s| - i
  {
    hide Next, IsBoundary, Upper;
    if i == |s| {
      PlainIsCode(t, i);
    } else if IsIdentifierStart(s[i]) {
      var end := WordEnd(s, i + 1);
      SameWord(s, t, |s|, i);
      var word := Upper(s[i..end]);
      if depth == 0 && word == "WHERE" && w.None? {
        ScanToEnd(s, t, end, depth, Some(end));
      } else {
        ScanToEnd(s, t, end, depth, w);
      }
    } else {
      var n := Next(s, i).value;
      NextBeforeNewline(s, t, i);
      ScanToEnd(s, t, n, DepthAfter(s[i], depth), w);
      if Next(t, i) != Ok(n) {
        CommentIsNoParenthesis(s, i);
      }
    }
  }

  lemma CommentIsNoParenthesis(s: Text, i: nat)
    requires IsLineComment(s, i)
    ensures s[i] != '(' && s[i] != ')'
  {
  }

  lemma NextBeforeNewline(s: Text, t: Text, i: nat)
    requires |s| < |t| && Agree(s, t, 0, 0, |s|) && t[|s|] == '\n'
    requires i < |s| && Next(s, i).Ok?
    ensures || Next(t, i) == Next(s, i)
            || (IsLineComment(s, i) && Next(s, i) == Ok(|s|) && Next(t, i) == Ok(|s| + 1))
  {
    if IsLineComment(s, i) && Next(s, i).value == |s| && s[|s| - 1] != '\n' {
      assert IsLineComment(t, i);
      LineEndRunsOn(s, t, i);
    } else {
      assert Cut(s, t, 0, |s|, i);
      NextAgrees(s, t, 0, 0, |s|, i);
    }
  }

  lemma {:induction false} LineEndRunsOn(s: Text, t: Text, i: nat)
    requires |s| < |t| && Agree(s, t, 0, 0, |s|) && t[|s|] == '\n'
    requires i <= |s| && LineEnd(s, i) == |s| && (i < |s| ==> s[|s| - 1] != '\n')
    ensures LineEnd(t, i) == |s| + 1
    decreases |s| - i
  {
    if i < |s| {
      LineEndRunsOn(s, t, i + 1);
    }
  }

  // ------------------------------------------------------------------------------------------
  // The inserted text

  lemma ScanPlain(t: Text, i: nat, depth: nat, w: Option<nat>)
    requires i < |t| && (t[i] == ' ' || t[i] == '\n') && (w.Some? ==> w.value <= i)
    ensures Scan(t, i, depth, w) == Scan(t, i + 1, depth, w)
  {
    hide NonCode;
    PlainIsCode(t, i);
  }

  predicate IsWord(word: Text) {
    && word != [] && IsIdentifierStart(word[0]) && PlainKeyword(word)
    && forall k :: 0 <= k < |word| ==> IsIdentifierChar(word[k])
  }

  lemma KeywordFacts()
    ensures IsWord("AND") && IsWord("WHERE") && !IsBoundary("AND")
  {
  }

  lemma WordSpan(t: Text, j: nat, word: Text)
    requires IsWord(word) && StartsWith(t, j, word) && StartsWith(t, j + |word|, " ")
    ensures j + |word| < |t| && WordEnd(t, j + 1) == j + |word|
  {
    assert !IsIdentifierChar(' ');
    hide PlainKeyword, IsIdentifierStart, IsIdentifierChar, WordEnd, StartsWith;
    StartsWithAt(t, j + |word|, " ", 0);
    forall k | j + 1 <= k < j + |word| ensures k < |t| && IsIdentifierChar(t[k]) {
      StartsWithAt(t, j, word, k - j);
    }
    WordEndsAt(t, j + 1, j + |word|);
  }

  /** A keyword written at `j` and followed by a space is read as that word. */
  lemma WordReadAt(t: Text, j: nat, word: Text)
    requires IsWord(word) && StartsWith(t, j, word + " ")
    ensures j < |t| && IsIdentifierStart(t[j]) && WordEnd(t, j + 1) == j + |word| <= |t|
    ensures Upper(t[j..j + |word|]) == word
  {
    hide PlainKeyword, IsIdentifierStart, IsIdentifierChar, Upper, WordEnd, StartsWith;
    StartsWithSplit(t, j, word, " ");
    WordSpan(t, j, word);
    StartsWithAt(t, j, word, 0);
    SliceHere(t, j, word);
    UpperKeyword(word);
  }

  lemma SliceHere(t: Text, j: nat, piece: Text)
    requires StartsWith(t, j, piece)
    ensures j + |piece| <= |t| && t[j..j + |piece|] == piece
  {
  }

  lemma ScanAnd(t: Text, j: nat, depth: nat, w: Option<nat>)
    requires StartsWith(t, j, AndText()) && (w.Some? ==> w.value <= j)
    ensures Scan(t, j, depth, w) == Scan(t, j + 5, depth, w)
  {
    hide NonCode, Next, WordEnd, IsBoundary, IsWord, Upper, IsIdentifierStart;
    assert " AND " == " " + ("AND" + " ");
    StartsWithSplit(t, j, " ", "AND" + " ");
    StartsWithAt(t, j, " ", 0);
    StartsWithAt(t, j, " AND ", 4);
    KeywordFacts();
    ScanPlain(t, j, depth, w);
    WordReadAt(t, j + 1, "AND");
    ScanPlain(t, j + 4, depth, w);
  }

  lemma ScanWhere(t: Text, j: nat, depth: nat)
    requires StartsWith(t, j, WhereText())
    ensures Scan(t, j, depth, None) ==
            if depth == 0 then Scan(t, j + 6, 0, Some(j + 5)) else Scan(t, j + 6, depth, None)
  {
    hide NonCode, Next, WordEnd, IsBoundary, IsWord, Upper, IsIdentifierStart;
    assert "WHERE " == "WHERE" + " ";
    StartsWithAt(t, j, "WHERE ", 5);
    KeywordFacts();
    WordReadAt(t, j, "WHERE");
    if depth == 0 {
      ScanPlain(t, j + 5, 0, Some(j + 5));
    } else {
      ScanPlain(t, j + 5, depth, None);
    }
  }

  lemma TailWord(s: Text, b: nat)
    requires b < |s|
    ensures var tail := s[b..];
            && s[b] == tail[0] && WordEnd(s, b + 1) == WordEnd(tail, 1) + b
            && s[b..WordEnd(s, b + 1)] == tail[..WordEnd(tail, 1)]
  {
    WordEndAgrees(s[b..], s, b, 0, |s[b..]|, 1);
  }

  /** The tail still starts with its boundary keyword. */
  lemma ScanBoundary(s: Text, b: nat, t: Text, a: nat, w: Option<nat>)
    requires BoundaryAt(s, b) && a <= |t| && t[a..] == s[b..] && (w.Some? ==> w.value <= a)
    ensures Scan(t, a, 0, w) == Ok(Positions(w, a, 0))
  {
    assert !IsBoundary("WHERE");
    hide NonCode, Next, WordEnd, IsBoundary, Upper, IsIdentifierStart;
    assert |t| - a == |t[a..]| == |s| - b;
    TailWord(s, b);
    TailWord(t, a);
  }

  // ------------------------------------------------------------------------------------------
  // The theorems

  /** The outer WHERE clause of a text, if it has one. */
  function Clause(s: Text): Option<Text> {
    match Scan(s, 0, 0, None)
    case Ok(Positions(Some(w), b, _)) => Some(Strip(s[w..b]))
    case _ => None
  }

  lemma TrimmedConjunction(clause: Option<Text>, p: Text, pad: Text)
    requires AllSpace(pad)
    ensures Strip(" " + Conjoined(clause, p) + pad) == Conjoined(clause, p)
  {
    hide Strip;
    StripPadded(" ", Conjoined(clause, p), pad);
  }

  /** Where the pieces of an edited template are. */
  lemma Pieces(left: Text, lead: Text, clause: Text, tail: Text)
    ensures var out := left + (lead + clause) + tail;
            && StartsWith(out, |left|, lead) && StartsWith(out, |left| + |lead|, clause)
            && StartsWith(out, |left| + |lead| + |clause|, tail)
            && |out| == |left| + |lead| + |clause| + |tail|
            && out[..|left|] == left
  {
    hide StartsWith;
    var out := left + (lead + clause) + tail;
    StartsWithPlaced(left, lead + clause, tail);
    StartsWithSplit(out, |left|, lead, clause);
    assert out == left + (lead + clause) + tail + [];
    StartsWithPlaced(left + (lead + clause), tail, []);
  }

  /** The text between WHERE and the tail, and the tail itself. */
  lemma Between(left: Text, clause: Text, pad: Text, rest: Text)
    ensures var out := left + (" " + clause) + (pad + rest);
            && out[|left|..|out| - |rest|] == " " + clause + pad
            && out[|out| - |rest|..] == rest && out[..|left|] == left
  {
  }

  lemma TailedSplits(template: Text, b: nat)
    requires b <= |template|
    ensures var pad := if b == |template| then "" else "\n";
            Tailed(template, b) == pad + template[b..] && AllSpace(pad)
  {
  }

  /** The clause found again in an edited template. */
  lemma ClauseFound(left: Text, clause: Option<Text>, p: Text, template: Text, b: nat)
    requires b <= |template|
    ensures var out := left + (" " + Conjoined(clause, p)) + Tailed(template, b);
            var b' := |out| - (|template| - b);
            && |left| <= b' <= |out| && out[..|left|] == left && out[b'..] == template[b..]
            && Strip(out[|left|..b']) == Conjoined(clause, p)
  {
    hide Strip, Conjoined, Tailed;
    TailedSplits(template, b);
    var pad := if b == |template| then "" else "\n";
    Between(left, Conjoined(clause, p), pad, template[b..]);
    TrimmedConjunction(clause, p, pad);
  }

  /** After the conjunction comes the end of the text, or a newline and the boundary keyword. */
  lemma ScanTail(template: Text, b: nat, out: Text, j: nat, w: nat)
    requires b <= |template| && w <= j && j + |Tailed(template, b)| == |out|
    requires StartsWith(out, j, Tailed(template, b))
    requires b < |template| ==> BoundaryAt(template, b)
    ensures Scan(out, j, 0, Some(w)) == Ok(Positions(Some(w), |out| - (|template| - b), 0))
  {
    hide Scan, BoundaryAt;
    if b < |template| {
      StartsWithSplit(out, j, "\n", template[b..]);
      StartsWithAt(out, j, "\n", 0);
      ScanPlain(out, j, 0, Some(w));
      assert out[j + 1..] == template[b..];
      ScanBoundary(template, b, out, j + 1, Some(w));
    } else {
      ScanEnd(out, 0, Some(w));
    }
  }

  /** Scanning a conjunction and the tail after it, from just after WHERE. */
  lemma ScanConjunction(out: Text, w: nat, segment: Text, p: Text)
    requires Embeddable(p) && Embeddable(segment)
    requires StartsWith(out, w, " ") && StartsWith(out, w + 1, Paren(segment) + AndText() + Paren(p))
    ensures w + 10 + |segment| + |p| <= |out|
    ensures Scan(out, w, 0, Some(w)) == Scan(out, w + 10 + |segment| + |p|, 0, Some(w))
  {
    hide Scan, Embeddable, StartsWith, Paren, AndText;
    var j := w + 3 + |segment|;
    StartsWithSplit(out, w + 1, Paren(segment) + AndText(), Paren(p));
    StartsWithSplit(out, w + 1, Paren(segment), AndText());
    StartsWithAt(out, w, " ", 0);
    StartsWithAt(out, j + 5, Paren(p), |p| + 1);
    ScanPlain(out, w, 0, Some(w));
    ScanEmbedded(out, w + 1, segment, 0, Some(w));
    ScanAnd(out, j, 0, Some(w));
    ScanEmbedded(out, j + 5, p, 0, Some(w));
  }

  /** With a WHERE clause, the edit replaces exactly that clause by the conjunction. */
  lemma AppendToClause(template: Text, p: Text, w: nat, b: nat)
    requires Scan(template, 0, 0, None).Ok?
    requires var q := Scan(template, 0, 0, None).value; q.whereEnd == Some(w) && q.boundary == b
    requires Embeddable(p) && Embeddable(Strip(template[w..b]))
    ensures Append(template, p).Ok?
    ensures var out := Append(template, p).value;
            var b' := |out| - (|template| - b);
            && w <= b' && Scan(out, 0, 0, None) == Ok(Positions(Some(w), b', 0))
            && out[..w] == template[..w] && out[b'..] == template[b..]
            && Strip(out[w..b']) == Conjoined(Some(Strip(template[w..b])), p)
  {
    hide Scan, Strip, Embeddable, BoundaryAt, StartsWith, Tailed, Paren, AndText;
    ScanFacts(template, 0, 0, None);
    var segment := Strip(template[w..b]);
    var clause := Conjoined(Some(segment), p);
    var out := Append(template, p).value;
    Pieces(template[..w], " ", clause, Tailed(template, b));
    StartsWithAt(out, w, " ", 0);
    PrefixAgrees(template, out, w);
    ScanToWhere(template, out, 0, 0);
    ScanConjunction(out, w, segment, p);
    ScanTail(template, b, out, w + 1 + |clause|, w);
    ClauseFound(template[..w], Some(segment), p, template, b);
  }

  lemma LeadSplits(left: Text, clause: Text, tail: Text)
    ensures left + (WhereText() + clause) + tail == (left + "WHERE") + (" " + clause) + tail
  {
    assert WhereText() == "WHERE" + " ";
  }

  lemma LineLeadSplits(left: Text, clause: Text)
    ensures left + ("\n" + WhereText() + clause) + "" == (left + "\nWHERE") + (" " + clause) + ""
  {
    assert "\n" + WhereText() == "\nWHERE" + " ";
  }

  lemma PrefixAgrees(s: Text, t: Text, n: nat)
    requires n <= |s| && n <= |t| && t[..n] == s[..n]
    ensures Agree(s, t, 0, 0, n)
  {
    forall k {:trigger s[k]} | 0 <= k < n ensures s[k] == t[k + 0] {
      assert s[..n][k] == t[..n][k];
    }
  }

  /** Without one but with a boundary keyword, the clause is written just before it. */
  lemma AppendBeforeBoundary(template: Text, p: Text, b: nat)
    requires Scan(template, 0, 0, None).Ok? && Embeddable(p)
    requires var q := Scan(template, 0, 0, None).value; q.whereEnd.None? && q.boundary == b < |template|
    ensures Append(template, p).Ok?
    ensures var out := Append(template, p).value;
            var b' := |out| - (|template| - b);
            && b + 5 <= b' && Scan(out, 0, 0, None) == Ok(Positions(Some(b + 5), b', 0))
            && out[..b + 5] == template[..b] + "WHERE" && out[b'..] == template[b..]
            && Strip(out[b + 5..b']) == Conjoined(None, p)
  {
    hide Scan, Strip, Embeddable, BoundaryAt, StartsWith, IsIdentifierStart, Tailed, Paren, WhereText;
    ScanFacts(template, 0, 0, None);
    var out := Append(template, p).value;
    Pieces(template[..b], WhereText(), Paren(p), Tailed(template, b));
    StartsWithAt(out, b, WhereText(), 0);
    BoundaryStarts(template, b, out);
    PrefixAgrees(template, out, b);
    ScanToBoundary(template, out, 0, 0, None);
    ScanWhere(out, b, 0);
    ScanEmbedded(out, b + 6, p, 0, Some(b + 5));
    ScanTail(template, b, out, b + 8 + |p|, b + 5);
    LeadSplits(template[..b], Paren(p), Tailed(template, b));
    ClauseFound(template[..b] + "WHERE", None, p, template, b);
  }

  lemma BoundaryStarts(template: Text, b: nat, out: Text)
    requires BoundaryAt(template, b) && b < |out| && out[b] == 'W'
    ensures IsIdentifierStart(template[b]) && IsIdentifierStart(out[b])
  {
  }

  /** With neither, the clause goes on a new line; it is found again exactly when the template
      leaves no parenthesis open. */
  lemma AppendAtEnd(template: Text, p: Text)
    requires Scan(template, 0, 0, None).Ok? && Embeddable(p)
    requires var q := Scan(template, 0, 0, None).value; q.whereEnd.None? && q.boundary == |template|
    ensures Append(template, p).Ok?
    ensures var out := Append(template, p).value;
            var w, depth := |template| + 6, Scan(template, 0, 0, None).value.depth;
            && w <= |out| && out[..w] == template + "\nWHERE"
            && Strip(out[w..|out|]) == Conjoined(None, p)
            && Scan(out, 0, 0, None) == Ok(Positions(if depth == 0 then Some(w) else None, |out|, depth))
  {
    hide Scan, Strip, Embeddable, StartsWith, Paren, WhereText;
    var n, depth := |template|, Scan(template, 0, 0, None).value.depth;
    var out := Append(template, p).value;
    assert template[..n] == template && Tailed(template, n) == "";
    Pieces(template, "\n" + WhereText(), Paren(p), "");
    StartsWithSplit(out, n, "\n", WhereText());
    StartsWithAt(out, n, "\n", 0);
    PrefixAgrees(template, out, n);
    ScanToEnd(template, out, 0, 0, None);
    ScanWhere(out, n + 1, depth);
    var w := if depth == 0 then Some(n + 6) else None;
    ScanEmbedded(out, n + 7, p, depth, w);
    ScanEnd(out, depth, w);
    LineLeadSplits(template, Paren(p));
    ClauseFound(template + "\nWHERE", None, p, template, n);
  }

  lemma ScanEnd(t: Text, depth: nat, w: Option<nat>)
    requires w.Some? ==> w.value <= |t|
    ensures Scan(t, |t|, depth, w) == Ok(Positions(w, |t|, depth))
  {
  }

  /** A template the edit is meant for: its WHERE text, if any, stays between parentheses, and
      when there is neither WHERE nor boundary keyword every parenthesis is closed. */
  predicate Appendable(template: Text) {
    match Scan(template, 0, 0, None)
    case Err(_) => false
    case Ok(Positions(Some(w), b, _)) => Embeddable(Strip(template[w..b]))
    case Ok(Positions(None, b, depth)) => b == |template| ==> depth == 0
  }

  /** The text from the boundary keyword on. */
  function Remainder(s: Text): Text {
    match Scan(s, 0, 0, None) case Ok(p) => s[p.boundary..] case Err(_) => s
  }

  /** Appending conjoins: the re-scanned clause is the old one and the new predicate, the
      remainder is kept, and the result can be appended to again. */
  lemma AppendConjoins(template: Text, p: Text)
    requires Appendable(template) && Embeddable(p)
    ensures Append(template, p).Ok?
    ensures var out := Append(template, p).value;
            && Clause(out) == Some(Conjoined(Clause(template), p))
            && Remainder(out) == Remainder(template)
            && Appendable(out)
  {
    hide Scan, Strip, Embeddable;
    var q := Scan(template, 0, 0, None).value;
    match q.whereEnd
    case Some(w) =>
      AppendToClause(template, p, w, q.boundary);
      EmbeddableConjunction(Strip(template[w..q.boundary]), p);
    case None =>
      EmbeddableInParentheses(p);
      if q.boundary == |template| {
        AppendAtEnd(template, p);
      } else {
        AppendBeforeBoundary(template, p, q.boundary);
      }
  }

  function AppendAll(template: Text, ps: seq<Text>): Result<Text>
    decreases |ps|
  {
    if ps == [] then Ok(template)
    else match Append(template, ps[0])
      case Ok(out) => AppendAll(out, ps[1..])
      case Err(e) => Err(e)
  }

  function ConjoinedAll(clause: Option<Text>, ps: seq<Text>): Option<Text>
    decreases |ps|
  {
    if ps == [] then clause else ConjoinedAll(Some(Conjoined(clause, ps[0])), ps[1..])
  }

  /** Any number of appends conjoin in order and never touch the remainder. */
  lemma {:induction false} AppendAllConjoins(template: Text, ps: seq<Text>)
    requires Appendable(template) && forall k :: 0 <= k < |ps| ==> Embeddable(ps[k])
    ensures AppendAll(template, ps).Ok?
    ensures var out := AppendAll(template, ps).value;
            && Clause(out) == ConjoinedAll(Clause(template), ps)
            && Remainder(out) == Remainder(template)
            && Appendable(out)
    decreases |ps|
  {
    hide Append, Appendable, Clause, Remainder, Embeddable, Conjoined;
    if ps != [] {
      AppendConjoins(template, ps[0]);
      AppendAllConjoins(Append(template, ps[0]).value, ps[1..]);
    }
  }

  // ------------------------------------------------------------------------------------------
  // When the edit does not do what it is for

  /** In `out` the parenthesis written before the template's WHERE text is closed right behind it. */
  predicate Encloses(template: Text, out: Text) {
    match Scan(template, 0, 0, None)
    case Ok(Positions(Some(w), b, _)) =>
      Match(out, w + 2, 1, w + 1) == Ok(w + 2 + |Strip(template[w..b])|)
    case _ => true
  }

  /** The old clause is enclosed as a whole, the re-scanned clause is it and the new predicate, and
      the remainder is kept, if and only if the template is one the edit is meant for. */
  lemma AppendConjoinsExactly(template: Text, p: Text)
    requires Scan(template, 0, 0, None).Ok? && Embeddable(p)
    ensures Append(template, p).Ok?
    ensures var out := Append(template, p).value;
            && Encloses(template, out)
            && Clause(out) == Some(Conjoined(Clause(template), p))
            && Remainder(out) == Remainder(template)
            <==> Appendable(template)
  {
    hide Scan, Strip, Embeddable, Match, Conjoined, BoundaryAt;
    ScanFacts(template, 0, 0, None);
    var q := Scan(template, 0, 0, None).value;
    if Appendable(template) {
      AppendConjoins(template, p);
    }
    match q.whereEnd
    case Some(w) => AppendEncloses(template, p, w, q.boundary);
    case None =>
      if q.boundary == |template| {
        AppendAtEnd(template, p);
      }
  }

  lemma AppendEncloses(template: Text, p: Text, w: nat, b: nat)
    requires Scan(template, 0, 0, None).Ok?
    requires var q := Scan(template, 0, 0, None).value; q.whereEnd == Some(w) && q.boundary == b
    ensures w <= b <= |template| && Append(template, p).Ok?
    ensures Encloses(template, Append(template, p).value) <==> Embeddable(Strip(template[w..b]))
  {
    hide Scan, Strip, Embeddable, BoundaryAt, StartsWith, Tailed, Paren, AndText, Match;
    ScanFacts(template, 0, 0, None);
    var segment := Strip(template[w..b]);
    var out := Append(template, p).value;
    Pieces(template[..w], " ", Conjoined(Some(segment), p), Tailed(template, b));
    StartsWithSplit(out, w + 1, Paren(segment) + AndText(), Paren(p));
    StartsWithSplit(out, w + 1, Paren(segment), AndText());
    EmbeddedExactly(out, w + 1, segment);
  }

  /** A text that ends inside a line comment is not embeddable. */
  lemma CommentSwallows(p: Text, at: nat)
    requires at + 1 < |p| && p[at] == '-' && p[at + 1] == '-'
    requires forall k :: 0 <= k < at ==> IsPlain(p[k]) && p[k] != '(' && p[k] != ')'
    requires forall k :: at <= k < |p| ==> p[k] != '\n'
    ensures !Embeddable(p)
  {
    var s := Paren(p);
    assert forall k :: 0 <= k < |p| ==> s[k + 1] == p[k];
    hide NonCode;
    MatchPlain(s, 1, at + 1, 0);
    CommentToEnd(s, at + 1);
  }

  lemma {:induction false} MatchPlain(s: Text, i: nat, j: nat, open: nat)
    requires i <= j <= |s| && forall k :: i <= k < j ==> IsPlain(s[k]) && s[k] != '(' && s[k] != ')'
    ensures Match(s, i, 1, open) == Match(s, j, 1, open)
    decreases j - i
  {
    hide NonCode;
    if i < j {
      PlainIsCode(s, i);
      MatchPlain(s, i + 1, j, open);
    }
  }

  lemma CommentToEnd(s: Text, i: nat)
    requires i + 1 < |s| && s[i] == '-' && s[i + 1] == '-' && forall k :: i <= k < |s| - 1 ==> s[k] != '\n'
    requires s[|s| - 1] != '\n'
    ensures Match(s, i, 1, 0).Err?
  {
    EndsAtEnd(s, i);
  }

  lemma {:induction false} EndsAtEnd(s: Text, i: nat)
    requires i <= |s| && forall k :: i <= k < |s| ==> s[k] != '\n'
    ensures LineEnd(s, i) == |s|
    decreases |s| - i
  {
    if i < |s| {
      EndsAtEnd(s, i + 1);
    }
  }

  /** Such a template: stripping drops the line feed that ends the comment of its WHERE text, so
      what the edit writes behind it is commented out. */
  lemma CommentHidesThePredicate(p: Text)
    requires Embeddable(p)
    ensures var template := "WHERE a -- note\nORDER BY b";
            && Scan(template, 0, 0, None) == Ok(Positions(Some(5), 16, 0)) && !Appendable(template)
            && Append(template, p).Ok? && !Encloses(template, Append(template, p).value)
  {
    hide Scan, Strip, Embeddable, Append, Encloses;
    CommentedScan();
    CommentedClause();
    AppendEncloses("WHERE a -- note\nORDER BY b", p, 5, 16);
  }

  lemma CommentedClause()
    ensures !Embeddable(Strip("WHERE a -- note\nORDER BY b"[5..16]))
  {
    hide Strip, Embeddable;
    var template: Text, clause: Text := "WHERE a -- note\nORDER BY b", "a -- note";
    assert template[5..16] == [' '] + clause + ['\n'];
    StripPadded([' '], clause, ['\n']);
    CommentSwallows(clause, 2);
  }

  lemma CommentedScan()
    ensures Scan("WHERE a -- note\nORDER BY b", 0, 0, None) == Ok(Positions(Some(5), 16, 0))
  {
    hide Scan, Upper, IsBoundary, WordEnd, Next;
    var t: Text := "WHERE a -- note\nORDER BY b";
    assert t[0..6] == "WHERE" + " " && t[16..22] == "ORDER" + " ";
    KeywordFacts();
    OrderIsBoundary();
    WordReadAt(t, 0, "WHERE");
    ScanWhereWord(t, 0, 5);
    CommentedRest();
  }

  lemma OrderIsBoundary()
    ensures IsWord("ORDER") && IsBoundary("ORDER")
  {
  }

  lemma ScanWhereWord(t: Text, i: nat, end: nat)
    requires i < |t| && IsIdentifierStart(t[i]) && WordEnd(t, i + 1) == end && Upper(t[i..end]) == "WHERE"
    ensures end <= |t| && Scan(t, i, 0, None) == Scan(t, end, 0, Some(end))
  {
    hide Upper, WordEnd, Next, IsBoundary;
  }

  lemma CommentedRest()
    ensures Scan("WHERE a -- note\nORDER BY b", 5, 0, Some(5)) == Ok(Positions(Some(5), 16, 0))
  {
    hide Scan, Upper, IsBoundary, WordEnd, Next;
    var t: Text := "WHERE a -- note\nORDER BY b";
    ScanPlain(t, 5, 0, Some(5));
    WordEndsAt(t, 7, 7);
    ShortIsNoBoundary(t, 6);
    ScanOther(t, 6, 7, Some(5));
    ScanPlain(t, 7, 0, Some(5));
    CommentedNext();
    ScanSkip(t, 8, 16, Some(5));
    assert t[16..22] == "ORDER" + " ";
    OrderIsBoundary();
    WordReadAt(t, 16, "ORDER");
    ScanBoundaryWord(t, 16, 21, Some(5));
  }

  lemma ShortIsNoBoundary(t: Text, i: nat)
    requires i < |t| && t[i] == 'a'
    ensures !IsBoundary(Upper(t[i..i + 1])) && Upper(t[i..i + 1]) != "WHERE"
  {
    assert t[i..i + 1] == ['a'];
    assert Upper(['a']) == "A" + Upper([]);
  }

  lemma CommentedNext()
    ensures Next("WHERE a -- note\nORDER BY b", 8) == Ok(16)
  {
    var t: Text := "WHERE a -- note\nORDER BY b";
    assert LineEnd(t, 15) == 16;
    assert LineEnd(t, 14) == 16;
    assert LineEnd(t, 13) == 16;
    assert LineEnd(t, 12) == 16;
    assert LineEnd(t, 11) == 16;
    assert LineEnd(t, 10) == 16;
    assert LineEnd(t, 9) == 16;
    assert LineEnd(t, 8) == 16;
  }

  lemma ScanOther(t: Text, i: nat, end: nat, w: Option<nat>)
    requires i < |t| && IsIdentifierStart(t[i]) && WordEnd(t, i + 1) == end && (w.Some? ==> w.value <= i)
    requires !IsBoundary(Upper(t[i..end])) && Upper(t[i..end]) != "WHERE"
    ensures end <= |t| && Scan(t, i, 0, w) == Scan(t, end, 0, w)
  {
    hide Upper, WordEnd, Next, IsBoundary;
  }

  lemma ScanSkip(t: Text, i: nat, next: nat, w: Option<nat>)
    requires i < |t| && t[i] == '-' && Next(t, i) == Ok(next) && (w.Some? ==> w.value <= i)
    ensures next <= |t| && Scan(t, i, 0, w) == Scan(t, next, 0, w)
  {
    hide Upper, WordEnd, Next, IsBoundary;
  }

  lemma ScanBoundaryWord(t: Text, i: nat, end: nat, w: Option<nat>)
    requires i < |t| && IsIdentifierStart(t[i]) && WordEnd(t, i + 1) == end && (w.Some? ==> w.value <= i)
    requires end <= |t| && IsBoundary(Upper(t[i..end])) && w.Some?
    ensures Scan(t, i, 0, w) == Ok(Positions(w, i, 0))
  {
    hide Upper, WordEnd, Next, IsBoundary;
  }

  // ------------------------------------------------------------------------------------------
  // Where a clause ends

  /** In any case: the twelve keywords that end a WHERE clause. */
  predicate EndsClause(word: Text) {
    var w := Upper(word);
    || w == "GROUP" || w == "HAVING" || w == "WINDOW" || w == "QUALIFY" || w == "ORDER" || w == "LIMIT"
    || w == "OFFSET" || w == "SETTINGS" || w == "FORMAT" || w == "UNION" || w == "EXCEPT" || w == "INTERSECT"
  }

  /** An identifier, whatever follows it. */
  predicate IsWholeWord(word: Text, rest: Text) {
    && word != [] && IsIdentifierStart(word[0]) && (forall k :: 0 <= k < |word| ==> IsIdentifierChar(word[k]))
    && (rest == [] || !IsIdentifierChar(rest[0]))
  }

  lemma WholeWordAt(t: Text, j: nat, word: Text, rest: Text)
    requires IsWholeWord(word, rest) && j <= |t| && t[j..] == word + rest
    ensures j < |t| && IsIdentifierStart(t[j]) && WordEnd(t, j + 1) == j + |word| <= |t|
    ensures t[j..j + |word|] == word
  {
    hide IsIdentifierStart, IsIdentifierChar, WordEnd;
    assert |t| - j == |t[j..]|;
    assert forall k :: 0 <= k < |word| ==> t[j..][k] == word[k] && t[j + k] == t[j..][k];
    assert rest != [] ==> t[j..][|word|] == rest[0];
    assert t[j..][..|word|] == word;
    WordEndsAt(t, j + 1, j + |word|);
  }

  lemma StripBeforeNewline(s: Text)
    ensures Strip(s + "\n") == Strip(s)
  {
    var left, right := StripSplits(s);
    var kept := Strip(s);
    hide Strip, Trimmed;
    assert AllSpace(right + "\n");
    assert s + "\n" == left + kept + (right + "\n");
    StripPadded(left, kept, right + "\n");
  }

  /** A word at depth zero after a WHERE clause ends the clause if it is one of the twelve
      keywords, and is read over otherwise. */
  lemma ClauseEndsAtKeyword(head: Text, word: Text, rest: Text)
    requires IsWholeWord(word, rest) && Scan(head, 0, 0, None).Ok?
    requires var p := Scan(head, 0, 0, None).value; p.whereEnd.Some? && p.boundary == |head| && p.depth == 0
    ensures var t, b, w := head + "\n" + (word + rest), |head| + 1, Scan(head, 0, 0, None).value.whereEnd;
            if EndsClause(word) then Scan(t, 0, 0, None) == Ok(Positions(w, b, 0)) && Clause(t) == Clause(head)
            else Scan(t, 0, 0, None) == Scan(t, b + |word|, 0, w)
  {
    hide Scan, Clause, EndsClause, IsWholeWord;
    var t := head + "\n" + (word + rest);
    assert t[..|head|] == head && t[|head| + 1..] == word + rest;
    ClauseEndsIn(head, t, word, rest);
  }

  lemma ClauseEndsIn(head: Text, t: Text, word: Text, rest: Text)
    requires |head| < |t| && t[..|head|] == head && t[|head|] == '\n' && t[|head| + 1..] == word + rest
    requires IsWholeWord(word, rest) && Scan(head, 0, 0, None).Ok?
    requires var p := Scan(head, 0, 0, None).value; p.whereEnd.Some? && p.boundary == |head| && p.depth == 0
    ensures var b, w := |head| + 1, Scan(head, 0, 0, None).value.whereEnd;
            if EndsClause(word) then Scan(t, 0, 0, None) == Ok(Positions(w, b, 0)) && Clause(t) == Clause(head)
            else b + |word| <= |t| && Scan(t, 0, 0, None) == Scan(t, b + |word|, 0, w)
  {
    hide Scan, Clause, Upper, WordEnd, IsBoundary, EndsClause, IsIdentifierStart, IsIdentifierChar, IsWholeWord, Strip;
    var b, w := |head| + 1, Scan(head, 0, 0, None).value.whereEnd;
    KeywordsEndClauses(word);
    HeadScanned(head, t);
    WholeWordAt(t, b, word, rest);
    if EndsClause(word) {
      ScanBoundaryWord(t, b, b + |word|, w);
      ClauseIs(t, w.value, b);
      ClauseIs(head, w.value, |head|);
      HeadAndLine(head, t, w.value);
      StripBeforeNewline(head[w.value..|head|]);
    } else {
      ScanReadsOver(t, b, b + |word|, w);
    }
  }

  lemma HeadAndLine(head: Text, t: Text, w: nat)
    requires |head| < |t| && t[..|head|] == head && t[|head|] == '\n' && w <= |head|
    ensures t[w..|head| + 1] == head[w..|head|] + "\n"
  {
    assert t[w..|head| + 1] == t[..|head|][w..] + [t[|head|]];
  }

  lemma HeadScanned(head: Text, t: Text)
    requires |head| < |t| && t[..|head|] == head && t[|head|] == '\n'
    requires Scan(head, 0, 0, None).Ok? && Scan(head, 0, 0, None).value.boundary == |head| && Scan(head, 0, 0, None).value.depth == 0
    ensures Scan(t, 0, 0, None) == Scan(t, |head| + 1, 0, Scan(head, 0, 0, None).value.whereEnd)
  {
    hide Scan;
    assert forall k :: 0 <= k < |head| ==> t[..|head|][k] == t[k];
    ScanToEnd(head, t, 0, 0, None);
  }

  lemma ScanReadsOver(t: Text, i: nat, end: nat, w: Option<nat>)
    requires i < |t| && IsIdentifierStart(t[i]) && WordEnd(t, i + 1) == end && w.Some? && w.value <= i
    requires end <= |t| && !IsBoundary(Upper(t[i..end]))
    ensures Scan(t, i, 0, w) == Scan(t, end, 0, w)
  {
    hide Upper, WordEnd, Next, IsBoundary;
  }

  lemma ClauseIs(s: Text, w: nat, b: nat)
    requires w <= b <= |s| && Scan(s, 0, 0, None) == Ok(Positions(Some(w), b, 0))
    ensures Clause(s) == Some(Strip(s[w..b]))
  {
    hide Scan, Strip;
  }

  lemma KeywordsEndClauses(word: Text)
    ensures EndsClause(word) <==> IsBoundary(Upper(word))
  {
    hide Upper;
  }
}
