/** Any name can be written as a reference and is read back unchanged. */
module ReferenceNames {
  import opened Chars
  import opened Lexing
  import opened Scanners
  import opened Embedding
  import opened References

  /** Double the delimiter and escape backslashes. */
  function Escaped(quote: char, name: Text): Text {
    if name == [] then []
    else
      (if name[0] == quote then [quote, quote] else if name[0] == '\\' then "\\\\" else [name[0]])
      + Escaped(quote, name[1..])
  }

  function Quoted(quote: char, name: Text): Text {
    [quote] + Escaped(quote, name) + [quote]
  }

  function Written(relation: RelationType, quote: char, name: Text): Text {
    FunctionName(relation) + "(" + Quoted(quote, name) + ")"
  }

  lemma {:induction false} QuoteEndOfEscaped(t: Text, quote: char, i: nat, name: Text)
    requires IsQuote(quote) && StartsWith(t, i, Escaped(quote, name) + [quote])
    requires var e := i + |Escaped(quote, name)| + 1; e < |t| ==> t[e] != quote
    ensures QuoteEnd(t, quote, i) == Some(i + |Escaped(quote, name)| + 1)
    decreases |name|
  {
    hide StartsWith;
    var escaped := Escaped(quote, name);
    StartsWithAt(t, i, escaped + [quote], 0);
    if name != [] {
      var rest := Escaped(quote, name[1..]);
      var head := escaped[..|escaped| - |rest|];
      assert escaped + [quote] == head + (rest + [quote]);
      StartsWithSplit(t, i, head, rest + [quote]);
      StartsWithAt(t, i, head, |head| - 1);
      QuoteEndOfEscaped(t, quote, i + |head|, name[1..]);
    }
  }

  lemma {:induction false} UnquotedEscaped(value: Text, quote: char, i: nat, name: Text)
    requires 2 <= |value| && value[0] == quote && IsQuote(quote)
    requires i + |Escaped(quote, name)| == |value| - 1 && StartsWith(value, i, Escaped(quote, name))
    ensures Unquoted(value, i) == name
    decreases |name|
  {
    hide StartsWith;
    if name != [] {
      var escaped, rest := Escaped(quote, name), Escaped(quote, name[1..]);
      var head := escaped[..|escaped| - |rest|];
      assert escaped == head + rest;
      StartsWithSplit(value, i, head, rest);
      StartsWithAt(value, i, head, 0);
      StartsWithAt(value, i, head, |head| - 1);
      UnquotedEscaped(value, quote, i + |head|, name[1..]);
      assert name == [name[0]] + name[1..];
    }
  }

  /** Quoted text is skipped as one lexeme, whatever the name contains. */
  lemma QuotedIsOneLexeme(t: Text, i: nat, quote: char, name: Text)
    requires IsQuote(quote) && StartsWith(t, i, Quoted(quote, name))
    requires var e := i + |Quoted(quote, name)|; e < |t| ==> t[e] != quote
    ensures i < |t| && SkipQuoted(t, i) == Ok(i + |Quoted(quote, name)|)
    ensures NonCode(t, i) == Skip(i + |Quoted(quote, name)|)
  {
    hide QuoteEnd, StartsWith, Escaped;
    var escaped := Escaped(quote, name);
    assert Quoted(quote, name) == [quote] + (escaped + [quote]);
    StartsWithSplit(t, i, [quote], escaped + [quote]);
    StartsWithAt(t, i, [quote], 0);
    QuoteEndOfEscaped(t, quote, i + 1, name);
  }

  lemma QuotedName(quote: char, name: Text, start: nat)
    requires IsQuote(quote)
    ensures Name(Quoted(quote, name), start) == if name == [] then Err(BadName(start)) else Ok(name)
  {
    hide NonCode, Escaped, SkipQuoted, Unquoted, StartsWith, QuoteEnd;
    var value := Quoted(quote, name);
    StripPadded([], value, []);
    assert [] + value + [] == value;
    StartsWithPlaced([], value, []);
    QuotedIsOneLexeme(value, 0, quote, name);
    assert value == [quote] + Escaped(quote, name) + [quote];
    StartsWithPlaced([quote], Escaped(quote, name), [quote]);
    UnquotedEscaped(value, quote, 1, name);
  }

  lemma QuotedArguments(t: Text, a: nat, quote: char, name: Text)
    requires IsQuote(quote) && StartsWith(t, a, Quoted(quote, name) + ")")
    ensures var close := a + |Quoted(quote, name)|;
            && Match(t, a, 1, a) == Ok(close) && close < |t|
            && Arguments(t, a, close) == Ok([Quoted(quote, name)])
  {
    hide NonCode, Escaped, StartsWith, Strip;
    var value := Quoted(quote, name);
    var close := a + |value|;
    StartsWithSplit(t, a, value, ")");
    StartsWithAt(t, close, ")", 0);
    StartsWithAt(t, a, value, 0);
    QuotedIsOneLexeme(t, a, quote, name);
    MatchHere(t, close, a);
    SliceOf(t, a, value);
    assert value + [] == value;
    StripPadded([], value, []);
    assert [] + value + [] == value;
    assert t[a] == quote && Min(close, close) == close;
    assert WithoutComments(t, close, close) == Ok([]);
    assert WithoutComments(t, a, close) == Ok(value + []);
    assert ArgumentText(t, a, close) == Ok(value);
    assert [value] + [] == [value];
    assert Split(t, a, close, close, 0) == Ok([value]);
  }

  lemma SliceOf(t: Text, a: nat, piece: Text)
    requires StartsWith(t, a, piece)
    ensures a + |piece| <= |t| && t[a..a + |piece|] == piece
  {
  }

  lemma MatchOrigin(t: Text, i: nat, depth: nat, a: nat, b: nat)
    requires 0 < depth && Match(t, i, depth, a).Ok?
    ensures Match(t, i, depth, b) == Match(t, i, depth, a)
    decreases |t| - i
  {
    hide NonCode;
    match NonCode(t, i)
    case Skip(n) => MatchOrigin(t, n, depth, a, b);
    case Code =>
      if t[i] == '(' {
        MatchOrigin(t, i + 1, depth + 1, a, b);
      } else if t[i] == ')' {
        if depth > 1 {
          MatchOrigin(t, i + 1, depth - 1, a, b);
        }
      } else {
        MatchOrigin(t, i + 1, depth, a, b);
      }
  }

  lemma WrittenFunction(relation: RelationType, rest: Text)
    ensures FunctionAt(FunctionName(relation) + "(" + rest, 0) == Some(relation)
  {
    var t := FunctionName(relation) + "(" + rest;
    if relation.Source? {
      assert t[0..8] == SOURCE_FUNCTION;
    } else {
      assert t[0..5] == REF_FUNCTION;
      assert |t| >= 8 ==> t[0..8][2] == 'r';
    }
  }

  /** A written reference is extracted alone, over the whole text and with its name, exactly
      when the name is not empty. */
  lemma ReferenceNameRoundTrip(relation: RelationType, quote: char, name: Text)
    requires IsQuote(quote)
    ensures var t := Written(relation, quote, name);
            Refs(t, 0) == if name == [] then Err(BadName(0))
                          else Ok([SqlReference(name, relation, None, 0, |t|)])
  {
    hide Match, Trivia, Arguments, Name, StartsWith, Quoted, FunctionAt;
    var t, value := Written(relation, quote, name), Quoted(quote, name);
    var open := |FunctionName(relation)|;
    assert t == FunctionName(relation) + "(" + (value + ")");
    WrittenFunction(relation, value + ")");
    assert t == (FunctionName(relation) + "(") + (value + ")") + [];
    StartsWithPlaced(FunctionName(relation) + "(", value + ")", []);
    assert t[open] == '(' && t[0] == '_';
    PlainIsCode(t, 0);
    PlainIsCode(t, open);
    OpenIsNoTrivia(t, open);
    QuotedArguments(t, open + 1, quote, name);
    MatchOrigin(t, open + 1, 1, open + 1, open);
    QuotedName(quote, name, 0);
    assert Bounded(t, 0) && Refs(t, |t|) == Ok([]);
    if name != [] {
      var reference := SqlReference(name, relation, None, 0, |t|);
      assert ReferenceAt(t, 0) == Ok(Some(reference));
      assert [reference] + [] == [reference];
    } else {
      assert ReferenceAt(t, 0) == Err(BadName(0));
    }
  }

  lemma OpenIsNoTrivia(t: Text, i: nat)
    requires i < |t| && t[i] == '('
    ensures Trivia(t, i) == Ok(i)
  {
  }
}
