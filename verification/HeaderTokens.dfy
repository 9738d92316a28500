/** Tokens of the MODEL header grammar
    (crates/sqltide-sqltext/src/model_header/tokenizer.rs). */
module HeaderTokens {
  import opened Chars

  datatype Kind = End | Word | Quoted | Symbol

  datatype Token = Token(kind: Kind, value: Text, position: nat)

  datatype HeaderError =
    | BraceMapping(position: nat)
    | QuoteInWord(position: nat)
    | UnterminatedEscape(position: nat)
    | UnterminatedString(position: nat)
    | ColonAfterKey(key: Text)
    | MissingValue(key: Text)
    | ExpectedValue(position: nat)
    | ExpectedKey(position: nat)
    | ExpectedSymbol(symbol: Text, position: nat)
    | UnexpectedToken(value: Text, position: nat)
    | TooDeep(position: nat)

  datatype Outcome<+T> = Good(value: T) | Bad(error: HeaderError)

  predicate IsSymbol(c: char) {
    c == '(' || c == ')' || c == '[' || c == ']' || c == ','
  }

  predicate IsBrace(c: char) {
    c == '{' || c == '}'
  }

  predicate IsStringQuote(c: char) {
    c == '\'' || c == '"'
  }

  /** A character that ends a bare word. */
  predicate IsBreak(c: char) {
    IsSpace(c) || IsSymbol(c) || IsBrace(c) || c == ':'
  }

  function BareEnd(s: Text, i: nat): (r: Outcome<nat>)
    requires i <= |s|
    ensures r.Good? ==> i <= r.value <= |s| && (i < |s| && !IsBreak(s[i]) ==> i < r.value)
    decreases |s| - i
  {
    if i == |s| || IsBreak(s[i]) then Good(i)
    else if IsStringQuote(s[i]) then Bad(QuoteInWord(i))
    else BareEnd(s, i + 1)
  }

  /** The unescaped text of a string and the index after its closing quote. */
  function StringFrom(s: Text, quote: char, start: nat, i: nat): (r: Outcome<(Text, nat)>)
    ensures r.Good? ==> i < r.value.1 <= |s|
    decreases |s| - i
  {
    if i >= |s| then Bad(UnterminatedString(start))
    else if s[i] == '\\' then
      if i + 1 >= |s| then Bad(UnterminatedEscape(i)) else PrefixedChar(s[i + 1], StringFrom(s, quote, start, i + 2))
    else if s[i] == quote then Good(([], i + 1))
    else PrefixedChar(s[i], StringFrom(s, quote, start, i + 1))
  }

  function PrefixedChar(c: char, rest: Outcome<(Text, nat)>): Outcome<(Text, nat)> {
    match rest case Good((t, n)) => Good(([c] + t, n)) case Bad(e) => Bad(e)
  }

  function PrefixedToken(token: Token, rest: Outcome<seq<Token>>): Outcome<seq<Token>> {
    match rest case Good(ts) => Good([token] + ts) case Bad(e) => Bad(e)
  }

  function Tokens(s: Text, i: nat): Outcome<seq<Token>>
    requires i <= |s|
    decreases |s| - i
  {
    if i == |s| then Good([Token(End, [], |s|)])
    else if IsSpace(s[i]) then Tokens(s, i + 1)
    else if IsBrace(s[i]) then Bad(BraceMapping(i))
    else if IsSymbol(s[i]) || s[i] == ':' then PrefixedToken(Token(Symbol, [s[i]], i), Tokens(s, i + 1))
    else if IsStringQuote(s[i]) then
      match StringFrom(s, s[i], i, i + 1)
      case Bad(e) => Bad(e)
      case Good((value, next)) => PrefixedToken(Token(Quoted, value, i), Tokens(s, next))
    else
      match BareEnd(s, i)
      case Bad(e) => Bad(e)
      case Good(next) => PrefixedToken(Token(Word, s[i..next], i), Tokens(s, next))
  }

  method WordEnd(s: Text, start: nat) returns (r: Outcome<nat>)
    requires start <= |s|
    ensures r == BareEnd(s, start)
  {
    var index := start;
    while index < |s|
      invariant start <= index <= |s|
      invariant BareEnd(s, start) == BareEnd(s, index)
    {
      if IsBreak(s[index]) {
        break;
      }
      if IsStringQuote(s[index]) {
        return Bad(QuoteInWord(index));
      }
      index := index + 1;
    }
    return Good(index);
  }

  function AfterChars(done: Text, rest: Outcome<(Text, nat)>): Outcome<(Text, nat)> {
    match rest case Good((t, n)) => Good((done + t, n)) case Bad(e) => Bad(e)
  }

  lemma AfterOne(done: Text, c: char, rest: Outcome<(Text, nat)>)
    ensures AfterChars(done, PrefixedChar(c, rest)) == AfterChars(done + [c], rest)
  {
    if rest.Good? {
      Associative(done, [c], rest.value.0);
    }
  }

  method ReadQuoted(s: Text, start: nat) returns (r: Outcome<(Text, nat)>)
    requires start < |s|
    ensures r == StringFrom(s, s[start], start, start + 1)
  {
    var quote := s[start];
    var value: Text := [];
    var index := start + 1;
    ghost var all := StringFrom(s, quote, start, start + 1);
    assert all.Good? ==> [] + all.value.0 == all.value.0;
    while index < |s|
      invariant all == AfterChars(value, StringFrom(s, quote, start, index))
    {
      if s[index] == '\\' {
        if index + 1 >= |s| {
          return Bad(UnterminatedEscape(index));
        }
        AfterOne(value, s[index + 1], StringFrom(s, quote, start, index + 2));
        value := value + [s[index + 1]];
        index := index + 2;
        continue;
      }
      if s[index] == quote {
        assert value + [] == value;
        return Good((value, index + 1));
      }
      AfterOne(value, s[index], StringFrom(s, quote, start, index + 1));
      value := value + [s[index]];
      index := index + 1;
    }
    return Bad(UnterminatedString(start));
  }

  function AfterTokens(done: seq<Token>, rest: Outcome<seq<Token>>): Outcome<seq<Token>> {
    match rest case Good(ts) => Good(done + ts) case Bad(e) => Bad(e)
  }

  lemma AfterOneToken(done: seq<Token>, t: Token, rest: Outcome<seq<Token>>)
    ensures AfterTokens(done, PrefixedToken(t, rest)) == AfterTokens(done + [t], rest)
  {
    if rest.Good? {
      Associative(done, [t], rest.value);
    }
  }

  method Tokenize(s: Text) returns (r: Outcome<seq<Token>>)
    ensures r == Tokens(s, 0)
  {
    hide BareEnd, StringFrom, IsSpace;
    var tokens: seq<Token> := [];
    var index := 0;
    ghost var all := Tokens(s, 0);
    assert all.Good? ==> [] + all.value == all.value;
    while index < |s|
      invariant index <= |s| && all == AfterTokens(tokens, Tokens(s, index))
    {
      var character := s[index];
      if IsSpace(character) {
        index := index + 1;
        continue;
      }
      if IsBrace(character) {
        return Bad(BraceMapping(index));
      }
      if IsSymbol(character) || character == ':' {
        AfterOneToken(tokens, Token(Symbol, [character], index), Tokens(s, index + 1));
        tokens := tokens + [Token(Symbol, [character], index)];
        index := index + 1;
        continue;
      }
      if IsStringQuote(character) {
        var read := ReadQuoted(s, index);
        if read.Bad? {
          return Bad(read.error);
        }
        AfterOneToken(tokens, Token(Quoted, read.value.0, index), Tokens(s, read.value.1));
        tokens := tokens + [Token(Quoted, read.value.0, index)];
        index := read.value.1;
        continue;
      }
      var next := WordEnd(s, index);
      if next.Bad? {
        return Bad(next.error);
      }
      AfterOneToken(tokens, Token(Word, s[index..next.value], index), Tokens(s, next.value));
      tokens := tokens + [Token(Word, s[index..next.value], index)];
      index := next.value;
    }
    tokens := tokens + [Token(End, [], |s|)];
    return Good(tokens);
  }

  /** Exactly the last token is the end marker. */
  predicate Terminated(ts: seq<Token>) {
    && ts != [] && ts[|ts| - 1].kind.End?
    && forall k :: 0 <= k < |ts| - 1 ==> !ts[k].kind.End?
  }

  lemma {:induction false} TokensAreTerminated(s: Text, i: nat)
    requires i <= |s| && Tokens(s, i).Good?
    ensures Terminated(Tokens(s, i).value)
    decreases |s| - i
  {
    hide BareEnd, StringFrom, IsSpace, IsSymbol;
    if i < |s| {
      if IsSpace(s[i]) {
        TokensAreTerminated(s, i + 1);
      } else if IsSymbol(s[i]) || s[i] == ':' {
        TokensAreTerminated(s, i + 1);
      } else if IsStringQuote(s[i]) {
        TokensAreTerminated(s, StringFrom(s, s[i], i, i + 1).value.1);
      } else {
        TokensAreTerminated(s, BareEnd(s, i).value);
      }
    }
  }
}
