/** The recursive-descent parser of MODEL headers
    (crates/sqltide-sqltext/src/model_header/parser.rs and value.rs). */
module HeaderParser {
  import opened Chars
  import opened HeaderTokens

  const MAX_HEADER_NESTING_DEPTH: nat := 128

  /** Floats keep their literal text instead of its binary value. */
  datatype HeaderValue =
    | Null
    | Bool(flag: bool)
    | Integer(digits: Text)
    | Float(literal: Text)
    | Txt(text: Text)
    | List(items: seq<HeaderValue>)
    | Map(entries: seq<Entry>)

  datatype Entry = Entry(key: Text, value: HeaderValue)

  function StripSign(word: Text): Text {
    if word != [] && (word[0] == '+' || word[0] == '-') then word[1..] else word
  }

  predicate AllDigits(s: Text) {
    forall k :: 0 <= k < |s| ==> IsDigit(s[k])
  }

  predicate IsInteger(word: Text) {
    StripSign(word) != [] && AllDigits(StripSign(word))
  }

  /** Split at the first dot. */
  function DotAt(s: Text, i: nat): (r: Option<nat>)
    requires i <= |s|
    ensures r.Some? ==> i <= r.value < |s| && s[r.value] == '.'
    decreases |s| - i
  {
    if i == |s| then None else if s[i] == '.' then Some(i) else DotAt(s, i + 1)
  }

  predicate IsFloat(word: Text) {
    var digits := StripSign(word);
    match DotAt(digits, 0)
    case None => false
    case Some(k) =>
      AllDigits(digits[..k]) && AllDigits(digits[k + 1..]) && !(k == 0 && digits[k + 1..] == [])
  }

  function WordValue(word: Text): HeaderValue {
    if word == "true" then Bool(true)
    else if word == "false" then Bool(false)
    else if word == "null" then Null
    else if IsInteger(word) then Integer(word)
    else if IsFloat(word) then Float(word)
    else Txt(word)
  }

  /** Insert or replace a key, keeping the position of its first insertion. */
  function Inserted(entries: seq<Entry>, key: Text, value: HeaderValue): seq<Entry> {
    if entries == [] then [Entry(key, value)]
    else if entries[0].key == key then [Entry(key, value)] + entries[1..]
    else [entries[0]] + Inserted(entries[1..], key, value)
  }

  predicate SymbolAt(ts: seq<Token>, i: nat, symbol: Text)
    requires i < |ts|
  {
    ts[i].kind.Symbol? && ts[i].value == symbol
  }

  predicate AtEnd(ts: seq<Token>, i: nat, end: Option<Text>)
    requires i < |ts|
  {
    match end case None => ts[i].kind.End? case Some(symbol) => SymbolAt(ts, i, symbol)
  }

  function SkipComma(ts: seq<Token>, i: nat): nat
    requires i < |ts|
  {
    if SymbolAt(ts, i, ",") then i + 1 else i
  }

  /** A map from `i` on, with the entries read so far. */
  function MapFrom(ts: seq<Token>, i: nat, depth: nat, end: Option<Text>, entries: seq<Entry>): (r: Outcome<(seq<Entry>, nat)>)
    requires Terminated(ts) && i < |ts|
    ensures r.Good? ==> i <= r.value.1 < |ts| && (end.Some? ==> i < r.value.1)
    decreases |ts| - i, 1
  {
    if AtEnd(ts, i, end) then Good((entries, if end.Some? then i + 1 else i))
    else if SymbolAt(ts, i, ",") then MapFrom(ts, i + 1, depth, end, entries)
    else if !ts[i].kind.Word? then Bad(ExpectedKey(ts[i].position))
    else if SymbolAt(ts, i + 1, ":") then Bad(ColonAfterKey(ts[i].value))
    else if AtEnd(ts, i + 1, end) || ts[i + 1].kind.End? then Bad(MissingValue(ts[i].value))
    else
      match ValueAt(ts, i + 1, depth)
      case Bad(e) => Bad(e)
      case Good((value, next)) =>
        MapFrom(ts, SkipComma(ts, next), depth, end, Inserted(entries, ts[i].value, value))
  }

  function ListFrom(ts: seq<Token>, i: nat, depth: nat, items: seq<HeaderValue>): (r: Outcome<(seq<HeaderValue>, nat)>)
    requires Terminated(ts) && i < |ts|
    ensures r.Good? ==> i < r.value.1 < |ts|
    decreases |ts| - i, 1
  {
    if SymbolAt(ts, i, "]") then Good((items, i + 1))
    else if SymbolAt(ts, i, ",") then ListFrom(ts, i + 1, depth, items)
    else
      match ValueAt(ts, i, depth)
      case Bad(e) => Bad(e)
      case Good((value, next)) => ListFrom(ts, SkipComma(ts, next), depth, items + [value])
  }

  /** One value at `i` and the index after it. */
  function ValueAt(ts: seq<Token>, i: nat, depth: nat): (r: Outcome<(HeaderValue, nat)>)
    requires Terminated(ts) && i < |ts|
    ensures r.Good? ==> i < r.value.1 < |ts|
    decreases |ts| - i, 0
  {
    if ts[i].kind.Quoted? then Good((Txt(ts[i].value), i + 1))
    else if ts[i].kind.Word? then
      if !SymbolAt(ts, i + 1, "(") then Good((WordValue(ts[i].value), i + 1))
      else if depth >= MAX_HEADER_NESTING_DEPTH then Bad(TooDeep(ts[i + 2].position))
      else
        match MapFrom(ts, i + 2, depth + 1, Some(")"), [])
        case Bad(e) => Bad(e)
        case Good((entries, next)) => Good((Map([Entry(ts[i].value, Map(entries))]), next))
    else if SymbolAt(ts, i, "[") then
      if depth >= MAX_HEADER_NESTING_DEPTH then Bad(TooDeep(ts[i + 1].position))
      else
        match ListFrom(ts, i + 1, depth + 1, [])
        case Bad(e) => Bad(e)
        case Good((items, next)) => Good((List(items), next))
    else if SymbolAt(ts, i, "(") then
      if depth >= MAX_HEADER_NESTING_DEPTH then Bad(TooDeep(ts[i + 1].position))
      else
        match MapFrom(ts, i + 1, depth + 1, Some(")"), [])
        case Bad(e) => Bad(e)
        case Good((entries, next)) => Good((Map(entries), next))
    else Bad(ExpectedValue(ts[i].position))
  }

  function Parsed(ts: seq<Token>): Outcome<seq<Entry>>
    requires Terminated(ts)
  {
    if ts[0].kind.End? then Good([])
    else match MapFrom(ts, 0, 0, None, [])
      case Bad(e) => Bad(e)
      case Good((entries, next)) =>
        if !ts[next].kind.End? then Bad(UnexpectedToken(ts[next].value, ts[next].position))
        else Good(entries)
  }

  function ParsedHeader(header: Text): Outcome<seq<Entry>> {
    match Tokens(header, 0)
    case Bad(e) => Bad(e)
    case Good(ts) => TokensAreTerminated(header, 0); Parsed(ts)
  }

  // ------------------------------------------------------------------------------------------
  // The parser as written

  lemma {:induction false} InsertedAt(entries: seq<Entry>, key: Text, value: HeaderValue, k: nat)
    requires k <= |entries| && forall j :: 0 <= j < k ==> entries[j].key != key
    ensures k == |entries| ==> Inserted(entries, key, value) == entries + [Entry(key, value)]
    ensures k < |entries| && entries[k].key == key ==>
              Inserted(entries, key, value) == entries[k := Entry(key, value)]
  {
    if k > 0 {
      InsertedAt(entries[1..], key, value, k - 1);
    }
  }

  method InsertEntry(entries: seq<Entry>, key: Text, value: HeaderValue) returns (r: seq<Entry>)
    ensures r == Inserted(entries, key, value)
  {
    var k := 0;
    while k < |entries|
      invariant k <= |entries| && forall j :: 0 <= j < k ==> entries[j].key != key
    {
      if entries[k].key == key {
        InsertedAt(entries, key, value, k);
        return entries[k := Entry(key, value)];
      }
      k := k + 1;
    }
    InsertedAt(entries, key, value, k);
    return entries + [Entry(key, value)];
  }

  /** The cursor never passes the end marker, and the nesting counter is restored whether
      parsing succeeds or fails. */
  class Parser {
    const tokens: seq<Token>
    var index: nat
    var depth: nat

    ghost predicate Valid()
      reads this
    {
      Terminated(tokens) && index < |tokens|
    }

    constructor (tokens: seq<Token>)
      requires Terminated(tokens)
      ensures Valid() && this.tokens == tokens && index == 0 && depth == 0
    {
      this.tokens := tokens;
      index, depth := 0, 0;
    }

    function Peek(): (t: Token)
      requires Valid()
      reads this
      ensures t == tokens[index] && (index + 1 == |tokens| <==> t.kind.End?)
    {
      tokens[index]
    }

    method MatchSymbol(symbol: Text) returns (matched: bool)
      requires Valid()
      modifies `index
      ensures Valid() && matched == SymbolAt(tokens, old(index), symbol)
      ensures index == old(index) + (if matched then 1 else 0)
    {
      matched := Peek().kind.Symbol? && Peek().value == symbol;
      if matched {
        index := index + 1;
      }
    }

    method ConsumeKey() returns (r: Outcome<Text>)
      requires Valid()
      modifies `index
      ensures Valid()
      ensures if tokens[old(index)].kind.Word? then r == Good(tokens[old(index)].value) && index == old(index) + 1
              else r == Bad(ExpectedKey(tokens[old(index)].position)) && index == old(index)
    {
      var token := Peek();
      if !token.kind.Word? {
        return Bad(ExpectedKey(token.position));
      }
      index := index + 1;
      return Good(token.value);
    }

    method ParseMap(end: Option<Text>) returns (r: Outcome<seq<Entry>>)
      requires Valid()
      modifies this
      ensures Valid() && depth == old(depth)
      ensures match MapFrom(tokens, old(index), old(depth), end, [])
              case Good((entries, next)) => r == Good(entries) && index == next
              case Bad(e) => r == Bad(e)
      decreases |tokens| - index, 1
    {
      hide Terminated, Inserted;
      var values: seq<Entry> := [];
      while !AtEnd(tokens, index, end)
        invariant Valid() && old(index) <= index && depth == old(depth)
        invariant MapFrom(tokens, old(index), old(depth), end, []) == MapFrom(tokens, index, depth, end, values)
        decreases |tokens| - index
      {
        NotPastEnd(tokens, index);
        ghost var here := index;
        var comma := MatchSymbol(",");
        if comma {
          continue;
        }
        var key := ConsumeKey();
        if key.Bad? {
          return Bad(key.error);
        }
        NotPastEnd(tokens, here);
        var colon := MatchSymbol(":");
        if colon {
          return Bad(ColonAfterKey(key.value));
        }
        if AtEnd(tokens, index, end) || Peek().kind.End? {
          return Bad(MissingValue(key.value));
        }
        var value := ParseValue();
        if value.Bad? {
          return Bad(value.error);
        }
        values := InsertEntry(values, key.value, value.value);
        var _ := MatchSymbol(",");
      }
      NotPastEnd(tokens, index);
      if end.Some? {
        var matched := MatchSymbol(end.value);
        if !matched {
          assert false; // the loop stopped at this symbol
        }
      }
      return Good(values);
    }

    method ParseValue() returns (r: Outcome<HeaderValue>)
      requires Valid()
      modifies this
      ensures Valid() && depth == old(depth)
      ensures match ValueAt(tokens, old(index), old(depth))
              case Good((value, next)) => r == Good(value) && index == next
              case Bad(e) => r == Bad(e)
      decreases |tokens| - index, 0
    {
      hide Terminated;
      NotPastEnd(tokens, index);
      var token := Peek();
      if token.kind.Quoted? {
        index := index + 1;
        return Good(Txt(token.value));
      }
      if token.kind.Word? {
        index := index + 1;
        NotPastEnd(tokens, index);
        if SymbolAt(tokens, index, "(") {
          index := index + 1;
          if depth >= MAX_HEADER_NESTING_DEPTH {
            return Bad(TooDeep(Peek().position));
          }
          depth := depth + 1;
          var entries := ParseMap(Some(")"));
          depth := depth - 1;
          if entries.Bad? {
            return Bad(entries.error);
          }
          return Good(Map([Entry(token.value, Map(entries.value))]));
        }
        return Good(WordValue(token.value));
      }
      var bracket := MatchSymbol("[");
      if bracket {
        if depth >= MAX_HEADER_NESTING_DEPTH {
          return Bad(TooDeep(Peek().position));
        }
        depth := depth + 1;
        var items := ParseList();
        depth := depth - 1;
        return match items case Good(vs) => Good(List(vs)) case Bad(e) => Bad(e);
      }
      var paren := MatchSymbol("(");
      if paren {
        if depth >= MAX_HEADER_NESTING_DEPTH {
          return Bad(TooDeep(Peek().position));
        }
        depth := depth + 1;
        var entries := ParseMap(Some(")"));
        depth := depth - 1;
        return match entries case Good(es) => Good(Map(es)) case Bad(e) => Bad(e);
      }
      return Bad(ExpectedValue(token.position));
    }

    method ParseList() returns (r: Outcome<seq<HeaderValue>>)
      requires Valid()
      modifies this
      ensures Valid() && depth == old(depth)
      ensures match ListFrom(tokens, old(index), old(depth), [])
              case Good((items, next)) => r == Good(items) && index == next
              case Bad(e) => r == Bad(e)
      decreases |tokens| - index, 1
    {
      hide Terminated;
      var values: seq<HeaderValue> := [];
      while !SymbolAt(tokens, index, "]")
        invariant Valid() && old(index) <= index && depth == old(depth)
        invariant ListFrom(tokens, old(index), old(depth), []) == ListFrom(tokens, index, depth, values)
        decreases |tokens| - index
      {
        NotPastEnd(tokens, index);
        var comma := MatchSymbol(",");
        if comma {
          continue;
        }
        var value := ParseValue();
        if value.Bad? {
          return Bad(value.error);
        }
        values := values + [value.value];
        var _ := MatchSymbol(",");
      }
      NotPastEnd(tokens, index);
      index := index + 1;
      return Good(values);
    }
  }

  lemma NotPastEnd(ts: seq<Token>, i: nat)
    requires Terminated(ts) && i < |ts|
    ensures !ts[i].kind.End? ==> i + 1 < |ts|
  {
  }

  method Parse(tokens: seq<Token>) returns (r: Outcome<seq<Entry>>)
    requires Terminated(tokens)
    ensures r == Parsed(tokens)
  {
    var parser := new Parser(tokens);
    if parser.Peek().kind.End? {
      return Good([]);
    }
    var values := parser.ParseMap(None);
    if values.Bad? {
      return values;
    }
    var token := parser.Peek();
    if !token.kind.End? {
      return Bad(UnexpectedToken(token.value, token.position));
    }
    return values;
  }
}
