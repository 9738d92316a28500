/** Printing a header value and parsing it back. */
module HeaderRoundTrip {
  import opened Chars
  import Lexing
  import opened HeaderTokens
  import opened HeaderParser

  // ------------------------------------------------------------------------------------------
  // What can be printed

  /** A non-empty word no character of which ends it or opens a string. */
  predicate IsBareWord(word: Text) {
    word != [] && forall k :: 0 <= k < |word| ==> !IsBreak(word[k]) && !IsStringQuote(word[k])
  }

  predicate IsNumber(word: Text) {
    IsInteger(word) || IsFloat(word)
  }

  predicate IsKeyword(word: Text) {
    word == "true" || word == "false" || word == "null"
  }

  /** A value as an author writes it. A map that holds one map under a bare word is written
      either with two pairs of parentheses, `(word (..))`, or as a call, `word (..)`. */
  datatype Written =
    | Literal(value: HeaderValue)
    | Name(word: Text)
    | InQuotes(quote: char, text: Text)
    | InBrackets(items: seq<Written>)
    | InParens(fields: seq<Field>)
    | Call(word: Text, fields: seq<Field>)

  datatype Field = Field(key: Text, value: Written)

  /** The value that is meant. */
  function Meaning(w: Written): HeaderValue
    decreases w, 0
  {
    match w
    case Literal(value) => value
    case Name(word) => Txt(word)
    case InQuotes(_, text) => Txt(text)
    case InBrackets(items) => List(MeaningOfItems(items))
    case InParens(fields) => Map(MeaningOfFields(fields))
    case Call(word, fields) => Map([Entry(word, Map(MeaningOfFields(fields)))])
  }

  function MeaningOfItems(items: seq<Written>): (r: seq<HeaderValue>)
    decreases items, 1
  {
    if items == [] then [] else [Meaning(items[0])] + MeaningOfItems(items[1..])
  }

  function MeaningOfFields(fields: seq<Field>): (r: seq<Entry>)
    decreases fields, 1
  {
    if fields == [] then []
    else [Entry(fields[0].key, Meaning(fields[0].value))] + MeaningOfFields(fields[1..])
  }

  predicate Printable(w: Written)
    decreases w, 0
  {
    match w
    case Literal(Integer(digits)) => IsInteger(digits)
    case Literal(Float(literal)) => IsFloat(literal)
    case Literal(value) => value.Null? || value.Bool?
    case Name(word) => IsBareWord(word) && !IsNumber(word) && !IsKeyword(word)
    case InQuotes(quote, _) => IsStringQuote(quote)
    case InBrackets(items) => PrintableItems(items)
    case InParens(fields) => PrintableFields(fields)
    case Call(word, fields) => IsBareWord(word) && PrintableFields(fields)
  }

  predicate PrintableItems(items: seq<Written>)
    decreases items, 1
  {
    items == [] || (Printable(items[0]) && PrintableItems(items[1..]))
  }

  /** Bare-word keys, each once. */
  predicate PrintableFields(fields: seq<Field>)
    decreases fields, 1
  {
    fields == [] || (
      && IsBareWord(fields[0].key) && Printable(fields[0].value)
      && !HasKey(fields[1..], fields[0].key) && PrintableFields(fields[1..]))
  }

  predicate HasKey(fields: seq<Field>, key: Text) {
    exists k :: 0 <= k < |fields| && fields[k].key == key
  }

  /** How deep brackets, parentheses and calls nest; a call nests once. */
  function Nesting(w: Written): nat
    decreases w, 0
  {
    match w
    case InBrackets(items) => 1 + NestingOfItems(items)
    case InParens(fields) => 1 + NestingOfFields(fields)
    case Call(_, fields) => 1 + NestingOfFields(fields)
    case _ => 0
  }

  function NestingOfItems(items: seq<Written>): nat
    decreases items, 1
  {
    if items == [] then 0 else Larger(Nesting(items[0]), NestingOfItems(items[1..]))
  }

  function NestingOfFields(fields: seq<Field>): nat
    decreases fields, 1
  {
    if fields == [] then 0 else Larger(Nesting(fields[0].value), NestingOfFields(fields[1..]))
  }

  function Larger(a: nat, b: nat): nat {
    if a < b then b else a
  }

  // ------------------------------------------------------------------------------------------
  // Tokens of a written value, starting at a position of the text

  function Escaped(quote: char, text: Text): Text {
    if text == [] then []
    else (if text[0] == quote || text[0] == '\\' then ['\\', text[0]] else [text[0]]) + Escaped(quote, text[1..])
  }

  predicate IsWord(w: Written) {
    w.Literal? || w.Name?
  }

  function WordOf(w: Written): Text
    requires IsWord(w)
  {
    match w
    case Name(word) => word
    case Literal(Integer(digits)) => digits
    case Literal(Float(literal)) => literal
    case Literal(Bool(flag)) => if flag then "true" else "false"
    case _ => "null"
  }

  function Print(w: Written): (r: Text)
    decreases w, 0
  {
    match w
    case InQuotes(quote, text) => [quote] + (Escaped(quote, text) + [quote])
    case InBrackets(items) => "[" + PrintItems(items) + "]"
    case InParens(fields) => "(" + PrintFields(fields) + ")"
    case Call(word, fields) => word + (" " + ("(" + PrintFields(fields) + ")"))
    case _ => WordOf(w)
  }

  function PrintItems(items: seq<Written>): Text
    decreases items, 1
  {
    if items == [] then []
    else if |items| == 1 then Print(items[0])
    else Print(items[0]) + ("," + PrintItems(items[1..]))
  }

  function PrintFields(fields: seq<Field>): Text
    decreases fields, 1
  {
    if fields == [] then []
    else
      var first := fields[0].key + (" " + Print(fields[0].value));
      if |fields| == 1 then first else first + ("," + PrintFields(fields[1..]))
  }

  function Sym(c: char, at: nat): Token {
    Token(Symbol, [c], at)
  }

  function Tokened(w: Written, at: nat): (r: seq<Token>)
    ensures r != []
    decreases w, 1
  {
    match w
    case InQuotes(_, text) => [Token(Quoted, text, at)]
    case InBrackets(items) => [Sym('[', at)] + TokenedItems(items, at + 1) + [Sym(']', at + 1 + |PrintItems(items)|)]
    case InParens(fields) => TokenedMap(fields, at)
    case Call(word, fields) => [Token(Word, word, at)] + TokenedMap(fields, at + |word| + 1)
    case _ => [Token(Word, WordOf(w), at)]
  }

  function TokenedMap(fields: seq<Field>, at: nat): (r: seq<Token>)
    ensures r != []
    decreases fields, 2
  {
    [Sym('(', at)] + TokenedFields(fields, at + 1) + [Sym(')', at + 1 + |PrintFields(fields)|)]
  }

  function TokenedItems(items: seq<Written>, at: nat): seq<Token>
    decreases items, 1
  {
    if items == [] then []
    else if |items| == 1 then Tokened(items[0], at)
    else
      var comma := at + |Print(items[0])|;
      Tokened(items[0], at) + ([Sym(',', comma)] + TokenedItems(items[1..], comma + 1))
  }

  function TokenedFields(fields: seq<Field>, at: nat): seq<Token>
    decreases fields, 1
  {
    if fields == [] then []
    else
      var valueAt := at + |fields[0].key| + 1;
      var first := [Token(Word, fields[0].key, at)] + Tokened(fields[0].value, valueAt);
      if |fields| == 1 then first
      else
        var comma := valueAt + |Print(fields[0].value)|;
        first + ([Sym(',', comma)] + TokenedFields(fields[1..], comma + 1))
  }

  // ------------------------------------------------------------------------------------------
  // Parsing the tokens back

  ghost predicate Spells(ts: seq<Token>, i: nat, piece: seq<Token>) {
    i + |piece| <= |ts| && ts[i..i + |piece|] == piece
  }

  lemma SpellsSplit(ts: seq<Token>, i: nat, a: seq<Token>, b: seq<Token>)
    ensures Spells(ts, i, a + b) <==> Spells(ts, i, a) && Spells(ts, i + |a|, b)
  {
    if Spells(ts, i, a + b) {
      assert ts[i..i + |a|] == (a + b)[..|a|];
      assert ts[i + |a|..i + |a| + |b|] == (a + b)[|a|..];
    }
  }

  lemma SpellsAt(ts: seq<Token>, i: nat, piece: seq<Token>, k: nat)
    requires Spells(ts, i, piece) && k < |piece|
    ensures i + k < |ts| && ts[i + k] == piece[k]
  {
    assert ts[i..i + |piece|][k] == ts[i + k];
  }

  /** The token at `i` ends a value: a comma, a closing symbol or the end marker. */
  predicate Ends(ts: seq<Token>, i: nat)
    requires i < |ts|
  {
    ts[i].kind.End? || SymbolAt(ts, i, ",") || SymbolAt(ts, i, ")") || SymbolAt(ts, i, "]")
  }

  lemma EndsIsNotOpen(ts: seq<Token>, i: nat)
    requires i < |ts| && Ends(ts, i)
    ensures !SymbolAt(ts, i, "(")
  {
  }

  lemma WordIsRead(w: Written)
    requires Printable(w) && IsWord(w)
    ensures WordValue(WordOf(w)) == Meaning(w)
  {
    if w.Literal? && (w.value.Integer? || w.value.Float?) {
      NumberIsNoKeyword(WordOf(w));
      if w.value.Float? {
        FloatIsNoInteger(w.value.literal);
      }
    }
  }

  lemma NumberIsNoKeyword(word: Text)
    requires IsNumber(word)
    ensures !IsKeyword(word)
  {
    var digits := StripSign(word);
    if IsFloat(word) {
      var k := DotAt(digits, 0).value;
      assert k > 0 ==> digits[..k][0] == digits[0];
      assert digits[0] == '.' || IsDigit(digits[0]);
    } else {
      assert IsDigit(digits[0]);
    }
  }

  lemma FloatIsNoInteger(word: Text)
    requires IsFloat(word)
    ensures !IsInteger(word)
  {
    var digits := StripSign(word);
    var k := DotAt(digits, 0).value;
    assert !IsDigit(digits[k]);
  }

  /** What reading a value of nesting `nesting` at `depth` gives. */
  ghost predicate Reads<T>(r: Outcome<(T, nat)>, value: T, next: nat, depth: nat, nesting: nat) {
    if depth + nesting <= MAX_HEADER_NESTING_DEPTH then r == Good((value, next))
    else r.Bad? && r.error.TooDeep?
  }

  lemma {:induction false} ReadValue(ts: seq<Token>, i: nat, w: Written, at: nat, depth: nat)
    requires Terminated(ts) && Printable(w) && depth <= MAX_HEADER_NESTING_DEPTH
    requires Spells(ts, i, Tokened(w, at)) && i + |Tokened(w, at)| < |ts| && Ends(ts, i + |Tokened(w, at)|)
    ensures Reads(ValueAt(ts, i, depth), Meaning(w), i + |Tokened(w, at)|, depth, Nesting(w))
    decreases w, 0
  {
    hide Spells, Terminated, Ends, WordOf, ValueAt, IsInteger, IsFloat, TokenedItems, TokenedMap, Reads, IsKeyword, IsBareWord;
    match w
    case InBrackets(items) => ReadListValue(ts, i, items, at, depth);
    case InParens(fields) => ReadMapValue(ts, i, fields, at, depth);
    case Call(word, fields) => ReadCall(ts, i, word, fields, at, depth);
    case _ => ReadScalar(ts, i, w, at, depth);
  }

  lemma ReadScalar(ts: seq<Token>, i: nat, w: Written, at: nat, depth: nat)
    requires Terminated(ts) && Printable(w) && depth <= MAX_HEADER_NESTING_DEPTH && (IsWord(w) || w.InQuotes?)
    requires Spells(ts, i, Tokened(w, at)) && i + 1 < |ts| && Ends(ts, i + 1)
    ensures Reads(ValueAt(ts, i, depth), Meaning(w), i + 1, depth, 0)
  {
    hide Spells, Terminated, Ends, WordValue, WordOf, IsInteger, IsFloat;
    SpellsAt(ts, i, Tokened(w, at), 0);
    if IsWord(w) {
      EndsIsNotOpen(ts, i + 1);
      WordIsRead(w);
    }
  }

  lemma {:induction false} ReadListValue(ts: seq<Token>, i: nat, items: seq<Written>, at: nat, depth: nat)
    requires Terminated(ts) && PrintableItems(items) && depth <= MAX_HEADER_NESTING_DEPTH
    requires Spells(ts, i, Tokened(InBrackets(items), at)) && i + |Tokened(InBrackets(items), at)| < |ts|
    ensures Reads(ValueAt(ts, i, depth), List(MeaningOfItems(items)), i + |Tokened(InBrackets(items), at)|, depth, 1 + NestingOfItems(items))
    decreases items, 2
  {
    hide Spells, Terminated, PrintItems, TokenedItems, ListFrom, NestingOfItems, MeaningOfItems;
    var open, inner, close := [Sym('[', at)], TokenedItems(items, at + 1), [Sym(']', at + 1 + |PrintItems(items)|)];
    SpellsSplit(ts, i, open + inner, close);
    SpellsSplit(ts, i, open, inner);
    SpellsAt(ts, i, open, 0);
    SpellsAt(ts, i + 1 + |inner|, close, 0);
    if depth < MAX_HEADER_NESTING_DEPTH {
      ReadItems(ts, i + 1, items, at + 1, depth + 1, []);
      assert [] + MeaningOfItems(items) == MeaningOfItems(items);
    }
  }

  /** The fields between two parentheses, one level below `depth`. */
  lemma {:induction false} ReadMap(ts: seq<Token>, i: nat, fields: seq<Field>, at: nat, depth: nat)
    requires Terminated(ts) && PrintableFields(fields) && depth <= MAX_HEADER_NESTING_DEPTH
    requires Spells(ts, i, TokenedMap(fields, at)) && i + |TokenedMap(fields, at)| < |ts|
    ensures i + 1 < |ts| && SymbolAt(ts, i, "(")
    ensures depth < MAX_HEADER_NESTING_DEPTH ==>
              Reads(MapFrom(ts, i + 1, depth + 1, Some(")"), []), MeaningOfFields(fields), i + |TokenedMap(fields, at)|, depth + 1, NestingOfFields(fields))
    decreases fields, 2
  {
    hide Spells, Terminated, PrintFields, TokenedFields, MapFrom, NestingOfFields, MeaningOfFields;
    var open, inner, close := [Sym('(', at)], TokenedFields(fields, at + 1), [Sym(')', at + 1 + |PrintFields(fields)|)];
    SpellsSplit(ts, i, open + inner, close);
    SpellsSplit(ts, i, open, inner);
    SpellsAt(ts, i, open, 0);
    SpellsAt(ts, i + 1 + |inner|, close, 0);
    if depth < MAX_HEADER_NESTING_DEPTH {
      ReadFields(ts, i + 1, fields, at + 1, depth + 1, Some(")"), []);
      assert [] + MeaningOfFields(fields) == MeaningOfFields(fields);
    }
  }

  lemma {:induction false} ReadMapValue(ts: seq<Token>, i: nat, fields: seq<Field>, at: nat, depth: nat)
    requires Terminated(ts) && PrintableFields(fields) && depth <= MAX_HEADER_NESTING_DEPTH
    requires Spells(ts, i, TokenedMap(fields, at)) && i + |TokenedMap(fields, at)| < |ts|
    ensures Reads(ValueAt(ts, i, depth), Map(MeaningOfFields(fields)), i + |TokenedMap(fields, at)|, depth, 1 + NestingOfFields(fields))
    decreases fields, 3
  {
    hide Spells, Terminated, TokenedMap, MapFrom, NestingOfFields, MeaningOfFields;
    ReadMap(ts, i, fields, at, depth);
  }

  /** A call is read as a map of its word to the map of its fields. */
  lemma {:induction false} ReadCall(ts: seq<Token>, i: nat, word: Text, fields: seq<Field>, at: nat, depth: nat)
    requires Terminated(ts) && PrintableFields(fields) && depth <= MAX_HEADER_NESTING_DEPTH
    requires Spells(ts, i, Tokened(Call(word, fields), at)) && i + |Tokened(Call(word, fields), at)| < |ts|
    ensures Reads(ValueAt(ts, i, depth), Map([Entry(word, Map(MeaningOfFields(fields)))]), i + |Tokened(Call(word, fields), at)|, depth, 1 + NestingOfFields(fields))
    decreases fields, 3
  {
    hide Spells, Terminated, TokenedMap, MapFrom, NestingOfFields, MeaningOfFields;
    var name := [Token(Word, word, at)];
    SpellsSplit(ts, i, name, TokenedMap(fields, at + |word| + 1));
    SpellsAt(ts, i, name, 0);
    ReadMap(ts, i + 1, fields, at + |word| + 1, depth);
  }

  lemma SymbolEnds(ts: seq<Token>, i: nat, c: char, at: nat)
    requires i < |ts| && ts[i] == Sym(c, at) && (c == ',' || c == ')' || c == ']')
    ensures Ends(ts, i)
  {
  }

  lemma ListOnce(ts: seq<Token>, i: nat, depth: nat, done: seq<HeaderValue>)
    requires Terminated(ts) && i < |ts| && !SymbolAt(ts, i, "]") && !SymbolAt(ts, i, ",")
    ensures ValueAt(ts, i, depth).Bad? ==> ListFrom(ts, i, depth, done) == Bad(ValueAt(ts, i, depth).error)
    ensures ValueAt(ts, i, depth).Good? ==>
              var read := ValueAt(ts, i, depth).value;
              ListFrom(ts, i, depth, done) == ListFrom(ts, SkipComma(ts, read.1), depth, done + [read.0])
  {
    hide ValueAt;
  }

  lemma ListEnds(ts: seq<Token>, i: nat, depth: nat, done: seq<HeaderValue>)
    requires Terminated(ts) && i < |ts| && SymbolAt(ts, i, "]")
    ensures ListFrom(ts, i, depth, done) == Good((done, i + 1))
  {
  }

  lemma {:induction false} ReadItems(ts: seq<Token>, i: nat, items: seq<Written>, at: nat, depth: nat, done: seq<HeaderValue>)
    requires Terminated(ts) && PrintableItems(items) && depth <= MAX_HEADER_NESTING_DEPTH
    requires Spells(ts, i, TokenedItems(items, at))
    requires i + |TokenedItems(items, at)| + 1 < |ts| && SymbolAt(ts, i + |TokenedItems(items, at)|, "]")
    ensures Reads(ListFrom(ts, i, depth, done), done + MeaningOfItems(items), i + |TokenedItems(items, at)| + 1, depth, NestingOfItems(items))
    decreases items, 1
  {
    hide Spells, Terminated, Nesting, Printable, Tokened, ListFrom, ValueAt, Print, Meaning;
    if items == [] {
      assert done + [] == done;
      ListEnds(ts, i, depth, done);
    } else {
      var w, first := items[0], Tokened(items[0], at);
      var next, value := i + |first|, Meaning(items[0]);
      StartOfValue(ts, i, w, at);
      ListOnce(ts, i, depth, done);
      assert MeaningOfItems(items) == [value] + MeaningOfItems(items[1..]);
      if |items| == 1 {
        SpellsEnds(ts, next);
        ReadValue(ts, i, w, at, depth);
        ListEnds(ts, next, depth, done + [value]);
        assert MeaningOfItems(items) == [value];
      } else {
        var comma := at + |Print(w)|;
        var rest := TokenedItems(items[1..], comma + 1);
        SpellsSplit(ts, i, first, [Sym(',', comma)] + rest);
        SpellsSplit(ts, next, [Sym(',', comma)], rest);
        SpellsAt(ts, next, [Sym(',', comma)], 0);
        SymbolEnds(ts, next, ',', comma);
        ReadValue(ts, i, w, at, depth);
        if depth + Nesting(w) <= MAX_HEADER_NESTING_DEPTH {
          ReadItems(ts, next + 1, items[1..], comma + 1, depth, done + [value]);
          Associative(done, [value], MeaningOfItems(items[1..]));
        }
      }
    }
  }

  lemma SpellsEnds(ts: seq<Token>, i: nat)
    requires i < |ts| && (SymbolAt(ts, i, "]") || SymbolAt(ts, i, ")") || ts[i].kind.End?)
    ensures Ends(ts, i)
  {
  }

  /** A printed value starts with a token that is neither a comma nor a closing symbol. */
  lemma StartOfValue(ts: seq<Token>, i: nat, v: Written, at: nat)
    requires Spells(ts, i, Tokened(v, at)) || exists more :: Spells(ts, i, Tokened(v, at) + more)
    ensures i < |ts| && !ts[i].kind.End?
    ensures !SymbolAt(ts, i, ",") && !SymbolAt(ts, i, "]") && !SymbolAt(ts, i, ")") && !SymbolAt(ts, i, ":")
  {
    if Spells(ts, i, Tokened(v, at)) {
      SpellsAt(ts, i, Tokened(v, at), 0);
    } else {
      var more :| Spells(ts, i, Tokened(v, at) + more);
      SpellsAt(ts, i, Tokened(v, at) + more, 0);
    }
  }

  predicate IsNew(done: seq<Entry>, key: Text) {
    forall k :: 0 <= k < |done| ==> done[k].key != key
  }

  lemma {:induction false} InsertedLast(done: seq<Entry>, key: Text, value: HeaderValue)
    requires IsNew(done, key)
    ensures Inserted(done, key, value) == done + [Entry(key, value)]
  {
    InsertedAt(done, key, value, |done|);
  }

  ghost predicate Disjoint(done: seq<Entry>, fields: seq<Field>) {
    forall j, k :: 0 <= j < |done| && 0 <= k < |fields| ==> done[j].key != fields[k].key
  }

  lemma MapOnce(ts: seq<Token>, i: nat, depth: nat, end: Option<Text>, done: seq<Entry>)
    requires Terminated(ts) && i + 1 < |ts| && ts[i].kind.Word? && (end.None? || end == Some(")"))
    requires !ts[i + 1].kind.End? && !SymbolAt(ts, i + 1, ":") && !SymbolAt(ts, i + 1, ")")
    ensures ValueAt(ts, i + 1, depth).Bad? ==> MapFrom(ts, i, depth, end, done) == Bad(ValueAt(ts, i + 1, depth).error)
    ensures ValueAt(ts, i + 1, depth).Good? ==>
              var read := ValueAt(ts, i + 1, depth).value;
              MapFrom(ts, i, depth, end, done) ==
              MapFrom(ts, SkipComma(ts, read.1), depth, end, Inserted(done, ts[i].value, read.0))
  {
    hide ValueAt, Inserted;
  }

  lemma MapEnds(ts: seq<Token>, i: nat, depth: nat, end: Option<Text>, done: seq<Entry>)
    requires Terminated(ts) && i < |ts| && AtEnd(ts, i, end)
    ensures MapFrom(ts, i, depth, end, done) == Good((done, if end.Some? then i + 1 else i))
  {
  }

  lemma FieldsMean(fields: seq<Field>)
    ensures fields == [] ==> MeaningOfFields(fields) == [] && NestingOfFields(fields) == 0
    ensures fields != [] ==>
              && MeaningOfFields(fields) == [Entry(fields[0].key, Meaning(fields[0].value))] + MeaningOfFields(fields[1..])
              && NestingOfFields(fields) == Larger(Nesting(fields[0].value), NestingOfFields(fields[1..]))
    ensures |fields| == 1 ==> MeaningOfFields(fields[1..]) == [] && NestingOfFields(fields[1..]) == 0
  {
    hide Meaning, Nesting;
  }

  lemma {:induction false} ReadFields(ts: seq<Token>, i: nat, fields: seq<Field>, at: nat, depth: nat, end: Option<Text>, done: seq<Entry>)
    requires Terminated(ts) && PrintableFields(fields) && depth <= MAX_HEADER_NESTING_DEPTH
    requires end.None? || end == Some(")")
    requires Spells(ts, i, TokenedFields(fields, at)) && Disjoint(done, fields)
    requires i + |TokenedFields(fields, at)| < |ts| && AtEnd(ts, i + |TokenedFields(fields, at)|, end)
    requires end.Some? ==> i + |TokenedFields(fields, at)| + 1 < |ts|
    ensures var next := i + |TokenedFields(fields, at)|;
            Reads(MapFrom(ts, i, depth, end, done), done + MeaningOfFields(fields), if end.Some? then next + 1 else next, depth, NestingOfFields(fields))
    decreases fields, 1
  {
    hide Spells, Terminated, Nesting, Printable, Tokened, IsBareWord, Inserted, ValueAt, MapFrom, Print, Disjoint, HasKey, Meaning, IsNew;
    hide TokenedFields, NestingOfFields, MeaningOfFields, PrintFields;
    FieldsMean(fields);
    if |fields| > 1 {
      FieldsOnce(fields, at);
    } else {
      FieldsShort(fields, at);
    }
    if fields == [] {
      assert done + [] == done;
      MapEnds(ts, i, depth, end, done);
    } else {
      var key, w := fields[0].key, fields[0].value;
      var entry := Entry(key, Meaning(w));
      var valueAt := at + |key| + 1;
      var word, value := [Token(Word, key, at)], Tokened(w, at + |key| + 1);
      var next, comma := i + 1 + |value|, valueAt + |Print(w)|;
      DisjointStep(done, fields, entry.value);
      InsertedLast(done, key, entry.value);
      if |fields| == 1 {
        SpellsSplit(ts, i, word, value);
      } else {
        var rest := TokenedFields(fields[1..], comma + 1);
        SpellsSplit(ts, i, word + value, [Sym(',', comma)] + rest);
        SpellsSplit(ts, i, word, value);
        SpellsSplit(ts, next, [Sym(',', comma)], rest);
        SpellsAt(ts, next, [Sym(',', comma)], 0);
        SymbolEnds(ts, next, ',', comma);
      }
      SpellsAt(ts, i, word, 0);
      StartOfValue(ts, i + 1, w, valueAt);
      MapOnce(ts, i, depth, end, done);
      if |fields| == 1 {
        SpellsEnds(ts, next);
      }
      ReadValue(ts, i + 1, w, valueAt, depth);
      if depth + Nesting(w) <= MAX_HEADER_NESTING_DEPTH {
        if |fields| == 1 {
          assert MeaningOfFields(fields) == [entry];
          MapEnds(ts, next, depth, end, done + [entry]);
        } else {
          ReadFields(ts, next + 1, fields[1..], comma + 1, depth, end, done + [entry]);
          Associative(done, [entry], MeaningOfFields(fields[1..]));
        }
      }
    }
  }

  lemma DisjointStep(done: seq<Entry>, fields: seq<Field>, value: HeaderValue)
    requires fields != [] && Disjoint(done, fields) && !HasKey(fields[1..], fields[0].key)
    ensures IsNew(done, fields[0].key) && Disjoint(done + [Entry(fields[0].key, value)], fields[1..])
  {
    var done', rest := done + [Entry(fields[0].key, value)], fields[1..];
    forall j, k | 0 <= j < |done'| && 0 <= k < |rest| ensures done'[j].key != rest[k].key {
      assert rest[k] == fields[k + 1];
    }
  }

  // ------------------------------------------------------------------------------------------
  // Tokenizing the printed text

  lemma {:induction false} BareWordRead(s: Text, i: nat, end: nat)
    requires i <= end <= |s| && (end < |s| ==> IsBreak(s[end]))
    requires forall k :: i <= k < end ==> !IsBreak(s[k]) && !IsStringQuote(s[k])
    ensures BareEnd(s, i) == Good(end)
    decreases end - i
  {
    hide IsBreak, IsStringQuote;
    if i < end {
      BareWordRead(s, i + 1, end);
    }
  }

  lemma {:induction false} StringRead(s: Text, quote: char, start: nat, i: nat, text: Text)
    requires IsStringQuote(quote) && Lexing.StartsWith(s, i, Escaped(quote, text) + [quote])
    ensures StringFrom(s, quote, start, i) == Good((text, i + |Escaped(quote, text)| + 1))
    decreases |text|
  {
    hide Lexing.StartsWith;
    var all := Escaped(quote, text);
    Lexing.StartsWithAt(s, i, all + [quote], 0);
    if text != [] {
      var rest := Escaped(quote, text[1..]);
      var head := all[..|all| - |rest|];
      assert all + [quote] == head + (rest + [quote]);
      Lexing.StartsWithSplit(s, i, head, rest + [quote]);
      Lexing.StartsWithAt(s, i, head, |head| - 1);
      StringRead(s, quote, start, i + |head|, text[1..]);
      assert text == [text[0]] + text[1..];
    }
  }

  lemma NumberIsBare(word: Text)
    requires IsNumber(word)
    ensures IsBareWord(word)
  {
    var digits := StripSign(word);
    if IsFloat(word) {
      var k := DotAt(digits, 0).value;
      assert digits == digits[..k] + ['.'] + digits[k + 1..];
    }
    assert forall k :: 0 <= k < |digits| ==> IsDigit(digits[k]) || digits[k] == '.';
    forall k | 0 <= k < |word| ensures !IsBreak(word[k]) && !IsStringQuote(word[k]) {
      if |digits| < |word| {
        assert k > 0 ==> word[k] == digits[k - 1];
      }
    }
  }

  lemma WordIsBare(w: Written)
    requires Printable(w) && IsWord(w)
    ensures IsBareWord(WordOf(w))
  {
    if w.Literal? && (w.value.Integer? || w.value.Float?) {
      NumberIsBare(WordOf(w));
    }
  }

  lemma WordToken(s: Text, i: nat, word: Text)
    requires IsBareWord(word) && Lexing.StartsWith(s, i, word)
    requires i + |word| < |s| ==> IsBreak(s[i + |word|])
    ensures i + |word| <= |s| && Tokens(s, i) == AfterTokens([Token(Word, word, i)], Tokens(s, i + |word|))
  {
    hide IsBreak, IsStringQuote, Lexing.StartsWith;
    forall k | i <= k < i + |word| ensures k < |s| && !IsBreak(s[k]) && !IsStringQuote(s[k]) {
      Lexing.StartsWithAt(s, i, word, k - i);
    }
    Lexing.StartsWithAt(s, i, word, |word| - 1);
    BareWordRead(s, i, i + |word|);
    WordSlice(s, i, word);
    NoBreak(s[i]);
  }

  lemma NoBreak(c: char)
    requires !IsBreak(c)
    ensures !IsSpace(c) && !IsBrace(c) && !IsSymbol(c) && c != ':'
  {
  }

  lemma WordSlice(s: Text, i: nat, word: Text)
    requires Lexing.StartsWith(s, i, word)
    ensures i + |word| <= |s| && s[i..i + |word|] == word
  {
  }

  lemma SymbolToken(s: Text, i: nat, c: char)
    requires IsSymbol(c) && i < |s| && s[i] == c
    ensures Tokens(s, i) == AfterTokens([Sym(c, i)], Tokens(s, i + 1))
  {
  }

  lemma AfterBoth(a: seq<Token>, b: seq<Token>, rest: Outcome<seq<Token>>)
    ensures AfterTokens(a, AfterTokens(b, rest)) == AfterTokens(a + b, rest)
  {
    if rest.Good? {
      Associative(a, b, rest.value);
    }
  }

  lemma {:induction false} TokenizeValue(s: Text, i: nat, w: Written)
    requires Printable(w) && Lexing.StartsWith(s, i, Print(w))
    requires i + |Print(w)| < |s| ==> IsBreak(s[i + |Print(w)|])
    ensures i + |Print(w)| <= |s| && Tokens(s, i) == AfterTokens(Tokened(w, i), Tokens(s, i + |Print(w)|))
    decreases w, 0
  {
    hide Lexing.StartsWith, Tokens, IsBreak, AfterTokens, IsBareWord, WordOf, IsInteger, IsFloat, TokenedItems, TokenedMap, IsKeyword;
    match w
    case InQuotes(quote, text) => TextToken(s, i, quote, text);
    case InBrackets(items) => TokenizeList(s, i, items);
    case InParens(fields) => TokenizeMap(s, i, fields);
    case Call(word, fields) => TokenizeCall(s, i, word, fields);
    case _ =>
      WordIsBare(w);
      WordToken(s, i, WordOf(w));
  }

  lemma TextToken(s: Text, i: nat, quote: char, text: Text)
    requires IsStringQuote(quote) && Lexing.StartsWith(s, i, Print(InQuotes(quote, text)))
    ensures var e := i + |Print(InQuotes(quote, text))|;
            e <= |s| && Tokens(s, i) == AfterTokens([Token(Quoted, text, i)], Tokens(s, e))
  {
    hide Lexing.StartsWith;
    Lexing.StartsWithSplit(s, i, [quote], Escaped(quote, text) + [quote]);
    Lexing.StartsWithAt(s, i, [quote], 0);
    StringRead(s, quote, i, i + 1, text);
  }

  lemma {:induction false} TokenizeList(s: Text, i: nat, items: seq<Written>)
    requires PrintableItems(items) && Lexing.StartsWith(s, i, Print(InBrackets(items)))
    ensures var e := i + |Print(InBrackets(items))|;
            e <= |s| && Tokens(s, i) == AfterTokens(Tokened(InBrackets(items), i), Tokens(s, e))
    decreases items, 2
  {
    hide Lexing.StartsWith, Tokens, AfterTokens, PrintItems, TokenedItems;
    var inner := PrintItems(items);
    var close := i + 1 + |inner|;
    Lexing.StartsWithSplit(s, i, "[" + inner, "]");
    Lexing.StartsWithSplit(s, i, "[", inner);
    Lexing.StartsWithAt(s, i, "[", 0);
    Lexing.StartsWithAt(s, close, "]", 0);
    SymbolToken(s, i, '[');
    SymbolToken(s, close, ']');
    SymbolBreaks(']');
    TokenizeItems(s, i + 1, items);
    AfterBoth(TokenedItems(items, i + 1), [Sym(']', close)], Tokens(s, close + 1));
    AfterBoth([Sym('[', i)], TokenedItems(items, i + 1) + [Sym(']', close)], Tokens(s, close + 1));
    Associative([Sym('[', i)], TokenedItems(items, i + 1), [Sym(']', close)]);
  }

  lemma SymbolBreaks(c: char)
    requires IsSymbol(c) || c == ' '
    ensures IsBreak(c)
  {
  }

  lemma {:induction false} TokenizeMap(s: Text, i: nat, fields: seq<Field>)
    requires PrintableFields(fields) && Lexing.StartsWith(s, i, Print(InParens(fields)))
    ensures var e := i + |Print(InParens(fields))|;
            e <= |s| && Tokens(s, i) == AfterTokens(TokenedMap(fields, i), Tokens(s, e))
    decreases fields, 2
  {
    hide Lexing.StartsWith, Tokens, AfterTokens, PrintFields, TokenedFields;
    var inner := PrintFields(fields);
    var close := i + 1 + |inner|;
    Lexing.StartsWithSplit(s, i, "(" + inner, ")");
    Lexing.StartsWithSplit(s, i, "(", inner);
    Lexing.StartsWithAt(s, i, "(", 0);
    Lexing.StartsWithAt(s, close, ")", 0);
    SymbolToken(s, i, '(');
    SymbolToken(s, close, ')');
    SymbolBreaks(')');
    TokenizeFields(s, i + 1, fields);
    AfterBoth(TokenedFields(fields, i + 1), [Sym(')', close)], Tokens(s, close + 1));
    AfterBoth([Sym('(', i)], TokenedFields(fields, i + 1) + [Sym(')', close)], Tokens(s, close + 1));
    Associative([Sym('(', i)], TokenedFields(fields, i + 1), [Sym(')', close)]);
  }

  lemma {:induction false} TokenizeCall(s: Text, i: nat, word: Text, fields: seq<Field>)
    requires IsBareWord(word) && PrintableFields(fields) && Lexing.StartsWith(s, i, Print(Call(word, fields)))
    ensures var e := i + |Print(Call(word, fields))|;
            e <= |s| && Tokens(s, i) == AfterTokens(Tokened(Call(word, fields), i), Tokens(s, e))
    decreases fields, 3
  {
    hide Lexing.StartsWith, Tokens, AfterTokens, PrintFields, TokenedMap, IsBareWord, IsBreak;
    var map_, open := "(" + PrintFields(fields) + ")", i + |word| + 1;
    assert Print(InParens(fields)) == map_;
    Lexing.StartsWithSplit(s, i, word, " " + map_);
    Lexing.StartsWithSplit(s, open - 1, " ", map_);
    Lexing.StartsWithAt(s, open - 1, " ", 0);
    SymbolBreaks(' ');
    WordToken(s, i, word);
    SpaceSkipped(s, open - 1);
    TokenizeMap(s, open, fields);
    AfterBoth([Token(Word, word, i)], TokenedMap(fields, open), Tokens(s, open + |map_|));
  }

  lemma NoTokens(rest: Outcome<seq<Token>>)
    ensures AfterTokens([], rest) == rest
  {
    if rest.Good? {
      assert [] + rest.value == rest.value;
    }
  }

  lemma ItemsOnce(items: seq<Written>, at: nat)
    requires items != []
    ensures |items| == 1 ==> PrintItems(items) == Print(items[0]) && TokenedItems(items, at) == Tokened(items[0], at)
    ensures |items| > 1 ==>
              var comma := at + |Print(items[0])|;
              && PrintItems(items) == Print(items[0]) + ("," + PrintItems(items[1..]))
              && TokenedItems(items, at) == Tokened(items[0], at) + ([Sym(',', comma)] + TokenedItems(items[1..], comma + 1))
  {
    hide Print, Tokened;
  }

  lemma NoItems(at: nat)
    ensures PrintItems([]) == [] && TokenedItems([], at) == []
  {
  }

  lemma {:induction false} TokenizeItems(s: Text, i: nat, items: seq<Written>)
    requires PrintableItems(items) && Lexing.StartsWith(s, i, PrintItems(items))
    requires i + |PrintItems(items)| < |s| ==> IsBreak(s[i + |PrintItems(items)|])
    ensures var e := i + |PrintItems(items)|;
            e <= |s| && Tokens(s, i) == AfterTokens(TokenedItems(items, i), Tokens(s, e))
    decreases items, 1
  {
    hide Lexing.StartsWith, Tokens, AfterTokens, Print, Tokened, Printable, IsBreak, PrintItems, TokenedItems;
    if items == [] {
      NoItems(i);
      WordSlice(s, i, []);
      NoTokens(Tokens(s, i));
    } else if |items| == 1 {
      ItemsOnce(items, i);
      TokenizeValue(s, i, items[0]);
    } else {
      ItemsOnce(items, i);
      var v, rest := items[0], PrintItems(items[1..]);
      var comma := i + |Print(v)|;
      Lexing.StartsWithSplit(s, i, Print(v), "," + rest);
      Lexing.StartsWithSplit(s, comma, ",", rest);
      Lexing.StartsWithAt(s, comma, ",", 0);
      SymbolBreaks(',');
      TokenizeValue(s, i, v);
      SymbolToken(s, comma, ',');
      TokenizeItems(s, comma + 1, items[1..]);
      var later := TokenedItems(items[1..], comma + 1);
      AfterBoth([Sym(',', comma)], later, Tokens(s, comma + 1 + |rest|));
      AfterBoth(Tokened(v, i), [Sym(',', comma)] + later, Tokens(s, comma + 1 + |rest|));
    }
  }

  lemma SpaceSkipped(s: Text, i: nat)
    requires i < |s| && s[i] == ' '
    ensures Tokens(s, i) == Tokens(s, i + 1)
  {
  }

  lemma {:induction false} TokenizeField(s: Text, i: nat, field: Field)
    requires IsBareWord(field.key) && Printable(field.value)
    requires Lexing.StartsWith(s, i, field.key + (" " + Print(field.value)))
    requires var e := i + |field.key| + 1 + |Print(field.value)|; e < |s| ==> IsBreak(s[e])
    ensures var e := i + |field.key| + 1 + |Print(field.value)|;
            e <= |s| && Tokens(s, i) ==
              AfterTokens([Token(Word, field.key, i)] + Tokened(field.value, i + |field.key| + 1), Tokens(s, e))
    decreases field, 1
  {
    hide Lexing.StartsWith, Tokens, AfterTokens, Print, Tokened, Printable, IsBreak, IsBareWord;
    var valueAt := i + |field.key| + 1;
    Lexing.StartsWithSplit(s, i, field.key, " " + Print(field.value));
    Lexing.StartsWithSplit(s, valueAt - 1, " ", Print(field.value));
    Lexing.StartsWithAt(s, valueAt - 1, " ", 0);
    SymbolBreaks(' ');
    WordToken(s, i, field.key);
    SpaceSkipped(s, valueAt - 1);
    TokenizeValue(s, valueAt, field.value);
    AfterBoth([Token(Word, field.key, i)], Tokened(field.value, valueAt), Tokens(s, valueAt + |Print(field.value)|));
  }

  lemma FieldsOnce(fields: seq<Field>, at: nat)
    requires |fields| > 1
    ensures var first := fields[0].key + (" " + Print(fields[0].value));
            var head := [Token(Word, fields[0].key, at)] + Tokened(fields[0].value, at + |fields[0].key| + 1);
            && PrintFields(fields) == first + ("," + PrintFields(fields[1..]))
            && TokenedFields(fields, at) == head + ([Sym(',', at + |first|)] + TokenedFields(fields[1..], at + |first| + 1))
  {
    hide Print, Tokened;
  }

  lemma FieldsShort(fields: seq<Field>, at: nat)
    requires |fields| <= 1
    ensures fields == [] ==> PrintFields(fields) == [] && TokenedFields(fields, at) == []
    ensures fields != [] ==>
              && PrintFields(fields) == fields[0].key + (" " + Print(fields[0].value))
              && TokenedFields(fields, at) == [Token(Word, fields[0].key, at)] + Tokened(fields[0].value, at + |fields[0].key| + 1)
  {
    hide Print, Tokened;
  }

  lemma {:induction false} TokenizeFields(s: Text, i: nat, fields: seq<Field>)
    requires PrintableFields(fields) && Lexing.StartsWith(s, i, PrintFields(fields))
    requires i + |PrintFields(fields)| < |s| ==> IsBreak(s[i + |PrintFields(fields)|])
    ensures var e := i + |PrintFields(fields)|;
            e <= |s| && Tokens(s, i) == AfterTokens(TokenedFields(fields, i), Tokens(s, e))
    decreases fields, 1
  {
    hide Lexing.StartsWith, Tokens, AfterTokens, Print, Tokened, Printable, IsBreak, IsBareWord, HasKey, PrintFields, TokenedFields;
    if fields == [] {
      FieldsShort(fields, i);
      WordSlice(s, i, []);
      NoTokens(Tokens(s, i));
    } else if |fields| == 1 {
      FieldsShort(fields, i);
      TokenizeField(s, i, fields[0]);
    } else {
      FieldsOnce(fields, i);
      var first, rest := fields[0].key + (" " + Print(fields[0].value)), PrintFields(fields[1..]);
      var comma := i + |first|;
      Lexing.StartsWithSplit(s, i, first, "," + rest);
      Lexing.StartsWithSplit(s, comma, ",", rest);
      Lexing.StartsWithAt(s, comma, ",", 0);
      SymbolBreaks(',');
      TokenizeField(s, i, fields[0]);
      SymbolToken(s, comma, ',');
      TokenizeFields(s, comma + 1, fields[1..]);
      var head := [Token(Word, fields[0].key, i)] + Tokened(fields[0].value, i + |fields[0].key| + 1);
      var later := TokenedFields(fields[1..], comma + 1);
      AfterBoth([Sym(',', comma)], later, Tokens(s, comma + 1 + |rest|));
      AfterBoth(head, [Sym(',', comma)] + later, Tokens(s, comma + 1 + |rest|));
    }
  }

  // ------------------------------------------------------------------------------------------
  // The theorem

  /** Parsing a written header gives the entries meant when nothing nests deeper than the limit,
      and the nesting error otherwise. */
  lemma HeaderIsReadBack(fields: seq<Field>)
    requires PrintableFields(fields)
    ensures var r := ParsedHeader(PrintFields(fields));
            if NestingOfFields(fields) <= MAX_HEADER_NESTING_DEPTH then r == Good(MeaningOfFields(fields))
            else r.Bad? && r.error.TooDeep?
  {
    hide Printable, PrintFields, MeaningOfFields, TokenedFields, MapFrom, NestingOfFields, Terminated;
    var s := PrintFields(fields);
    assert [] + s + [] == s;
    Lexing.StartsWithPlaced([], s, []);
    TokenizeFields(s, 0, fields);
    var ts, end := TokenedFields(fields, 0), Token(End, [], |s|);
    assert Tokens(s, |s|) == Good([end]);
    assert Tokens(s, 0) == Good(ts + [end]);
    TokensAreTerminated(s, 0);
    assert (ts + [end])[0..|ts|] == ts;
    ReadFields(ts + [end], 0, fields, 0, 0, None, []);
    assert [] + MeaningOfFields(fields) == MeaningOfFields(fields);
    FirstToken(fields, end);
  }

  lemma FirstToken(fields: seq<Field>, end: Token)
    requires end.kind.End?
    ensures (TokenedFields(fields, 0) + [end])[0].kind.End? ==> fields == [] && NestingOfFields(fields) == 0 && MeaningOfFields(fields) == []
  {
  }

  // ------------------------------------------------------------------------------------------
  // Every header can be written

  predicate Expressible(v: HeaderValue)
    decreases v, 0
  {
    match v
    case Integer(digits) => IsInteger(digits)
    case Float(literal) => IsFloat(literal)
    case List(items) => ExpressibleItems(items)
    case Map(entries) => ExpressibleEntries(entries)
    case _ => true
  }

  predicate ExpressibleItems(items: seq<HeaderValue>)
    decreases items, 1
  {
    items == [] || (Expressible(items[0]) && ExpressibleItems(items[1..]))
  }

  predicate ExpressibleEntries(entries: seq<Entry>)
    decreases entries, 1
  {
    entries == [] || (
      && IsBareWord(entries[0].key) && Expressible(entries[0].value)
      && IsNew(entries[1..], entries[0].key) && ExpressibleEntries(entries[1..]))
  }

  /** A value whose numbers are numbers and whose maps hold distinct bare words can be written. */
  lemma {:induction false} ValueCanBeWritten(v: HeaderValue)
    requires Expressible(v)
    ensures exists w :: Printable(w) && Meaning(w) == v
    decreases v, 0
  {
    match v
    case Txt(text) =>
      assert Printable(InQuotes('"', text)) && Meaning(InQuotes('"', text)) == v;
    case List(items) =>
      ItemsCanBeWritten(items);
      var ws :| PrintableItems(ws) && MeaningOfItems(ws) == items;
      assert Printable(InBrackets(ws)) && Meaning(InBrackets(ws)) == v;
    case Map(entries) =>
      HeaderCanBeWritten(entries);
      var fields :| PrintableFields(fields) && MeaningOfFields(fields) == entries;
      assert Printable(InParens(fields)) && Meaning(InParens(fields)) == v;
    case _ =>
      assert Printable(Literal(v)) && Meaning(Literal(v)) == v;
  }

  lemma {:induction false} ItemsCanBeWritten(items: seq<HeaderValue>)
    requires ExpressibleItems(items)
    ensures exists ws :: PrintableItems(ws) && MeaningOfItems(ws) == items
    decreases items, 1
  {
    hide Printable, Meaning, Expressible;
    if items == [] {
      assert PrintableItems([]) && MeaningOfItems([]) == items;
    } else {
      ValueCanBeWritten(items[0]);
      ItemsCanBeWritten(items[1..]);
      var w :| Printable(w) && Meaning(w) == items[0];
      var ws :| PrintableItems(ws) && MeaningOfItems(ws) == items[1..];
      assert PrintableItems([w] + ws) && MeaningOfItems([w] + ws) == items;
    }
  }

  lemma {:induction false} HeaderCanBeWritten(entries: seq<Entry>)
    requires ExpressibleEntries(entries)
    ensures exists fields :: PrintableFields(fields) && MeaningOfFields(fields) == entries
    decreases entries, 1
  {
    hide Printable, Meaning, Expressible, IsBareWord;
    if entries == [] {
      assert PrintableFields([]) && MeaningOfFields([]) == entries;
    } else {
      ValueCanBeWritten(entries[0].value);
      HeaderCanBeWritten(entries[1..]);
      var w :| Printable(w) && Meaning(w) == entries[0].value;
      var rest :| PrintableFields(rest) && MeaningOfFields(rest) == entries[1..];
      var fields := [Field(entries[0].key, w)] + rest;
      KeysKept(rest);
      assert fields[1..] == rest;
      assert PrintableFields(fields) && MeaningOfFields(fields) == entries;
    }
  }

  lemma {:induction false} KeysKept(fields: seq<Field>)
    ensures |MeaningOfFields(fields)| == |fields|
    ensures forall k :: 0 <= k < |fields| ==> MeaningOfFields(fields)[k].key == fields[k].key
  {
    hide Meaning;
    if fields != [] {
      KeysKept(fields[1..]);
      assert forall k :: 1 <= k < |fields| ==> MeaningOfFields(fields)[k] == MeaningOfFields(fields[1..])[k - 1];
    }
  }
}
