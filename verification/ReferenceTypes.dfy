/** The type of a reference, written as an argument or found in a parsed call, is read back
    (crates/sqltide-sqltext/src/sql_scan/references.rs, crates/sqltide-sqlanalysis/src/relations.rs). */
module ReferenceTypes {
  import opened Chars
  import opened Lexing
  import opened Scanners
  import opened Embedding
  import opened References
  import opened ReferenceNames
  import Trees
  import Relations

  const TYPE_KEY: Text := "ref_type="

  function TypeName(refType: RefType): Text {
    if refType.Reference? then "reference" else "mutable"
  }

  /** What a written type means: one of two words. */
  function TypeOf(word: Text, start: nat): Result<RefType> {
    if word == [] then Err(BadName(start))
    else if word == "reference" then Ok(Reference)
    else if word == "mutable" then Ok(Mutable)
    else Err(BadRefType(start))
  }

  lemma TypesAreNamed(refType: RefType, start: nat)
    ensures TypeOf(TypeName(refType), start) == Ok(refType)
  {
  }

  function TypeArgument(quote: char, word: Text): Text {
    TYPE_KEY + Quoted(quote, word)
  }

  function WrittenCall(relation: RelationType, quote: char, name: Text, typeQuote: char, word: Text): Text {
    FunctionName(relation) + "(" + (Quoted(quote, name) + ("," + (TypeArgument(typeQuote, word) + ")")))
  }

  // ------------------------------------------------------------------------------------------
  // The argument by itself

  lemma {:induction false} EscapedEquals(quote: char, word: Text)
    requires IsQuote(quote)
    ensures '=' in Escaped(quote, word) <==> '=' in word
  {
    if word != [] {
      EscapedEquals(quote, word[1..]);
      assert word == [word[0]] + word[1..];
    }
  }

  lemma SeparatorOf(left: Text, right: Text)
    requires '=' !in left
    ensures Separator(left + "=" + right) == if '=' in right then None else Some(|left|)
  {
    var raw, n := left + "=" + right, |left|;
    assert raw[..n] == left && raw[n] == '=' && raw[n + 1..] == right;
    assert forall k :: 0 <= k < n ==> raw[k] == left[k];
    assert forall k :: n < k <= |raw| ==> raw[..k][n] == '=';
  }

  /** A written type argument is read as the type its word means, and as none for any other. */
  lemma TypeIsRead(quote: char, word: Text, start: nat)
    requires IsQuote(quote)
    ensures ReadRefType(TypeArgument(quote, word), start) ==
            if '=' in word then Err(BadRefType(start)) else TypeOf(word, start)
  {
    hide Name, Escaped, Strip;
    var raw, value := TypeArgument(quote, word), Quoted(quote, word);
    assert raw == "ref_type" + "=" + value;
    assert '=' !in "ref_type" && quote != '=';
    EscapedEquals(quote, word);
    SeparatorOf("ref_type", value);
    assert raw[..8] == "ref_type" && raw[9..] == value;
    KeyIsTrimmed();
    QuotedName(quote, word, start);
  }

  lemma KeyIsTrimmed()
    ensures Strip("ref_type") == "ref_type"
  {
    StripPadded([], "ref_type", []);
    assert [] + "ref_type" + [] == "ref_type";
  }

  // ------------------------------------------------------------------------------------------
  // Both arguments of a call

  /** Characters the scans of a call step over one by one. */
  ghost predicate IsRun(t: Text, i: nat, j: nat) {
    i <= j <= |t| && forall k :: i <= k < j ==> IsPlain(t[k]) && t[k] != '(' && t[k] != ')' && t[k] != ','
  }

  lemma {:induction false} RunScanned(t: Text, i: nat, j: nat, depth: nat, open: nat, from: nat, end: nat)
    requires IsRun(t, i, j) && 0 < depth && j <= end <= |t| && from <= i
    ensures Match(t, i, depth, open) == Match(t, j, depth, open)
    ensures Split(t, from, i, end, 0) == Split(t, from, j, end, 0)
    ensures WithoutComments(t, i, end) == Prefixed(t[i..j], WithoutComments(t, j, end))
    decreases j - i
  {
    hide NonCode, IsPlain, ArgumentText, Next;
    if i < j {
      PlainIsCode(t, i);
      RunScanned(t, i + 1, j, depth, open, from, end);
      assert [t[i]] + t[i + 1..j] == t[i..j];
      PrefixedTwice([t[i]], t[i + 1..j], WithoutComments(t, j, end));
    } else {
      PrefixedNothing(WithoutComments(t, j, end));
      assert t[i..j] == [];
    }
  }

  lemma PrefixedTwice(a: Text, b: Text, rest: Result<Text>)
    ensures Prefixed(a, Prefixed(b, rest)) == Prefixed(a + b, rest)
  {
    if rest.Ok? {
      Associative(a, b, rest.value);
    }
  }

  lemma PrefixedNothing(rest: Result<Text>)
    ensures Prefixed([], rest) == rest
  {
    if rest.Ok? {
      assert [] + rest.value == rest.value;
    }
  }

  /** Quoted text is one step of every scan. */
  lemma QuotedScanned(t: Text, i: nat, j: nat, depth: nat, open: nat, from: nat, end: nat)
    requires i < j <= end <= |t| && from <= i && 0 < depth && IsQuote(t[i]) && NonCode(t, i) == Skip(j)
    ensures Match(t, i, depth, open) == Match(t, j, depth, open)
    ensures Split(t, from, i, end, 0) == Split(t, from, j, end, 0)
    ensures WithoutComments(t, i, end) == Prefixed(t[i..j], WithoutComments(t, j, end))
  {
    hide NonCode, ArgumentText;
  }

  lemma CommaScanned(t: Text, a: nat, c: nat, end: nat, depth: nat, open: nat)
    requires a <= c < end <= |t| && t[c] == ',' && 0 < depth
    ensures Match(t, c, depth, open) == Match(t, c + 1, depth, open)
    ensures Split(t, a, c, end, 0) == PrefixedArgument(ArgumentText(t, a, c), Split(t, c + 1, c + 1, end, 0))
  {
    hide ArgumentText;
    PlainIsCode(t, c);
  }

  lemma SplitEnds(t: Text, from: nat, end: nat)
    requires from <= end <= |t|
    ensures Split(t, from, end, end, 0) == PrefixedArgument(ArgumentText(t, from, end), Ok([]))
    ensures WithoutComments(t, end, end) == Ok([])
  {
  }

  lemma KeyIsRun(t: Text, i: nat)
    requires StartsWith(t, i, TYPE_KEY)
    ensures IsRun(t, i, i + |TYPE_KEY|) && t[i..i + |TYPE_KEY|] == TYPE_KEY
  {
    SliceOf(t, i, TYPE_KEY);
    hide StartsWith;
    forall k | i <= k < i + |TYPE_KEY| ensures IsPlain(t[k]) && t[k] != '(' && t[k] != ')' && t[k] != ',' {
      StartsWithAt(t, i, TYPE_KEY, k - i);
    }
  }

  /** `ArgumentText` of text that is one quoted piece, or a key and a quoted piece. */
  lemma PieceText(t: Text, from: nat, end: nat, piece: Text)
    requires from <= end <= |t| && WithoutComments(t, from, end) == Ok(piece) && Trimmed(piece)
    ensures ArgumentText(t, from, end) == Ok(piece)
  {
    hide Strip;
    StripPadded([], piece, []);
    assert [] + piece + [] == piece;
  }

  lemma PiecesAreTrimmed(quote: char, word: Text)
    requires IsQuote(quote)
    ensures Trimmed(Quoted(quote, word)) && Trimmed(TypeArgument(quote, word))
    ensures Quoted(quote, word) != [] && TypeArgument(quote, word) != []
  {
    hide Escaped;
    var value, all := Quoted(quote, word), TypeArgument(quote, word);
    assert value[0] == quote && value[|value| - 1] == quote && all[|all| - 1] == quote && all[0] == 'r';
  }

  lemma CallArguments(t: Text, a: nat, quote: char, name: Text, typeQuote: char, word: Text)
    requires IsQuote(quote) && IsQuote(typeQuote)
    requires StartsWith(t, a, Quoted(quote, name) + ("," + (TypeArgument(typeQuote, word) + ")")))
    ensures var close := a + |Quoted(quote, name)| + 1 + |TypeArgument(typeQuote, word)|;
            && Match(t, a, 1, a) == Ok(close) && close < |t|
            && Arguments(t, a, close) == Ok([Quoted(quote, name), TypeArgument(typeQuote, word)])
  {
    hide NonCode, Escaped, StartsWith, Match, Split, WithoutComments, ArgumentText, IsRun, Trimmed, TYPE_KEY;
    var value, argument, last := Quoted(quote, name), TypeArgument(typeQuote, word), Quoted(typeQuote, word);
    var c := a + |value|;
    var k := c + 1 + |TYPE_KEY|;
    var close := c + 1 + |argument|;
    StartsWithSplit(t, a, value, "," + (argument + ")"));
    StartsWithSplit(t, c, ",", argument + ")");
    StartsWithSplit(t, c + 1, argument, ")");
    StartsWithSplit(t, c + 1, TYPE_KEY, last);
    StartsWithAt(t, c, ",", 0);
    StartsWithAt(t, close, ")", 0);
    StartsWithAt(t, a, value, 0);
    StartsWithAt(t, k, last, 0);
    SliceOf(t, a, value);
    SliceOf(t, k, last);
    QuotedIsOneLexeme(t, a, quote, name);
    QuotedIsOneLexeme(t, k, typeQuote, word);
    KeyIsRun(t, c + 1);
    ArgumentsSplit(t, a, c, k, close);
    PrefixedNothing(Ok([]));
    assert value + [] == value && last + [] == last;
    PiecesAreTrimmed(quote, name);
    PiecesAreTrimmed(typeQuote, word);
    PieceText(t, a, c, value);
    PieceText(t, c + 1, close, argument);
    assert [argument] + [] == [argument];
    assert [value] + [argument] == [value, argument];
  }

  /** The call's scans, from lexeme to lexeme. */
  lemma ArgumentsSplit(t: Text, a: nat, c: nat, k: nat, close: nat)
    requires a < c < c + 1 <= k < close < |t| && t[c] == ',' && t[close] == ')'
    requires IsQuote(t[a]) && NonCode(t, a) == Skip(c) && IsQuote(t[k]) && NonCode(t, k) == Skip(close) && IsRun(t, c + 1, k)
    ensures Match(t, a, 1, a) == Ok(close)
    ensures Split(t, a, a, close, 0) ==
            PrefixedArgument(ArgumentText(t, a, c), PrefixedArgument(ArgumentText(t, c + 1, close), Ok([])))
    ensures WithoutComments(t, a, c) == Prefixed(t[a..c], Ok([]))
    ensures WithoutComments(t, c + 1, close) == Prefixed(t[c + 1..k], Prefixed(t[k..close], Ok([])))
  {
    hide NonCode, ArgumentText, Match, Split, WithoutComments, IsRun;
    QuotedScanned(t, a, c, 1, a, a, close);
    QuotedScanned(t, a, c, 1, a, a, c);
    CommaScanned(t, a, c, close, 1, a);
    RunScanned(t, c + 1, k, 1, a, c + 1, close);
    QuotedScanned(t, k, close, 1, a, c + 1, close);
    MatchHere(t, close, a);
    SplitEnds(t, c + 1, close);
    SplitEnds(t, a, c);
  }

  /** A written call with a type is extracted alone and over the whole text, with its name and the
      type the word means; a source takes no type. */
  lemma ReferenceTypeRoundTrip(relation: RelationType, quote: char, name: Text, typeQuote: char, word: Text)
    requires IsQuote(quote) && IsQuote(typeQuote)
    ensures var t := WrittenCall(relation, quote, name, typeQuote, word);
            Refs(t, 0) ==
            if name == [] then Err(BadName(0))
            else if relation.Source? then Err(SourceWithRefType(0))
            else if '=' in word then Err(BadRefType(0))
            else match TypeOf(word, 0)
              case Err(e) => Err(e)
              case Ok(refType) => Ok([SqlReference(name, Ref, Some(refType), 0, |t|)])
  {
    hide Match, Trivia, Arguments, Name, StartsWith, Quoted, FunctionAt, TypeArgument, ReadRefType, TypeOf;
    var t := WrittenCall(relation, quote, name, typeQuote, word);
    var value, argument := Quoted(quote, name), TypeArgument(typeQuote, word);
    var rest := value + ("," + (argument + ")"));
    var open := |FunctionName(relation)|;
    WrittenFunction(relation, rest);
    assert t == (FunctionName(relation) + "(") + rest + [];
    StartsWithPlaced(FunctionName(relation) + "(", rest, []);
    assert t[open] == '(' && t[0] == '_';
    PlainIsCode(t, 0);
    PlainIsCode(t, open);
    OpenIsNoTrivia(t, open);
    CallArguments(t, open + 1, quote, name, typeQuote, word);
    MatchOrigin(t, open + 1, 1, open + 1, open);
    QuotedName(quote, name, 0);
    TypeIsRead(typeQuote, word, 0);
    assert Bounded(t, 0) && Refs(t, |t|) == Ok([]);
    CallRead(t, relation, value, argument);
  }

  lemma CallRead(t: Text, relation: RelationType, value: Text, argument: Text)
    requires t != [] && NonCode(t, 0) == Code && FunctionAt(t, 0) == Some(relation) && Refs(t, |t|) == Ok([])
    requires var open := |FunctionName(relation)|;
             && open < |t| && t[open] == '(' && Trivia(t, open) == Ok(open)
             && Match(t, open + 1, 1, open) == Ok(|t| - 1) && Arguments(t, open + 1, |t| - 1) == Ok([value, argument])
    ensures var read := ReadArguments([value, argument], relation, 0, |t|);
            Refs(t, 0) == match read case Err(e) => Err(e) case Ok(reference) => Ok([reference])
  {
    hide Match, Trivia, Arguments, FunctionAt, ReadArguments, NonCode;
    var read := ReadArguments([value, argument], relation, 0, |t|);
    if read.Ok? {
      assert ReferenceAt(t, 0) == Ok(Some(read.value));
      assert [read.value] + [] == [read.value];
    } else {
      assert ReferenceAt(t, 0) == Err(read.error);
    }
  }

  // ------------------------------------------------------------------------------------------
  // The same in a parsed call

  /** A string literal of the tree, or a bare column name. */
  function ScalarTree(text: Text, isLiteral: bool): Trees.Value {
    if isLiteral then Trees.Obj([Trees.Entry(Trees.Literal, Trees.Obj([Trees.Entry(Trees.Content, Trees.Str(text))]))])
    else
      var name := Trees.Obj([Trees.Entry(Trees.Name, Trees.Str(text))]);
      Trees.Obj([Trees.Entry(Trees.Column, Trees.Obj([Trees.Entry(Trees.Name, name)]))])
  }

  function TypeTree(word: Text, isLiteral: bool): Trees.Value {
    Trees.Obj([Trees.Entry(Trees.Equality, Trees.Obj([
      Trees.Entry(Trees.Left, ScalarTree("ref_type", false)), Trees.Entry(Trees.Right, ScalarTree(word, isLiteral))]))])
  }

  function CallTree(relation: RelationType, name: Text, isLiteral: bool, arguments: seq<Trees.Value>): seq<Trees.Entry> {
    [Trees.Entry(Trees.Function, Trees.Obj([
      Trees.Entry(Trees.Name, Trees.Str(FunctionName(relation))),
      Trees.Entry(Trees.Args, Trees.Arr([ScalarTree(name, isLiteral)] + arguments))]))]
  }

  lemma GetHere(key: Trees.Key, value: Trees.Value, other: Trees.Key)
    ensures Trees.Get([Trees.Entry(key, value)], other) == if key == other then Some(value) else None
  {
    hide Trees.HasKey;
    Trees.GetOfCons(Trees.Entry(key, value), [], other);
    assert [Trees.Entry(key, value)] + [] == [Trees.Entry(key, value)];
  }

  lemma GetOfTwo(a: Trees.Entry, b: Trees.Entry, key: Trees.Key)
    ensures Trees.Get([a, b], key) == if a.key == key then Some(a.value) else if b.key == key then Some(b.value) else None
  {
    hide Trees.HasKey;
    Trees.GetOfCons(a, [b], key);
    assert [a] + [b] == [a, b];
    GetHere(b.key, b.value, key);
  }

  lemma ScalarIsRead(text: Text, isLiteral: bool)
    ensures Relations.ScalarName(ScalarTree(text, isLiteral)) == Some(text)
  {
    hide Trees.HasKey, Trees.Get;
    if isLiteral {
      var content := Trees.Obj([Trees.Entry(Trees.Content, Trees.Str(text))]);
      GetHere(Trees.Literal, content, Trees.Column);
      GetHere(Trees.Literal, content, Trees.Literal);
      GetHere(Trees.Content, Trees.Str(text), Trees.Content);
    } else {
      var name := Trees.Obj([Trees.Entry(Trees.Name, Trees.Str(text))]);
      GetHere(Trees.Column, Trees.Obj([Trees.Entry(Trees.Name, name)]), Trees.Column);
      GetHere(Trees.Name, name, Trees.Name);
      GetHere(Trees.Name, Trees.Str(text), Trees.Name);
    }
  }

  lemma TreeTypeIsRead(word: Text, isLiteral: bool)
    ensures Relations.AstRefType(TypeTree(word, isLiteral)) ==
            if TypeOf(word, 0).Ok? then Some(TypeOf(word, 0).value) else None
  {
    hide Trees.HasKey, Trees.Get, ScalarTree, Relations.ScalarName;
    var left, right := Trees.Entry(Trees.Left, ScalarTree("ref_type", false)), Trees.Entry(Trees.Right, ScalarTree(word, isLiteral));
    GetHere(Trees.Equality, Trees.Obj([left, right]), Trees.Equality);
    GetOfTwo(left, right, Trees.Left);
    GetOfTwo(left, right, Trees.Right);
    ScalarIsRead("ref_type", false);
    ScalarIsRead(word, isLiteral);
  }

  /** A call in a tree is identified by its function, its name and the type the word means. */
  lemma CallIsIdentified(relation: RelationType, name: Text, isLiteral: bool, word: Option<Text>, wordIsLiteral: bool)
    ensures var arguments := if word.None? then [] else [TypeTree(word.value, wordIsLiteral)];
            Relations.ReferenceIdentity(CallTree(relation, name, isLiteral, arguments)) ==
            Some(Relations.Identity(relation, name,
              if relation.Ref? && word.Some? && TypeOf(word.value, 0).Ok? then Some(TypeOf(word.value, 0).value) else None))
  {
    hide Trees.HasKey, Trees.Get, ScalarTree, TypeTree, Relations.ScalarName, Relations.AstRefType, TypeOf;
    var arguments := if word.None? then [] else [TypeTree(word.value, wordIsLiteral)];
    var function_ := Trees.Entry(Trees.Name, Trees.Str(FunctionName(relation)));
    var args := Trees.Entry(Trees.Args, Trees.Arr([ScalarTree(name, isLiteral)] + arguments));
    GetHere(Trees.Function, Trees.Obj([function_, args]), Trees.Function);
    GetOfTwo(function_, args, Trees.Name);
    GetOfTwo(function_, args, Trees.Args);
    ScalarIsRead(name, isLiteral);
    if word.Some? {
      TreeTypeIsRead(word.value, wordIsLiteral);
    }
    assert SOURCE_FUNCTION[2] != REF_FUNCTION[2];
  }
}
