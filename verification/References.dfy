/** `__source(name)` and `__ref(name[, ref_type='...'])` references in authored SQL
    (crates/sqltide-sqltext/src/sql_scan/references.rs). */
module References {
  import opened Chars
  import opened Lexing
  import opened Scanners

  datatype RelationType = Source | Ref

  datatype RefType = Reference | Mutable

  datatype SqlReference =
    SqlReference(name: Text, relation: RelationType, refType: Option<RefType>, start: nat, end: nat)

  const SOURCE_FUNCTION: Text := "__source"
  const REF_FUNCTION: Text := "__ref"

  function FunctionName(relation: RelationType): Text {
    if relation.Source? then SOURCE_FUNCTION else REF_FUNCTION
  }

  /** The reference function whose name starts at `i`, if any. */
  function FunctionAt(s: Text, i: nat): Option<RelationType> {
    if StartsWith(s, i, SOURCE_FUNCTION) then Some(Source)
    else if StartsWith(s, i, REF_FUNCTION) then Some(Ref)
    else None
  }

  /** No identifier character comes before `i`. */
  predicate Bounded(s: Text, i: nat)
    requires i <= |s|
  {
    i == 0 || !IsIdentifierChar(s[i - 1])
  }

  function Min(a: nat, b: nat): nat {
    if a < b then a else b
  }

  /** `s[i..end]` with each comment replaced by one space. */
  function WithoutComments(s: Text, i: nat, end: nat): Result<Text>
    requires end <= |s|
    decreases |s| - i
  {
    if i >= end then Ok([])
    else match NonCode(s, i)
      case Unclosed(e) => Err(e)
      case Code => Prefixed([s[i]], WithoutComments(s, i + 1, end))
      case Skip(n) =>
        var stop := Min(n, end);
        Prefixed(if IsQuote(s[i]) then s[i..stop] else " ", WithoutComments(s, stop, end))
  }

  function Prefixed(piece: Text, rest: Result<Text>): Result<Text> {
    match rest case Ok(t) => Ok(piece + t) case Err(e) => Err(e)
  }

  function ArgumentText(s: Text, start: nat, end: nat): Result<Text>
    requires end <= |s|
  {
    match WithoutComments(s, start, end) case Ok(t) => Ok(Strip(t)) case Err(e) => Err(e)
  }

  function PrefixedArgument(argument: Result<Text>, rest: Result<seq<Text>>): Result<seq<Text>> {
    match argument
    case Err(e) => Err(e)
    case Ok(a) => match rest case Ok(more) => Ok([a] + more) case Err(e) => Err(e)
  }

  /** The arguments of a call, split at its own commas. */
  function Split(s: Text, from: nat, i: nat, end: nat, depth: int): Result<seq<Text>>
    requires end <= |s| && from <= i
    decreases |s| - i
  {
    if i >= end then PrefixedArgument(ArgumentText(s, from, end), Ok([]))
    else match NonCode(s, i)
      case Unclosed(e) => Err(e)
      case Skip(n) => Split(s, from, n, end, depth)
      case Code =>
        if s[i] == ',' && depth == 0 then
          PrefixedArgument(ArgumentText(s, from, i), Split(s, i + 1, i + 1, end, depth))
        else Split(s, from, i + 1, end, depth + Weight(s, i))
  }

  function Arguments(s: Text, start: nat, end: nat): Result<seq<Text>>
    requires end <= |s|
  {
    match Split(s, start, start, end, 0)
    case Err(e) => Err(e)
    case Ok(arguments) => if [] in arguments then Err(EmptyArgument(start)) else Ok(arguments)
  }

  /** Resolve doubled quotes and backslash escapes between the delimiters of quoted text. */
  function Unquoted(value: Text, i: nat): Text
    requires 2 <= |value|
    decreases |value| - i
  {
    var last := |value| - 1;
    if i >= last then []
    else if value[i] == '\\' && i + 1 < last then [value[i + 1]] + Unquoted(value, i + 2)
    else if value[i] == value[0] && i + 1 < last && value[i + 1] == value[0] then
      [value[0]] + Unquoted(value, i + 2)
    else [value[i]] + Unquoted(value, i + 1)
  }

  predicate IsIdentifier(value: Text) {
    && value != [] && IsIdentifierStart(value[0])
    && forall k :: 1 <= k < |value| ==> IsIdentifierChar(value[k])
  }

  predicate IsDelimited(value: Text) {
    |value| >= 2 && value[0] == value[|value| - 1] && IsQuote(value[0])
  }

  function Name(raw: Text, start: nat): Result<Text> {
    var value := Strip(raw);
    if IsDelimited(value) && SkipQuoted(value, 0).Err? then Err(SkipQuoted(value, 0).error)
    else if IsDelimited(value) && SkipQuoted(value, 0) == Ok(|value|) && Unquoted(value, 1) != [] then
      Ok(Unquoted(value, 1))
    else if IsIdentifier(value) then Ok(value)
    else Err(BadName(start))
  }

  /** The position of the only equals sign, if there is exactly one. */
  function Separator(raw: Text): (r: Option<nat>)
    ensures r.Some? ==> r.value < |raw|
  {
    if exists k :: 0 <= k < |raw| && raw[k] == '=' && '=' !in raw[..k] && '=' !in raw[k + 1..] then
      var k :| 0 <= k < |raw| && raw[k] == '=' && '=' !in raw[..k] && '=' !in raw[k + 1..];
      Some(k)
    else None
  }

  function ReadRefType(raw: Text, start: nat): Result<RefType> {
    match Separator(raw)
    case None => Err(BadRefType(start))
    case Some(k) =>
      if Strip(raw[..k]) != "ref_type" then Err(BadRefType(start))
      else match Name(raw[k + 1..], start)
        case Err(e) => Err(e)
        case Ok(name) =>
          if name == "reference" then Ok(Reference)
          else if name == "mutable" then Ok(Mutable)
          else Err(BadRefType(start))
  }

  function ReadArguments(arguments: seq<Text>, relation: RelationType, start: nat, end: nat): (r: Result<SqlReference>)
    ensures r.Ok? ==> r.value.start == start && r.value.end == end
  {
    if |arguments| != 1 && |arguments| != 2 then Err(ArgumentCount(start))
    else match Name(arguments[0], start)
      case Err(e) => Err(e)
      case Ok(name) =>
        if |arguments| == 1 then Ok(SqlReference(name, relation, None, start, end))
        else if relation.Source? then Err(SourceWithRefType(start))
        else match ReadRefType(arguments[1], start)
          case Err(e) => Err(e)
          case Ok(t) => Ok(SqlReference(name, relation, Some(t), start, end))
  }

  /** The reference call starting at `start`, if one does. */
  function ReferenceAt(s: Text, start: nat): (r: Result<Option<SqlReference>>)
    requires start < |s|
    ensures r.Ok? && r.value.Some? ==> r.value.value.start == start < r.value.value.end <= |s|
  {
    match FunctionAt(s, start)
    case None => Ok(None)
    case Some(relation) =>
      if !Bounded(s, start) then Ok(None)
      else match Trivia(s, start + |FunctionName(relation)|)
        case Err(e) => Err(e)
        case Ok(open) =>
          if !(open < |s| && s[open] == '(') then Ok(None)
          else match Match(s, open + 1, 1, open)
            case Err(e) => Err(e)
            case Ok(close) =>
              match Arguments(s, open + 1, close)
              case Err(e) => Err(e)
              case Ok(arguments) =>
                match ReadArguments(arguments, relation, start, close + 1)
                case Err(e) => Err(e)
                case Ok(reference) => Ok(Some(reference))
  }

  function PrefixedReference(reference: SqlReference, rest: Result<seq<SqlReference>>): Result<seq<SqlReference>> {
    match rest case Ok(more) => Ok([reference] + more) case Err(e) => Err(e)
  }

  /** The references from `i` on, in authored order. */
  function Refs(s: Text, i: nat): Result<seq<SqlReference>>
    decreases |s| - i
  {
    if i >= |s| then Ok([])
    else match NonCode(s, i)
      case Unclosed(e) => Err(e)
      case Skip(n) => Refs(s, n)
      case Code =>
        match ReferenceAt(s, i)
        case Err(e) => Err(e)
        case Ok(None) => Refs(s, i + 1)
        case Ok(Some(reference)) => PrefixedReference(reference, Refs(s, reference.end))
  }

  // ------------------------------------------------------------------------------------------
  // The loops of references.rs

  function Appended(done: seq<SqlReference>, rest: Result<seq<SqlReference>>): Result<seq<SqlReference>> {
    match rest case Ok(more) => Ok(done + more) case Err(e) => Err(e)
  }

  method ExtractReferences(s: Text) returns (r: Result<seq<SqlReference>>)
    ensures r == Refs(s, 0)
  {
    hide NonCode, ReferenceAt;
    var references: seq<SqlReference> := [];
    var index: nat := 0;
    assert Refs(s, 0).Ok? ==> [] + Refs(s, 0).value == Refs(s, 0).value;
    while index < |s|
      invariant Refs(s, 0) == Appended(references, Refs(s, index))
    {
      var lexeme := SkipNonCode(s, index);
      if lexeme.Unclosed? {
        return Err(lexeme.error);
      }
      if lexeme.Skip? {
        index := lexeme.next;
        continue;
      }
      var parsed := ReferenceAt(s, index);
      if parsed.Err? {
        return Err(parsed.error);
      }
      if parsed.value.Some? {
        var reference := parsed.value.value;
        ghost var rest := Refs(s, reference.end);
        assert rest.Ok? ==> references + ([reference] + rest.value) == references + [reference] + rest.value;
        references := references + [reference];
        index := reference.end;
        continue;
      }
      index := index + 1;
    }
    assert references + [] == references;
    return Ok(references);
  }

  function AppendedText(done: Text, rest: Result<Text>): Result<Text> {
    match rest case Ok(more) => Ok(done + more) case Err(e) => Err(e)
  }

  lemma AppendedPrefix(done: Text, piece: Text, rest: Result<Text>)
    ensures AppendedText(done, Prefixed(piece, rest)) == AppendedText(done + piece, rest)
  {
    if rest.Ok? {
      assert done + (piece + rest.value) == done + piece + rest.value;
    }
  }

  method ReadArgumentText(s: Text, start: nat, end: nat) returns (r: Result<Text>)
    requires end <= |s|
    ensures r == ArgumentText(s, start, end)
  {
    var parts: Text := [];
    var index := start;
    assert WithoutComments(s, start, end).Ok? ==>
        [] + WithoutComments(s, start, end).value == WithoutComments(s, start, end).value;
    while index < end
      invariant start <= index
      invariant WithoutComments(s, start, end) == AppendedText(parts, WithoutComments(s, index, end))
      decreases end - index
    {
      ghost var was := parts;
      if StartsTwo(s, index, '-', '-') || s[index] == '#' {
        var next := SkipLineComment(s, index);
        parts := parts + " ";
        AppendedPrefix(was, " ", WithoutComments(s, Min(next, end), end));
        index := Min(next, end);
      } else if StartsTwo(s, index, '/', '*') {
        var next := SkipBlockComment(s, index);
        if next.Err? {
          return Err(next.error);
        }
        parts := parts + " ";
        AppendedPrefix(was, " ", WithoutComments(s, Min(next.value, end), end));
        index := Min(next.value, end);
      } else if IsQuote(s[index]) {
        var next := SkipQuotedText(s, index);
        if next.Err? {
          return Err(next.error);
        }
        var stop := Min(next.value, end);
        parts := parts + s[index..stop];
        AppendedPrefix(was, s[index..stop], WithoutComments(s, stop, end));
        index := stop;
      } else {
        parts := parts + [s[index]];
        AppendedPrefix(was, [s[index]], WithoutComments(s, index + 1, end));
        index := index + 1;
      }
    }
    assert parts + [] == parts;
    return Ok(Strip(parts));
  }

  function AppendedArguments(done: seq<Text>, rest: Result<seq<Text>>): Result<seq<Text>> {
    match rest case Ok(more) => Ok(done + more) case Err(e) => Err(e)
  }

  method SplitArguments(s: Text, start: nat, end: nat) returns (r: Result<seq<Text>>)
    requires end <= |s|
    ensures r == Arguments(s, start, end)
  {
    hide NonCode, ArgumentText;
    var arguments: seq<Text> := [];
    var from, index := start, start;
    var depth: int := 0;
    ghost var all := Split(s, start, start, end, 0);
    assert all.Ok? ==> arguments + all.value == all.value;
    while index < end
      invariant start <= from <= index
      invariant all == AppendedArguments(arguments, Split(s, from, index, end, depth))
    {
      var lexeme := SkipNonCode(s, index);
      if lexeme.Unclosed? {
        return Err(lexeme.error);
      }
      if lexeme.Skip? {
        index := lexeme.next;
        continue;
      }
      if s[index] == '(' {
        depth := depth + 1;
      } else if s[index] == ')' {
        depth := depth - 1;
      } else if s[index] == ',' && depth == 0 {
        var argument := ReadArgumentText(s, from, index);
        if argument.Err? {
          return Err(argument.error);
        }
        ghost var rest := Split(s, index + 1, index + 1, end, 0);
        assert rest.Ok? ==> arguments + ([argument.value] + rest.value) == arguments + [argument.value] + rest.value;
        arguments := arguments + [argument.value];
        from := index + 1;
      }
      index := index + 1;
    }
    var argument := ReadArgumentText(s, from, end);
    if argument.Err? {
      return Err(argument.error);
    }
    assert arguments + [argument.value] == arguments + ([argument.value] + []);
    arguments := arguments + [argument.value];
    if [] in arguments {
      return Err(EmptyArgument(start));
    }
    return Ok(arguments);
  }

  method Unquote(value: Text) returns (result: Text)
    requires 2 <= |value|
    ensures result == Unquoted(value, 1)
  {
    var quote, last := value[0], |value| - 1;
    result := [];
    var index := 1;
    while index < last
      invariant Unquoted(value, 1) == result + Unquoted(value, index)
    {
      if value[index] == '\\' && index + 1 < last {
        Associative(result, [value[index + 1]], Unquoted(value, index + 2));
        result := result + [value[index + 1]];
        index := index + 2;
      } else if value[index] == quote && index + 1 < last && value[index + 1] == quote {
        Associative(result, [quote], Unquoted(value, index + 2));
        result := result + [quote];
        index := index + 2;
      } else {
        Associative(result, [value[index]], Unquoted(value, index + 1));
        result := result + [value[index]];
        index := index + 1;
      }
    }
  }
}
