/** Comments, quoted text and the one lexical step every scan takes
    (crates/sqltide-sqltext/src/sql_scan/primitives.rs). */
module Lexing {
  import opened Chars

  /** Why a scan failed, with the offset its span starts at. */
  datatype ScanError =
    | UnclosedQuote(start: nat)
    | UnclosedComment(start: nat)
    | UnclosedParenthesis(start: nat)
    | ArgumentCount(start: nat)
    | EmptyArgument(start: nat)
    | BadName(start: nat)
    | SourceWithRefType(start: nat)
    | BadRefType(start: nat)
    | MissingWith(start: nat)
    | MissingCteName(start: nat)
    | MissingAs(start: nat)
    | DuplicateCte(start: nat)
    | MissingSemicolon
    | MissingSelect
  {
    function Shift(d: nat): ScanError {
      if MissingSemicolon? || MissingSelect? then this else this.(start := start + d)
    }
  }

  datatype Result<+T> = Ok(value: T) | Err(error: ScanError)

  function ShiftIndex(r: Result<nat>, d: nat): Result<nat> {
    match r case Ok(n) => Ok(n + d) case Err(e) => Err(e.Shift(d))
  }

  predicate StartsWith(s: Text, i: nat, pattern: Text) {
    i + |pattern| <= |s| && s[i..i + |pattern|] == pattern
  }

  lemma StartsWithSplit(s: Text, i: nat, a: Text, b: Text)
    ensures StartsWith(s, i, a + b) <==> StartsWith(s, i, a) && StartsWith(s, i + |a|, b)
  {
    if StartsWith(s, i, a + b) {
      assert s[i..i + |a|] == (a + b)[..|a|];
      assert s[i + |a|..i + |a| + |b|] == (a + b)[|a|..];
    }
  }

  lemma StartsWithAt(s: Text, i: nat, pattern: Text, k: nat)
    requires StartsWith(s, i, pattern) && k < |pattern|
    ensures i + k < |s| && s[i + k] == pattern[k]
  {
    assert s[i..i + |pattern|][k] == s[i + k];
  }

  lemma StartsWithPlaced(left: Text, piece: Text, right: Text)
    ensures StartsWith(left + piece + right, |left|, piece)
  {
    assert (left + piece + right)[|left|..|left| + |piece|] == piece;
  }

  predicate StartsTwo(s: Text, i: nat, a: char, b: char)
    ensures StartsTwo(s, i, a, b) <==> StartsWith(s, i, [a, b])
  {
    i + 1 < |s| && s[i] == a && s[i + 1] == b
  }

  predicate IsLineComment(s: Text, i: nat) {
    StartsTwo(s, i, '-', '-') || (i < |s| && s[i] == '#')
  }

  /** The index after the newline ending a line comment, or the end of the text. */
  function LineEnd(s: Text, i: nat): (r: nat)
    requires i <= |s|
    ensures i <= r <= |s| && (i < |s| ==> i < r)
    ensures r < |s| ==> s[r - 1] == '\n'
    decreases |s| - i
  {
    if i == |s| then i else if s[i] == '\n' then i + 1 else LineEnd(s, i + 1)
  }

  /** The index after the first star-slash at or after `i`. */
  function BlockEnd(s: Text, i: nat): (r: Option<nat>)
    ensures r.Some? ==> i + 2 <= r.value <= |s| && s[r.value - 2] == '*' && s[r.value - 1] == '/'
    decreases |s| - i
  {
    if i + 1 >= |s| then None
    else if s[i] == '*' && s[i + 1] == '/' then Some(i + 2)
    else BlockEnd(s, i + 1)
  }

  /** A line comment holds no newline but its last character. */
  lemma {:induction false} LineEndIsFirst(s: Text, i: nat, k: nat)
    requires i <= |s| && i <= k < LineEnd(s, i) - 1
    ensures s[k] != '\n'
    decreases |s| - i
  {
    if i < k {
      LineEndIsFirst(s, i + 1, k);
    }
  }

  /** A block comment ends at its first star-slash and is unclosed only without one. */
  lemma {:induction false} BlockEndIsFirst(s: Text, i: nat, k: nat)
    requires i <= k && k + 1 < |s| && s[k] == '*' && s[k + 1] == '/'
    ensures BlockEnd(s, i).Some? && BlockEnd(s, i).value <= k + 2
    decreases k - i
  {
    if i < k && !(s[i] == '*' && s[i + 1] == '/') {
      BlockEndIsFirst(s, i + 1, k);
    }
  }

  /** The index after the delimiter closing quoted text, scanning from `i` inside it. */
  function QuoteEnd(s: Text, quote: char, i: nat): (r: Option<nat>)
    ensures r.Some? ==> i < r.value <= |s| && s[r.value - 1] == quote
    decreases |s| - i
  {
    if i >= |s| then None
    else if s[i] == '\\' && i + 1 < |s| then QuoteEnd(s, quote, i + 2)
    else if s[i] == quote then
      if i + 1 < |s| && s[i + 1] == quote then QuoteEnd(s, quote, i + 2) else Some(i + 1)
    else QuoteEnd(s, quote, i + 1)
  }

  function SkipQuoted(s: Text, start: nat): (r: Result<nat>)
    requires start < |s|
    ensures r.Ok? ==> start + 1 < r.value <= |s|
  {
    match QuoteEnd(s, s[start], start + 1)
    case Some(end) => Ok(end)
    case None => Err(UnclosedQuote(start))
  }

  function SkipBlock(s: Text, start: nat): (r: Result<nat>)
    ensures r.Ok? ==> start + 4 <= r.value <= |s|
  {
    match BlockEnd(s, start + 2)
    case Some(end) => Ok(end)
    case None => Err(UnclosedComment(start))
  }

  /** What starts at an index: code, or a comment or quoted text to jump over. */
  datatype Lexeme = Code | Skip(next: nat) | Unclosed(error: ScanError)

  function NonCode(s: Text, i: nat): (r: Lexeme)
    requires i < |s|
    ensures r.Skip? ==> i < r.next <= |s|
  {
    if IsLineComment(s, i) then Skip(LineEnd(s, i))
    else if StartsTwo(s, i, '/', '*') then
      match SkipBlock(s, i) case Ok(end) => Skip(end) case Err(e) => Unclosed(e)
    else if IsQuote(s[i]) then
      match SkipQuoted(s, i) case Ok(end) => Skip(end) case Err(e) => Unclosed(e)
    else Code
  }

  predicate IsCode(s: Text, i: nat) {
    i < |s| && NonCode(s, i).Code?
  }

  /** No comment or quoted text starts with this character. */
  predicate IsPlain(c: char) {
    c != '-' && c != '/' && c != '#' && !IsQuote(c)
  }

  lemma PlainIsCode(s: Text, i: nat)
    requires i < |s| && IsPlain(s[i])
    ensures IsCode(s, i) && Next(s, i) == Ok(i + 1)
  {
  }

  /** One step of the lexical automaton: over a comment, over quoted text, or over one code
      character. */
  function Next(s: Text, i: nat): (r: Result<nat>)
    requires i < |s|
    ensures r.Ok? ==> i < r.value <= |s|
  {
    match NonCode(s, i)
    case Code => Ok(i + 1)
    case Skip(n) => Ok(n)
    case Unclosed(e) => Err(e)
  }

  /** `j` is a boundary of the chain of lexical steps starting at `i`. */
  ghost predicate Walk(s: Text, i: nat, j: nat)
    decreases |s| - i
  {
    if i >= j then i == j
    else i < |s| && Next(s, i).Ok? && Walk(s, Next(s, i).value, j)
  }

  /** `j` holds a code character of the chain starting at `i`. */
  ghost predicate CodeAt(s: Text, i: nat, j: nat) {
    Walk(s, i, j) && IsCode(s, j)
  }

  /** The chain starting at `i` reaches an unclosed quote or comment at `j`. */
  ghost predicate Stuck(s: Text, i: nat, j: nat, e: ScanError) {
    Walk(s, i, j) && j < |s| && NonCode(s, j) == Unclosed(e)
  }

  lemma {:induction false} WalkTransitive(s: Text, i: nat, j: nat, k: nat)
    requires Walk(s, i, j) && Walk(s, j, k)
    ensures Walk(s, i, k)
    decreases |s| - i
  {
    if i < j {
      WalkTransitive(s, Next(s, i).value, j, k);
      WalkForward(s, j, k);
    }
  }

  lemma WalkForward(s: Text, i: nat, j: nat)
    requires Walk(s, i, j)
    ensures i <= j && (i <= |s| ==> j <= |s|)
    decreases |s| - i
  {
    if i < j {
      WalkForward(s, Next(s, i).value, j);
    }
  }

  /** The chain is a single line: of two boundaries the later is reached through the earlier. */
  lemma {:induction false} WalkThrough(s: Text, i: nat, j: nat, k: nat)
    requires Walk(s, i, j) && Walk(s, i, k) && j <= k
    ensures Walk(s, j, k)
    decreases |s| - i
  {
    if i < j {
      WalkForward(s, Next(s, i).value, j);
      WalkThrough(s, Next(s, i).value, j, k);
    }
  }

  // ------------------------------------------------------------------------------------------
  // The loops of primitives.rs

  method SkipQuotedText(s: Text, start: nat) returns (r: Result<nat>)
    requires start < |s|
    ensures r == SkipQuoted(s, start)
  {
    var quote := s[start];
    var index := start + 1;
    while index < |s|
      invariant start < index
      invariant QuoteEnd(s, quote, start + 1) == QuoteEnd(s, quote, index)
    {
      if s[index] == '\\' && index + 1 < |s| {
        index := index + 2;
        continue;
      }
      if s[index] == quote {
        if index + 1 < |s| && s[index + 1] == quote {
          index := index + 2;
          continue;
        }
        return Ok(index + 1);
      }
      index := index + 1;
    }
    return Err(UnclosedQuote(start));
  }

  method SkipLineComment(s: Text, start: nat) returns (end: nat)
    requires start <= |s|
    ensures end == LineEnd(s, start)
  {
    end := start;
    while end < |s|
      invariant start <= end <= |s|
      invariant LineEnd(s, start) == LineEnd(s, end)
    {
      if s[end] == '\n' {
        return end + 1;
      }
      end := end + 1;
    }
  }

  method SkipBlockComment(s: Text, start: nat) returns (r: Result<nat>)
    ensures r == SkipBlock(s, start)
  {
    var index := start + 2;
    while index + 1 < |s|
      invariant start + 2 <= index
      invariant BlockEnd(s, start + 2) == BlockEnd(s, index)
    {
      if s[index] == '*' && s[index + 1] == '/' {
        return Ok(index + 2);
      }
      index := index + 1;
    }
    return Err(UnclosedComment(start));
  }

  method SkipNonCode(s: Text, index: nat) returns (r: Lexeme)
    requires index < |s|
    ensures r == NonCode(s, index)
  {
    if IsLineComment(s, index) {
      var end := SkipLineComment(s, index);
      return Skip(end);
    }
    if StartsTwo(s, index, '/', '*') {
      var end := SkipBlockComment(s, index);
      return match end case Ok(n) => Skip(n) case Err(e) => Unclosed(e);
    }
    if IsQuote(s[index]) {
      var end := SkipQuotedText(s, index);
      return match end case Ok(n) => Skip(n) case Err(e) => Unclosed(e);
    }
    return Code;
  }
}
