/** The scans built on the lexical step: matching parentheses, unquoted characters, trivia,
    keywords and the terminal delimiter (crates/sqltide-sqltext/src/sql_scan/primitives.rs).
    Each is shown to walk the one chain of `Lexing.Walk`. */
module Scanners {
  import opened Chars
  import opened Lexing
  import opened Agreement

  // ------------------------------------------------------------------------------------------
  // Matching parentheses

  /** Scan from `i` with `depth` parentheses open, the outermost at `open`. */
  function Match(s: Text, i: nat, depth: nat, open: nat): (r: Result<nat>)
    requires 0 < depth
    ensures r.Ok? ==> i <= r.value < |s| && s[r.value] == ')'
    decreases |s| - i
  {
    if i >= |s| then Err(UnclosedParenthesis(open))
    else match NonCode(s, i)
      case Unclosed(e) => Err(e)
      case Skip(n) => Match(s, n, depth, open)
      case Code =>
        if s[i] == '(' then Match(s, i + 1, depth + 1, open)
        else if s[i] == ')' then (if depth == 1 then Ok(i) else Match(s, i + 1, depth - 1, open))
        else Match(s, i + 1, depth, open)
  }

  function Weight(s: Text, i: nat): int
    requires i < |s|
  {
    if !IsCode(s, i) then 0 else if s[i] == '(' then 1 else if s[i] == ')' then -1 else 0
  }

  /** Code parentheses opened minus closed on the chain from `i` to `j`. */
  ghost function Balance(s: Text, i: nat, j: nat): int
    requires Walk(s, i, j)
    decreases |s| - i
  {
    if i == j then 0 else Weight(s, i) + Balance(s, Next(s, i).value, j)
  }

  /** `c` is a code `)` that closes the outermost of `depth` parentheses open at `i`. */
  ghost predicate ClosesAt(s: Text, i: nat, depth: int, c: nat) {
    CodeAt(s, i, c) && s[c] == ')' && depth + Balance(s, i, c) == 1
  }

  /** ... and no earlier one does. */
  ghost predicate ClosesFirst(s: Text, i: nat, depth: int, c: nat) {
    ClosesAt(s, i, depth, c) && forall b :: i <= b < c ==> !ClosesAt(s, i, depth, b)
  }

  lemma ClosesStep(s: Text, i: nat, depth: int, c: nat)
    requires i < |s| && Next(s, i).Ok?
    requires !(IsCode(s, i) && s[i] == ')' && depth == 1)
    ensures ClosesAt(s, i, depth, c) <==> ClosesAt(s, Next(s, i).value, depth + Weight(s, i), c)
  {
    if c <= i {
      assert !Walk(s, Next(s, i).value, c);
    }
  }

  /** The first close, or the reason why there is none. */
  ghost predicate IsMatch(s: Text, i: nat, depth: nat, open: nat, r: Result<nat>) {
    match r
    case Ok(c) => ClosesFirst(s, i, depth, c)
    case Err(e) =>
      && (forall c :: !ClosesAt(s, i, depth, c))
      && (|| (exists j :: Stuck(s, i, j, e))
          || (e == UnclosedParenthesis(open) && (i <= |s| ==> Walk(s, i, |s|))))
  }

  lemma {:induction false} MatchCloses(s: Text, i: nat, depth: nat, open: nat)
    requires 0 < depth
    ensures IsMatch(s, i, depth, open, Match(s, i, depth, open))
    decreases |s| - i
  {
    hide NonCode;
    if i >= |s| {
      assert forall c :: Walk(s, i, c) ==> c == i;
    } else if Next(s, i).Err? {
      assert forall c :: Walk(s, i, c) ==> c == i;
      assert Stuck(s, i, i, Next(s, i).error);
    } else if IsCode(s, i) && s[i] == ')' && depth == 1 {
      assert ClosesAt(s, i, depth, i);
    } else {
      var n, w := Next(s, i).value, Weight(s, i);
      MatchCloses(s, n, depth + w, open);
      assert Match(s, i, depth, open) == Match(s, n, depth + w, open);
      forall c ensures ClosesAt(s, i, depth, c) <==> ClosesAt(s, n, depth + w, c) {
        ClosesStep(s, i, depth, c);
      }
      forall c | Walk(s, n, c) ensures n <= c && Walk(s, i, c) {
        WalkForward(s, n, c);
      }
      var r := Match(s, n, depth + w, open);
      if r.Err? && exists j :: Stuck(s, n, j, r.error) {
        var j :| Stuck(s, n, j, r.error);
        assert Stuck(s, i, j, r.error);
      }
    }
  }

  /** A match is the first code index at which the depth returns to zero; a failure is an
      unclosed quote or comment met before any such index, or the end of the text. */
  lemma MatchIsFirstClose(s: Text, i: nat, depth: nat, open: nat)
    requires 0 < depth && i <= |s|
    ensures forall c: nat :: Match(s, i, depth, open) == Ok(c) <==> ClosesFirst(s, i, depth, c)
    ensures Match(s, i, depth, open).Err? <==> forall c: nat :: !ClosesAt(s, i, depth, c)
    ensures forall e :: Match(s, i, depth, open) == Err(e) ==>
              (exists j :: Stuck(s, i, j, e)) || (e == UnclosedParenthesis(open) && Walk(s, i, |s|))
  {
    MatchCloses(s, i, depth, open);
    forall c: nat | ClosesAt(s, i, depth, c) ensures i <= c {
      WalkForward(s, i, c);
    }
    forall c: nat | ClosesFirst(s, i, depth, c) ensures Match(s, i, depth, open) == Ok(c) {
      assert ClosesAt(s, i, depth, c);
    }
  }

  method FindMatchingParenthesis(s: Text, open: nat) returns (r: Result<nat>)
    ensures r == Match(s, open + 1, 1, open)
  {
    var depth: nat := 1;
    var index := open + 1;
    while index < |s|
      invariant open < index && 0 < depth
      invariant Match(s, open + 1, 1, open) == Match(s, index, depth, open)
    {
      var lexeme := SkipNonCode(s, index);
      if lexeme.Unclosed? {
        return Err(lexeme.error);
      }
      if lexeme.Skip? {
        index := lexeme.next;
        continue;
      }
      if s[index] == '(' {
        depth := depth + 1;
      } else if s[index] == ')' {
        depth := depth - 1;
        if depth == 0 {
          return Ok(index);
        }
      }
      index := index + 1;
    }
    return Err(UnclosedParenthesis(open));
  }

  lemma {:induction false} MatchAgrees(s: Text, t: Text, d: nat, lo: nat, hi: nat, i: nat, depth: nat, open: nat)
    requires Agree(s, t, d, lo, hi) && lo <= i && 0 < depth
    requires Tail(s, t, d, hi) || (Match(s, i, depth, open).Ok? && Match(s, i, depth, open).value < hi)
    ensures Match(t, i + d, depth, open + d) == ShiftIndex(Match(s, i, depth, open), d)
    decreases |s| - i
  {
    hide NonCode;
    if i < |s| {
      if s[i] == ')' || s[i] == '(' {
        PlainIsCode(s, i);
        PlainIsCode(t, i + d);
      } else {
        if !Tail(s, t, d, hi) {
          CutBefore(s, t, d, hi, i);
        }
        NonCodeAgrees(s, t, d, lo, hi, i);
      }
      if NonCode(s, i).Skip? {
        MatchAgrees(s, t, d, lo, hi, NonCode(s, i).next, depth, open);
      } else if NonCode(s, i).Code? {
        if s[i] == '(' {
          MatchAgrees(s, t, d, lo, hi, i + 1, depth + 1, open);
        } else if s[i] == ')' {
          if depth > 1 {
            MatchAgrees(s, t, d, lo, hi, i + 1, depth - 1, open);
          }
        } else {
          MatchAgrees(s, t, d, lo, hi, i + 1, depth, open);
        }
      }
    }
  }

  /** The chain leads from the opening parenthesis through its match. */
  lemma {:induction false} MatchWalk(s: Text, i: nat, depth: nat, open: nat)
    requires 0 < depth && Match(s, i, depth, open).Ok?
    ensures CodeAt(s, i, Match(s, i, depth, open).value)
    ensures depth + Balance(s, i, Match(s, i, depth, open).value) == 1
  {
    MatchCloses(s, i, depth, open);
  }

  // ------------------------------------------------------------------------------------------
  // The next code occurrence of a character

  function FindCode(s: Text, target: char, i: nat): Result<Option<nat>>
    decreases |s| - i
  {
    if i >= |s| then Ok(None)
    else match NonCode(s, i)
      case Unclosed(e) => Err(e)
      case Skip(n) => FindCode(s, target, n)
      case Code => if s[i] == target then Ok(Some(i)) else FindCode(s, target, i + 1)
  }

  ghost predicate FoundAt(s: Text, target: char, i: nat, j: nat) {
    CodeAt(s, i, j) && s[j] == target
  }

  /** The least occurrence, or the reason why there is none. */
  ghost predicate IsFound(s: Text, target: char, i: nat, r: Result<Option<nat>>) {
    match r
    case Ok(Some(j)) => FoundAt(s, target, i, j) && forall k: nat :: i <= k < j ==> !FoundAt(s, target, i, k)
    case Ok(None) => Walk(s, i, |s|) && forall j: nat :: !FoundAt(s, target, i, j)
    case Err(e) => (exists j: nat :: Stuck(s, i, j, e)) && forall j: nat :: !FoundAt(s, target, i, j)
  }

  lemma {:induction false} FindCodeFinds(s: Text, target: char, i: nat)
    requires i <= |s|
    ensures IsFound(s, target, i, FindCode(s, target, i))
    decreases |s| - i
  {
    hide NonCode;
    if i == |s| {
      assert forall j :: Walk(s, i, j) ==> j == i;
    } else if Next(s, i).Err? {
      assert forall j :: Walk(s, i, j) ==> j == i;
      var e := Next(s, i).error;
      assert NonCode(s, i) == Unclosed(e);
      assert Stuck(s, i, i, e) && FindCode(s, target, i) == Err(e);
    } else if !(IsCode(s, i) && s[i] == target) {
      var n := Next(s, i).value;
      FindCodeFinds(s, target, n);
      forall j | Walk(s, n, j) ensures n <= j && Walk(s, i, j) {
        WalkForward(s, n, j);
      }
      assert forall j :: FoundAt(s, target, i, j) ==> FoundAt(s, target, n, j);
      var r := FindCode(s, target, n);
      assert FindCode(s, target, i) == r;
      if r.Err? {
        var j: nat :| Stuck(s, n, j, r.error);
        assert Stuck(s, i, j, r.error);
      }
    }
  }

  /** The result is the least code occurrence; without one the chain reaches the end of the
      text or an unclosed quote or comment. */
  lemma FindCodeIsLeast(s: Text, target: char, i: nat)
    requires i <= |s|
    ensures forall j: nat :: FindCode(s, target, i) == Ok(Some(j)) <==>
              FoundAt(s, target, i, j) && forall k: nat :: i <= k < j ==> !FoundAt(s, target, i, k)
    ensures FindCode(s, target, i) == Ok(None) <==>
              Walk(s, i, |s|) && forall j: nat :: !FoundAt(s, target, i, j)
    ensures forall e :: FindCode(s, target, i) == Err(e) ==> exists j :: Stuck(s, i, j, e)
  {
    FindCodeFinds(s, target, i);
    forall j: nat | FoundAt(s, target, i, j) ensures i <= j {
      WalkForward(s, i, j);
    }
    forall j: nat, e | Walk(s, i, |s|) ensures !Stuck(s, i, j, e) {
      if Stuck(s, i, j, e) {
        WalkForward(s, i, j);
        WalkThrough(s, i, j, |s|);
      }
    }
  }

  method FindNextUnquotedCharacter(s: Text, target: char, start: nat) returns (r: Result<Option<nat>>)
    ensures r == FindCode(s, target, start)
  {
    var index := start;
    while index < |s|
      invariant start <= index
      invariant FindCode(s, target, start) == FindCode(s, target, index)
    {
      var lexeme := SkipNonCode(s, index);
      if lexeme.Unclosed? {
        return Err(lexeme.error);
      }
      if lexeme.Skip? {
        index := lexeme.next;
        continue;
      }
      if s[index] == target {
        return Ok(Some(index));
      }
      index := index + 1;
    }
    return Ok(None);
  }

  // ------------------------------------------------------------------------------------------
  // Trivia and keywords

  predicate IsTrivia(s: Text, i: nat)
    requires i < |s|
  {
    IsSpace(s[i]) || IsLineComment(s, i) || StartsTwo(s, i, '/', '*')
  }

  /** The first index from `i` on that is neither white space nor comment. */
  function Trivia(s: Text, i: nat): (r: Result<nat>)
    ensures r.Ok? ==> i <= r.value && (i <= |s| ==> r.value <= |s|)
    decreases |s| - i
  {
    if i >= |s| then Ok(i)
    else if IsSpace(s[i]) then Trivia(s, i + 1)
    else if IsLineComment(s, i) then Trivia(s, LineEnd(s, i))
    else if StartsTwo(s, i, '/', '*') then
      match SkipBlock(s, i) case Ok(end) => Trivia(s, end) case Err(e) => Err(e)
    else Ok(i)
  }

  lemma TriviaStep(s: Text, i: nat)
    requires i < |s|
    ensures IsTrivia(s, i) && Next(s, i).Ok? ==> Trivia(s, i) == Trivia(s, Next(s, i).value)
    ensures IsTrivia(s, i) && Next(s, i).Err? ==> Trivia(s, i) == Next(s, i)
    ensures !IsTrivia(s, i) ==> Trivia(s, i) == Ok(i)
  {
  }

  /** Everything on the chain from `i` to `j` is white space or comment. */
  ghost predicate AllTrivia(s: Text, i: nat, j: nat)
    requires j <= |s|
  {
    Walk(s, i, j) && forall k :: i <= k < j && Walk(s, i, k) ==> IsTrivia(s, k)
  }

  /** All trivia from `i` on and no more, or an unclosed comment behind some of it. */
  ghost predicate IsSkipped(s: Text, i: nat, r: Result<nat>) {
    match r
    case Ok(end) => i <= end <= |s| && AllTrivia(s, i, end) && (end == |s| || !IsTrivia(s, end))
    case Err(e) => exists j: nat :: j <= |s| && AllTrivia(s, i, j) && Stuck(s, i, j, e)
  }

  /** Trivia is skipped exactly: all of it, and nothing else. */
  lemma {:induction false} TriviaIsMaximal(s: Text, i: nat)
    requires i <= |s|
    ensures IsSkipped(s, i, Trivia(s, i))
    decreases |s| - i
  {
    hide NonCode, Next, IsTrivia;
    if i < |s| {
      TriviaStep(s, i);
      if IsTrivia(s, i) {
        if Next(s, i).Ok? {
          var n := Next(s, i).value;
          TriviaIsMaximal(s, n);
          TriviaExtends(s, i);
        } else {
          TriviaUnclosed(s, i);
          assert AllTrivia(s, i, i) && Stuck(s, i, i, Next(s, i).error);
        }
      }
    }
  }

  lemma TriviaUnclosed(s: Text, i: nat)
    requires i < |s| && Next(s, i).Err?
    ensures NonCode(s, i) == Unclosed(Next(s, i).error)
  {
  }

  lemma TriviaExtends(s: Text, i: nat)
    requires i < |s| && IsTrivia(s, i) && Next(s, i).Ok?
    ensures forall j: nat :: j <= |s| && AllTrivia(s, Next(s, i).value, j) ==> AllTrivia(s, i, j)
    ensures forall j, e :: Stuck(s, Next(s, i).value, j, e) ==> Stuck(s, i, j, e)
  {
    hide NonCode, Next, IsTrivia;
    var n := Next(s, i).value;
    forall j | Walk(s, n, j) ensures n <= j && Walk(s, i, j) {
      WalkForward(s, n, j);
    }
  }

  method SkipTrivia(s: Text, start: nat) returns (r: Result<nat>)
    ensures r == Trivia(s, start)
  {
    var index := start;
    while index < |s|
      invariant start <= index
      invariant Trivia(s, start) == Trivia(s, index)
    {
      if IsSpace(s[index]) {
        index := index + 1;
      } else if IsLineComment(s, index) {
        index := SkipLineComment(s, index);
      } else if StartsTwo(s, index, '/', '*') {
        var end := SkipBlockComment(s, index);
        if end.Err? {
          return end;
        }
        index := end.value;
      } else {
        break;
      }
    }
    return Ok(index);
  }

  lemma {:induction false} TriviaAgrees(s: Text, t: Text, d: nat, lo: nat, hi: nat, i: nat)
    requires Agree(s, t, d, lo, hi) && lo <= i
    requires Tail(s, t, d, hi) || (Trivia(s, i).Ok? && Trivia(s, i).value + 1 < hi)
    ensures Trivia(t, i + d) == ShiftIndex(Trivia(s, i), d)
    decreases |s| - i
  {
    hide NonCode, Next, IsTrivia;
    if i < |s| {
      TriviaStep(s, i);
      TriviaStep(t, i + d);
      TriviaHeadAgrees(s, t, d, lo, hi, i);
      if IsTrivia(s, i) {
        if !Tail(s, t, d, hi) {
          CutBefore(s, t, d, hi, i);
        }
        NextAgrees(s, t, d, lo, hi, i);
        if Next(s, i).Ok? {
          TriviaAgrees(s, t, d, lo, hi, Next(s, i).value);
        }
      }
    }
  }

  lemma TriviaStopsAt(t: Text, i: nat)
    requires i < |t| && IsPlain(t[i]) && !IsSpace(t[i])
    ensures Trivia(t, i) == Ok(i)
  {
  }

  lemma IdentifierIsPlain(c: char)
    requires IsIdentifierChar(c)
    ensures IsPlain(c) && !IsSpace(c) && Inert(c) && c != '('
  {
  }

  lemma TriviaHeadAgrees(s: Text, t: Text, d: nat, lo: nat, hi: nat, i: nat)
    requires Agree(s, t, d, lo, hi) && lo <= i < hi
    requires Tail(s, t, d, hi) || i + 1 < hi
    ensures IsTrivia(t, i + d) == IsTrivia(s, i)
  {
    HeadsAgree(s, t, d, lo, hi, i);
  }

  lemma TriviaHeadAgreesAt(s: Text, t: Text, d: nat, lo: nat, hi: nat, i: nat)
    requires Agree(s, t, d, lo, hi) && lo <= i < hi && hi < |s| && hi + d < |t|
    requires Inert(s[hi]) && Inert(t[hi + d])
    ensures IsTrivia(t, i + d) == IsTrivia(s, i)
  {
    HeadsAgree(s, t, d, lo, hi, i);
  }

  // ------------------------------------------------------------------------------------------
  // Words

  /** The end of the identifier characters from `i` on. */
  function WordEnd(s: Text, i: nat): (r: nat)
    requires i <= |s|
    ensures i <= r <= |s|
    decreases |s| - i
  {
    if i < |s| && IsIdentifierChar(s[i]) then WordEnd(s, i + 1) else i
  }

  lemma {:induction false} WordEndFacts(s: Text, i: nat)
    requires i <= |s|
    ensures forall k :: i <= k < WordEnd(s, i) ==> IsIdentifierChar(s[k])
    ensures WordEnd(s, i) < |s| ==> !IsIdentifierChar(s[WordEnd(s, i)])
    decreases |s| - i
  {
    hide IsIdentifierChar;
    if i < |s| && IsIdentifierChar(s[i]) {
      WordEndFacts(s, i + 1);
    }
  }

  method ReadWord(s: Text, start: nat) returns (end: nat)
    requires start <= |s|
    ensures end == WordEnd(s, start)
  {
    end := start;
    while end < |s| && IsIdentifierChar(s[end])
      invariant start <= end <= |s|
      invariant WordEnd(s, start) == WordEnd(s, end)
    {
      end := end + 1;
    }
  }

  lemma {:induction false} WordEndAgrees(s: Text, t: Text, d: nat, lo: nat, hi: nat, i: nat)
    requires Agree(s, t, d, lo, hi) && lo <= i <= hi
    requires Tail(s, t, d, hi) || WordEnd(s, i) < hi ||
             (WordEnd(s, i) == hi && hi + d < |t| && !IsIdentifierChar(t[hi + d]))
    ensures WordEnd(t, i + d) == WordEnd(s, i) + d
    decreases |s| - i
  {
    hide IsIdentifierChar;
    if i < |s| && IsIdentifierChar(s[i]) {
      WordEndAgrees(s, t, d, lo, hi, i + 1);
    }
  }

  /** A word no further identifier character follows ends where it is written. */
  lemma {:induction false} WordEndsAt(t: Text, i: nat, end: nat)
    requires i <= end <= |t| && (end < |t| ==> !IsIdentifierChar(t[end]))
    requires forall k :: i <= k < end ==> IsIdentifierChar(t[k])
    ensures WordEnd(t, i) == end
    decreases end - i
  {
    hide IsIdentifierChar;
    if i < end {
      WordEndsAt(t, i + 1, end);
    }
  }

  /** The index after a case-insensitive `keyword` at `start` that no identifier character
      follows. */
  function TryKeyword(s: Text, start: nat, keyword: Text): (r: Option<nat>)
    requires PlainKeyword(keyword) && start <= |s|
    ensures r.Some? ==> r.value == start + |keyword| <= |s|
  {
    var end := start + |keyword|;
    var candidate := s[start..if end <= |s| then end else |s|];
    if Upper(candidate) != Upper(keyword) then None
    else if end < |s| && IsIdentifierChar(s[end]) then None
    else
      UpperKeyword(keyword); PlainKeywordLength(candidate, keyword);
      Some(end)
  }

  // ------------------------------------------------------------------------------------------
  // The terminal statement delimiter

  /** The last code character that is not white space, or the end of the last quoted text. */
  function LastSignificant(s: Text, i: nat, last: Option<nat>): (r: Result<Option<nat>>)
    requires i <= |s| && (last.Some? ==> last.value < i)
    ensures r.Ok? && r.value.Some? ==> r.value.value < |s|
    decreases |s| - i
  {
    if i >= |s| then Ok(last)
    else if IsLineComment(s, i) then LastSignificant(s, LineEnd(s, i), last)
    else if StartsTwo(s, i, '/', '*') then
      match SkipBlock(s, i) case Ok(end) => LastSignificant(s, end, last) case Err(e) => Err(e)
    else if IsQuote(s[i]) then
      match SkipQuoted(s, i) case Ok(end) => LastSignificant(s, end, Some(end - 1)) case Err(e) => Err(e)
    else LastSignificant(s, i + 1, if IsSpace(s[i]) then last else Some(i))
  }

  function Normalized(s: Text): Result<Text> {
    match LastSignificant(s, 0, None)
    case Err(e) => Err(e)
    case Ok(Some(d)) => Ok(if s[d] == ';' then s[..d] + s[d + 1..] else s)
    case Ok(None) => Ok(s)
  }

  method NormalizedStatementSql(s: Text) returns (r: Result<Text>)
    ensures r == Normalized(s)
  {
    var index := 0;
    var last: Option<nat> := None;
    while index < |s|
      invariant index <= |s| && (last.Some? ==> last.value < index)
      invariant LastSignificant(s, 0, None) == LastSignificant(s, index, last)
    {
      if IsLineComment(s, index) {
        index := SkipLineComment(s, index);
      } else if StartsTwo(s, index, '/', '*') {
        var end := SkipBlockComment(s, index);
        if end.Err? {
          return Err(end.error);
        }
        index := end.value;
      } else if IsQuote(s[index]) {
        var end := SkipQuotedText(s, index);
        if end.Err? {
          return Err(end.error);
        }
        index := end.value;
        last := Some(index - 1);
      } else {
        if !IsSpace(s[index]) {
          last := Some(index);
        }
        index := index + 1;
      }
    }
    match last
    case Some(delimiter) =>
      if s[delimiter] == ';' {
        return Ok(s[..delimiter] + s[delimiter + 1..]);
      }
      return Ok(s);
    case None =>
      return Ok(s);
  }

  /** `d` is a code semicolon after which the chain holds only white space and comments. */
  ghost predicate TerminalSemicolon(s: Text, i: nat, d: nat) {
    CodeAt(s, i, d) && s[d] == ';' && Trivia(s, d + 1) == Ok(|s|)
  }

  /** The last significant index after the lexeme at `i`. */
  function Kept(s: Text, i: nat, last: Option<nat>): Option<nat>
    requires i < |s| && Next(s, i).Ok?
  {
    if IsTrivia(s, i) then last else if IsQuote(s[i]) then Some(Next(s, i).value - 1) else Some(i)
  }

  lemma LastSignificantUnfold(s: Text, i: nat, last: Option<nat>)
    requires i < |s| && (last.Some? ==> last.value < i)
    ensures Next(s, i).Err? ==>
              NonCode(s, i) == Unclosed(Next(s, i).error) && LastSignificant(s, i, last) == Err(Next(s, i).error)
    ensures Next(s, i).Ok? ==>
              LastSignificant(s, i, last) == LastSignificant(s, Next(s, i).value, Kept(s, i, last))
  {
    hide SkipBlock, SkipQuoted, LineEnd;
  }

  lemma KeptFacts(s: Text, i: nat, last: Option<nat>)
    requires i < |s| && (last.Some? ==> last.value < i)
    ensures Next(s, i).Ok? && Kept(s, i, last) != last ==>
              && Kept(s, i, last).Some?
              && var k := Kept(s, i, last).value; i <= k < Next(s, i).value && (s[k] == ';' ==> k == i && IsCode(s, i))
    ensures Next(s, i).Ok? ==> (Kept(s, i, last) == last <==> IsTrivia(s, i))
    ensures IsTrivia(s, i) && IsCode(s, i) ==> s[i] != ';'
    ensures IsCode(s, i) && s[i] == ';' ==> Kept(s, i, last) == Some(i)
    ensures IsCode(s, i) ==> Next(s, i) == Ok(i + 1)
  {
  }

  lemma WalkAfter(s: Text, i: nat)
    requires i < |s| && Next(s, i).Ok?
    ensures forall k :: k != i ==> Walk(s, i, k) == Walk(s, Next(s, i).value, k)
    ensures forall k :: Walk(s, Next(s, i).value, k) ==> Next(s, i).value <= k
    ensures forall j, e :: Stuck(s, Next(s, i).value, j, e) ==> Stuck(s, i, j, e)
  {
    hide NonCode, Next;
    var n := Next(s, i).value;
    forall k | Walk(s, n, k) ensures n <= k {
      WalkForward(s, n, k);
    }
  }

  ghost predicate IsLastSignificant(s: Text, i: nat, last: Option<nat>, found: Result<Option<nat>>)
    requires i <= |s|
  {
    match found
    case Err(e) => exists j :: Stuck(s, i, j, e)
    case Ok(r) =>
      && Walk(s, i, |s|)
      && (r == last <==> Trivia(s, i) == Ok(|s|))
      && (r != last ==> r.Some? && i <= r.value < |s|)
      && (r != last && s[r.value] == ';' ==> TerminalSemicolon(s, i, r.value))
      && (forall d: nat :: TerminalSemicolon(s, i, d) ==> r == Some(d))
  }

  lemma {:induction false} LastSignificantFinds(s: Text, i: nat, last: Option<nat>)
    requires i <= |s| && (last.Some? ==> last.value < i)
    ensures IsLastSignificant(s, i, last, LastSignificant(s, i, last))
    decreases |s| - i
  {
    hide NonCode, Next, IsTrivia, Kept;
    if i == |s| {
      assert forall k :: Walk(s, i, k) ==> k == i;
    } else {
      LastSignificantUnfold(s, i, last);
      KeptFacts(s, i, last);
      if Next(s, i).Err? {
        assert Stuck(s, i, i, Next(s, i).error);
      } else {
        var n := Next(s, i).value;
        LastSignificantFinds(s, n, Kept(s, i, last));
        WalkAfter(s, i);
        TriviaStep(s, i);
        assert forall d: nat :: i < d ==> TerminalSemicolon(s, i, d) == TerminalSemicolon(s, n, d);
      }
    }
  }

  /** At most one character goes, and only the last significant one if it is a code `;`. */
  lemma NormalizedDeletesTerminal(s: Text)
    ensures match Normalized(s)
            case Err(e) => exists j :: Stuck(s, 0, j, e)
            case Ok(out) =>
              && Walk(s, 0, |s|)
              && (forall d: nat :: TerminalSemicolon(s, 0, d) ==> out == s[..d] + s[d + 1..])
              && ((forall d: nat :: !TerminalSemicolon(s, 0, d)) ==> out == s)
  {
    LastSignificantFinds(s, 0, None);
  }
}
