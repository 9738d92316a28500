/** The outer SELECT projection list (crates/sqltide-sqltext/src/sql_scan/projections.rs). */
module Projections {
  import opened Chars
  import opened Lexing
  import opened Scanners

  datatype Span = Span(start: nat, end: nat)

  function LowerAscii(c: char): char {
    if 'A' <= c <= 'Z' then c + ' ' else c
  }

  predicate MatchesChar(expected: char, actual: char) {
    LowerAscii(actual) == expected || (expected == 's' && actual == '\U{017F}')
  }

  /** A whole-word, case-insensitive `keyword` at `i`, with the long s folded to s. */
  predicate MatchesWord(s: Text, i: nat, keyword: Text) {
    && i + |keyword| <= |s|
    && (forall k :: 0 <= k < |keyword| ==> MatchesChar(keyword[k], s[i + k]))
    && (i + |keyword| < |s| ==> !IsIdentifierChar(s[i + |keyword|]))
  }

  const SELECT_KEYWORD: Text := "select"
  const FROM_KEYWORD: Text := "from"

  /** The end of a `select` or `from` at `i`. */
  function KeywordMatch(s: Text, i: nat): (r: Option<nat>)
    requires i <= |s|
    ensures r.Some? ==> i < r.value <= |s|
  {
    if i > 0 && IsIdentifierChar(s[i - 1]) then None
    else if MatchesWord(s, i, SELECT_KEYWORD) then Some(i + 6)
    else if MatchesWord(s, i, FROM_KEYWORD) then Some(i + 4)
    else None
  }

  /** Where the outer projection list starts and ends. */
  function ListFrom(s: Text, i: nat, depth: int, start: Option<nat>): Result<Span>
    requires i <= |s|
    decreases |s| - i
  {
    if i == |s| then (if start.Some? then Ok(Span(start.value, |s|)) else Err(MissingSelect))
    else match KeywordMatch(s, i)
      case Some(end) =>
        if depth == 0 && end - i == |SELECT_KEYWORD| then ListFrom(s, end, depth, Some(end))
        else if depth == 0 && start.Some? then Ok(Span(start.value, i))
        else ListFrom(s, end, depth, start)
      case None =>
        match NonCode(s, i)
        case Unclosed(e) => Err(e)
        case Skip(n) => ListFrom(s, n, depth, start)
        case Code => ListFrom(s, i + 1, depth + Weight(s, i), start)
  }

  /** The depth-zero code commas from `i` up to `end`, in order. */
  function Commas(s: Text, i: nat, end: nat, depth: int): Result<seq<nat>>
    requires end <= |s|
    decreases |s| - i
  {
    if i >= end then Ok([])
    else match NonCode(s, i)
      case Unclosed(e) => Err(e)
      case Skip(n) => Commas(s, n, end, depth)
      case Code =>
        if s[i] == ',' && depth == 0 then
          match Commas(s, i + 1, end, depth) case Ok(rest) => Ok([i] + rest) case Err(e) => Err(e)
        else Commas(s, i + 1, end, depth + Weight(s, i))
  }

  function TrimStart(s: Text, start: nat, end: nat): (r: nat)
    requires start <= end <= |s|
    ensures start <= r <= end && (r < end ==> !IsSpace(s[r]))
    ensures forall k :: start <= k < r ==> IsSpace(s[k])
    decreases end - start
  {
    if start < end && IsSpace(s[start]) then TrimStart(s, start + 1, end) else start
  }

  function TrimEnd(s: Text, start: nat, end: nat): (r: nat)
    requires start <= end <= |s|
    ensures start <= r <= end && (start < r ==> !IsSpace(s[r - 1]))
    ensures forall k :: r <= k < end ==> IsSpace(s[k])
    decreases end - start
  {
    if start < end && IsSpace(s[end - 1]) then TrimEnd(s, start, end - 1) else end
  }

  function Trimmed(s: Text, start: nat, end: nat): Span
    requires start <= end <= |s|
  {
    var from := TrimStart(s, start, end);
    Span(from, TrimEnd(s, from, end))
  }

  /** The trimmed spans between consecutive separators. */
  function Between(s: Text, from: nat, commas: seq<nat>, end: nat): (r: seq<Span>)
    requires from <= end <= |s| && Increasing(commas, from, end)
    ensures |r| == |commas| + 1
    decreases |commas|
  {
    if commas == [] then [Trimmed(s, from, end)]
    else [Trimmed(s, from, commas[0])] + Between(s, commas[0] + 1, commas[1..], end)
  }

  predicate Increasing(commas: seq<nat>, from: nat, end: nat) {
    if commas == [] then from <= end
    else from <= commas[0] < end && Increasing(commas[1..], commas[0] + 1, end)
  }

  lemma {:induction false} CommasIncrease(s: Text, i: nat, end: nat, depth: int)
    requires i <= end <= |s| && Walk(s, i, end) && Commas(s, i, end, depth).Ok?
    ensures Increasing(Commas(s, i, end, depth).value, i, end)
    decreases |s| - i
  {
    hide NonCode;
    if i < end {
      WalkForward(s, Next(s, i).value, end);
      var d := if IsCode(s, i) && s[i] == ',' && depth == 0 then depth else depth + Weight(s, i);
      CommasIncrease(s, Next(s, i).value, end, d);
      var commas := Commas(s, i, end, depth).value;
      if IsCode(s, i) && s[i] == ',' && depth == 0 {
        assert commas[1..] == Commas(s, i + 1, end, depth).value;
      } else {
        IncreasingEarlier(commas, i, Next(s, i).value, end);
      }
    }
  }

  lemma IncreasingEarlier(commas: seq<nat>, i: nat, n: nat, end: nat)
    requires i <= n && Increasing(commas, n, end)
    ensures Increasing(commas, i, end)
  {
  }

  /** A code comma at depth zero of the list. */
  ghost predicate Separates(s: Text, i: nat, end: nat, depth: int, j: nat) {
    j < end && CodeAt(s, i, j) && s[j] == ',' && depth + Balance(s, i, j) == 0
  }

  /** The separators are exactly the code commas at depth zero. */
  lemma {:induction false} CommasAreExact(s: Text, i: nat, end: nat, depth: int, j: nat)
    requires i <= end <= |s| && Walk(s, i, end)
    ensures Commas(s, i, end, depth).Ok?
    ensures j in Commas(s, i, end, depth).value <==> Separates(s, i, end, depth, j)
    decreases |s| - i
  {
    hide NonCode;
    if i < end {
      var n := Next(s, i).value;
      WalkForward(s, n, end);
      var w := Weight(s, i);
      CommasAreExact(s, n, end, depth + w, j);
      WalkAfter(s, i);
      if IsCode(s, i) && s[i] == ',' {
        assert w == 0;
        assert Commas(s, n, end, depth).Ok?;
      }
      if j == i {
        assert !Walk(s, n, j);
      } else {
        assert Separates(s, i, end, depth, j) == Separates(s, n, end, depth + w, j);
      }
    } else {
      assert j < end ==> !Walk(s, i, j);
    }
  }

  // ------------------------------------------------------------------------------------------
  // The list itself starts and ends on the chain

  lemma {:induction false} WalkPlainRun(s: Text, i: nat, j: nat)
    requires i <= j <= |s| && forall k :: i <= k < j ==> IsPlain(s[k])
    ensures Walk(s, i, j)
    decreases j - i
  {
    if i < j {
      PlainIsCode(s, i);
      WalkPlainRun(s, i + 1, j);
    }
  }

  lemma KeywordWalk(s: Text, i: nat)
    requires i <= |s| && KeywordMatch(s, i).Some?
    ensures Walk(s, i, KeywordMatch(s, i).value)
  {
    var end := KeywordMatch(s, i).value;
    var keyword := if MatchesWord(s, i, SELECT_KEYWORD) then SELECT_KEYWORD else FROM_KEYWORD;
    forall k | i <= k < end ensures IsPlain(s[k]) {
      assert MatchesChar(keyword[k - i], s[i + (k - i)]);
    }
    WalkPlainRun(s, i, end);
  }

  lemma {:induction false} ListIsOnChain(s: Text, i: nat, depth: int, start: Option<nat>)
    requires i <= |s| && Walk(s, 0, i) && ListFrom(s, i, depth, start).Ok?
    requires start.Some? ==> start.value <= i && Walk(s, 0, start.value)
    ensures var list := ListFrom(s, i, depth, start).value;
            && list.start <= list.end <= |s| && Walk(s, 0, list.start) && Walk(s, list.start, list.end)
    decreases |s| - i
  {
    hide NonCode, Next, KeywordMatch;
    if i == |s| || (KeywordMatch(s, i).Some? && depth == 0 && KeywordMatch(s, i).value - i != 6 && start.Some?) {
      WalkThrough(s, 0, start.value, i);
    } else if KeywordMatch(s, i).Some? {
      var end := KeywordMatch(s, i).value;
      KeywordWalk(s, i);
      WalkTransitive(s, 0, i, end);
      ListIsOnChain(s, end, depth, if depth == 0 && end - i == 6 then Some(end) else start);
    } else {
      NextOfLexeme(s, i);
      var n := Next(s, i).value;
      assert Walk(s, i, n);
      WalkTransitive(s, 0, i, n);
      ListIsOnChain(s, n, if NonCode(s, i).Code? then depth + Weight(s, i) else depth, start);
    }
  }

  lemma NextOfLexeme(s: Text, i: nat)
    requires i < |s|
    ensures NonCode(s, i).Code? ==> Next(s, i) == Ok(i + 1)
    ensures NonCode(s, i).Skip? ==> Next(s, i) == Ok(NonCode(s, i).next)
    ensures NonCode(s, i).Unclosed? ==> Next(s, i).Err?
  {
  }

  function SplitSpans(s: Text, start: nat, end: nat): Result<seq<Span>>
    requires start <= end <= |s| && Walk(s, start, end)
  {
    match Commas(s, start, end, 0)
    case Err(e) => Err(e)
    case Ok(commas) => CommasIncrease(s, start, end, 0); Ok(Between(s, start, commas, end))
  }

  /** The whole list: its spans, or why they could not be found. */
  function Spans(s: Text): Result<seq<Span>> {
    match ListFrom(s, 0, 0, None)
    case Err(e) => Err(e)
    case Ok(list) => ListIsOnChain(s, 0, 0, None); SplitSpans(s, list.start, list.end)
  }

  method TrimmedSpan(s: Text, from: nat, to: nat) returns (span: Span)
    requires from <= to <= |s|
    ensures span == Trimmed(s, from, to)
  {
    var start, end := from, to;
    while start < end && IsSpace(s[start])
      invariant from <= start <= end == to
      invariant TrimStart(s, from, to) == TrimStart(s, start, end)
    {
      start := start + 1;
    }
    while end > start && IsSpace(s[end - 1])
      invariant start <= end <= to
      invariant TrimEnd(s, start, to) == TrimEnd(s, start, end)
    {
      end := end - 1;
    }
    return Span(start, end);
  }

  ghost function Rest(s: Text, from: nat, index: nat, end: nat, depth: int): seq<Span>
    requires from <= index <= end <= |s| && Walk(s, index, end) && Commas(s, index, end, depth).Ok?
  {
    CommasIncrease(s, index, end, depth);
    IncreasingEarlier(Commas(s, index, end, depth).value, from, index, end);
    Between(s, from, Commas(s, index, end, depth).value, end)
  }

  method SplitProjectionSpans(s: Text, start: nat, end: nat) returns (r: Result<seq<Span>>)
    requires start <= end <= |s| && Walk(s, start, end)
    ensures r == SplitSpans(s, start, end)
  {
    hide NonCode, Next, Trimmed, IsSpace;
    var spans: seq<Span> := [];
    var depth := 0;
    var from, index := start, start;
    CommasAreExact(s, start, end, 0, 0);
    ghost var all := Rest(s, start, start, end, 0);
    assert [] + all == all;
    while index < end
      invariant start <= from <= index <= end && Walk(s, index, end)
      invariant Commas(s, index, end, depth).Ok? && spans + Rest(s, from, index, end, depth) == all
    {
      WalkForward(s, Next(s, index).value, end);
      NextOfLexeme(s, index);
      var lexeme := SkipNonCode(s, index);
      if lexeme.Unclosed? {
        assert false; // the list lies on the chain, so nothing in it is unclosed
      }
      if lexeme.Skip? {
        index := lexeme.next;
        continue;
      }
      if s[index] == '(' {
        depth := depth + 1;
      } else if s[index] == ')' {
        depth := depth - 1;
      } else if s[index] == ',' && depth == 0 {
        var span := TrimmedSpan(s, from, index);
        ghost var rest := Rest(s, index + 1, index + 1, end, 0);
        assert Commas(s, index, end, depth).value[1..] == Commas(s, index + 1, end, depth).value;
        assert spans + ([span] + rest) == spans + [span] + rest;
        spans := spans + [span];
        from := index + 1;
      }
      index := index + 1;
    }
    var span := TrimmedSpan(s, from, end);
    spans := spans + [span];
    return Ok(spans);
  }

  method OuterProjectionSpans(s: Text) returns (r: Result<seq<Span>>)
    ensures r == Spans(s)
  {
    hide NonCode, KeywordMatch;
    var start: Option<nat> := None;
    var end := |s|;
    var depth := 0;
    var index: nat := 0;
    while index < |s|
      invariant index <= |s| == end
      invariant ListFrom(s, 0, 0, None) == ListFrom(s, index, depth, start)
    {
      var keyword := KeywordMatch(s, index);
      if keyword.Some? {
        if depth == 0 {
          if keyword.value - index == |SELECT_KEYWORD| {
            start := Some(keyword.value);
            index := keyword.value;
            continue;
          }
          if start.Some? {
            ListIsOnChain(s, 0, 0, None);
            r := SplitProjectionSpans(s, start.value, index);
            return;
          }
        }
        index := keyword.value;
        continue;
      }
      var lexeme := SkipNonCode(s, index);
      if lexeme.Unclosed? {
        return Err(lexeme.error);
      }
      if lexeme.Skip? {
        index := lexeme.next;
        continue;
      }
      if s[index] == '(' {
        depth := depth + 1;
      } else if s[index] == ')' {
        depth := depth - 1;
      }
      index := index + 1;
    }
    if start.None? {
      return Err(MissingSelect);
    }
    ListIsOnChain(s, 0, 0, None);
    r := SplitProjectionSpans(s, start.value, end);
  }

  // ------------------------------------------------------------------------------------------
  // The spans tile the list

  ghost predicate Blank(s: Text, i: nat, j: nat)
    requires i <= j <= |s|
  {
    forall k :: i <= k < j ==> IsSpace(s[k])
  }

  /** Spans and separators in turn, with only white space in between, from `from` to `end`. */
  ghost predicate Tile(s: Text, from: nat, spans: seq<Span>, commas: seq<nat>, end: nat)
    requires end <= |s|
    decreases |commas|
  {
    && |spans| == |commas| + 1 && from <= spans[0].start <= spans[0].end
    && var stop := if commas == [] then end else commas[0];
    && spans[0].end <= stop <= end && Blank(s, from, spans[0].start) && Blank(s, spans[0].end, stop)
    && (commas != [] ==> stop < end && s[stop] == ',' && Tile(s, stop + 1, spans[1..], commas[1..], end))
  }

  lemma {:induction false} BetweenTiles(s: Text, from: nat, commas: seq<nat>, end: nat)
    requires from <= end <= |s| && Increasing(commas, from, end)
    requires forall k :: 0 <= k < |commas| ==> commas[k] < |s| && s[commas[k]] == ','
    ensures Tile(s, from, Between(s, from, commas, end), commas, end)
    decreases |commas|
  {
    hide IsSpace;
    if commas != [] {
      BetweenTiles(s, commas[0] + 1, commas[1..], end);
      assert Between(s, from, commas, end)[1..] == Between(s, commas[0] + 1, commas[1..], end);
    }
  }

  /** The outer list is tiled by one span more than it has code commas at depth zero, and
      nothing but white space lies between a span and its separators. */
  lemma SpansTileTheList(s: Text, list: Span)
    requires ListFrom(s, 0, 0, None) == Ok(list)
    ensures list.start <= list.end <= |s| && Spans(s).Ok?
    ensures exists commas: seq<nat> ::
              && Tile(s, list.start, Spans(s).value, commas, list.end)
              && Increasing(commas, list.start, list.end)
              && forall j: nat :: j in commas <==> Separates(s, list.start, list.end, 0, j)
  {
    hide ListFrom, Tile, Separates;
    ListIsOnChain(s, 0, 0, None);
    CommasAreExact(s, list.start, list.end, 0, 0);
    CommasIncrease(s, list.start, list.end, 0);
    var commas := Commas(s, list.start, list.end, 0).value;
    forall j: nat ensures j in commas <==> Separates(s, list.start, list.end, 0, j) {
      CommasAreExact(s, list.start, list.end, 0, j);
    }
    forall k | 0 <= k < |commas| ensures commas[k] < |s| && s[commas[k]] == ',' {
      assert commas[k] in commas;
      SeparatorIsComma(s, list.start, list.end, 0, commas[k]);
    }
    BetweenTiles(s, list.start, commas, list.end);
  }

  lemma SeparatorIsComma(s: Text, i: nat, end: nat, depth: int, j: nat)
    requires Separates(s, i, end, depth, j)
    ensures j < |s| && s[j] == ','
  {
  }
}
