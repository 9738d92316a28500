/** The top-level WITH clause of a statement (crates/sqltide-sqltext/src/sql_scan/ctes.rs) and
    the insertion of further CTEs into it (crates/sqltide-sqltext/src/sql_scan/templates.rs). */
module Ctes {
  import opened Chars
  import opened Lexing
  import opened Scanners

  datatype Cte = Cte(name: Text, query: Text, start: nat, end: nat)

  datatype TopLevel = TopLevel(ctes: seq<Cte>, trailing: Text, trailingStart: nat)

  lemma KeywordsArePlain()
    ensures PlainKeyword("WITH") && PlainKeyword("RECURSIVE") && PlainKeyword("AS")
  {
  }

  function Keyword(s: Text, i: nat, word: Text): Option<nat>
    requires i <= |s| && (word == "WITH" || word == "RECURSIVE" || word == "AS")
  {
    KeywordsArePlain(); TryKeyword(s, i, word)
  }

  /** The index of the first CTE name. */
  function WithStart(s: Text): (r: Result<nat>)
    ensures r.Ok? ==> r.value <= |s|
  {
    match Trivia(s, 0)
    case Err(e) => Err(e)
    case Ok(i) =>
      match Keyword(s, i, "WITH")
      case None => Err(MissingWith(i))
      case Some(withEnd) =>
        match Trivia(s, withEnd)
        case Err(e) => Err(e)
        case Ok(j) =>
          match Keyword(s, j, "RECURSIVE")
          case None => Ok(j)
          case Some(recursiveEnd) => Trivia(s, recursiveEnd)
  }

  predicate CharAt(s: Text, i: nat, c: char) {
    i < |s| && s[i] == c
  }

  /** After a CTE name, the index after its optional column list. */
  function AfterColumns(s: Text, i: nat): (r: Result<nat>)
    requires i <= |s|
    ensures r.Ok? ==> i <= r.value <= |s|
  {
    match Trivia(s, i)
    case Err(e) => Err(e)
    case Ok(j) =>
      if !CharAt(s, j, '(') then Ok(j)
      else match Match(s, j + 1, 1, j)
        case Err(e) => Err(e)
        case Ok(close) => Trivia(s, close + 1)
  }

  /** One `name [(columns)] AS (query)` and the index after it. */
  function ReadCte(s: Text, start: nat): (r: Result<(Cte, nat)>)
    requires start <= |s|
    ensures r.Ok? ==> start < r.value.1 <= |s|
  {
    if !(start < |s| && IsIdentifierStart(s[start])) then Err(MissingCteName(start))
    else
      var nameEnd := WordEnd(s, start);
      match AfterColumns(s, nameEnd)
      case Err(e) => Err(e)
      case Ok(i) =>
        match Keyword(s, i, "AS")
        case None => Err(MissingAs(start))
        case Some(asEnd) => ReadBody(s, start, nameEnd, asEnd)
  }

  function ReadBody(s: Text, start: nat, nameEnd: nat, asEnd: nat): (r: Result<(Cte, nat)>)
    requires start <= nameEnd <= asEnd <= |s|
    ensures r.Ok? ==> start < r.value.1 <= |s|
  {
    match Trivia(s, asEnd)
    case Err(e) => Err(e)
    case Ok(open) =>
      if !CharAt(s, open, '(') then Err(MissingAs(start))
      else match Match(s, open + 1, 1, open)
        case Err(e) => Err(e)
        case Ok(close) =>
          Ok((Cte(s[start..nameEnd], Strip(s[open + 1..close]), open + 1, close), close + 1))
  }

  function Prepend(cte: Cte, rest: Result<TopLevel>): Result<TopLevel> {
    match rest
    case Ok(top) => Ok(top.(ctes := [cte] + top.ctes))
    case Err(e) => Err(e)
  }

  /** The CTEs from `i` on, given the names already seen. */
  function Collect(s: Text, i: nat, seen: set<Text>): Result<TopLevel>
    requires i <= |s|
    decreases |s| - i
  {
    match ReadCte(s, i)
    case Err(e) => Err(e)
    case Ok((cte, next)) =>
      if cte.name in seen then Err(DuplicateCte(cte.start))
      else Prepend(cte, CollectRest(s, next, seen + {cte.name}))
  }

  /** After one CTE: a comma and the next, or the trailing statement. */
  function CollectRest(s: Text, i: nat, seen: set<Text>): Result<TopLevel>
    requires i <= |s|
    decreases |s| - i
  {
    match Trivia(s, i)
    case Err(e) => Err(e)
    case Ok(j) =>
      if CharAt(s, j, ',') then
        match Trivia(s, j + 1)
        case Err(e) => Err(e)
        case Ok(k) => Collect(s, k, seen)
      else Ok(TopLevel([], Strip(s[j..]), j))
  }

  function Extract(s: Text): Result<TopLevel> {
    match WithStart(s)
    case Err(e) => Err(e)
    case Ok(i) => Collect(s, i, {})
  }

  method ReadOne(s: Text, start: nat) returns (r: Result<(Cte, nat)>)
    requires start <= |s|
    ensures r == ReadCte(s, start)
  {
    hide Trivia, Match, WordEnd, Strip, Keyword, IsIdentifierStart;
    if !(start < |s| && IsIdentifierStart(s[start])) {
      return Err(MissingCteName(start));
    }
    var index := ReadWord(s, start);
    var name := s[start..index];
    ghost var nameEnd := index;
    var skipped := SkipTrivia(s, index);
    if skipped.Err? {
      return Err(skipped.error);
    }
    index := skipped.value;
    if CharAt(s, index, '(') {
      var close := FindMatchingParenthesis(s, index);
      if close.Err? {
        return Err(close.error);
      }
      skipped := SkipTrivia(s, close.value + 1);
      if skipped.Err? {
        return Err(skipped.error);
      }
      index := skipped.value;
    }
    assert AfterColumns(s, nameEnd) == Ok(index);
    var asEnd := Keyword(s, index, "AS");
    if asEnd.None? {
      return Err(MissingAs(start));
    }
    var open := SkipTrivia(s, asEnd.value);
    if open.Err? {
      return Err(open.error);
    }
    if !CharAt(s, open.value, '(') {
      return Err(MissingAs(start));
    }
    var bodyClose := FindMatchingParenthesis(s, open.value);
    if bodyClose.Err? {
      return Err(bodyClose.error);
    }
    var query := Strip(s[open.value + 1..bodyClose.value]);
    return Ok((Cte(name, query, open.value + 1, bodyClose.value), bodyClose.value + 1));
  }

  function PrependAll(ctes: seq<Cte>, rest: Result<TopLevel>): Result<TopLevel> {
    match rest
    case Ok(top) => Ok(top.(ctes := ctes + top.ctes))
    case Err(e) => Err(e)
  }

  method ExtractTopLevelCtes(s: Text) returns (r: Result<TopLevel>)
    ensures r == Extract(s)
  {
    hide Trivia, ReadCte, Strip, WithStart;
    var start := WithStart(s);
    if start.Err? {
      return Err(start.error);
    }
    var index := start.value;
    var ctes: seq<Cte> := [];
    var seen: set<Text> := {};
    ghost var all := Collect(s, index, seen);
    assert all.Ok? ==> ctes + all.value.ctes == all.value.ctes;
    while true
      invariant index <= |s|
      invariant Extract(s) == PrependAll(ctes, Collect(s, index, seen))
      decreases |s| - index
    {
      var read := ReadOne(s, index);
      if read.Err? {
        return Err(read.error);
      }
      var (cte, next) := read.value;
      if cte.name in seen {
        return Err(DuplicateCte(cte.start));
      }
      ghost var rest := CollectRest(s, next, seen + {cte.name});
      assert rest.Ok? ==> ctes + ([cte] + rest.value.ctes) == ctes + [cte] + rest.value.ctes;
      seen := seen + {cte.name};
      ctes := ctes + [cte];
      assert Extract(s) == PrependAll(ctes, rest);
      var skipped := SkipTrivia(s, next);
      if skipped.Err? {
        return Err(skipped.error);
      }
      if CharAt(s, skipped.value, ',') {
        var after := SkipTrivia(s, skipped.value + 1);
        if after.Err? {
          return Err(after.error);
        }
        index := after.value;
        continue;
      }
      assert ctes + [] == ctes;
      return Ok(TopLevel(ctes, Strip(s[skipped.value..]), skipped.value));
    }
  }

  // ------------------------------------------------------------------------------------------
  // Merging

  function Rendered(name: Text, query: Text): Text {
    name + " AS (\n" + query + "\n)"
  }

  function RenderedAll(queries: seq<(Text, Text)>): Text
    requires queries != []
  {
    var first := Rendered(queries[0].0, queries[0].1);
    if |queries| == 1 then first else first + ",\n" + RenderedAll(queries[1..])
  }

  /** Where further CTEs go in a text that opens with WITH. */
  function InsertionPoint(s: Text, withEnd: nat): (r: Result<nat>)
    requires withEnd <= |s|
    ensures r.Ok? ==> withEnd <= r.value <= |s|
  {
    match Trivia(s, withEnd)
    case Err(e) => Err(e)
    case Ok(j) => match Keyword(s, j, "RECURSIVE") case Some(end) => Ok(end) case None => Ok(withEnd)
  }

  function Merge(template: Text, queries: seq<(Text, Text)>): Result<Text> {
    if queries == [] then Ok(template)
    else match Trivia(template, 0)
      case Err(e) => Err(e)
      case Ok(i) =>
        match Keyword(template, i, "WITH")
        case None => Ok("WITH " + RenderedAll(queries) + "\n" + template)
        case Some(withEnd) =>
          match InsertionPoint(template, withEnd)
          case Err(e) => Err(e)
          case Ok(at) => Ok(template[..at] + " " + RenderedAll(queries) + "," + template[at..])
  }
}
