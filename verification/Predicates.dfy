/** Conjoining a predicate into the outer WHERE clause
    (crates/sqltide-sqltext/src/sql_scan/templates.rs). */
module Predicates {
  import opened Chars
  import opened Lexing
  import opened Agreement
  import opened Scanners
  import opened Embedding

  const BOUNDARY_KEYWORDS: set<Text> := {
    "GROUP", "HAVING", "WINDOW", "QUALIFY", "ORDER", "LIMIT", "OFFSET", "SETTINGS", "FORMAT",
    "UNION", "EXCEPT", "INTERSECT"
  }

  predicate IsBoundary(word: Text) {
    word in BOUNDARY_KEYWORDS
  }

  /** The end of the first WHERE at depth zero, the first boundary keyword at depth zero after
      the scanned part (or the end of the text), and the depth there. */
  datatype Positions = Positions(whereEnd: Option<nat>, boundary: nat, depth: nat)

  function DepthAfter(c: char, depth: nat): nat {
    if c == '(' then depth + 1 else if c == ')' && depth > 0 then depth - 1 else depth
  }

  /** The scan for the outer WHERE clause, one lexical step or whole word at a time. */
  function Scan(s: Text, i: nat, depth: nat, whereEnd: Option<nat>): (r: Result<Positions>)
    requires i <= |s| && (whereEnd.Some? ==> whereEnd.value <= i)
    ensures r.Ok? ==> i <= r.value.boundary <= |s|
    ensures r.Ok? && r.value.whereEnd.Some? ==> r.value.whereEnd.value <= r.value.boundary
    decreases |s| - i
  {
    if i == |s| then Ok(Positions(whereEnd, |s|, depth))
    else if IsIdentifierStart(s[i]) then
      var end := WordEnd(s, i + 1);
      var word := Upper(s[i..end]);
      if depth == 0 && word == "WHERE" && whereEnd.None? then Scan(s, end, depth, Some(end))
      else if depth == 0 && IsBoundary(word) then Ok(Positions(whereEnd, i, depth))
      else Scan(s, end, depth, whereEnd)
    else match Next(s, i)
      case Err(e) => Err(e)
      case Ok(n) => Scan(s, n, DepthAfter(s[i], depth), whereEnd)
  }

  predicate BoundaryAt(s: Text, i: nat) {
    i < |s| && IsIdentifierStart(s[i]) && IsBoundary(Upper(s[i..WordEnd(s, i + 1)]))
  }

  lemma {:induction false} ScanFacts(s: Text, i: nat, depth: nat, whereEnd: Option<nat>)
    requires i <= |s| && (whereEnd.Some? ==> whereEnd.value <= i)
    requires Scan(s, i, depth, whereEnd).Ok?
    ensures var p := Scan(s, i, depth, whereEnd).value;
            && (p.whereEnd.Some? && whereEnd.None? ==> i < p.whereEnd.value)
            && (whereEnd.Some? ==> p.whereEnd == whereEnd)
            && (p.boundary < |s| ==> p.depth == 0 && BoundaryAt(s, p.boundary))
    decreases |s| - i
  {
    hide Next, IsBoundary, Upper, IsIdentifierChar;
    if i < |s| {
      if IsIdentifierStart(s[i]) {
        var end := WordEnd(s, i + 1);
        var word := Upper(s[i..end]);
        if depth == 0 && word == "WHERE" && whereEnd.None? {
          ScanFacts(s, end, depth, Some(end));
        } else if !(depth == 0 && IsBoundary(word)) {
          ScanFacts(s, end, depth, whereEnd);
        }
      } else {
        ScanFacts(s, Next(s, i).value, DepthAfter(s[i], depth), whereEnd);
      }
    }
  }

  lemma {:induction false} ScanSkipsTrivia(s: Text, i: nat, depth: nat, whereEnd: Option<nat>)
    requires i <= |s| && (whereEnd.Some? ==> whereEnd.value <= i)
    ensures match Trivia(s, i)
            case Ok(j) => Scan(s, i, depth, whereEnd) == Scan(s, j, depth, whereEnd)
            case Err(e) => Scan(s, i, depth, whereEnd) == Err(e)
    decreases |s| - i
  {
    hide NonCode, Next;
    if i < |s| {
      TriviaStep(s, i);
      if IsTrivia(s, i) && Next(s, i).Ok? {
        ScanSkipsTrivia(s, Next(s, i).value, depth, whereEnd);
      }
    }
  }

  lemma NextOfToken(s: Text, i: nat)
    requires i < |s| && !IsTrivia(s, i)
    ensures Next(s, i) == if IsQuote(s[i]) then SkipQuoted(s, i) else Ok(i + 1)
    ensures IsQuote(s[i]) || s[i] == '(' || s[i] == ')' ==> !IsIdentifierStart(s[i])
  {
  }

  method OuterPredicatePositions(template: Text) returns (r: Result<(Option<nat>, nat)>)
    ensures match Scan(template, 0, 0, None)
            case Ok(p) => r == Ok((p.whereEnd, p.boundary))
            case Err(e) => r == Err(e)
  {
    hide Next, NonCode, IsTrivia, SkipQuoted, Trivia, IsBoundary, Upper, IsIdentifierStart, IsIdentifierChar;
    var whereEnd: Option<nat> := None;
    var depth: nat := 0;
    var index: nat := 0;
    while index < |template|
      invariant index <= |template| && (whereEnd.Some? ==> whereEnd.value <= index)
      invariant Scan(template, 0, 0, None) == Scan(template, index, depth, whereEnd)
    {
      ScanSkipsTrivia(template, index, depth, whereEnd);
      TriviaIsMaximal(template, index);
      var skipped := SkipTrivia(template, index);
      if skipped.Err? {
        return Err(skipped.error);
      }
      index := skipped.value;
      if index >= |template| {
        break;
      }
      NextOfToken(template, index);
      var character := template[index];
      if IsQuote(character) {
        var end := SkipQuotedText(template, index);
        if end.Err? {
          return Err(end.error);
        }
        index := end.value;
        continue;
      }
      if character == '(' {
        depth := depth + 1;
        index := index + 1;
        continue;
      }
      if character == ')' {
        depth := if depth > 0 then depth - 1 else 0;
        index := index + 1;
        continue;
      }
      if !IsIdentifierStart(character) {
        index := index + 1;
        continue;
      }
      var end := ReadWord(template, index + 1);
      var word := Upper(template[index..end]);
      if depth == 0 && word == "WHERE" && whereEnd.None? {
        whereEnd := Some(end);
      } else if depth == 0 && IsBoundary(word) {
        return Ok((whereEnd, index));
      }
      index := end;
    }
    return Ok((whereEnd, |template|));
  }

  /** What follows the clause: nothing, or a new line and the text from the boundary on. */
  function Tailed(template: Text, b: nat): Text
    requires b <= |template|
  {
    if b == |template| then "" else "\n" + template[b..]
  }

  function AndText(): (r: Text)
    ensures |r| == 5
  {
    " AND "
  }

  function WhereText(): (r: Text)
    ensures |r| == 6 && r[0] == 'W'
  {
    "WHERE "
  }

  function Conjoined(clause: Option<Text>, condition: Text): Text {
    match clause
    case None => Paren(condition)
    case Some(segment) => Paren(segment) + AndText() + Paren(condition)
  }

  function Append(template: Text, condition: Text): Result<Text> {
    match Scan(template, 0, 0, None)
    case Err(e) => Err(e)
    case Ok(Positions(None, b, _)) =>
      var lead := if b == |template| then "\n" + WhereText() else WhereText();
      Ok(template[..b] + (lead + Conjoined(None, condition)) + Tailed(template, b))
    case Ok(Positions(Some(w), b, _)) =>
      Ok(template[..w] + (" " + Conjoined(Some(Strip(template[w..b])), condition)) + Tailed(template, b))
  }

  method AppendTemplatePredicate(template: Text, condition: Text) returns (r: Result<Text>)
    ensures r == Append(template, condition)
  {
    hide Strip, Scan;
    var positions := OuterPredicatePositions(template);
    if positions.Err? {
      return Err(positions.error);
    }
    var (whereEnd, boundary) := positions.value;
    var head, tail := template[..boundary], template[boundary..];
    match whereEnd
    case None =>
      if boundary == |template| {
        r := Ok(head + "\nWHERE (" + condition + ")");
        assert r.value == head + ("\n" + WhereText() + Paren(condition)) + "";
        return;
      }
      r := Ok(head + "WHERE (" + condition + ")\n" + tail);
      assert r.value == head + (WhereText() + Paren(condition)) + ("\n" + tail);
    case Some(w) =>
      var segment := Strip(template[w..boundary]);
      tail := if boundary == |template| then "" else "\n" + tail;
      r := Ok(template[..w] + " (" + segment + ") AND (" + condition + ")" + tail);
      assert r.value == template[..w] + (" " + (Paren(segment) + AndText() + Paren(condition))) + tail;
  }
}
