/** Extracting the CTEs of a merged template gives back what was merged. */
module CteRoundTrip {
  import opened Chars
  import opened Lexing
  import opened Agreement
  import opened Scanners
  import opened Embedding
  import opened Ctes

  // ------------------------------------------------------------------------------------------
  // Reading a shared tail

  function ShiftCte(c: Cte, d: nat): Cte {
    c.(start := c.start + d, end := c.end + d)
  }

  function ShiftRead(r: Result<(Cte, nat)>, d: nat): Result<(Cte, nat)> {
    match r
    case Ok((cte, next)) => Ok((ShiftCte(cte, d), next + d))
    case Err(e) => Err(e.Shift(d))
  }

  function ShiftCtes(ctes: seq<Cte>, d: nat): seq<Cte> {
    if ctes == [] then [] else [ShiftCte(ctes[0], d)] + ShiftCtes(ctes[1..], d)
  }

  function ShiftTop(top: TopLevel, d: nat): TopLevel {
    TopLevel(ShiftCtes(top.ctes, d), top.trailing, top.trailingStart + d)
  }

  function Names(ctes: seq<Cte>): set<Text> {
    if ctes == [] then {} else {ctes[0].name} + Names(ctes[1..])
  }

  lemma SliceAgrees(s: Text, t: Text, d: nat, lo: nat, hi: nat, i: nat, j: nat)
    requires Agree(s, t, d, lo, hi) && lo <= i <= j <= hi
    ensures s[i..j] == t[i + d..j + d]
  {
    assert |s[i..j]| == |t[i + d..j + d]|;
    forall k | 0 <= k < j - i ensures s[i..j][k] == t[i + d..j + d][k] {
      assert s[i + k] == t[i + k + d];
    }
  }

  lemma KeywordAgrees(s: Text, t: Text, d: nat, lo: nat, i: nat, word: Text)
    requires Agree(s, t, d, lo, |s|) && Tail(s, t, d, |s|) && lo <= i <= |s|
    requires word == "WITH" || word == "RECURSIVE" || word == "AS"
    ensures Keyword(t, i + d, word) == ShiftOption(Keyword(s, i, word), d)
  {
    hide Upper, IsIdentifierChar;
    var end := if i + |word| <= |s| then i + |word| else |s|;
    SliceAgrees(s, t, d, lo, |s|, i, end);
  }

  lemma ReadBodyAgrees(s: Text, t: Text, d: nat, lo: nat, start: nat, nameEnd: nat, asEnd: nat)
    requires Agree(s, t, d, lo, |s|) && Tail(s, t, d, |s|) && lo <= start <= nameEnd <= asEnd <= |s|
    ensures ReadBody(t, start + d, nameEnd + d, asEnd + d) == ShiftRead(ReadBody(s, start, nameEnd, asEnd), d)
  {
    hide Trivia, Match, Strip;
    TriviaAgrees(s, t, d, lo, |s|, asEnd);
    SliceAgrees(s, t, d, lo, |s|, start, nameEnd);
    if Trivia(s, asEnd).Ok? {
      var open := Trivia(s, asEnd).value;
      if CharAt(s, open, '(') {
        MatchAgrees(s, t, d, lo, |s|, open + 1, 1, open);
        if Match(s, open + 1, 1, open).Ok? {
          SliceAgrees(s, t, d, lo, |s|, open + 1, Match(s, open + 1, 1, open).value);
        }
      }
    }
  }

  lemma AfterColumnsAgrees(s: Text, t: Text, d: nat, lo: nat, i: nat)
    requires Agree(s, t, d, lo, |s|) && Tail(s, t, d, |s|) && lo <= i <= |s|
    ensures AfterColumns(t, i + d) == ShiftIndex(AfterColumns(s, i), d)
  {
    hide Trivia, Match;
    TriviaAgrees(s, t, d, lo, |s|, i);
    if Trivia(s, i).Ok? {
      var j := Trivia(s, i).value;
      if CharAt(s, j, '(') {
        MatchAgrees(s, t, d, lo, |s|, j + 1, 1, j);
        if Match(s, j + 1, 1, j).Ok? {
          TriviaAgrees(s, t, d, lo, |s|, Match(s, j + 1, 1, j).value + 1);
        }
      }
    }
  }

  lemma ReadCteAgrees(s: Text, t: Text, d: nat, lo: nat, i: nat)
    requires Agree(s, t, d, lo, |s|) && Tail(s, t, d, |s|) && lo <= i <= |s|
    ensures ReadCte(t, i + d) == ShiftRead(ReadCte(s, i), d)
  {
    hide AfterColumns, ReadBody, WordEnd, Keyword, IsIdentifierStart;
    if i < |s| && IsIdentifierStart(s[i]) {
      WordEndAgrees(s, t, d, lo, |s|, i);
      var nameEnd := WordEnd(s, i);
      AfterColumnsAgrees(s, t, d, lo, nameEnd);
      if AfterColumns(s, nameEnd).Ok? {
        var j := AfterColumns(s, nameEnd).value;
        KeywordAgrees(s, t, d, lo, j, "AS");
        if Keyword(s, j, "AS").Some? {
          KeywordAdvances(s, j, "AS");
          ReadBodyAgrees(s, t, d, lo, i, nameEnd, Keyword(s, j, "AS").value);
        }
      }
    }
  }

  lemma KeywordAdvances(s: Text, i: nat, word: Text)
    requires i <= |s| && (word == "WITH" || word == "RECURSIVE" || word == "AS")
    requires Keyword(s, i, word).Some?
    ensures Keyword(s, i, word).value == i + |word| <= |s|
  {
  }

  /** Reading on in a longer text: the same CTEs, unless one repeats an earlier name. */
  lemma {:induction false} CollectAgrees(s: Text, t: Text, d: nat, lo: nat, i: nat, seen: set<Text>, extra: set<Text>)
    requires Agree(s, t, d, lo, |s|) && Tail(s, t, d, |s|) && lo <= i <= |s|
    requires Collect(s, i, seen).Ok?
    ensures var top := Collect(s, i, seen).value;
            if Names(top.ctes) !! extra then Collect(t, i + d, seen + extra) == Ok(ShiftTop(top, d))
            else Collect(t, i + d, seen + extra).Err?
    decreases |s| - i
  {
    hide ReadCte, ShiftCte, Agree;
    ReadCteAgrees(s, t, d, lo, i);
    var (cte, next) := ReadCte(s, i).value;
    var top := Collect(s, i, seen).value;
    var rest := CollectRest(s, next, seen + {cte.name}).value;
    assert top.ctes[1..] == rest.ctes;
    ShiftKeepsName(cte, d);
    if cte.name !in extra {
      CollectRestAgrees(s, t, d, lo, next, seen + {cte.name}, extra);
      assert seen + {cte.name} + extra == seen + extra + {cte.name};
    }
  }

  lemma ShiftKeepsName(c: Cte, d: nat)
    ensures ShiftCte(c, d).name == c.name
  {
  }

  lemma {:induction false} CollectRestAgrees(s: Text, t: Text, d: nat, lo: nat, i: nat, seen: set<Text>, extra: set<Text>)
    requires Agree(s, t, d, lo, |s|) && Tail(s, t, d, |s|) && lo <= i <= |s|
    requires CollectRest(s, i, seen).Ok?
    ensures var top := CollectRest(s, i, seen).value;
            if Names(top.ctes) !! extra then CollectRest(t, i + d, seen + extra) == Ok(ShiftTop(top, d))
            else CollectRest(t, i + d, seen + extra).Err?
    decreases |s| - i
  {
    hide Trivia, Strip, Agree, Tail, CharAt, Collect;
    RestHeadAgrees(s, t, d, lo, i);
    var j := Trivia(s, i).value;
    if CharAt(s, j, ',') {
      CollectAgrees(s, t, d, lo, Trivia(s, j + 1).value, seen, extra);
    }
  }

  lemma RestHeadAgrees(s: Text, t: Text, d: nat, lo: nat, i: nat)
    requires Agree(s, t, d, lo, |s|) && Tail(s, t, d, |s|) && lo <= i <= |s| && Trivia(s, i).Ok?
    ensures i + d <= |t| && Trivia(t, i + d) == Ok(Trivia(s, i).value + d)
    ensures var j := Trivia(s, i).value;
            && CharAt(t, j + d, ',') == CharAt(s, j, ',')
            && (CharAt(s, j, ',') ==> j + 1 <= |s| && Trivia(t, j + 1 + d) == ShiftIndex(Trivia(s, j + 1), d))
            && j + d <= |t| && t[j + d..] == s[j..]
  {
    hide Trivia;
    TriviaAgrees(s, t, d, lo, |s|, i);
    var j := Trivia(s, i).value;
    if CharAt(s, j, ',') {
      TriviaAgrees(s, t, d, lo, |s|, j + 1);
    }
    SliceAgrees(s, t, d, lo, |s|, j, |s|);
    assert s[j..] == s[j..|s|] && t[j + d..] == t[j + d..|s| + d];
  }

  // ------------------------------------------------------------------------------------------
  // Reading what was rendered

  predicate IsName(name: Text) {
    && name != [] && IsIdentifierStart(name[0])
    && forall k :: 0 <= k < |name| ==> IsIdentifierChar(name[k])
  }

  /** A trimmed query that stays between parentheses once it is put on lines of its own. */
  predicate IsBody(query: Text) {
    Trimmed(query) && Embeddable("\n" + query + "\n")
  }

  predicate IsMergeable(queries: seq<(Text, Text)>) {
    && (forall k :: 0 <= k < |queries| ==> IsName(queries[k].0) && IsBody(queries[k].1))
    && (forall j, k :: 0 <= j < k < |queries| ==> queries[j].0 != queries[k].0)
  }

  function QueryNames(queries: seq<(Text, Text)>): set<Text> {
    set k | 0 <= k < |queries| :: queries[k].0
  }

  lemma TriviaOverOne(t: Text, i: nat)
    requires i + 1 < |t| && IsSpace(t[i]) && IsPlain(t[i + 1]) && !IsSpace(t[i + 1])
    ensures Trivia(t, i) == Ok(i + 1)
  {
    TriviaStopsAt(t, i + 1);
  }

  lemma StartIsPlain(c: char)
    requires IsIdentifierStart(c)
    ensures IsPlain(c) && !IsSpace(c)
  {
  }

  lemma KeywordAt(t: Text, i: nat, word: Text)
    requires word == "WITH" || word == "RECURSIVE" || word == "AS"
    requires StartsWith(t, i, word + " ")
    ensures Keyword(t, i, word) == Some(i + |word|)
  {
    hide Upper;
    StartsWithSplit(t, i, word, " ");
    StartsWithAt(t, i + |word|, " ", 0);
    KeywordsArePlain();
    UpperKeyword(word);
  }

  lemma RenderedPieces(t: Text, j: nat, name: Text, query: Text)
    requires StartsWith(t, j, Rendered(name, query))
    ensures StartsWith(t, j, name)
    ensures StartsWith(t, j + |name|, " AS (")
    ensures StartsWith(t, j + |name| + 1, "AS" + " ")
    ensures StartsWith(t, j + |name| + 4, Paren("\n" + query + "\n"))
  {
    hide StartsWith;
    var body := Paren("\n" + query + "\n");
    assert Rendered(name, query) == name + (" " + (("AS" + " ") + body));
    StartsWithSplit(t, j, name, " " + (("AS" + " ") + body));
    StartsWithSplit(t, j + |name|, " ", ("AS" + " ") + body);
    StartsWithSplit(t, j + |name| + 1, "AS" + " ", body);
    assert " " + (("AS" + " ") + body) == " AS (" + (("\n" + query + "\n") + ")");
    StartsWithSplit(t, j + |name|, " AS (", ("\n" + query + "\n") + ")");
  }

  /** A rendered CTE is read back with its name and query. */
  lemma ReadRendered(t: Text, j: nat, name: Text, query: Text)
    requires IsName(name) && IsBody(query) && StartsWith(t, j, Rendered(name, query))
    ensures j + |Rendered(name, query)| <= |t|
    ensures ReadCte(t, j) == Ok((PlacedCte(name, query, j), j + |Rendered(name, query)|))
  {
    hide Match, Trivia, WordEnd, Strip, Keyword, Embeddable, StartsWith, IsIdentifierStart, IsIdentifierChar;
    RenderedPieces(t, j, name, query);
    var a := j + |name|;
    NameReadAt(t, j, name);
    StartsWithAt(t, a, " AS (", 0);
    StartsWithAt(t, a, " AS (", 1);
    StartsWithAt(t, a, " AS (", 3);
    StartsWithAt(t, a, " AS (", 4);
    TriviaOverOne(t, a);
    assert AfterColumns(t, a) == Ok(a + 1);
    KeywordAt(t, a + 1, "AS");
    TriviaOverOne(t, a + 3);
    var body := "\n" + query + "\n";
    EmbeddedMatch(t, a + 4, body);
    BodyText(t, a + 4, body);
    StripPadded("\n", query, "\n");
  }

  lemma BodyText(t: Text, a: nat, body: Text)
    requires StartsWith(t, a, Paren(body))
    ensures a + 1 + |body| <= |t| && t[a + 1..a + 1 + |body|] == body
  {
    StartsWithSplit(t, a, "(" + body, ")");
    StartsWithSplit(t, a, "(", body);
  }

  lemma NameReadAt(t: Text, j: nat, name: Text)
    requires IsName(name) && StartsWith(t, j, name) && StartsWith(t, j + |name|, " AS (")
    ensures j < |t| && IsIdentifierStart(t[j]) && WordEnd(t, j) == j + |name|
    ensures t[j..j + |name|] == name
  {
    assert !IsIdentifierChar(' ');
    hide WordEnd, IsIdentifierStart, IsIdentifierChar;
    StartsWithAt(t, j, name, 0);
    StartsWithAt(t, j + |name|, " AS (", 0);
    forall k | j <= k < j + |name| ensures t[k] == name[k - j] {
      StartsWithAt(t, j, name, k - j);
    }
    WordEndsAt(t, j, j + |name|);
  }

  function PlacedCte(name: Text, query: Text, j: nat): Cte {
    Cte(name, query, j + |name| + 5, j + |name| + |query| + 7)
  }

  function PlacedCtes(queries: seq<(Text, Text)>, j: nat): seq<Cte> {
    if queries == [] then []
    else
      [PlacedCte(queries[0].0, queries[0].1, j)] +
      PlacedCtes(queries[1..], j + |Rendered(queries[0].0, queries[0].1)| + 2)
  }

  lemma MergeableTail(queries: seq<(Text, Text)>)
    requires queries != [] && IsMergeable(queries)
    ensures IsMergeable(queries[1..]) && queries[0].0 !in QueryNames(queries[1..])
    ensures QueryNames(queries) == {queries[0].0} + QueryNames(queries[1..])
  {
    hide IsName, IsBody;
    var rest := queries[1..];
    forall x | x in QueryNames(queries) ensures x in {queries[0].0} + QueryNames(rest) {
      var k :| 0 <= k < |queries| && x == queries[k].0;
      if k > 0 {
        assert rest[k - 1] == queries[k];
      }
    }
    forall x | x in QueryNames(rest) ensures x in QueryNames(queries) {
      var k :| 0 <= k < |rest| && x == rest[k].0;
      assert rest[k] == queries[k + 1];
    }
  }

  /** The rendered list is read back in order, and reading goes on after it. */
  lemma {:induction false} CollectRendered(t: Text, j: nat, queries: seq<(Text, Text)>, seen: set<Text>)
    requires queries != [] && IsMergeable(queries) && QueryNames(queries) !! seen
    requires StartsWith(t, j, RenderedAll(queries))
    ensures j + |RenderedAll(queries)| <= |t|
    ensures Collect(t, j, seen) ==
            PrependAll(PlacedCtes(queries, j),
                       CollectRest(t, j + |RenderedAll(queries)|, seen + QueryNames(queries)))
    decreases |queries|
  {
    hide Match, Trivia, IsName, IsBody, ReadCte, Rendered, PlacedCte, StartsWith, IsMergeable, QueryNames;
    var (name, query) := queries[0];
    var first := Rendered(name, query);
    MergeableTail(queries);
    FirstIsName(queries);
    PlacedName(name, query, j);
    if |queries| == 1 {
      ReadRendered(t, j, name, query);
      NoQueries();
      assert queries[1..] == [];
      assert seen + QueryNames(queries) == seen + {name};
      var after := CollectRest(t, j + |first|, seen + {name});
      assert after.Ok? ==> [] + after.value.ctes == after.value.ctes;
      PrependThenAll(PlacedCte(name, query, j), [], after);
    } else {
      var rest := RenderedAll(queries[1..]);
      StartsWithSplit(t, j, first + ",\n", rest);
      StartsWithSplit(t, j, first, ",\n");
      ReadRendered(t, j, name, query);
      var next := j + |first|;
      CommaThenNext(t, next, queries[1..], seen + {name});
      CollectRendered(t, next + 2, queries[1..], seen + {name});
      assert seen + {name} + QueryNames(queries[1..]) == seen + QueryNames(queries);
      PrependThenAll(PlacedCte(name, query, j), PlacedCtes(queries[1..], next + 2),
                     CollectRest(t, j + |RenderedAll(queries)|, seen + QueryNames(queries)));
    }
  }

  lemma NoQueries()
    ensures QueryNames([]) == {}
  {
  }

  lemma PlacedName(name: Text, query: Text, j: nat)
    ensures PlacedCte(name, query, j).name == name
  {
  }

  lemma PrependThenAll(cte: Cte, ctes: seq<Cte>, rest: Result<TopLevel>)
    ensures Prepend(cte, PrependAll(ctes, rest)) == PrependAll([cte] + ctes, rest)
  {
    if rest.Ok? {
      assert [cte] + (ctes + rest.value.ctes) == [cte] + ctes + rest.value.ctes;
    }
  }

  lemma RenderedStarts(queries: seq<(Text, Text)>)
    requires queries != [] && IsMergeable(queries)
    ensures RenderedAll(queries) != [] && IsIdentifierStart(RenderedAll(queries)[0])
  {
    assert RenderedAll(queries)[0] == queries[0].0[0];
  }

  lemma CommaThenNext(t: Text, i: nat, queries: seq<(Text, Text)>, seen: set<Text>)
    requires queries != [] && IsMergeable(queries)
    requires StartsWith(t, i, ",\n") && StartsWith(t, i + 2, RenderedAll(queries))
    ensures i + 2 <= |t| && CollectRest(t, i, seen) == Collect(t, i + 2, seen)
  {
    hide Trivia, Collect, IsMergeable, RenderedAll, StartsWith, IsIdentifierStart;
    RenderedStarts(queries);
    StartsWithAt(t, i, ",\n", 0);
    StartsWithAt(t, i, ",\n", 1);
    StartsWithAt(t, i + 2, RenderedAll(queries), 0);
    StartIsPlain(t[i + 2]);
    TriviaStopsAt(t, i);
    TriviaOverOne(t, i + 1);
  }

  // ------------------------------------------------------------------------------------------
  // The round trips

  /** The names and queries, without their positions. */
  function Pairs(ctes: seq<Cte>): seq<(Text, Text)> {
    if ctes == [] then [] else [(ctes[0].name, ctes[0].query)] + Pairs(ctes[1..])
  }

  lemma {:induction false} PairsOfShifted(ctes: seq<Cte>, d: nat)
    ensures Pairs(ShiftCtes(ctes, d)) == Pairs(ctes)
  {
    if ctes != [] {
      PairsOfShifted(ctes[1..], d);
      assert ShiftCtes(ctes, d)[1..] == ShiftCtes(ctes[1..], d);
    }
  }

  lemma {:induction false} PairsOfPlaced(queries: seq<(Text, Text)>, j: nat)
    ensures Pairs(PlacedCtes(queries, j)) == queries
    decreases |queries|
  {
    if queries != [] {
      var next := j + |Rendered(queries[0].0, queries[0].1)| + 2;
      PairsOfPlaced(queries[1..], next);
      assert PlacedCtes(queries, j)[1..] == PlacedCtes(queries[1..], next);
    }
  }

  lemma {:induction false} PairsOfConcat(a: seq<Cte>, b: seq<Cte>)
    ensures Pairs(a + b) == Pairs(a) + Pairs(b)
  {
    if a == [] {
      assert a + b == b;
    } else {
      PairsOfConcat(a[1..], b);
      assert (a + b)[1..] == a[1..] + b && (a + b)[0] == a[0];
      Associative([(a[0].name, a[0].query)], Pairs(a[1..]), Pairs(b));
    }
  }

  predicate IsRecursive(name: Text) {
    Upper(name) == "RECURSIVE"
  }

  /** Whether the template's WITH is followed by RECURSIVE. */
  predicate SaysRecursive(template: Text) {
    && Trivia(template, 0).Ok?
    && var i := Trivia(template, 0).value;
    && Keyword(template, i, "WITH").Some?
    && var w := Keyword(template, i, "WITH").value;
    && w <= |template| && Trivia(template, w).Ok?
    && Keyword(template, Trivia(template, w).value, "RECURSIVE").Some?
  }

  lemma OtherNameIsNoKeyword(t: Text, j: nat, name: Text)
    requires IsName(name) && StartsWith(t, j, name + " ")
    ensures Keyword(t, j, "RECURSIVE").Some? <==> IsRecursive(name)
  {
    hide Upper;
    KeywordsArePlain();
    UpperKeyword("RECURSIVE");
    StartsWithSplit(t, j, name, " ");
    StartsWithAt(t, j + |name|, " ", 0);
    if IsRecursive(name) {
      PlainKeywordLength(name, "RECURSIVE");
      assert t[j..j + 9] == name;
    } else if |name| < 9 {
      var candidate := t[j..if j + 9 <= |t| then j + 9 else |t|];
      assert candidate[|name|] == ' ';
      UpperKeeps(candidate, |name|);
      assert ' ' !in "RECURSIVE";
    } else if |name| > 9 {
      StartsWithAt(t, j, name, 9);
    } else {
      assert t[j..j + 9] == name;
    }
  }

  lemma KeywordKept(s: Text, t: Text, i: nat, word: Text, at: nat)
    requires i <= |s| && (word == "WITH" || word == "RECURSIVE" || word == "AS")
    requires Keyword(s, i, word).Some? && Keyword(s, i, word).value <= at
    requires Agree(s, t, 0, 0, at) && at < |t| && t[at] == ' '
    ensures Keyword(t, i, word) == Keyword(s, i, word)
  {
    hide Upper;
    KeywordAdvances(s, i, word);
    SliceAgrees(s, t, 0, 0, at, i, i + |word|);
    if i + |word| < at {
      assert s[i + |word|] == t[i + |word| + 0];
    }
  }

  /** Where the template's own CTEs start, in terms of the insertion point. */
  lemma InsertionStart(template: Text)
    requires WithStart(template).Ok?
    ensures Trivia(template, 0).Ok?
    ensures var i := Trivia(template, 0).value;
            && i <= |template| && Keyword(template, i, "WITH") == Some(i + 4) && i + 4 <= |template|
            && InsertionPoint(template, i + 4).Ok?
            && WithStart(template) == Trivia(template, InsertionPoint(template, i + 4).value)
            && (!SaysRecursive(template) ==> InsertionPoint(template, i + 4) == Ok(i + 4))
            && (SaysRecursive(template) ==>
                  && Trivia(template, i + 4).Ok?
                  && Keyword(template, Trivia(template, i + 4).value, "RECURSIVE")
                       == Some(InsertionPoint(template, i + 4).value))
  {
    hide Trivia, Keyword;
    var i := Trivia(template, 0).value;
    KeywordAdvances(template, i, "WITH");
    var w := Keyword(template, i, "WITH").value;
    var j := Trivia(template, w).value;
    if Keyword(template, j, "RECURSIVE").Some? {
      KeywordAdvances(template, j, "RECURSIVE");
    }
  }

  /** After the insertion the first CTE is the inserted one, unless its name reads as the
      RECURSIVE keyword. */
  lemma MergedStart(template: Text, out: Text, at: nat, first: Text)
    requires WithStart(template).Ok? && IsName(first)
    requires InsertionPoint(template, Trivia(template, 0).value + 4) == Ok(at)
    requires Agree(template, out, 0, 0, at) && StartsWith(out, at, " " + (first + " "))
    ensures at + 1 <= |out|
    ensures SaysRecursive(template) || !IsRecursive(first) ==> WithStart(out) == Ok(at + 1)
    ensures !SaysRecursive(template) && IsRecursive(first) ==>
              at + 10 <= |out| && WithStart(out) == Trivia(out, at + 10)
  {
    hide Trivia, Keyword, StartsWith, InsertionPoint, IsIdentifierStart, SaysRecursive;
    InsertionStart(template);
    var i := Trivia(template, 0).value;
    StartsWithSplit(out, at, " ", first + " ");
    StartsWithAt(out, at, " ", 0);
    StartsWithAt(out, at + 1, first + " ", 0);
    StartIsPlain(first[0]);
    TriviaOverOne(out, at);
    InsertionLater(template, i + 4, at);
    TriviaAgrees(template, out, 0, 0, at, 0);
    KeywordKept(template, out, i, "WITH", at);
    if SaysRecursive(template) {
      var j := Trivia(template, i + 4).value;
      KeywordAdvances(template, j, "RECURSIVE");
      TriviaAgrees(template, out, 0, 0, at, i + 4);
      KeywordKept(template, out, j, "RECURSIVE", at);
    } else {
      OtherNameIsNoKeyword(out, at + 1, first);
      if IsRecursive(first) {
        KeywordAdvances(out, at + 1, "RECURSIVE");
      }
    }
  }

  lemma InsertionLater(template: Text, withEnd: nat, at: nat)
    requires withEnd <= |template| && InsertionPoint(template, withEnd) == Ok(at)
    ensures withEnd <= at
  {
  }

  lemma RenderedHead(queries: seq<(Text, Text)>, left: Text, right: Text)
    requires queries != []
    ensures var t := left + RenderedAll(queries) + right;
            && StartsWith(t, |left|, RenderedAll(queries))
            && StartsWith(t, |left|, Rendered(queries[0].0, queries[0].1))
            && StartsWith(t, |left|, queries[0].0 + " ")
  {
    hide StartsWith;
    var (name, query) := queries[0];
    var t, all := left + RenderedAll(queries) + right, RenderedAll(queries);
    StartsWithPlaced(left, all, right);
    if |queries| > 1 {
      StartsWithSplit(t, |left|, Rendered(name, query), ",\n" + RenderedAll(queries[1..]));
      assert all == Rendered(name, query) + (",\n" + RenderedAll(queries[1..]));
    }
    assert Rendered(name, query) == name + " " + ("AS (\n" + query + "\n)");
    StartsWithSplit(t, |left|, name + " ", "AS (\n" + query + "\n)");
  }

  /** The merged text: what it shares with the template and where the new CTEs are. */
  lemma MergeLayout(template: Text, at: nat, queries: seq<(Text, Text)>, out: Text)
    requires at <= |template| && queries != []
    requires out == template[..at] + " " + RenderedAll(queries) + "," + template[at..]
    ensures var d := |RenderedAll(queries)| + 2;
            && Agree(template, out, 0, 0, at) && Agree(template, out, d, at, |template|)
            && Tail(template, out, d, |template|) && out[at + d - 1] == ','
            && StartsWith(out, at, " " + (queries[0].0 + " "))
            && StartsWith(out, at + 1, RenderedAll(queries))
            && StartsWith(out, at + 1 + |queries[0].0|, " AS (\n" + queries[0].1 + "\n),")
  {
    hide StartsWith, RenderedAll;
    var left, all, tail := template[..at], RenderedAll(queries), template[at..];
    assert out == (left + " ") + all + ("," + tail);
    assert out == left + " " + (all + ("," + tail));
    RenderedHead(queries, left + " ", "," + tail);
    KeywordedHead(queries, left + " ", tail);
    StartsWithPlaced(left, " ", all + ("," + tail));
    StartsWithSplit(out, at, " ", queries[0].0 + " ");
  }

  /** Where the new CTEs went, and that extraction starts reading there. */
  lemma MergedHere(template: Text, queries: seq<(Text, Text)>) returns (at: nat)
    requires queries != [] && IsMergeable(queries) && WithStart(template).Ok?
    ensures Merge(template, queries).Ok? && at <= |template| && Trivia(template, at) == WithStart(template)
    ensures var out, d := Merge(template, queries).value, |RenderedAll(queries)| + 2;
            && Agree(template, out, d, at, |template|) && Tail(template, out, d, |template|)
            && out[at + d - 1] == ',' && StartsWith(out, at + 1, RenderedAll(queries))
            && StartsWith(out, at + 1 + |queries[0].0|, " AS (\n" + queries[0].1 + "\n),")
            && IsName(queries[0].0) && IsBody(queries[0].1)
            && (SaysRecursive(template) || !IsRecursive(queries[0].0) ==> WithStart(out) == Ok(at + 1))
            && (!SaysRecursive(template) && IsRecursive(queries[0].0) ==>
                  at + 10 <= |out| && WithStart(out) == Trivia(out, at + 10))
  {
    hide Trivia, Keyword, IsMergeable, RenderedAll, StartsWith, SaysRecursive, IsRecursive, WithStart, InsertionPoint, Agree, IsName, IsBody;
    InsertionStart(template);
    var i := Trivia(template, 0).value;
    at := InsertionPoint(template, i + 4).value;
    InsertionLater(template, i + 4, at);
    var out := Merge(template, queries).value;
    MergeLayout(template, at, queries, out);
    FirstIsName(queries);
    MergedStart(template, out, at, queries[0].0);
  }

  /** Merging into a WITH clause and extracting again gives the new CTEs, then the template's
      own, and the same trailing statement; it fails exactly when a new name repeats one of the
      template's. */
  lemma MergeIntoWith(template: Text, queries: seq<(Text, Text)>)
    requires queries != [] && IsMergeable(queries)
    requires Extract(template).Ok? && (SaysRecursive(template) || !IsRecursive(queries[0].0))
    ensures Merge(template, queries).Ok?
    ensures var out, own := Extract(Merge(template, queries).value), Extract(template).value;
            && (out.Ok? <==> QueryNames(queries) !! Names(own.ctes))
            && (out.Ok? ==> out.value.trailing == own.trailing && Pairs(out.value.ctes) == queries + Pairs(own.ctes))
  {
    hide Trivia, Keyword, IsMergeable, RenderedAll, Collect, StartsWith, SaysRecursive, IsRecursive, QueryNames, WithStart, InsertionPoint, Merge, Agree;
    var at := MergedHere(template, queries);
    var out, all := Merge(template, queries).value, RenderedAll(queries);
    NoNames(queries);
    CollectRendered(out, at + 1, queries, {});
    var d := |all| + 2;
    assert {} + QueryNames(queries) == QueryNames(queries);
    CommaThenTail(template, out, at, d, QueryNames(queries));
    var own, placed := Extract(template).value, PlacedCtes(queries, at + 1);
    CollectAgrees(template, out, d, at, WithStart(template).value, {}, QueryNames(queries));
    if QueryNames(queries) !! Names(own.ctes) {
      PairsOfConcat(placed, ShiftCtes(own.ctes, d));
      PairsOfPlaced(queries, at + 1);
      PairsOfShifted(own.ctes, d);
    }
  }

  lemma FirstIsName(queries: seq<(Text, Text)>)
    requires queries != [] && IsMergeable(queries)
    ensures IsName(queries[0].0) && IsBody(queries[0].1)
  {
  }

  lemma NoNames(queries: seq<(Text, Text)>)
    ensures QueryNames(queries) !! {}
  {
  }

  /** After the inserted comma, reading goes on where the template's own CTEs start. */
  lemma CommaThenTail(s: Text, t: Text, at: nat, d: nat, seen: set<Text>)
    requires at <= |s| && Agree(s, t, d, at, |s|) && Tail(s, t, d, |s|)
    requires 1 <= d && t[at + d - 1] == ',' && Trivia(s, at).Ok?
    ensures CollectRest(t, at + d - 1, seen) == Collect(t, Trivia(s, at).value + d, seen)
  {
    hide Trivia, Collect;
    TriviaStopsAt(t, at + d - 1);
    TriviaAgrees(s, t, d, at, |s|, at);
  }

  /** `WITH recursive AS (...),` is read as the keyword RECURSIVE and a CTE named AS with a
      column list, which then lacks its own AS. */
  lemma ReadKeywordedName(t: Text, j: nat, query: Text)
    requires IsBody(query) && StartsWith(t, j, " AS (\n" + query + "\n),")
    ensures Trivia(t, j) == Ok(j + 1) && ReadCte(t, j + 1) == Err(MissingAs(j + 1))
  {
    hide Match, Trivia, WordEnd, Strip, Keyword, Embeddable, StartsWith;
    var body := Paren("\n" + query + "\n");
    assert " AS (\n" + query + "\n)," == " AS " + (body + ",");
    StartsWithSplit(t, j, " AS ", body + ",");
    StartsWithSplit(t, j + 4, body, ",");
    StartsWithAt(t, j, " AS ", 0);
    StartsWithAt(t, j, " AS ", 1);
    StartsWithAt(t, j, " AS ", 2);
    StartsWithAt(t, j, " AS ", 3);
    StartsWithAt(t, j + 4, body, 0);
    StartsWithAt(t, j + 4 + |body|, ",", 0);
    TriviaOverOne(t, j);
    WordEndsAt(t, j + 1, j + 3);
    TriviaOverOne(t, j + 3);
    EmbeddedMatch(t, j + 4, "\n" + query + "\n");
    TriviaStopsAt(t, j + 4 + |body|);
    CommaIsNoKeyword(t, j + 4 + |body|);
  }

  lemma CommaIsNoKeyword(t: Text, i: nat)
    requires i < |t| && t[i] == ','
    ensures Keyword(t, i, "AS") == None
  {
    var candidate := t[i..if i + 2 <= |t| then i + 2 else |t|];
    UpperKeeps(candidate, 0);
    KeywordsArePlain();
    UpperKeyword("AS");
    assert ',' !in "AS";
  }

  lemma KeywordedHead(queries: seq<(Text, Text)>, left: Text, right: Text)
    requires queries != []
    ensures StartsWith(left + RenderedAll(queries) + ("," + right), |left| + |queries[0].0|, " AS (\n" + queries[0].1 + "\n),")
  {
    hide StartsWith;
    var (name, query) := queries[0];
    var piece := " AS (\n" + query + "\n),";
    var t := left + RenderedAll(queries) + ("," + right);
    if |queries| == 1 {
      assert t == (left + name) + piece + right;
      StartsWithPlaced(left + name, piece, right);
    } else {
      var rest := "\n" + RenderedAll(queries[1..]) + ("," + right);
      assert t == (left + name) + piece + rest;
      StartsWithPlaced(left + name, piece, rest);
    }
  }

  /** The remaining case: a first name that reads as RECURSIVE always breaks the merged text. */
  lemma MergeOfKeyword(template: Text, queries: seq<(Text, Text)>)
    requires queries != [] && IsMergeable(queries)
    requires Extract(template).Ok? && !SaysRecursive(template) && IsRecursive(queries[0].0)
    ensures Merge(template, queries).Ok? && Extract(Merge(template, queries).value).Err?
  {
    hide Trivia, Keyword, IsMergeable, RenderedAll, StartsWith, SaysRecursive, WithStart, InsertionPoint, Upper, ReadCte, Merge, Agree;
    var at := MergedHere(template, queries);
    var out, all := Merge(template, queries).value, RenderedAll(queries);
    KeywordsArePlain();
    PlainKeywordLength(queries[0].0, "RECURSIVE");
    ReadKeywordedName(out, at + 10, queries[0].1);
  }

  /** A template without WITH: extraction gives the new CTEs back if and only if the template does
      not start with a comma, which would continue the list, and the first name does not read as
      RECURSIVE.  Then the template is the trailing statement. */
  lemma MergeWithoutWith(template: Text, queries: seq<(Text, Text)>)
    requires queries != [] && IsMergeable(queries)
    requires Trivia(template, 0).Ok? && Keyword(template, Trivia(template, 0).value, "WITH").None?
    ensures Merge(template, queries).Ok?
    ensures var out, i := Extract(Merge(template, queries).value), Trivia(template, 0).value;
            var kept := !CharAt(template, i, ',') && !IsRecursive(queries[0].0);
            && (out.Ok? && Pairs(out.value.ctes) == queries <==> kept)
            && (kept ==> out.Ok? && out.value.trailing == Strip(template[i..]))
  {
    if IsRecursive(queries[0].0) {
      MergeKeywordWithoutWith(template, queries);
    } else {
      MergeOtherWithoutWith(template, queries);
    }
  }

  lemma MergeOtherWithoutWith(template: Text, queries: seq<(Text, Text)>)
    requires queries != [] && IsMergeable(queries) && !IsRecursive(queries[0].0)
    requires Trivia(template, 0).Ok? && Keyword(template, Trivia(template, 0).value, "WITH").None?
    ensures Merge(template, queries).Ok?
    ensures var out, i := Extract(Merge(template, queries).value), Trivia(template, 0).value;
            && (out.Ok? && Pairs(out.value.ctes) == queries <==> !CharAt(template, i, ','))
            && (!CharAt(template, i, ',') ==> out.Ok? && out.value.trailing == Strip(template[i..]))
  {
    hide Trivia, Keyword, IsMergeable, RenderedAll, Collect, StartsWith, IsRecursive, QueryNames, Strip, IsIdentifierStart, IsIdentifierChar;
    var all := RenderedAll(queries);
    var out := Merge(template, queries).value;
    assert out == "WITH " + all + ("\n" + template);
    var d, seen := 6 + |all|, {} + QueryNames(queries);
    FirstIsName(queries);
    NoNames(queries);
    RenderedHead(queries, "WITH ", "\n" + template);
    assert out == [] + "WITH " + (all + ("\n" + template));
    StartsWithPlaced([], "WITH ", all + ("\n" + template));
    NewWithStart(out, queries[0].0);
    CollectRendered(out, 5, queries, {});
    assert out[d - 1] == '\n';
    assert Agree(template, out, d, 0, |template|);
    RestWithoutWith(template, out, d, seen);
    var placed, rest := PlacedCtes(queries, 5), CollectRest(out, d - 1, seen);
    if rest.Ok? {
      PairsOfConcat(placed, rest.value.ctes);
      PairsOfPlaced(queries, 5);
      assert rest.value.ctes == [] ==> placed + rest.value.ctes == placed;
    }
  }

  lemma RestWithoutWith(template: Text, out: Text, d: nat, seen: set<Text>)
    requires Agree(template, out, d, 0, |template|) && Tail(template, out, d, |template|)
    requires 1 <= d && out[d - 1] == '\n' && Trivia(template, 0).Ok?
    ensures var i, rest := Trivia(template, 0).value, CollectRest(out, d - 1, seen);
            if CharAt(template, i, ',') then rest.Ok? ==> |Pairs(rest.value.ctes)| >= 1
            else rest == Ok(TopLevel([], Strip(template[i..]), i + d))
  {
    hide Trivia, Collect, Strip;
    TriviaAgrees(template, out, d, 0, |template|, 0);
    SpaceIsTrivia(out, d - 1);
    var i := Trivia(template, 0).value;
    assert CharAt(out, i + d, ',') == CharAt(template, i, ',');
    SliceAgrees(template, out, d, 0, |template|, i, |template|);
    assert out[i + d..] == out[i + d..|template| + d] && template[i..] == template[i..|template|];
    var rest := CollectRest(out, d - 1, seen);
    if rest.Ok? && CharAt(template, i, ',') {
      CollectIsNotEmpty(out, Trivia(out, i + d + 1).value, seen);
    }
  }

  lemma SpaceIsTrivia(t: Text, i: nat)
    requires i < |t| && t[i] == '\n'
    ensures Trivia(t, i) == Trivia(t, i + 1)
  {
  }

  lemma CollectIsNotEmpty(s: Text, i: nat, seen: set<Text>)
    requires i <= |s| && Collect(s, i, seen).Ok?
    ensures |Pairs(Collect(s, i, seen).value.ctes)| >= 1
  {
  }

  lemma NewWithStart(t: Text, name: Text)
    requires IsName(name)
    requires StartsWith(t, 0, "WITH ") && StartsWith(t, 5, name + " ")
    ensures 5 + |name| < |t|
    ensures WithStart(t) == if IsRecursive(name) then Trivia(t, 14) else Ok(5)
  {
    hide Trivia, Keyword, IsIdentifierStart, IsRecursive, StartsWith;
    assert "WITH " == "WITH" + " ";
    StartsWithAt(t, 0, "WITH ", 0);
    StartsWithAt(t, 0, "WITH ", 4);
    StartsWithAt(t, 5, name + " ", 0);
    StartsWithAt(t, 5, name + " ", |name|);
    StartIsPlain(name[0]);
    TriviaStopsAt(t, 0);
    KeywordAt(t, 0, "WITH");
    TriviaOverOne(t, 4);
    OtherNameIsNoKeyword(t, 5, name);
    if IsRecursive(name) {
      KeywordAdvances(t, 5, "RECURSIVE");
    }
  }

  /** `recursive AS (...)` behind WITH is read as the keyword and the beginning of a CTE named AS. */
  lemma MergeKeywordWithoutWith(template: Text, queries: seq<(Text, Text)>)
    requires queries != [] && IsMergeable(queries) && IsRecursive(queries[0].0)
    requires Trivia(template, 0).Ok? && Keyword(template, Trivia(template, 0).value, "WITH").None?
    ensures Merge(template, queries).Ok?
    ensures var out := Extract(Merge(template, queries).value);
            out.Ok? ==> Pairs(out.value.ctes) != [] && Pairs(out.value.ctes)[0].0 == "AS" != queries[0].0
  {
    hide Trivia, Keyword, IsMergeable, Collect, StartsWith, WithStart;
    var out := KeywordedStart(template, queries);
    StartsWithAsName(out, 14);
  }

  /** Where the merged text has what, and that reading starts behind the keyword. */
  lemma KeywordedStart(template: Text, queries: seq<(Text, Text)>) returns (out: Text)
    requires queries != [] && IsMergeable(queries) && IsRecursive(queries[0].0)
    requires Trivia(template, 0).Ok? && Keyword(template, Trivia(template, 0).value, "WITH").None?
    ensures Merge(template, queries) == Ok(out) && out == "WITH " + RenderedAll(queries) + ("\n" + template)
    ensures |queries[0].0| == 9 && WithStart(out) == Trivia(out, 14) && StartsWith(out, 14, " AS (")
    ensures StartsWith(out, 18, Paren("\n" + queries[0].1 + "\n")) && IsBody(queries[0].1)
  {
    hide Trivia, Keyword, IsMergeable, RenderedAll, Collect, StartsWith, Upper, WithStart;
    var all, name := RenderedAll(queries), queries[0].0;
    out := Merge(template, queries).value;
    assert out == "WITH " + all + ("\n" + template);
    FirstIsName(queries);
    RenderedHead(queries, "WITH ", "\n" + template);
    assert out == [] + "WITH " + (all + ("\n" + template));
    StartsWithPlaced([], "WITH ", all + ("\n" + template));
    NewWithStart(out, name);
    KeywordsArePlain();
    PlainKeywordLength(name, "RECURSIVE");
    RenderedPieces(out, 5, name, queries[0].1);
  }

  lemma StartsWithAsName(t: Text, j: nat)
    requires StartsWith(t, j, " AS (")
    ensures j + 5 <= |t| && Trivia(t, j) == Ok(j + 1) && Trivia(t, j + 3) == Ok(j + 4) && t[j + 4] == '('
    ensures IsIdentifierStart(t[j + 1]) && WordEnd(t, j + 1) == j + 3 && t[j + 1..j + 3] == "AS"
    ensures Collect(t, j + 1, {}).Ok? ==>
              var ctes := Collect(t, j + 1, {}).value.ctes; Pairs(ctes) != [] && Pairs(ctes)[0].0 == "AS"
  {
    hide Trivia, WordEnd, StartsWith, Match, Keyword, CollectRest;
    StartsWithAt(t, j, " AS (", 0);
    StartsWithAt(t, j, " AS (", 1);
    StartsWithAt(t, j, " AS (", 2);
    StartsWithAt(t, j, " AS (", 3);
    StartsWithAt(t, j, " AS (", 4);
    TriviaOverOne(t, j);
    TriviaOverOne(t, j + 3);
    WordEndsAt(t, j + 1, j + 3);
    assert t[j + 1..j + 3] == "AS";
  }

  // ------------------------------------------------------------------------------------------
  // Such a merge, read as something else

  /** What the template reads as behind a CTE's name: its body and the index after it. */
  function TemplateBody(template: Text): Result<(Cte, nat)>
    requires Trivia(template, 0).Ok?
  {
    var i := Trivia(template, 0).value;
    match Keyword(template, i, "AS")
    case None => Err(MissingAs(i))
    case Some(asEnd) => ReadBody(template, i, i, asEnd)
  }

  /** The column list of the CTE named AS is the new query; behind it the template goes on. */
  lemma KeywordedColumns(template: Text, queries: seq<(Text, Text)>, out: Text)
    requires queries != [] && Trivia(template, 0).Ok? && |queries[0].0| == 9
    requires out == "WITH " + RenderedAll(queries) + ("\n" + template)
    requires StartsWith(out, 14, " AS (") && IsBody(queries[0].1)
    requires StartsWith(out, 18, Paren("\n" + queries[0].1 + "\n"))
    ensures |queries| == 1 ==>
              var d := |out| - |template|;
              && Agree(template, out, d, 0, |template|) && Tail(template, out, d, |template|)
              && AfterColumns(out, 17) == Ok(Trivia(template, 0).value + d)
    ensures |queries| > 1 ==> ReadCte(out, 15).Err?
  {
    hide Trivia, Match, WordEnd, Strip, Keyword, Embeddable, StartsWith, RenderedAll, IsIdentifierStart;
    var body := "\n" + queries[0].1 + "\n";
    StartsWithAsName(out, 14);
    EmbeddedMatch(out, 18, body);
    var after := 18 + |Paren(body)|;
    KeywordedLayout(template, queries, out, after);
    if |queries| == 1 {
      SpaceIsTrivia(out, after);
      TriviaAgrees(template, out, after + 1, 0, |template|, 0);
    } else {
      TriviaStopsAt(out, after);
      CommaIsNoKeyword(out, after);
    }
  }

  lemma KeywordedLayout(template: Text, queries: seq<(Text, Text)>, out: Text, after: nat)
    requires queries != [] && |queries[0].0| == 9 && after == 22 + |queries[0].1|
    requires out == "WITH " + RenderedAll(queries) + ("\n" + template)
    ensures |queries| == 1 ==>
              var d := |out| - |template|;
              && after + 1 == d && out[after] == '\n'
              && Agree(template, out, d, 0, |template|) && Tail(template, out, d, |template|)
    ensures |queries| > 1 ==> after < |out| && out[after] == ','
  {
    var head := queries[0].0 + " AS (\n" + queries[0].1 + "\n)";
    if |queries| == 1 {
      assert RenderedAll(queries) == head;
    } else {
      var rest := RenderedAll(queries[1..]);
      hide RenderedAll;
      assert out == ("WITH " + head) + (",\n" + rest + ("\n" + template));
    }
  }

  /** The merged text extracts only if there is one new CTE and the template reads as a body; then
      it extracts, without any error, to a CTE named AS with the template's query. */
  lemma KeywordIsReadOn(template: Text, queries: seq<(Text, Text)>)
    requires queries != [] && IsMergeable(queries) && IsRecursive(queries[0].0)
    requires Trivia(template, 0).Ok? && Keyword(template, Trivia(template, 0).value, "WITH").None?
    ensures Merge(template, queries).Ok?
    ensures var out, body := Extract(Merge(template, queries).value), TemplateBody(template);
            && (|queries| > 1 || body.Err? ==> out.Err?)
            && (|queries| == 1 && body.Ok? ==>
                  var (cte, next) := body.value;
                  var rest := CollectRest(template, next, {});
                  (rest.Ok? && "AS" !in Names(rest.value.ctes) ==>
                     && out.Ok? && out.value.trailing == rest.value.trailing
                     && Pairs(out.value.ctes) == [("AS", cte.query)] + Pairs(rest.value.ctes)))
  {
    hide Trivia, Keyword, IsMergeable, RenderedAll, Collect, CollectRest, StartsWith, WithStart, WordEnd, ReadBody, AfterColumns, IsIdentifierStart;
    var out := KeywordedStart(template, queries);
    StartsWithAsName(out, 14);
    KeywordedColumns(template, queries, out);
    if |queries| > 1 {
      CollectFails(out, 15);
    } else {
      var i, d := Trivia(template, 0).value, |out| - |template|;
      KeywordAgrees(template, out, d, 0, i, "AS");
      if Keyword(template, i, "AS").Some? {
        KeywordAdvances(template, i, "AS");
        var asEnd := Keyword(template, i, "AS").value;
        ReadBodyAgrees(template, out, d, 0, i, i, asEnd);
        ReadBodyNamed(out, 15, 17, i + d, asEnd + d);
      }
      if TemplateBody(template).Err? {
        CollectFails(out, 15);
      } else {
        var (cte, next) := TemplateBody(template).value;
        CollectOne(out, 15, Cte("AS", cte.query, cte.start + d, cte.end + d), next + d);
        var rest := CollectRest(template, next, {});
        if rest.Ok? && "AS" !in Names(rest.value.ctes) {
          CollectRestAgrees(template, out, d, 0, next, {}, {"AS"});
          assert {} + {"AS"} == {"AS"};
          PairsOfShifted(rest.value.ctes, d);
        }
      }
    }
  }

  lemma ReadBodyNamed(s: Text, start: nat, nameEnd: nat, other: nat, asEnd: nat)
    requires start <= nameEnd <= asEnd <= |s| && other <= asEnd
    ensures ReadBody(s, start, nameEnd, asEnd).Ok? == ReadBody(s, other, other, asEnd).Ok?
    ensures ReadBody(s, other, other, asEnd).Ok? ==>
              var (cte, next) := ReadBody(s, other, other, asEnd).value;
              ReadBody(s, start, nameEnd, asEnd) == Ok((cte.(name := s[start..nameEnd]), next))
  {
    hide Trivia, Match, Strip;
  }

  lemma CollectFails(s: Text, i: nat)
    requires i <= |s| && ReadCte(s, i).Err?
    ensures Collect(s, i, {}).Err?
  {
  }

  lemma CollectOne(s: Text, i: nat, cte: Cte, next: nat)
    requires i <= |s| && ReadCte(s, i) == Ok((cte, next))
    ensures next <= |s| && Collect(s, i, {}) == Prepend(cte, CollectRest(s, next, {cte.name}))
  {
    hide ReadCte, CollectRest;
    var none: set<Text> := {};
    assert none + {cte.name} == {cte.name};
  }

  lemma {:induction false} PlainMatch(t: Text, i: nat, close: nat, open: nat)
    requires i <= close < |t| && t[close] == ')'
    requires forall k :: i <= k < close ==> IsPlain(t[k]) && t[k] != '(' && t[k] != ')'
    ensures Match(t, i, 1, open) == Ok(close)
    decreases close - i
  {
    hide NonCode;
    PlainIsCode(t, i);
    if i < close {
      PlainMatch(t, i + 1, close, open);
    }
  }

  /** A template and a new CTE that are merged to a text with a CTE named AS instead. */
  lemma RecursiveNameIsLost()
    ensures var template, queries := "AS (select 1) select 2", [("recursive", "q")];
            && IsMergeable(queries) && Merge(template, queries).Ok?
            && var out := Extract(Merge(template, queries).value);
               && out.Ok? && out.value.trailing == "select 2" && Pairs(out.value.ctes) == [("AS", "select 1")]
  {
    hide Trivia, Keyword, IsName, IsBody, Rendered, CollectRest, Extract, ReadBody, TemplateBody, Merge, IsRecursive;
    var template: Text, queries := "AS (select 1) select 2", [("recursive", "q")];
    TriviaStopsAt(template, 0);
    AsIsNotWith(template);
    NameOfRecursive();
    RecursiveIsKeyword();
    BodyOfQ();
    LostBody();
    LostRest();
    KeywordIsReadOn(template, queries);
    assert Pairs([]) == [] && [("AS", "select 1")] + [] == [("AS", "select 1")];
  }

  lemma BodyOfQ()
    ensures IsBody("q")
  {
    var text: Text := "\nq\n";
    assert "\n" + "q" + "\n" == text;
    PlainMatch(Paren(text), 1, 4, 0);
  }

  lemma AsIsNotWith(t: Text)
    requires |t| > 4 && t[2] == ' '
    ensures Keyword(t, 0, "WITH") == None
  {
    UpperKeeps(t[0..4], 2);
    KeywordsArePlain();
    UpperKeyword("WITH");
    assert ' ' !in "WITH";
  }

  lemma NameOfRecursive()
    ensures IsName("recursive")
  {
  }

  lemma UpperNext(c: char, rest: Text)
    ensures Upper([c] + rest) == UpperChar(c) + Upper(rest)
  {
    assert ([c] + rest)[1..] == rest;
  }

  lemma UpperOfNothing()
    ensures Upper([]) == []
  {
  }

  lemma RecursiveIsKeyword()
    ensures IsRecursive("recursive")
  {
    hide Upper;
    UpperNext('e', []);
    UpperNext('v', ['e']);
    UpperNext('i', "ve");
    UpperNext('s', "ive");
    UpperNext('r', "sive");
    UpperNext('u', "rsive");
    UpperNext('c', "ursive");
    UpperNext('e', "cursive");
    UpperNext('r', "ecursive");
    UpperOfNothing();
    assert ['e'] + [] == ['e'] && ['v'] + ['e'] == "ve" && ['i'] + "ve" == "ive" && ['s'] + "ive" == "sive";
    assert ['r'] + "sive" == "rsive" && ['u'] + "rsive" == "ursive" && ['c'] + "ursive" == "cursive";
    assert ['e'] + "cursive" == "ecursive" && ['r'] + "ecursive" == "recursive";
    assert "E" + [] == "E" && "V" + "E" == "VE" && "I" + "VE" == "IVE" && "S" + "IVE" == "SIVE";
    assert "R" + "SIVE" == "RSIVE" && "U" + "RSIVE" == "URSIVE" && "C" + "URSIVE" == "CURSIVE";
    assert "E" + "CURSIVE" == "ECURSIVE" && "R" + "ECURSIVE" == "RECURSIVE";
  }

  lemma LostBody()
    ensures Trivia("AS (select 1) select 2", 0) == Ok(0)
    ensures TemplateBody("AS (select 1) select 2") == Ok((Cte([], "select 1", 4, 12), 13))
  {
    hide Trivia, Keyword, Match, Strip;
    var t: Text := "AS (select 1) select 2";
    TriviaStopsAt(t, 0);
    assert "AS" + " " == "AS " && t[0..3] == "AS ";
    KeywordAt(t, 0, "AS");
    TriviaOverOne(t, 2);
    PlainMatch(t, 4, 12, 3);
    assert t[4..12] == "select 1";
    Unpadded("select 1");
  }

  lemma Unpadded(s: Text)
    requires Trimmed(s)
    ensures Strip(s) == s
  {
    StripPadded([], s, []);
    assert [] + s + [] == s;
  }

  lemma LostRest()
    ensures CollectRest("AS (select 1) select 2", 13, {}) == Ok(TopLevel([], "select 2", 14))
  {
    hide Trivia, Strip;
    var t: Text := "AS (select 1) select 2";
    TriviaOverOne(t, 13);
    assert t[14..] == "select 2";
    Unpadded("select 2");
  }
}
