/** Line-leading `KEYWORD (...);` extension headers and the bodies between them
    (crates/sqltide-sqltext/src/sql_scan/headers.rs). */
module Headers {
  import opened Chars
  import opened Lexing
  import opened Scanners

  datatype Marker = Marker(start: nat, headerStart: nat, bodyStart: nat)

  datatype Block = Block(start: nat, bodyStart: nat, header: Text, body: Text)

  /** Only white space between the last newline before `i` and `i`. */
  predicate LinePrefixIsBlank(s: Text, i: nat)
    requires i <= |s|
  {
    i == 0 || s[i - 1] == '\n' || (IsSpace(s[i - 1]) && LinePrefixIsBlank(s, i - 1))
  }

  function MarkerAt(s: Text, keyword: Text, start: nat): (r: Result<Option<Marker>>)
    requires start < |s|
    ensures r.Ok? && r.value.Some? ==> start == r.value.value.start < r.value.value.bodyStart <= |s|
  {
    var keywordEnd := start + |keyword|;
    if !StartsWith(s, start, keyword) || !LinePrefixIsBlank(s, start) then Ok(None)
    else if keywordEnd < |s| && IsIdentifierChar(s[keywordEnd]) then Ok(None)
    else match Trivia(s, keywordEnd)
      case Err(e) => Err(e)
      case Ok(open) =>
        if !(open < |s| && s[open] == '(') then Ok(None)
        else match Match(s, open + 1, 1, open)
          case Err(e) => Err(e)
          case Ok(close) =>
            match Trivia(s, close + 1)
            case Err(e) => Err(e)
            case Ok(semicolon) =>
              if !(semicolon < |s| && s[semicolon] == ';') then Err(MissingSemicolon)
              else Ok(Some(Marker(start, open + 1, semicolon + 1)))
  }

  function Markers(s: Text, keyword: Text, i: nat): Result<seq<Marker>>
    decreases |s| - i
  {
    if i >= |s| then Ok([])
    else match NonCode(s, i)
      case Unclosed(e) => Err(e)
      case Skip(n) => Markers(s, keyword, n)
      case Code =>
        match MarkerAt(s, keyword, i)
        case Err(e) => Err(e)
        case Ok(None) => Markers(s, keyword, i + 1)
        case Ok(Some(m)) =>
          match Markers(s, keyword, m.bodyStart) case Ok(rest) => Ok([m] + rest) case Err(e) => Err(e)
  }

  ghost predicate Ordered(s: Text, markers: seq<Marker>, from: nat) {
    if markers == [] then from <= |s|
    else
      && from <= markers[0].start < markers[0].headerStart < markers[0].bodyStart <= |s|
      && Ordered(s, markers[1..], markers[0].bodyStart)
  }

  /** The block of the first marker; its body runs to the next marker. */
  function BlockOf(s: Text, markers: seq<Marker>): Result<Block>
    requires markers != [] && Ordered(s, markers, markers[0].start)
  {
    var m := markers[0];
    assert Ordered(s, markers[1..], m.bodyStart) && (|markers| > 1 ==> markers[1..][0] == markers[1]);
    var next := if |markers| == 1 then |s| else markers[1].start;
    match Match(s, m.headerStart, 1, m.headerStart - 1)
    case Err(e) => Err(e)
    case Ok(close) => Ok(Block(m.start, m.bodyStart, s[m.headerStart..close], s[m.bodyStart..next]))
  }

  function Blocks(s: Text, markers: seq<Marker>, from: nat): Result<seq<Block>>
    requires Ordered(s, markers, from)
    decreases |markers|
  {
    if markers == [] then Ok([])
    else match BlockOf(s, markers)
      case Err(e) => Err(e)
      case Ok(block) =>
        match Blocks(s, markers[1..], markers[0].bodyStart)
        case Ok(rest) => Ok([block] + rest)
        case Err(e) => Err(e)
  }

  /** What a marker marks: the keyword at the start of a line, trivia, a parenthesised header
      closed where the depth first returns to zero, trivia and a semicolon. */
  ghost predicate Marks(s: Text, keyword: Text, m: Marker) {
    && m.start + |keyword| < m.headerStart < m.bodyStart <= |s|
    && StartsWith(s, m.start, keyword) && LinePrefixIsBlank(s, m.start)
    && AllTrivia(s, m.start + |keyword|, m.headerStart - 1) && s[m.headerStart - 1] == '('
    && Match(s, m.headerStart, 1, m.headerStart - 1).Ok?
    && var close := Match(s, m.headerStart, 1, m.headerStart - 1).value;
    && close + 1 < m.bodyStart && AllTrivia(s, close + 1, m.bodyStart - 1) && s[m.bodyStart - 1] == ';'
  }

  lemma MarkerMarks(s: Text, keyword: Text, i: nat)
    requires i < |s| && MarkerAt(s, keyword, i).Ok? && MarkerAt(s, keyword, i).value.Some?
    ensures Marks(s, keyword, MarkerAt(s, keyword, i).value.value)
  {
    hide Trivia, Match, NonCode, AllTrivia;
    var m := MarkerAt(s, keyword, i).value.value;
    TriviaIsMaximal(s, i + |keyword|);
    TriviaIsMaximal(s, Match(s, m.headerStart, 1, m.headerStart - 1).value + 1);
  }

  /** Markers are ordered and every one marks a header, wherever the scan starts. */
  lemma {:induction false} MarkersAreOrdered(s: Text, keyword: Text, i: nat)
    requires i <= |s| && Markers(s, keyword, i).Ok?
    ensures Ordered(s, Markers(s, keyword, i).value, i)
    ensures forall m :: m in Markers(s, keyword, i).value ==> Marks(s, keyword, m)
    decreases |s| - i
  {
    hide NonCode, MarkerAt;
    if i < |s| {
      if IsCode(s, i) && MarkerAt(s, keyword, i).value.Some? {
        var m := MarkerAt(s, keyword, i).value.value;
        MarkerMarks(s, keyword, i);
        MarkersAreOrdered(s, keyword, m.bodyStart);
        assert Markers(s, keyword, i).value[1..] == Markers(s, keyword, m.bodyStart).value;
        hide Marks;
      } else {
        MarkersAreOrdered(s, keyword, Next(s, i).value);
        assert Markers(s, keyword, i) == Markers(s, keyword, Next(s, i).value);
      }
    }
  }

  function Split(s: Text, keyword: Text): Result<seq<Block>> {
    match Markers(s, keyword, 0)
    case Err(e) => Err(e)
    case Ok(markers) => MarkersAreOrdered(s, keyword, 0); Blocks(s, markers, 0)
  }

  function Extended(done: seq<Marker>, rest: Result<seq<Marker>>): Result<seq<Marker>> {
    match rest case Ok(more) => Ok(done + more) case Err(e) => Err(e)
  }

  method CollectMarkers(s: Text, keyword: Text) returns (r: Result<seq<Marker>>)
    ensures r == Markers(s, keyword, 0)
  {
    hide NonCode, MarkerAt;
    var markers: seq<Marker> := [];
    var index: nat := 0;
    assert Markers(s, keyword, 0).Ok? ==> [] + Markers(s, keyword, 0).value == Markers(s, keyword, 0).value;
    while index < |s|
      invariant Markers(s, keyword, 0) == Extended(markers, Markers(s, keyword, index))
    {
      var lexeme := SkipNonCode(s, index);
      if lexeme.Unclosed? {
        return Err(lexeme.error);
      }
      if lexeme.Skip? {
        index := lexeme.next;
        continue;
      }
      var found := MarkerAt(s, keyword, index);
      if found.Err? {
        return Err(found.error);
      }
      if found.value.Some? {
        var m := found.value.value;
        ghost var rest := Markers(s, keyword, m.bodyStart);
        assert rest.Ok? ==> markers + ([m] + rest.value) == markers + [m] + rest.value;
        index := m.bodyStart;
        markers := markers + [m];
        continue;
      }
      index := index + 1;
    }
    assert markers + [] == markers;
    return Ok(markers);
  }

  function ExtendedBlocks(done: seq<Block>, rest: Result<seq<Block>>): Result<seq<Block>> {
    match rest case Ok(more) => Ok(done + more) case Err(e) => Err(e)
  }

  lemma BlocksOnce(s: Text, markers: seq<Marker>, from: nat, done: seq<Block>)
    requires Ordered(s, markers, from) && markers != []
    ensures Ordered(s, markers[1..], markers[0].bodyStart)
    ensures match BlockOf(s, markers)
            case Err(e) => Blocks(s, markers, from) == Err(e)
            case Ok(block) =>
              ExtendedBlocks(done, Blocks(s, markers, from)) ==
              ExtendedBlocks(done + [block], Blocks(s, markers[1..], markers[0].bodyStart))
  {
    hide BlockOf;
    var later := Blocks(s, markers[1..], markers[0].bodyStart);
    if BlockOf(s, markers).Ok? && later.Ok? {
      Associative(done, [BlockOf(s, markers).value], later.value);
    }
  }

  method ReadBlock(s: Text, markers: seq<Marker>, position: nat) returns (r: Result<Block>)
    requires position < |markers| && Ordered(s, markers[position..], markers[position].start)
    ensures r == BlockOf(s, markers[position..])
  {
    hide Match;
    ghost var rest := markers[position..];
    var m := markers[position];
    assert Ordered(s, rest[1..], m.bodyStart) && (|rest| > 1 ==> rest[1..][0] == rest[1] == markers[position + 1]);
    var next := if position + 1 < |markers| then markers[position + 1].start else |s|;
    var close := FindMatchingParenthesis(s, m.headerStart - 1);
    if close.Err? {
      return Err(close.error);
    }
    return Ok(Block(m.start, m.bodyStart, s[m.headerStart..close.value], s[m.bodyStart..next]));
  }

  method SplitHeaderBlocks(s: Text, keyword: Text) returns (r: Result<seq<Block>>)
    ensures r == Split(s, keyword)
  {
    hide Match, MarkerAt, BlockOf, Markers;
    var collected := CollectMarkers(s, keyword);
    if collected.Err? {
      return Err(collected.error);
    }
    var markers := collected.value;
    MarkersAreOrdered(s, keyword, 0);
    var blocks: seq<Block> := [];
    var position := 0;
    ghost var from, all := 0, Blocks(s, markers, 0);
    assert markers[0..] == markers && (all.Ok? ==> [] + all.value == all.value);
    while position < |markers|
      invariant position <= |markers| && Ordered(s, markers[position..], from)
      invariant all == ExtendedBlocks(blocks, Blocks(s, markers[position..], from))
    {
      assert markers[position..][0] == markers[position] && markers[position..][1..] == markers[position + 1..];
      BlocksOnce(s, markers[position..], from, blocks);
      var block := ReadBlock(s, markers, position);
      if block.Err? {
        return Err(block.error);
      }
      blocks := blocks + [block.value];
      from := markers[position].bodyStart;
      position := position + 1;
    }
    assert markers[position..] == [] && blocks + [] == blocks;
    return Ok(blocks);
  }

  /** The blocks written out again: each header as authored, then its body. */
  function Rejoined(s: Text, blocks: seq<Block>): Text {
    if blocks == [] then []
    else Authored(s, blocks[0]) + blocks[0].body + Rejoined(s, blocks[1..])
  }

  function Authored(s: Text, b: Block): Text {
    if b.start <= b.bodyStart <= |s| then s[b.start..b.bodyStart] else []
  }

  lemma ThreePieces(s: Text, i: nat, j: nat, k: nat)
    requires i <= j <= k <= |s|
    ensures s[i..j] + s[j..k] + s[k..] == s[i..]
  {
  }

  lemma MarkedHeader(s: Text, keyword: Text, m: Marker)
    requires Marks(s, keyword, m)
    ensures 0 < m.headerStart && Match(s, m.headerStart, 1, m.headerStart - 1).Ok?
  {
  }

  lemma BlockOfMarker(s: Text, markers: seq<Marker>)
    requires markers != [] && Ordered(s, markers, markers[0].start)
    requires Match(s, markers[0].headerStart, 1, markers[0].headerStart - 1).Ok?
    ensures BlockOf(s, markers).Ok?
    ensures var block, m := BlockOf(s, markers).value, markers[0];
            var next := if |markers| == 1 then |s| else markers[1].start;
            && block.start == m.start && block.bodyStart == m.bodyStart && m.start <= next <= |s|
            && Authored(s, block) + block.body + s[next..] == s[m.start..]
  {
    hide Match;
    var m := markers[0];
    assert Ordered(s, markers[1..], m.bodyStart) && (|markers| > 1 ==> markers[1..][0] == markers[1]);
    ThreePieces(s, m.start, m.bodyStart, if |markers| == 1 then |s| else markers[1].start);
  }

  lemma {:induction false} BlocksTile(s: Text, keyword: Text, markers: seq<Marker>, from: nat)
    requires Ordered(s, markers, from) && forall m :: m in markers ==> Marks(s, keyword, m)
    ensures Blocks(s, markers, from).Ok?
    ensures var blocks := Blocks(s, markers, from).value;
            && |blocks| == |markers|
            && (forall k :: 0 <= k < |blocks| ==>
                  blocks[k].start == markers[k].start && blocks[k].bodyStart == markers[k].bodyStart)
            && (markers != [] ==> markers[0].start <= |s| && Rejoined(s, blocks) == s[markers[0].start..])
    decreases |markers|
  {
    hide Marks, BlockOf, Authored, Match;
    if markers != [] {
      var m, rest := markers[0], markers[1..];
      MarkedHeader(s, keyword, m);
      BlockOfMarker(s, markers);
      BlocksTile(s, keyword, rest, m.bodyStart);
      var block, later := BlockOf(s, markers).value, Blocks(s, rest, m.bodyStart).value;
      var blocks := Blocks(s, markers, from).value;
      assert blocks == [block] + later && blocks[1..] == later;
      if rest == [] {
        assert s[|s|..] == [];
      } else {
        assert rest[0] == markers[1];
      }
    }
  }

  /** Once the markers are found the second parenthesis pass cannot fail, and the headers and
      bodies tile the text from the first header to the end. */
  lemma HeadersTileTheText(s: Text, keyword: Text)
    requires Markers(s, keyword, 0).Ok?
    ensures Split(s, keyword).Ok?
    ensures var markers, blocks := Markers(s, keyword, 0).value, Split(s, keyword).value;
            && |blocks| == |markers|
            && (forall k :: 0 <= k < |blocks| ==> Marks(s, keyword, markers[k]) && blocks[k].start == markers[k].start)
            && (blocks != [] ==> blocks[0].start <= |s| && s == s[..blocks[0].start] + Rejoined(s, blocks))
  {
    hide Marks, Blocks;
    MarkersAreOrdered(s, keyword, 0);
    var markers := Markers(s, keyword, 0).value;
    BlocksTile(s, keyword, markers, 0);
    assert forall k :: 0 <= k < |markers| ==> markers[k] in markers;
    if markers != [] {
      assert s == s[..markers[0].start] + s[markers[0].start..];
    }
  }
}
