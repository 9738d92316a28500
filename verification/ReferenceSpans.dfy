/** Reference spans tile the authored text, so substitution touches nothing else
    (crates/sqltide-sqltext/src/sql_scan/references.rs, and `substituted` of
    crates/sqltide-sqlanalysis/src/relations.rs). */
module ReferenceSpans {
  import opened Chars
  import opened Lexing
  import opened Scanners
  import opened References

  lemma {:induction false} WalkPlain(s: Text, i: nat, j: nat)
    requires i <= j <= |s| && forall k :: i <= k < j ==> IsPlain(s[k])
    ensures Walk(s, i, j)
    decreases j - i
  {
    if i < j {
      PlainIsCode(s, i);
      WalkPlain(s, i + 1, j);
    }
  }

  lemma FunctionIsPlain(s: Text, i: nat, relation: RelationType)
    requires StartsWith(s, i, FunctionName(relation))
    ensures i + |FunctionName(relation)| <= |s|
    ensures forall k :: i <= k < i + |FunctionName(relation)| ==> IsPlain(s[k]) && IsIdentifierChar(s[k])
  {
    forall k | i <= k < i + |FunctionName(relation)| ensures s[k] == FunctionName(relation)[k - i] {
      StartsWithAt(s, i, FunctionName(relation), k - i);
    }
  }

  /** A reference call spans a stretch of the chain. */
  lemma ReferenceWalk(s: Text, i: nat)
    requires i < |s| && ReferenceAt(s, i).Ok? && ReferenceAt(s, i).value.Some?
    ensures Walk(s, i, ReferenceAt(s, i).value.value.end)
  {
    hide Arguments, ReadArguments, Trivia, Match, StartsWith, NonCode;
    var relation := FunctionAt(s, i).value;
    var a := i + |FunctionName(relation)|;
    FunctionIsPlain(s, i, relation);
    WalkPlain(s, i, a);
    TriviaIsMaximal(s, a);
    var open := Trivia(s, a).value;
    PlainIsCode(s, open);
    MatchWalk(s, open + 1, 1, open);
    var close := Match(s, open + 1, 1, open).value;
    PlainIsCode(s, close);
    WalkPlain(s, open, open + 1);
    WalkPlain(s, close, close + 1);
    WalkTransitive(s, i, a, open);
    WalkTransitive(s, i, open, open + 1);
    WalkTransitive(s, i, open + 1, close);
    WalkTransitive(s, i, close, close + 1);
  }

  /** Spans in order from `from` on, not overlapping, within the text. */
  ghost predicate Ordered(s: Text, refs: seq<SqlReference>, from: nat) {
    if refs == [] then from <= |s|
    else from <= refs[0].start <= refs[0].end <= |s| && Ordered(s, refs[1..], refs[0].end)
  }

  /** Every span starts and ends on the chain from `i`, and is what `ReferenceAt` reads. */
  ghost predicate OnChain(s: Text, refs: seq<SqlReference>, i: nat) {
    forall r :: r in refs ==>
      Walk(s, i, r.start) && Walk(s, i, r.end) && r.start < |s| && ReferenceAt(s, r.start) == Ok(Some(r))
  }

  /** Extracted spans are increasing, disjoint, not empty and on code boundaries. */
  lemma {:induction false} SpansAreOrdered(s: Text, i: nat)
    requires i <= |s| && Refs(s, i).Ok?
    ensures Ordered(s, Refs(s, i).value, i)
    ensures OnChain(s, Refs(s, i).value, i)
    ensures forall r :: r in Refs(s, i).value ==> r.start < r.end
    decreases |s| - i
  {
    hide NonCode, ReferenceAt;
    if i < |s| {
      if IsCode(s, i) && ReferenceAt(s, i).value.Some? {
        var r := ReferenceAt(s, i).value.value;
        ReferenceWalk(s, i);
        SpansAreOrdered(s, r.end);
        var rest := Refs(s, r.end).value;
        assert Refs(s, i).value[1..] == rest;
        forall x | x in Refs(s, i).value && x != r
          ensures Walk(s, i, x.start) && Walk(s, i, x.end)
        {
          assert x in rest;
          WalkTransitive(s, i, r.end, x.start);
          WalkTransitive(s, i, r.end, x.end);
        }
      } else {
        var n := Next(s, i).value;
        SpansAreOrdered(s, n);
        var refs := Refs(s, n).value;
        assert Refs(s, i).value == refs;
        WalkAfter(s, i);
        forall x | x in refs ensures Walk(s, i, x.start) && Walk(s, i, x.end) {
          WalkForward(s, n, x.start);
          WalkForward(s, n, x.end);
        }
        assert Ordered(s, refs, n) ==> Ordered(s, refs, i);
      }
    }
  }

  // ------------------------------------------------------------------------------------------
  // Substitution

  /** The text from `cursor` on, with each span replaced by its text. */
  function Splice(s: Text, refs: seq<SqlReference>, texts: seq<Text>, cursor: nat): Text
    requires |texts| == |refs| && Ordered(s, refs, cursor)
    decreases |refs|
  {
    if refs == [] then s[cursor..]
    else s[cursor..refs[0].start] + texts[0] + Splice(s, refs[1..], texts[1..], refs[0].end)
  }

  function Rendered(refs: seq<SqlReference>, render: Text -> Option<Text>): Option<seq<Text>> {
    if refs == [] then Some([])
    else match render(refs[0].name)
      case None => None
      case Some(text) =>
        match Rendered(refs[1..], render) case Some(rest) => Some([text] + rest) case None => None
  }

  lemma {:induction false} RenderedLength(refs: seq<SqlReference>, render: Text -> Option<Text>)
    requires Rendered(refs, render).Some?
    ensures |Rendered(refs, render).value| == |refs|
  {
    if refs != [] {
      RenderedLength(refs[1..], render);
    }
  }

  function Substitution(s: Text, refs: seq<SqlReference>, render: Text -> Option<Text>, cursor: nat): Option<Text>
    requires Ordered(s, refs, cursor)
  {
    match Rendered(refs, render)
    case None => None
    case Some(texts) => RenderedLength(refs, render); Some(Splice(s, refs, texts, cursor))
  }

  lemma SubstitutionOnce(s: Text, refs: seq<SqlReference>, render: Text -> Option<Text>, cursor: nat)
    requires Ordered(s, refs, cursor) && refs != []
    ensures var text, later := render(refs[0].name), Substitution(s, refs[1..], render, refs[0].end);
            Substitution(s, refs, render, cursor) ==
            if text.None? || later.None? then None
            else Some(s[cursor..refs[0].start] + text.value + later.value)
  {
    if Rendered(refs, render).Some? {
      RenderedLength(refs, render);
      assert Rendered(refs, render).value[1..] == Rendered(refs[1..], render).value;
    }
  }

  lemma SubstitutionEnds(s: Text, render: Text -> Option<Text>, cursor: nat)
    requires cursor <= |s|
    ensures Substitution(s, [], render, cursor) == Some(s[cursor..])
  {
  }

  /** `substituted`, with its clamps: on ordered spans they never bind. */
  method Substituted(s: Text, refs: seq<SqlReference>, render: Text -> Option<Text>) returns (r: Option<Text>)
    requires Ordered(s, refs, 0)
    ensures r == Substitution(s, refs, render, 0)
  {
    hide Substitution;
    var pieces: Text := [];
    var cursor: nat := 0;
    var k := 0;
    assert refs[0..] == refs;
    ghost var all := Substitution(s, refs, render, 0);
    assert all.Some? ==> pieces + all.value == all.value;
    while k < |refs|
      invariant k <= |refs| && cursor <= |s| && Ordered(s, refs[k..], cursor)
      invariant var rest := Substitution(s, refs[k..], render, cursor);
                all == if rest.Some? then Some(pieces + rest.value) else None
    {
      var reference := refs[k];
      assert refs[k..][0] == reference && refs[k..][1..] == refs[k + 1..];
      SubstitutionOnce(s, refs[k..], render, cursor);
      var text := render(reference.name);
      if text.None? {
        return None;
      }
      ghost var before, later := pieces, Substitution(s, refs[k + 1..], render, reference.end);
      pieces := pieces + s[Min(cursor, |s|)..Min(reference.start, |s|)];
      pieces := pieces + text.value;
      if later.Some? {
        SplicedPieces(before, s[cursor..reference.start], text.value, later.value);
      }
      cursor := reference.end;
      k := k + 1;
    }
    SubstitutionEnds(s, render, cursor);
    pieces := pieces + s[Min(cursor, |s|)..];
    return Some(pieces);
  }

  /** Where the replacements ended up in the output. */
  function Moved(s: Text, refs: seq<SqlReference>, texts: seq<Text>, cursor: nat, at: nat): (r: seq<SqlReference>)
    requires |texts| == |refs| && Ordered(s, refs, cursor)
    ensures |r| == |refs|
    decreases |refs|
  {
    if refs == [] then []
    else
      var start := at + refs[0].start - cursor;
      var end := start + |texts[0]|;
      [refs[0].(start := start, end := end)] + Moved(s, refs[1..], texts[1..], refs[0].end, end)
  }

  function Originals(s: Text, refs: seq<SqlReference>, from: nat): (r: seq<Text>)
    requires Ordered(s, refs, from)
    ensures |r| == |refs|
    decreases |refs|
  {
    if refs == [] then [] else [s[refs[0].start..refs[0].end]] + Originals(s, refs[1..], refs[0].end)
  }

  /** What the moved spans hold is what was put there. */
  lemma {:induction false} MovedHoldTexts(s: Text, refs: seq<SqlReference>, texts: seq<Text>, cursor: nat, before: Text)
    requires |texts| == |refs| && Ordered(s, refs, cursor)
    ensures var out := before + Splice(s, refs, texts, cursor);
            var moved := Moved(s, refs, texts, cursor, |before|);
            Ordered(out, moved, |before|) && Originals(out, moved, |before|) == texts
    decreases |refs|
  {
    if refs != [] {
      var r, text, rest := refs[0], texts[0], Splice(s, refs[1..], texts[1..], refs[0].end);
      var gap := s[cursor..r.start];
      SplicedPieces(before, gap, text, rest);
      MovedHoldTexts(s, refs[1..], texts[1..], r.end, before + gap + text);
      var moved := Moved(s, refs, texts, cursor, |before|);
      assert moved[1..] == Moved(s, refs[1..], texts[1..], r.end, |before| + |gap| + |text|);
      assert texts == [text] + texts[1..];
    }
  }

  lemma MovedOnce(s: Text, refs: seq<SqlReference>, texts: seq<Text>, cursor: nat, at: nat)
    requires |texts| == |refs| && Ordered(s, refs, cursor) && refs != []
    ensures cursor <= refs[0].start <= refs[0].end <= |s| && Ordered(s, refs[1..], refs[0].end)
    ensures var moved, start := Moved(s, refs, texts, cursor, at), at + refs[0].start - cursor;
            && moved[0].start == start && moved[0].end == start + |texts[0]|
            && moved[1..] == Moved(s, refs[1..], texts[1..], refs[0].end, start + |texts[0]|)
    ensures Originals(s, refs, cursor)[0] == s[refs[0].start..refs[0].end]
    ensures Originals(s, refs, cursor)[1..] == Originals(s, refs[1..], refs[0].end)
    ensures Splice(s, refs, texts, cursor) ==
            s[cursor..refs[0].start] + texts[0] + Splice(s, refs[1..], texts[1..], refs[0].end)
  {
  }

  lemma SpliceOnce(s: Text, refs: seq<SqlReference>, texts: seq<Text>, cursor: nat)
    requires |texts| == |refs| && Ordered(s, refs, cursor) && refs != []
    ensures cursor <= refs[0].start <= refs[0].end <= |s| && Ordered(s, refs[1..], refs[0].end)
    ensures Splice(s, refs, texts, cursor) ==
            s[cursor..refs[0].start] + texts[0] + Splice(s, refs[1..], texts[1..], refs[0].end)
  {
  }

  /** Putting the original spans back where the replacements are restores the authored text:
      nothing outside the spans was changed, moved or lost. */
  lemma {:induction false} SpliceIsReversible(s: Text, refs: seq<SqlReference>, texts: seq<Text>, cursor: nat, before: Text)
    requires |texts| == |refs| && Ordered(s, refs, cursor)
    ensures var out := before + Splice(s, refs, texts, cursor);
            var moved := Moved(s, refs, texts, cursor, |before|);
            && Ordered(out, moved, |before|)
            && Splice(out, moved, Originals(s, refs, cursor), |before|) == s[cursor..]
    decreases |refs|
  {
    hide Splice, Moved, Originals, Ordered;
    MovedHoldTexts(s, refs, texts, cursor, before);
    if refs == [] {
      NothingMoved(s, cursor, before);
      assert texts == [];
    } else {
      MovedOnce(s, refs, texts, cursor, |before|);
      var r, text, rest := refs[0], texts[0], Splice(s, refs[1..], texts[1..], refs[0].end);
      var gap := s[cursor..r.start];
      var out := before + Splice(s, refs, texts, cursor);
      SplicedPieces(before, gap, text, rest);
      SpliceIsReversible(s, refs[1..], texts[1..], r.end, before + gap + text);
      SpliceOnce(out, Moved(s, refs, texts, cursor, |before|), Originals(s, refs, cursor), |before|);
      SliceInThree(s, cursor, r.start, r.end);
    }
  }

  lemma NothingMoved(s: Text, cursor: nat, before: Text)
    requires Ordered(s, [], cursor)
    ensures cursor <= |s|
    ensures var out := before + Splice(s, [], [], cursor);
            var moved := Moved(s, [], [], cursor, |before|);
            && Ordered(out, moved, |before|)
            && Splice(out, moved, Originals(s, [], cursor), |before|) == s[cursor..]
  {
    SuffixOf(before, s[cursor..]);
  }

  lemma SuffixOf(a: Text, b: Text)
    ensures (a + b)[|a|..] == b
  {
  }

  lemma SplicedPieces(before: Text, gap: Text, text: Text, rest: Text)
    ensures var out := before + (gap + text + rest);
            var n := |before| + |gap|;
            && out == before + gap + text + rest
            && out[|before|..n] == gap && out[n..n + |text|] == text
  {
  }

  lemma SliceInThree(s: Text, i: nat, j: nat, k: nat)
    requires i <= j <= k <= |s|
    ensures s[i..j] + s[j..k] + s[k..] == s[i..]
  {
  }
}
