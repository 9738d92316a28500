/** What a second extraction finds after every reference was replaced by its target. */
module ReferenceRescan {
  import opened Chars
  import opened Lexing
  import opened Agreement
  import opened Scanners
  import opened References
  import opened ReferenceSpans

  /** Identifiers joined by dots, as a resolved relation is written. */
  predicate IsDotted(target: Text) {
    && target != [] && IsIdentifierStart(target[0]) && IsIdentifierChar(target[|target| - 1])
    && forall k :: 0 <= k < |target| ==> IsIdentifierChar(target[k]) || target[k] == '.'
  }

  /** The identifier characters a text ends with. */
  function LastPart(t: Text): Text {
    if t == [] || !IsIdentifierChar(t[|t| - 1]) then []
    else LastPart(t[..|t| - 1]) + [t[|t| - 1]]
  }

  lemma {:induction false} LastPartEnds(t: Text)
    ensures var n := |LastPart(t)|;
            && n <= |t| && LastPart(t) == t[|t| - n..]
            && (forall k :: |t| - n <= k < |t| ==> IsIdentifierChar(t[k]))
            && (n < |t| ==> !IsIdentifierChar(t[|t| - n - 1]))
  {
    hide IsIdentifierChar;
    if t != [] && IsIdentifierChar(t[|t| - 1]) {
      LastPartEnds(t[..|t| - 1]);
    }
  }

  lemma LastPartStart(t: Text, m: nat)
    requires m < |t| && (forall k :: m <= k < |t| ==> IsIdentifierChar(t[k]))
    requires m == 0 || !IsIdentifierChar(t[m - 1])
    ensures |LastPart(t)| == |t| - m
  {
    hide IsIdentifierChar;
    LastPartEnds(t);
  }

  /** In `out` a replacement `target` ends at `q`.  Its last part, with whatever identifier
      characters follow it, spells a reference function that is then called. */
  predicate JointCalls(out: Text, q: nat, target: Text)
    requires |LastPart(target)| <= q <= |out|
  {
    var b := q - |LastPart(target)|;
    FunctionAt(out, b).Some? && Bounded(out, b) &&
    var e := b + |FunctionName(FunctionAt(out, b).value)|;
    q <= e <= |out| && WordEnd(out, q) == e &&
    (Trivia(out, e).Err? || (Trivia(out, e).value < |out| && out[Trivia(out, e).value] == '('))
  }

  /** Whether the text at `i` reads as a called reference function. */
  predicate Calls(s: Text, i: nat)
    requires i <= |s|
  {
    FunctionAt(s, i).Some? && Bounded(s, i) &&
    var e := i + |FunctionName(FunctionAt(s, i).value)|;
    Trivia(s, e).Err? || (Trivia(s, e).value < |s| && s[Trivia(s, e).value] == '(')
  }

  lemma CallsIsReference(s: Text, i: nat)
    requires i < |s|
    ensures Calls(s, i) <==> ReferenceAt(s, i) != Ok(None)
  {
    hide Match, Trivia, Arguments, ReadArguments, StartsWith;
  }

  lemma RefsStep(s: Text, i: nat)
    requires i < |s| && IsCode(s, i)
    ensures Calls(s, i) ==> Refs(s, i) != Ok([])
    ensures !Calls(s, i) ==> Refs(s, i) == Refs(s, i + 1)
  {
    hide NonCode, ReferenceAt, Calls;
    CallsIsReference(s, i);
  }

  lemma NotFollowed(s: Text, e: nat)
    requires e < |s| && (IsIdentifierChar(s[e]) || s[e] == '.')
    ensures Trivia(s, e) == Ok(e) && s[e] != '('
  {
    TriviaStopsAt(s, e);
  }

  /** Inside a replacement, only its last part can start a call. */
  lemma CallsInTarget(out: Text, p: nat, target: Text, m: nat)
    requires IsDotted(target) && m < |target| && StartsWith(out, p, target)
    ensures |LastPart(target)| <= |target| && p + |target| <= |out|
    ensures Calls(out, p + m) <==>
            m == |target| - |LastPart(target)| && JointCalls(out, p + |target|, target)
  {
    hide Trivia, StartsWith, FunctionName, IsIdentifierStart, IsIdentifierChar, LastPart, WordEnd;
    LastPartEnds(target);
    var q, i := p + |target|, p + m;
    StartsWithAt(out, p, target, |target| - 1);
    forall k | 0 <= k < |target| ensures out[p + k] == target[k] {
      StartsWithAt(out, p, target, k);
    }
    if FunctionAt(out, i).Some? {
      var relation := FunctionAt(out, i).value;
      var e := i + |FunctionName(relation)|;
      FunctionHere(out, i);
      FunctionIsPlain(out, i, relation);
      DotIsNoIdentifier();
      if m > 0 {
        assert out[i - 1] == target[m - 1];
      }
      if e < q {
        assert out[e] == target[e - p];
        NotFollowed(out, e);
        if m == |target| - |LastPart(target)| {
          assert q - |LastPart(target)| == i;
        }
      } else {
        assert forall k :: m <= k < |target| ==> IsIdentifierChar(target[k]) by {
          forall k | m <= k < |target| ensures IsIdentifierChar(target[k]) {
            assert out[p + k] == target[k];
          }
        }
        if Bounded(out, i) {
          LastPartStart(target, m);
        }
        WordAcross(out, q, e);
        if e < |out| && IsIdentifierChar(out[e]) {
          NotFollowed(out, e);
        }
      }
    }
  }

  lemma FunctionHere(s: Text, i: nat)
    requires FunctionAt(s, i).Some?
    ensures StartsWith(s, i, FunctionName(FunctionAt(s, i).value))
  {
  }

  lemma DotIsNoIdentifier()
    ensures !IsIdentifierChar('.')
  {
  }

  lemma WordAcross(s: Text, q: nat, e: nat)
    requires q <= e <= |s| && forall k :: q <= k < e ==> IsIdentifierChar(s[k])
    ensures WordEnd(s, q) == e <==> (e < |s| ==> !IsIdentifierChar(s[e]))
  {
    hide IsIdentifierChar;
    WordEndFacts(s, q);
    if e < |s| ==> !IsIdentifierChar(s[e]) {
      WordEndsAt(s, q, e);
    }
  }

  lemma {:induction false} ScanTarget(out: Text, p: nat, target: Text, m: nat)
    requires IsDotted(target) && m <= |target| && StartsWith(out, p, target)
    ensures |LastPart(target)| <= |target| && p + |target| <= |out|
    ensures var b, q := |target| - |LastPart(target)|, p + |target|;
            Refs(out, p + m) == Ok([]) <==> Refs(out, q) == Ok([]) && !(m <= b && JointCalls(out, q, target))
    decreases |target| - m
  {
    hide Refs, Calls, JointCalls, NonCode, IsIdentifierChar, StartsWith;
    LastPartEnds(target);
    LastPartNotEmpty(target);
    StartsWithAt(out, p, target, |target| - 1);
    if m < |target| {
      ScanTarget(out, p, target, m + 1);
      CallsInTarget(out, p, target, m);
      StartsWithAt(out, p, target, m);
      DottedIsPlain(target, m);
      PlainIsCode(out, p + m);
      RefsStep(out, p + m);
    }
  }

  lemma LastPartNotEmpty(target: Text)
    requires IsDotted(target)
    ensures 0 < |LastPart(target)| <= |target|
  {
    LastPartEnds(target);
  }

  lemma DottedIsPlain(target: Text, m: nat)
    requires IsDotted(target) && m < |target|
    ensures IsPlain(target[m])
  {
  }

  // ------------------------------------------------------------------------------------------
  // The unchanged text between two references

  /** Scans of a text and of its suffix correspond. */
  lemma Suffix(s: Text, c: nat, i: nat)
    requires c + i < |s|
    ensures var g := s[c..];
            && NonCode(s, c + i) == ShiftLexeme(NonCode(g, i), c)
            && Next(s, c + i) == ShiftIndex(Next(g, i), c)
            && FunctionAt(s, c + i) == FunctionAt(g, i)
  {
    hide NonCode, Next;
    var g := s[c..];
    NonCodeAgrees(g, s, c, 0, |g|, i);
    NextAgrees(g, s, c, 0, |g|, i);
    SuffixStarts(s, c, i, SOURCE_FUNCTION);
    SuffixStarts(s, c, i, REF_FUNCTION);
  }

  lemma SuffixStarts(s: Text, c: nat, i: nat, pattern: Text)
    requires c + i <= |s|
    ensures StartsWith(s, c + i, pattern) == StartsWith(s[c..], i, pattern)
  {
    if c + i + |pattern| <= |s| {
      assert s[c..][i..i + |pattern|] == s[c + i..c + i + |pattern|];
    }
  }

  lemma {:induction false} SuffixWalk(s: Text, c: nat, i: nat, j: nat)
    requires c + i <= |s| && Walk(s, c + i, c + j)
    ensures Walk(s[c..], i, j)
    decreases |s| - i
  {
    hide NonCode, Next;
    if i < j {
      Suffix(s, c, i);
      SuffixWalk(s, c, Next(s[c..], i).value, j);
    }
  }

  /** A gap `g[..hi]` copied to `out` at `pos`; both go on with an identifier character. */
  ghost predicate Copied(g: Text, out: Text, pos: nat, hi: nat) {
    && Agree(g, out, pos, 0, hi)
    && (Tail(g, out, pos, hi) ||
        (hi < |g| && hi + pos < |out| && IsIdentifierChar(g[hi]) && IsIdentifierChar(out[hi + pos])))
  }

  lemma CopiedNext(g: Text, out: Text, pos: nat, hi: nat, i: nat)
    requires Copied(g, out, pos, hi) && i < hi && Next(g, i).Ok? && Next(g, i).value <= hi
    ensures NonCode(out, i + pos) == ShiftLexeme(NonCode(g, i), pos)
    ensures Next(out, i + pos) == Ok(Next(g, i).value + pos)
    ensures IsTrivia(out, i + pos) == IsTrivia(g, i)
  {
    hide NonCode, Next, IsTrivia, Cut;
    if !Tail(g, out, pos, hi) {
      IdentifierIsPlain(g[hi]);
      IdentifierIsPlain(out[hi + pos]);
      CutAt(g, out, pos, hi, i);
      TriviaHeadAgreesAt(g, out, pos, 0, hi, i);
    } else {
      TriviaHeadAgrees(g, out, pos, 0, hi, i);
    }
    NonCodeAgrees(g, out, pos, 0, hi, i);
    NextAgrees(g, out, pos, 0, hi, i);
  }

  lemma {:induction false} CopiedTrivia(g: Text, out: Text, pos: nat, hi: nat, i: nat)
    requires Copied(g, out, pos, hi) && i <= hi && Walk(g, i, hi)
    ensures Trivia(g, i).Ok? && Trivia(g, i).value <= hi
    ensures Trivia(out, i + pos) == Ok(Trivia(g, i).value + pos)
    decreases |g| - i
  {
    hide NonCode, Next, IsTrivia, Copied, Trivia;
    if i == hi {
      CopiedEnd(g, out, pos, hi);
    } else {
      CopiedBounds(g, out, pos, hi);
      var n := Next(g, i).value;
      WalkForward(g, n, hi);
      CopiedNext(g, out, pos, hi, i);
      TriviaStep(g, i);
      TriviaStep(out, i + pos);
      if IsTrivia(g, i) {
        CopiedTrivia(g, out, pos, hi, n);
      }
    }
  }

  lemma CopiedBounds(g: Text, out: Text, pos: nat, hi: nat)
    requires Copied(g, out, pos, hi)
    ensures hi <= |g| && hi + pos <= |out|
    ensures forall k {:trigger g[k]} :: 0 <= k < hi ==> g[k] == out[k + pos]
  {
  }

  lemma CopiedEnd(g: Text, out: Text, pos: nat, hi: nat)
    requires Copied(g, out, pos, hi)
    ensures Trivia(g, hi) == Ok(hi) && Trivia(out, hi + pos) == Ok(hi + pos)
    ensures hi < |g| ==> hi + pos < |out| && g[hi] != '(' && out[hi + pos] != '('
    ensures hi == |g| ==> hi + pos == |out|
  {
    if hi < |g| && hi + pos < |out| && IsIdentifierChar(g[hi]) && IsIdentifierChar(out[hi + pos]) {
      IdentifierIsPlain(g[hi]);
      IdentifierIsPlain(out[hi + pos]);
      TriviaStopsAt(g, hi);
      TriviaStopsAt(out, hi + pos);
    }
  }

  /** A function name in the copied gap ends inside it, unless the gap ends in an identifier. */
  lemma CopiedFunction(g: Text, out: Text, pos: nat, hi: nat, i: nat)
    requires Copied(g, out, pos, hi) && i < hi
    requires hi < |g| ==> !IsIdentifierChar(g[hi - 1])
    ensures FunctionAt(out, i + pos) == FunctionAt(g, i)
    ensures FunctionAt(g, i).Some? ==> i + |FunctionName(FunctionAt(g, i).value)| <= hi
  {
    CopiedPattern(g, out, pos, hi, i, Source);
    CopiedPattern(g, out, pos, hi, i, Ref);
  }

  lemma CopiedPattern(g: Text, out: Text, pos: nat, hi: nat, i: nat, relation: RelationType)
    requires Copied(g, out, pos, hi) && i < hi
    requires hi < |g| ==> !IsIdentifierChar(g[hi - 1])
    ensures var pattern := FunctionName(relation);
            && StartsWith(out, i + pos, pattern) == StartsWith(g, i, pattern)
            && (StartsWith(g, i, pattern) ==> i + |pattern| <= hi)
  {
    hide FunctionName, IsIdentifierChar;
    var pattern := FunctionName(relation);
    CopiedBounds(g, out, pos, hi);
    if i + |pattern| <= hi {
      assert out[i + pos..i + pos + |pattern|] == g[i..i + |pattern|];
    } else if hi < |g| {
      if StartsWith(g, i, pattern) {
        FunctionIsPlain(g, i, relation);
      }
      if StartsWith(out, i + pos, pattern) {
        FunctionIsPlain(out, i + pos, relation);
      }
    }
  }

  /** The rest of an extraction starts where its first reference ends. */
  lemma {:induction false} RefsTail(s: Text, i: nat)
    requires i <= |s| && Refs(s, i).Ok? && Refs(s, i).value != []
    ensures var r := Refs(s, i).value[0];
            && i <= r.start < r.end <= |s| && Refs(s, r.end) == Ok(Refs(s, i).value[1..])
            && Walk(s, i, r.start) && ReferenceAt(s, r.start) == Ok(Some(r))
    decreases |s| - i
  {
    hide NonCode, ReferenceAt;
    if !(IsCode(s, i) && ReferenceAt(s, i).value.Some?) {
      RefsTail(s, Next(s, i).value);
    }
  }

  lemma {:induction false} RefsNone(s: Text, i: nat)
    requires i <= |s| && Refs(s, i) == Ok([])
    ensures Walk(s, i, |s|)
    decreases |s| - i
  {
    hide NonCode, ReferenceAt;
    if i < |s| {
      RefsNone(s, Next(s, i).value);
    }
  }

  /** The gap before the first reference, or the whole rest when there is none. */
  function GapEnd(s: Text, refs: seq<SqlReference>): nat {
    if refs == [] then |s| else refs[0].start
  }

  /** What comes before the copied text: nothing in either text, or the end of a replacement. */
  ghost predicate Joined(out: Text, pos: nat, c: nat) {
    pos <= |out| && (if pos == 0 then c == 0 else IsIdentifierChar(out[pos - 1]))
  }

  lemma GapHasNoCalls(out: Text, pos: nat, s: Text, c: nat, hi: nat, i: nat)
    requires c + i < |s| && i < hi && Copied(s[c..], out, pos, hi) && Joined(out, pos, c)
    requires hi < |s[c..]| ==> !IsIdentifierChar(s[c..][hi - 1])
    requires Walk(s[c..], i, hi) && !Calls(s, c + i)
    ensures i + pos < |out| && !Calls(out, i + pos)
  {
    hide NonCode, Next, Trivia, Copied, StartsWith, FunctionName, FunctionAt, IsIdentifierChar;
    var g := s[c..];
    CopiedBounds(g, out, pos, hi);
    CopiedFunction(g, out, pos, hi, i);
    Suffix(s, c, i);
    if FunctionAt(g, i).Some? && Bounded(out, i + pos) {
      if i > 0 {
        assert g[i - 1] == out[i - 1 + pos] == s[c + i - 1];
      }
      var relation := FunctionAt(g, i).value;
      var e := i + |FunctionName(relation)|;
      FunctionHere(g, i);
      FunctionIsPlain(g, i, relation);
      WalkPlain(g, i, e);
      WalkThrough(g, i, e, hi);
      CopiedTrivia(g, out, pos, hi, e);
      TriviaAgrees(g, s, c, 0, |g|, e);
      CopiedEnd(g, out, pos, hi);
    }
  }

  /** A second scan passes over the unchanged text without finding anything. */
  lemma {:induction false} ScanGap(out: Text, pos: nat, s: Text, c: nat, refs: seq<SqlReference>, i: nat)
    requires c + i <= GapEnd(s, refs) <= |s| && Refs(s, c + i) == Ok(refs)
    requires Copied(s[c..], out, pos, GapEnd(s, refs) - c) && Joined(out, pos, c)
    requires refs != [] && c < refs[0].start ==> !IsIdentifierChar(s[refs[0].start - 1])
    requires Walk(s[c..], i, GapEnd(s, refs) - c)
    ensures Refs(out, i + pos) == Refs(out, GapEnd(s, refs) - c + pos)
    decreases |s| - i
  {
    hide NonCode, Next, ReferenceAt, Copied, IsIdentifierChar, Joined, Calls;
    var g, hi := s[c..], GapEnd(s, refs) - c;
    if i < hi {
      CopiedBounds(g, out, pos, hi);
      var n := Next(g, i).value;
      WalkForward(g, n, hi);
      CopiedNext(g, out, pos, hi, i);
      Suffix(s, c, i);
      NextUnfolds(g, i);
      NextUnfolds(s, c + i);
      if IsCode(s, c + i) {
        CallsIsReference(s, c + i);
        GapHasNoCalls(out, pos, s, c, hi, i);
        RefsStep(s, c + i);
        RefsStep(out, i + pos);
      }
      ScanGap(out, pos, s, c, refs, n);
    }
  }

  lemma NextUnfolds(s: Text, i: nat)
    requires i < |s|
    ensures NonCode(s, i).Code? ==> Next(s, i) == Ok(i + 1)
    ensures NonCode(s, i).Skip? ==> Next(s, i) == Ok(NonCode(s, i).next)
    ensures NonCode(s, i).Unclosed? ==> Next(s, i).Err?
  {
  }

  // ------------------------------------------------------------------------------------------
  // The theorems

  ghost predicate AllDotted(texts: seq<Text>) {
    forall k :: 0 <= k < |texts| ==> IsDotted(texts[k])
  }

  /** No replacement, where it ended up, turns into a called reference function. */
  ghost predicate NoJointCalls(out: Text, moved: seq<SqlReference>, texts: seq<Text>)
    requires |moved| == |texts|
  {
    forall k :: 0 <= k < |moved| ==>
      |LastPart(texts[k])| <= moved[k].end <= |out| && !JointCalls(out, moved[k].end, texts[k])
  }

  lemma CopiedGap(out: Text, pos: nat, s: Text, c: nat, refs: seq<SqlReference>, texts: seq<Text>)
    requires |texts| == |refs| && Ordered(s, refs, c) && AllDotted(texts)
    requires pos <= |out| && out[pos..] == Splice(s, refs, texts, c)
    requires refs != [] ==> refs[0].start < |s| && IsIdentifierChar(s[refs[0].start])
    ensures c <= GapEnd(s, refs) <= |s|
    ensures Copied(s[c..], out, pos, GapEnd(s, refs) - c)
    ensures refs != [] ==> StartsWith(out, pos + refs[0].start - c, texts[0])
    ensures refs != [] ==>
              var p := pos + refs[0].start - c + |texts[0]|;
              p <= |out| && out[p..] == Splice(s, refs[1..], texts[1..], refs[0].end)
              && IsIdentifierChar(out[p - 1])
  {
    hide IsIdentifierChar;
    if refs != [] {
      var gap, rest := s[c..refs[0].start], Splice(s, refs[1..], texts[1..], refs[0].end);
      var p := pos + |gap|;
      assert out == out[..pos] + gap + texts[0] + rest;
      assert out[p..p + |texts[0]|] == texts[0];
      assert out[p + |texts[0]|..] == rest;
      assert IsDotted(texts[0]);
      assert out[p] == texts[0][0];
      FirstOfDotted(texts[0]);
    } else {
      assert forall k {:trigger s[c..][k]} :: 0 <= k < |s[c..]| ==> s[c..][k] == out[pos..][k];
    }
  }

  lemma FirstOfDotted(target: Text)
    requires IsDotted(target)
    ensures IsIdentifierChar(target[0])
  {
  }

  lemma ReferenceIsBounded(s: Text, i: nat)
    requires i < |s| && ReferenceAt(s, i).Ok? && ReferenceAt(s, i).value.Some?
    ensures Bounded(s, i) && IsIdentifierChar(s[i])
  {
    hide Arguments, ReadArguments, Trivia, Match;
    FunctionHere(s, i);
    FunctionIsPlain(s, i, FunctionAt(s, i).value);
  }

  lemma {:induction false} RescanFrom(out: Text, pos: nat, s: Text, c: nat, refs: seq<SqlReference>, texts: seq<Text>)
    requires c <= |s| && Refs(s, c) == Ok(refs) && |texts| == |refs| && Ordered(s, refs, c) && AllDotted(texts)
    requires pos <= |out| && out[pos..] == Splice(s, refs, texts, c) && Joined(out, pos, c)
    ensures Refs(out, pos) == Ok([]) <==> NoJointCalls(out, Moved(s, refs, texts, c, pos), texts)
    decreases |refs|
  {
    hide NonCode, Next, ReferenceAt, IsDotted, IsIdentifierChar, Calls, JointCalls, LastPart, Copied, StartsWith, Refs, Splice, Moved, Ordered;
    MovedHere(s, refs, texts, c, pos);
    var hi := GapEnd(s, refs) - c;
    if refs == [] {
      CopiedGap(out, pos, s, c, refs, texts);
      RefsNone(s, c);
      SuffixWalk(s, c, 0, hi);
      ScanGap(out, pos, s, c, refs, 0);
      RefsAtEnd(out);
      assert |out[pos..]| == |s| - c;
    } else {
      var r := refs[0];
      RefsTail(s, c);
      ReferenceIsBounded(s, r.start);
      CopiedGap(out, pos, s, c, refs, texts);
      SuffixWalk(s, c, 0, hi);
      ScanGap(out, pos, s, c, refs, 0);
      ScanTarget(out, pos + hi, texts[0], 0);
      var p := pos + hi + |texts[0]|;
      LastPartNotEmpty(texts[0]);
      RescanFrom(out, p, s, r.end, refs[1..], texts[1..]);
      var moved, later := Moved(s, refs, texts, c, pos), Moved(s, refs[1..], texts[1..], r.end, p);
      assert moved == [moved[0]] + later && moved[0].end == p;
      NoJointCallsSplit(out, moved, texts);
    }
  }

  lemma RefsAtEnd(s: Text)
    ensures Refs(s, |s|) == Ok([])
  {
  }

  lemma NoJointCallsSplit(out: Text, moved: seq<SqlReference>, texts: seq<Text>)
    requires |moved| == |texts| && moved != []
    ensures NoJointCalls(out, moved, texts) <==>
            && |LastPart(texts[0])| <= moved[0].end <= |out| && !JointCalls(out, moved[0].end, texts[0])
            && NoJointCalls(out, moved[1..], texts[1..])
  {
    hide JointCalls, LastPart;
    if NoJointCalls(out, moved[1..], texts[1..]) {
      forall k | 1 <= k < |moved|
        ensures |LastPart(texts[k])| <= moved[k].end <= |out| && !JointCalls(out, moved[k].end, texts[k])
      {
        assert moved[1..][k - 1] == moved[k] && texts[1..][k - 1] == texts[k];
      }
    }
  }

  /** Substituting dotted identifiers for every extracted reference leaves no reference, except
      where the last part of a target runs into the text after it and spells a call. */
  lemma RescanFindsOnlyJoints(s: Text, texts: seq<Text>)
    requires Refs(s, 0).Ok? && |texts| == |Refs(s, 0).value| && AllDotted(texts)
    ensures Ordered(s, Refs(s, 0).value, 0)
    ensures var refs := Refs(s, 0).value;
            var out := Splice(s, refs, texts, 0);
            Refs(out, 0) == Ok([]) <==> NoJointCalls(out, Moved(s, refs, texts, 0, 0), texts)
  {
    hide Refs, NoJointCalls;
    SpansAreOrdered(s, 0);
    var out := Splice(s, Refs(s, 0).value, texts, 0);
    assert out[0..] == out;
    RescanFrom(out, 0, s, 0, Refs(s, 0).value, texts);
  }

  predicate IsReserved(name: Text) {
    name == SOURCE_FUNCTION || name == REF_FUNCTION
  }

  /** What a caller can check: no target ends in a reserved name, and no reference is followed
      immediately by an identifier character. */
  ghost predicate Separated(s: Text, refs: seq<SqlReference>, texts: seq<Text>)
    requires |refs| == |texts|
  {
    forall k :: 0 <= k < |refs| ==>
      && !IsReserved(LastPart(texts[k])) && refs[k].end <= |s|
      && (refs[k].end < |s| ==> !IsIdentifierChar(s[refs[k].end]))
  }

  lemma MovedHere(s: Text, refs: seq<SqlReference>, texts: seq<Text>, c: nat, pos: nat)
    requires Ordered(s, refs, c) && |texts| == |refs|
    ensures c <= |s| && (refs == [] ==> Splice(s, refs, texts, c) == s[c..])
    ensures if refs == [] then Moved(s, refs, texts, c, pos) == [] else
              && c <= refs[0].start <= refs[0].end <= |s| && Ordered(s, refs[1..], refs[0].end)
              && var p := pos + refs[0].start - c + |texts[0]|;
                 var moved := Moved(s, refs, texts, c, pos);
                 moved != [] && moved[0].end == p
                 && moved == [moved[0]] + Moved(s, refs[1..], texts[1..], refs[0].end, p)
  {
  }

  lemma {:induction false} SeparatedHasNoJoint(out: Text, pos: nat, s: Text, c: nat, refs: seq<SqlReference>, texts: seq<Text>)
    requires Ordered(s, refs, c) && |texts| == |refs| && AllDotted(texts) && Separated(s, refs, texts)
    requires forall k :: 0 <= k < |refs| ==> refs[k].start < |s| && IsIdentifierChar(s[refs[k].start])
    requires pos <= |out| && out[pos..] == Splice(s, refs, texts, c)
    ensures NoJointCalls(out, Moved(s, refs, texts, c, pos), texts)
    decreases |refs|
  {
    hide IsIdentifierChar, IsDotted, JointCalls, LastPart, Copied, StartsWith, Splice, Moved, Ordered;
    MovedHere(s, refs, texts, c, pos);
    if refs != [] {
      var p := pos + refs[0].start - c + |texts[0]|;
      CopiedGap(out, pos, s, c, refs, texts);
      var moved, later := Moved(s, refs, texts, c, pos), Moved(s, refs[1..], texts[1..], refs[0].end, p);
      assert moved == [moved[0]] + later && moved[0].end == p;
      assert forall k :: 0 <= k < |refs[1..]| ==> refs[1..][k] == refs[k + 1] && texts[1..][k] == texts[k + 1];
      SeparatedHasNoJoint(out, p, s, refs[0].end, refs[1..], texts[1..]);
      NoJointCallsSplit(out, moved, texts);
      assert IsDotted(texts[0]);
      LastPartNotEmpty(texts[0]);
      FollowingChar(out, p, s, refs[0].end, refs[1..], texts[1..]);
      SeparatedTarget(out, p, texts[0]);
    }
  }

  lemma FollowingChar(out: Text, p: nat, s: Text, c: nat, refs: seq<SqlReference>, texts: seq<Text>)
    requires Ordered(s, refs, c) && |texts| == |refs| && p <= |out| && out[p..] == Splice(s, refs, texts, c)
    requires c <= |s| && (c < |s| ==> !IsIdentifierChar(s[c]))
    requires refs != [] ==> refs[0].start < |s| && IsIdentifierChar(s[refs[0].start])
    ensures p < |out| ==> !IsIdentifierChar(out[p])
  {
    hide IsIdentifierChar;
    if p < |out| {
      assert out[p] == out[p..][0];
    }
  }

  lemma SeparatedTarget(out: Text, q: nat, target: Text)
    requires 0 < |LastPart(target)| <= q <= |out| && !IsReserved(LastPart(target))
    requires |target| <= q && StartsWith(out, q - |target|, target)
    requires q < |out| ==> !IsIdentifierChar(out[q])
    ensures !JointCalls(out, q, target)
  {
    hide IsIdentifierChar, Trivia, LastPart;
    LastPartEnds(target);
    WordAcross(out, q, q);
    var n := |LastPart(target)|;
    assert out[q - n..q] == target[|target| - n..];
  }

  /** Then substitution leaves no reference behind. */
  lemma RescanOfSeparated(s: Text, texts: seq<Text>)
    requires Refs(s, 0).Ok? && |texts| == |Refs(s, 0).value| && AllDotted(texts)
    requires Separated(s, Refs(s, 0).value, texts)
    ensures Ordered(s, Refs(s, 0).value, 0) && Refs(Splice(s, Refs(s, 0).value, texts, 0), 0) == Ok([])
  {
    hide Refs, NoJointCalls, Separated, ReferenceAt, IsIdentifierChar;
    var refs := Refs(s, 0).value;
    RescanFindsOnlyJoints(s, texts);
    SpansAreOrdered(s, 0);
    var out := Splice(s, refs, texts, 0);
    assert out[0..] == out;
    forall k | 0 <= k < |refs| ensures refs[k].start < |s| && IsIdentifierChar(s[refs[k].start]) {
      assert refs[k] in refs;
      ReferenceIsBounded(s, refs[k].start);
    }
    SeparatedHasNoJoint(out, 0, s, 0, refs, texts);
  }

  /** Without the separation the property fails: `_` is a plain identifier, but followed by
      `_ref(b)` it spells a new reference. */
  lemma GluedTargetMakesReference()
    ensures Refs("__ref(a)_ref(b)", 0) == Ok([SqlReference("a", Ref, None, 0, 8)])
    ensures var refs := [SqlReference("a", Ref, None, 0, 8)];
            && Ordered("__ref(a)_ref(b)", refs, 0) && AllDotted(["_"])
            && Splice("__ref(a)_ref(b)", refs, ["_"], 0) == "__ref(b)"
    ensures Refs("__ref(b)", 0) == Ok([SqlReference("b", Ref, None, 0, 8)])
  {
    hide Refs, ReferenceAt, IsIdentifierStart;
    assert IsIdentifierStart('a') && IsIdentifierStart('b') by {
      Letters();
    }
    var s := "__ref(a)_ref(b)";
    assert "__ref(" + "a" + ")" + "_ref(b)" == s;
    assert "__ref(" + "b" + ")" + "" == "__ref(b)";
    assert s[8..] == "_ref(b)";
    assert forall k :: 8 <= k < |s| ==> s[k] == s[8..][k - 8];
    NoReferencesFrom(s, 8);
    ShortRefs("a", "_ref(b)");
    RefsAtEnd("__ref(b)");
    ShortRefs("b", "");
    assert [] + "_" + s[8..] == "__ref(b)";
    assert IsDotted("_") by {
      Letters();
    }
  }

  lemma Letters()
    ensures IsIdentifierStart('a') && IsIdentifierStart('b') && IsDotted("_")
  {
  }

  lemma ShortRefs(name: Text, rest: Text)
    requires |name| == 1 && IsIdentifierStart(name[0]) && Refs("__ref(" + name + ")" + rest, 8) == Ok([])
    ensures Refs("__ref(" + name + ")" + rest, 0) == Ok([SqlReference(name, Ref, None, 0, 8)])
  {
    hide NonCode, ReferenceAt, IsIdentifierStart;
    var t, r := "__ref(" + name + ")" + rest, SqlReference(name, Ref, None, 0, 8);
    ShortReference(name, rest);
    assert t[0] == '_';
    PlainIsCode(t, 0);
    assert [r] + [] == [r];
  }

  lemma NoReferencesFrom(s: Text, i: nat)
    requires i <= |s| && (forall k :: i <= k < |s| ==> IsPlain(s[k]) && !(k + 1 < |s| && s[k] == '_' && s[k + 1] == '_'))
    ensures Refs(s, i) == Ok([])
    decreases |s| - i
  {
    if i < |s| {
      PlainIsCode(s, i);
      assert FunctionAt(s, i).None? by {
        if StartsWith(s, i, SOURCE_FUNCTION) {
          StartsWithAt(s, i, SOURCE_FUNCTION, 0);
          StartsWithAt(s, i, SOURCE_FUNCTION, 1);
        }
        if StartsWith(s, i, REF_FUNCTION) {
          StartsWithAt(s, i, REF_FUNCTION, 0);
          StartsWithAt(s, i, REF_FUNCTION, 1);
        }
      }
      NoReferencesFrom(s, i + 1);
    }
  }

  lemma ShortReference(name: Text, rest: Text)
    requires |name| == 1 && IsIdentifierStart(name[0])
    ensures ReferenceAt("__ref(" + name + ")" + rest, 0) == Ok(Some(SqlReference(name, Ref, None, 0, 8)))
  {
    hide NonCode, IsIdentifierStart;
    var t := "__ref(" + name + ")" + rest;
    StartIsName(name[0]);
    assert t[0..5] == REF_FUNCTION && t[5] == '(' && t[6] == name[0] && t[7] == ')';
    assert FunctionAt(t, 0) == Some(Ref) by {
      assert |t| >= 8 ==> t[0..8][2] == 'r';
    }
    TriviaStopsAt(t, 5);
    PlainIsCode(t, 6);
    PlainIsCode(t, 7);
    assert Match(t, 7, 1, 5) == Ok(7);
    assert Match(t, 6, 1, 5) == Ok(7);
    assert WithoutComments(t, 7, 7) == Ok([]);
    assert [t[6]] + [] == name;
    assert WithoutComments(t, 6, 7) == Ok(name);
    StripPadded([], name, []);
    assert [] + name + [] == name;
    assert Split(t, 6, 7, 7, 0) == Ok([name]) by {
      assert [name] + [] == [name];
    }
    assert Split(t, 6, 6, 7, 0) == Ok([name]);
    assert Arguments(t, 6, 7) == Ok([name]);
    assert Name(name, 0) == Ok(name);
  }

  lemma StartIsName(c: char)
    requires IsIdentifierStart(c)
    ensures IsPlain(c) && !IsSpace(c) && c != '(' && c != ')' && c != ',' && !IsQuote(c)
  {
  }
}
