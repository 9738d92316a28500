/** Which targets make a new reference, told from the authored text and the targets alone. */
module ReferenceJoints {
  import opened Chars
  import opened Lexing
  import opened Agreement
  import opened Scanners
  import opened References
  import opened ReferenceSpans
  import opened ReferenceRescan

  predicate HasDot(target: Text)
    requires |LastPart(target)| <= |target|
  {
    |LastPart(target)| < |target|
  }

  /** The identifier characters a target starts with. */
  function FirstPart(target: Text): Text {
    target[..WordEnd(target, 0)]
  }

  /** A parenthesis opens at `e`, behind white space and comments. */
  predicate Opens(s: Text, e: nat)
    requires e <= |s|
  {
    Trivia(s, e).Err? || (Trivia(s, e).value < |s| && s[Trivia(s, e).value] == '(')
  }

  /** The identifier characters that come behind a target: those of the authored text from `c` on,
      or, where the next reference is adjacent, those of its target and what comes behind it. */
  function FollowingWord(s: Text, refs: seq<SqlReference>, texts: seq<Text>, c: nat): Text
    requires |refs| == |texts| && Ordered(s, refs, c) && AllDotted(texts)
    decreases |refs|
  {
    AllShort(texts);
    if refs != [] && refs[0].start == c then
      FirstPart(texts[0]) +
      if HasDot(texts[0]) then [] else FollowingWord(s, refs[1..], texts[1..], refs[0].end)
    else
      OrderedWithin(s, refs, c);
      s[c..WordEnd(s, c)]
  }

  /** A parenthesis opens behind these characters. */
  predicate CallFollows(s: Text, refs: seq<SqlReference>, texts: seq<Text>, c: nat)
    requires |refs| == |texts| && Ordered(s, refs, c) && AllDotted(texts)
    decreases |refs|
  {
    AllShort(texts);
    if refs != [] && refs[0].start == c then
      !HasDot(texts[0]) && CallFollows(s, refs[1..], texts[1..], refs[0].end)
    else
      OrderedWithin(s, refs, c);
      Opens(s, WordEnd(s, c))
  }

  /** The first target, written behind the text up to `c`, spells a call with what follows it.  Its
      last part must stand alone on the left: behind a dot, or not right behind another target. */
  predicate SpellsCall(s: Text, refs: seq<SqlReference>, texts: seq<Text>, c: nat, first: bool)
    requires refs != [] && |refs| == |texts| && Ordered(s, refs, c) && AllDotted(texts)
  {
    AllShort(texts);
    && (HasDot(texts[0]) || first || c < refs[0].start)
    && IsReserved(LastPart(texts[0]) + FollowingWord(s, refs[1..], texts[1..], refs[0].end))
    && CallFollows(s, refs[1..], texts[1..], refs[0].end)
  }

  predicate NoneSpelled(s: Text, refs: seq<SqlReference>, texts: seq<Text>, c: nat, first: bool)
    requires |refs| == |texts| && Ordered(s, refs, c) && AllDotted(texts)
    decreases |refs|
  {
    refs == [] || (
      && !SpellsCall(s, refs, texts, c, first)
      && NoneSpelled(s, refs[1..], texts[1..], refs[0].end, false))
  }

  lemma AllShort(texts: seq<Text>)
    requires AllDotted(texts)
    ensures forall k :: 0 <= k < |texts| ==> 0 < |LastPart(texts[k])| <= |texts[k]|
  {
    forall k | 0 <= k < |texts| ensures 0 < |LastPart(texts[k])| <= |texts[k]| {
      LastPartNotEmpty(texts[k]);
    }
  }

  lemma OrderedWithin(s: Text, refs: seq<SqlReference>, c: nat)
    requires Ordered(s, refs, c)
    ensures c <= |s|
  {
  }

  // ------------------------------------------------------------------------------------------
  // One joint

  lemma ReservedStarts(s: Text, b: nat, e: nat)
    requires b <= e <= |s|
    ensures IsReserved(s[b..e]) <==>
            FunctionAt(s, b).Some? && e == b + |FunctionName(FunctionAt(s, b).value)|
  {
    if StartsWith(s, b, SOURCE_FUNCTION) && StartsWith(s, b, REF_FUNCTION) {
      StartsWithAt(s, b, SOURCE_FUNCTION, 2);
      StartsWithAt(s, b, REF_FUNCTION, 2);
    }
  }

  lemma SliceJoined(s: Text, b: nat, q: nat, e: nat)
    requires b <= q <= e <= |s|
    ensures s[b..e] == s[b..q] + s[q..e]
  {
  }

  /** A joint, as the word it makes. */
  lemma JointAsWord(out: Text, q: nat, target: Text)
    requires IsDotted(target) && |target| <= q <= |out| && StartsWith(out, q - |target|, target)
    ensures 0 < |LastPart(target)| <= |target|
    ensures JointCalls(out, q, target) <==>
            && (HasDot(target) || Bounded(out, q - |target|))
            && IsReserved(LastPart(target) + out[q..WordEnd(out, q)])
            && Opens(out, WordEnd(out, q))
  {
    hide LastPart, IsIdentifierChar, IsDotted, WordEnd, Bounded, JointCalls, IsReserved, Opens, StartsWith;
    LastPartNotEmpty(target);
    LastPartEnds(target);
    var n, start := |LastPart(target)|, q - |target|;
    var b, e := q - n, WordEnd(out, q);
    WordHere(out, start, target);
    assert out[b..q] == target[|target| - n..];
    SliceJoined(out, b, q, e);
    ReservedStarts(out, b, e);
    JointUnfolded(out, q, target);
    if HasDot(target) {
      assert out[b - 1] == target[|target| - n - 1];
      BoundedBy(out, b);
    }
  }

  lemma BoundedBy(s: Text, i: nat)
    requires 0 < i <= |s| && !IsIdentifierChar(s[i - 1])
    ensures Bounded(s, i)
  {
  }

  lemma JointUnfolded(out: Text, q: nat, target: Text)
    requires |LastPart(target)| <= q <= |out|
    ensures var b, e := q - |LastPart(target)|, WordEnd(out, q);
            JointCalls(out, q, target) <==>
              && Bounded(out, b) && FunctionAt(out, b).Some? && e == b + |FunctionName(FunctionAt(out, b).value)|
              && Opens(out, e)
  {
    hide LastPart, WordEnd, Trivia, FunctionAt, FunctionName, Bounded;
  }

  lemma WordHere(out: Text, i: nat, word: Text)
    requires StartsWith(out, i, word)
    ensures i + |word| <= |out| && out[i..i + |word|] == word
  {
  }

  // ------------------------------------------------------------------------------------------
  // What follows a target

  lemma NextTargetFollows(out: Text, q: nat, target: Text)
    requires IsDotted(target) && StartsWith(out, q, target)
    ensures q + |target| <= |out| && |LastPart(target)| <= |target|
    ensures HasDot(target) ==>
              out[q..WordEnd(out, q)] == FirstPart(target) && !Opens(out, WordEnd(out, q))
    ensures !HasDot(target) ==>
              FirstPart(target) == target && WordEnd(out, q) == WordEnd(out, q + |target|)
  {
    hide Trivia, LastPart, IsIdentifierChar, WordEnd, StartsWith;
    LastPartEnds(target);
    WordHere(out, q, target);
    forall k | 0 <= k < |target| ensures out[q + k] == target[k] {
      StartsWithAt(out, q, target, k);
    }
    WordEndFacts(target, 0);
    var f := WordEnd(target, 0);
    if HasDot(target) {
      assert !IsIdentifierChar(target[|target| - |LastPart(target)| - 1]);
      assert f < |target| && target[f] == '.';
      WordEndsAt(out, q, q + f);
      assert out[q..q + f] == target[..f];
      NotFollowed(out, q + f);
    } else {
      assert f == |target|;
      WordEndFacts(out, q + |target|);
      WordEndsAt(out, q, WordEnd(out, q + |target|));
    }
  }

  /** The copied text that follows. */
  lemma GapFollows(out: Text, q: nat, s: Text, c: nat, hi: nat)
    requires c + hi <= |s| && Copied(s[c..], out, q, hi) && Walk(s[c..], 0, hi)
    requires c + hi < |s| ==> 0 < hi && !IsIdentifierChar(s[c + hi - 1])
    ensures q <= |out| && out[q..WordEnd(out, q)] == s[c..WordEnd(s, c)]
    ensures Opens(out, WordEnd(out, q)) <==> Opens(s, WordEnd(s, c))
  {
    hide Trivia, IsIdentifierChar, WordEnd, Copied, Walk;
    var g := s[c..];
    CopiedBounds(g, out, q, hi);
    CopiedEnd(g, out, q, hi);
    WordEndFacts(s, c);
    var n := WordEnd(s, c) - c;
    assert forall k {:trigger g[k]} :: 0 <= k < |g| ==> g[k] == s[c + k];
    forall k | q <= k < q + n ensures IsIdentifierChar(out[k]) {
      assert g[k - q] == out[k];
    }
    if n < hi {
      assert g[n] == out[n + q];
    }
    WordEndsAt(out, q, q + n);
    SameSlice(g, out, q, n);
    assert g[..n] == s[c..c + n];
    WalkWord(g, n, hi);
    CopiedTrivia(g, out, q, hi, n);
    TriviaAgrees(g, s, c, 0, |g|, n);
    var e := Trivia(g, n).value;
    if e < hi {
      assert g[e] == out[e + q];
    }
  }

  lemma SameSlice(g: Text, out: Text, q: nat, n: nat)
    requires n <= |g| && q + n <= |out| && forall k {:trigger g[k]} :: 0 <= k < n ==> g[k] == out[k + q]
    ensures out[q..q + n] == g[..n]
  {
    forall k | 0 <= k < n ensures out[k + q] == g[k] {
    }
  }

  lemma WalkWord(g: Text, n: nat, hi: nat)
    requires n <= hi <= |g| && Walk(g, 0, hi) && forall k :: 0 <= k < n ==> IsIdentifierChar(g[k])
    ensures Walk(g, n, hi)
  {
    hide IsIdentifierChar, NonCode;
    forall k | 0 <= k < n ensures IsPlain(g[k]) {
      IdentifierIsPlain(g[k]);
    }
    WalkPlain(g, 0, n);
    WalkThrough(g, 0, n, hi);
  }

  lemma {:induction false} WordFollows(out: Text, q: nat, s: Text, c: nat, refs: seq<SqlReference>, texts: seq<Text>)
    requires c <= |s| && Refs(s, c) == Ok(refs) && |texts| == |refs| && Ordered(s, refs, c) && AllDotted(texts)
    requires q <= |out| && out[q..] == Splice(s, refs, texts, c)
    ensures out[q..WordEnd(out, q)] == FollowingWord(s, refs, texts, c)
    ensures Opens(out, WordEnd(out, q)) <==> CallFollows(s, refs, texts, c)
    decreases |refs|
  {
    hide Refs, ReferenceAt, IsDotted, IsIdentifierChar, Copied, StartsWith, LastPart, WordEnd, Trivia, Walk, Bounded;
    AllShort(texts);
    if refs != [] {
      RefsTail(s, c);
      ReferenceIsBounded(s, refs[0].start);
    } else {
      RefsNone(s, c);
    }
    CopiedGap(out, q, s, c, refs, texts);
    var hi := GapEnd(s, refs) - c;
    if refs != [] && refs[0].start == c {
      assert IsDotted(texts[0]);
      NextTargetFollows(out, q, texts[0]);
      if !HasDot(texts[0]) {
        var p := q + |texts[0]|;
        WordFollows(out, p, s, refs[0].end, refs[1..], texts[1..]);
        WordFarther(out, q, p, texts[0]);
      } else {
        assert FirstPart(texts[0]) + [] == FirstPart(texts[0]);
      }
    } else {
      if refs != [] {
        BoundedLeft(s, refs[0].start);
      }
      SuffixWalk(s, c, 0, hi);
      GapFollows(out, q, s, c, hi);
    }
  }

  lemma BoundedLeft(s: Text, i: nat)
    requires i <= |s| && Bounded(s, i)
    ensures i > 0 ==> !IsIdentifierChar(s[i - 1])
  {
  }

  lemma WordFarther(out: Text, q: nat, p: nat, target: Text)
    requires StartsWith(out, q, target) && p == q + |target| <= |out| && WordEnd(out, q) == WordEnd(out, p)
    ensures out[q..WordEnd(out, q)] == target + out[p..WordEnd(out, p)]
  {
    hide WordEnd;
    SliceJoined(out, q, p, WordEnd(out, p));
  }

  // ------------------------------------------------------------------------------------------
  // All joints

  lemma LeftOfTarget(out: Text, pos: nat, s: Text, c: nat, start: nat)
    requires c <= start <= |s| && Bounded(s, start) && Joined(out, pos, c) && pos + (start - c) <= |out|
    requires Agree(s[c..], out, pos, 0, start - c)
    ensures Bounded(out, pos + (start - c)) <==> pos == 0 || c < start
  {
    var p := pos + (start - c);
    if c < start {
      assert s[c..][start - c - 1] == out[p - 1];
    }
  }

  lemma {:induction false} JointsAreSpelled(out: Text, pos: nat, s: Text, c: nat, refs: seq<SqlReference>, texts: seq<Text>)
    requires c <= |s| && Refs(s, c) == Ok(refs) && |texts| == |refs| && Ordered(s, refs, c) && AllDotted(texts)
    requires pos <= |out| && out[pos..] == Splice(s, refs, texts, c) && Joined(out, pos, c)
    ensures NoJointCalls(out, Moved(s, refs, texts, c, pos), texts) <==> NoneSpelled(s, refs, texts, c, pos == 0)
    decreases |refs|
  {
    hide Refs, ReferenceAt, IsDotted, IsIdentifierChar, JointCalls, LastPart, StartsWith, SpellsCall, Walk, Bounded, NoJointCalls;
    if refs == [] {
      NoJoints(out, Moved(s, refs, texts, c, pos), texts);
    } else {
      RefsTail(s, c);
      ReferenceIsBounded(s, refs[0].start);
      CopiedGap(out, pos, s, c, refs, texts);
      var p := pos + (refs[0].start - c) + |texts[0]|;
      assert IsDotted(texts[0]);
      LastPartNotEmpty(texts[0]);
      JointsAreSpelled(out, p, s, refs[0].end, refs[1..], texts[1..]);
      var moved, later := Moved(s, refs, texts, c, pos), Moved(s, refs[1..], texts[1..], refs[0].end, p);
      assert moved == [moved[0]] + later && moved[0].end == p;
      NoJointCallsSplit(out, moved, texts);
      OneJoint(out, pos, p, s, c, refs, texts);
    }
  }

  lemma NoJoints(out: Text, moved: seq<SqlReference>, texts: seq<Text>)
    requires moved == [] && texts == []
    ensures NoJointCalls(out, moved, texts)
  {
  }

  lemma OneJoint(out: Text, pos: nat, p: nat, s: Text, c: nat, refs: seq<SqlReference>, texts: seq<Text>)
    requires c <= |s| && Refs(s, c) == Ok(refs) && |texts| == |refs| && Ordered(s, refs, c) && AllDotted(texts)
    requires refs != [] && pos <= |out| && out[pos..] == Splice(s, refs, texts, c) && Joined(out, pos, c)
    requires p == pos + (refs[0].start - c) + |texts[0]|
    ensures |LastPart(texts[0])| <= p <= |out|
    ensures JointCalls(out, p, texts[0]) <==> SpellsCall(s, refs, texts, c, pos == 0)
  {
    hide Refs, ReferenceAt, IsDotted, IsIdentifierChar, JointCalls, LastPart, StartsWith, Walk, Bounded, WordEnd, FollowingWord, CallFollows;
    RefsTail(s, c);
    ReferenceIsBounded(s, refs[0].start);
    CopiedGap(out, pos, s, c, refs, texts);
    AllShort(texts);
    assert IsDotted(texts[0]);
    JointAsWord(out, p, texts[0]);
    LeftOfTarget(out, pos, s, c, refs[0].start);
    WordFollows(out, p, s, refs[0].end, refs[1..], texts[1..]);
  }

  /** Substituting dotted identifiers for every extracted reference leaves no reference if and only
      if no target spells a call with what the authored text and the next targets put behind it. */
  lemma RescanFindsNothing(s: Text, texts: seq<Text>)
    requires Refs(s, 0).Ok? && |texts| == |Refs(s, 0).value| && AllDotted(texts)
    ensures Ordered(s, Refs(s, 0).value, 0)
    ensures var refs := Refs(s, 0).value;
            Refs(Splice(s, refs, texts, 0), 0) == Ok([]) <==> NoneSpelled(s, refs, texts, 0, true)
  {
    hide Refs, NoJointCalls, NoneSpelled;
    RescanFindsOnlyJoints(s, texts);
    var out := Splice(s, Refs(s, 0).value, texts, 0);
    assert out[0..] == out;
    JointsAreSpelled(out, 0, s, 0, Refs(s, 0).value, texts);
  }
}
