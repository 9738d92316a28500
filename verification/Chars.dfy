/** Character classes of the scanners (crates/sqltide-sqltext/src/python_text.rs).

    ASCII behaviour is fixed exactly.  The tables for the other code points are constants
    without a value, so every theorem holds whatever those tables contain. */
module Chars {

  type Text = seq<char>

  datatype Option<+T> = None | Some(value: T)

  /** Non-ASCII code points Python's `str.isalpha` accepts. */
  const NON_ASCII_ALPHA: set<char>

  /** Non-ASCII code points `str.isalnum` accepts and `str.isalpha` does not. */
  const NON_ASCII_NUMERIC: set<char>

  /** The only upper-case mappings to several ASCII letters: sharp s and the Latin ligatures. */
  const LIGATURES: set<Text> := {"SS", "FF", "FI", "FL", "FFI", "FFL", "ST"}

  /** Full upper-case mappings of non-ASCII code points; an absent one maps to itself. */
  type UpperTable = m: map<char, Text> |
      forall c :: c in m ==> m[c] != [] && (|m[c]| > 1 && AllAscii(m[c]) ==> m[c] in LIGATURES)
    witness map[]

  const NON_ASCII_UPPER: UpperTable

  lemma Associative<T>(a: seq<T>, b: seq<T>, c: seq<T>)
    ensures a + (b + c) == a + b + c
  {
  }

  predicate IsAscii(c: char) {
    c < '\U{80}'
  }

  predicate AllAscii(s: Text) {
    forall k :: 0 <= k < |s| ==> IsAscii(s[k])
  }

  predicate IsSpace(c: char) {
    || '\U{09}' <= c <= '\U{0D}'
    || '\U{1C}' <= c <= ' '
    || c == '\U{85}' || c == '\U{A0}' || c == '\U{1680}'
    || '\U{2000}' <= c <= '\U{200A}'
    || c == '\U{2028}' || c == '\U{2029}' || c == '\U{202F}' || c == '\U{205F}' || c == '\U{3000}'
  }

  predicate IsDigit(c: char) {
    '0' <= c <= '9'
  }

  predicate IsAlpha(c: char) {
    if IsAscii(c) then 'a' <= c <= 'z' || 'A' <= c <= 'Z'
    else c in NON_ASCII_ALPHA && !IsSpace(c)
  }

  predicate IsAlnum(c: char) {
    IsAlpha(c) || (if IsAscii(c) then IsDigit(c) else c in NON_ASCII_NUMERIC && !IsSpace(c))
  }

  predicate IsIdentifierStart(c: char) {
    c == '_' || IsAlpha(c)
  }

  predicate IsIdentifierChar(c: char) {
    c == '_' || IsAlnum(c)
  }

  predicate IsQuote(c: char) {
    c == '\'' || c == '"' || c == '`'
  }

  function UpperChar(c: char): Text {
    if IsAscii(c) then [if 'a' <= c <= 'z' then c - ' ' else c]
    else if c in NON_ASCII_UPPER then NON_ASCII_UPPER[c]
    else [c]
  }

  function Upper(s: Text): Text {
    if s == [] then [] else UpperChar(s[0]) + Upper(s[1..])
  }

  /** An upper-case ASCII word in which no two adjacent letters are a ligature's. */
  predicate PlainKeyword(word: Text) {
    && AllAscii(word)
    && (forall k :: 0 <= k < |word| ==> !('a' <= word[k] <= 'z'))
    && (forall k :: 0 < k < |word| ==> [word[k - 1], word[k]] !in {"SS", "FF", "FI", "FL", "ST"})
  }

  lemma PlainKeywordHead(c: char, rest: Text, word: Text)
    requires PlainKeyword(word) && UpperChar(c) + rest == word
    ensures |UpperChar(c)| == 1
  {
    var head := UpperChar(c);
    assert forall k :: 0 <= k < |head| ==> head[k] == word[k];
    assert |head| > 1 ==> [word[1 - 1], word[1]] == [head[0], head[1]];
  }

  lemma PlainKeywordTail(word: Text)
    requires PlainKeyword(word) && word != []
    ensures PlainKeyword(word[1..])
  {
    var rest := word[1..];
    forall k | 0 < k < |rest| ensures [rest[k - 1], rest[k]] !in {"SS", "FF", "FI", "FL", "ST"} {
      assert [rest[k - 1], rest[k]] == [word[k + 1 - 1], word[k + 1]];
    }
  }

  /** Only a text of the same length upper-cases to a plain keyword. */
  lemma {:induction false} PlainKeywordLength(s: Text, word: Text)
    requires PlainKeyword(word) && Upper(s) == word
    ensures |s| == |word|
  {
    hide PlainKeyword, UpperChar;
    if s != [] {
      PlainKeywordHead(s[0], Upper(s[1..]), word);
      PlainKeywordTail(word);
      assert word[1..] == Upper(s[1..]);
      PlainKeywordLength(s[1..], word[1..]);
    }
  }

  lemma {:induction false} UpperKeyword(word: Text)
    requires PlainKeyword(word)
    ensures Upper(word) == word
  {
    if word != [] {
      PlainKeywordTail(word);
      UpperKeyword(word[1..]);
    }
  }

  /** An ASCII character that upper-casing leaves alone survives into the upper-cased text. */
  lemma {:induction false} UpperKeeps(s: Text, k: nat)
    requires k < |s| && IsAscii(s[k]) && !('a' <= s[k] <= 'z')
    ensures s[k] in Upper(s)
  {
    if k == 0 {
      assert UpperChar(s[0]) == [s[0]];
    } else {
      UpperKeeps(s[1..], k - 1);
    }
  }

  ghost predicate AllSpace(s: Text) {
    forall k :: 0 <= k < |s| ==> IsSpace(s[k])
  }

  /** Neither end is white space. */
  predicate Trimmed(s: Text) {
    s == [] || (!IsSpace(s[0]) && !IsSpace(s[|s| - 1]))
  }

  function TrimLeft(s: Text): Text {
    if s != [] && IsSpace(s[0]) then TrimLeft(s[1..]) else s
  }

  function TrimRight(s: Text): Text {
    if s != [] && IsSpace(s[|s| - 1]) then TrimRight(s[..|s| - 1]) else s
  }

  /** Python's `str.strip()`. */
  function Strip(s: Text): Text {
    TrimRight(TrimLeft(s))
  }

  lemma {:induction false} TrimLeftSplits(s: Text) returns (pad: Text)
    ensures AllSpace(pad) && s == pad + TrimLeft(s)
    ensures TrimLeft(s) != [] ==> !IsSpace(TrimLeft(s)[0])
  {
    if s != [] && IsSpace(s[0]) {
      var rest := TrimLeftSplits(s[1..]);
      pad := [s[0]] + rest;
    } else {
      pad := [];
    }
  }

  lemma {:induction false} TrimRightSplits(s: Text) returns (pad: Text)
    ensures AllSpace(pad) && s == TrimRight(s) + pad
    ensures TrimRight(s) != [] ==> !IsSpace(TrimRight(s)[|TrimRight(s)| - 1])
  {
    if s != [] && IsSpace(s[|s| - 1]) {
      var rest := TrimRightSplits(s[..|s| - 1]);
      pad := rest + [s[|s| - 1]];
    } else {
      pad := [];
    }
  }

  /** Stripping removes white space from the ends and nothing else. */
  lemma StripSplits(s: Text) returns (left: Text, right: Text)
    ensures AllSpace(left) && AllSpace(right)
    ensures s == left + Strip(s) + right
    ensures Trimmed(Strip(s))
  {
    left := TrimLeftSplits(s);
    right := TrimRightSplits(TrimLeft(s));
    var kept := Strip(s);
    if kept != [] {
      assert TrimLeft(s)[0] == kept[0];
    }
  }

  lemma {:induction false} TrimLeftPad(pad: Text, s: Text)
    requires AllSpace(pad)
    ensures TrimLeft(pad + s) == TrimLeft(s)
  {
    if pad == [] {
      assert pad + s == s;
    } else {
      assert (pad + s)[1..] == pad[1..] + s;
      TrimLeftPad(pad[1..], s);
    }
  }

  lemma {:induction false} TrimRightPad(s: Text, pad: Text)
    requires AllSpace(pad)
    ensures TrimRight(s + pad) == TrimRight(s)
  {
    if pad == [] {
      assert s + pad == s;
    } else {
      assert (s + pad)[..|s + pad| - 1] == s + pad[..|pad| - 1];
      TrimRightPad(s, pad[..|pad| - 1]);
    }
  }

  /** Strip is determined by what it keeps: any white space around a trimmed text goes. */
  lemma StripPadded(left: Text, s: Text, right: Text)
    requires AllSpace(left) && AllSpace(right) && Trimmed(s)
    ensures Strip(left + s + right) == s
  {
    assert left + s + right == left + (s + right);
    TrimLeftPad(left, s + right);
    if s == [] {
      assert s + right == right;
      TrimLeftPad(right, []);
      assert right + [] == right;
    } else {
      assert (s + right)[0] == s[0];
      TrimRightPad(s, right);
    }
  }
}
