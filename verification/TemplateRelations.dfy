/** Renaming the relations of a rendered template
    (crates/sqltide-sqltext/src/sql_scan/templates.rs). */
module TemplateRelations {
  import opened Chars
  import opened Lexing

  datatype RelationRewrite = RelationRewrite(sourceName: Text, targetRelation: Text, preserveSourceDatabase: bool)

  predicate Occurs(s: Text, token: Text, k: nat) {
    k + |token| <= |s| && StartsWith(s, k, token)
  }

  /** No identifier character touches the occurrence at `k`. */
  predicate IsBounded(s: Text, token: Text, k: nat)
    requires k + |token| <= |s|
  {
    && (k == 0 || !IsIdentifierChar(s[k - 1]))
    && (k + |token| == |s| || !IsIdentifierChar(s[k + |token|]))
  }

  function FirstOccurrence(s: Text, token: Text, i: nat): (r: Option<nat>)
    ensures r.Some? ==> i <= r.value && Occurs(s, token, r.value)
    ensures forall k :: i <= k < (if r.Some? then r.value else |s| + 1) ==> !Occurs(s, token, k)
    decreases |s| + 1 - i
  {
    if i + |token| > |s| then None else if Occurs(s, token, i) then Some(i) else FirstOccurrence(s, token, i + 1)
  }

  /** The occurrences the loop replaces: it never looks inside an occurrence it has passed. */
  function Sites(s: Text, token: Text, cursor: nat): seq<nat>
    requires token != []
    decreases |s| + 1 - cursor
  {
    match FirstOccurrence(s, token, cursor)
    case None => []
    case Some(k) => (if IsBounded(s, token, k) then [k] else []) + Sites(s, token, k + |token|)
  }

  ghost predicate AreSites(s: Text, token: Text, sites: seq<nat>, cursor: nat) {
    if sites == [] then cursor <= |s|
    else
      && cursor <= sites[0] && Occurs(s, token, sites[0]) && IsBounded(s, token, sites[0])
      && AreSites(s, token, sites[1..], sites[0] + |token|)
  }

  /** The text from `cursor` on with each site replaced. */
  function WithReplaced(s: Text, token: Text, sites: seq<nat>, replacement: Text, cursor: nat): Text
    requires AreSites(s, token, sites, cursor)
    decreases |sites|
  {
    if sites == [] then s[cursor..]
    else s[cursor..sites[0]] + replacement + WithReplaced(s, token, sites[1..], replacement, sites[0] + |token|)
  }

  /** Only bounded occurrences are replaced, from left to right and without overlap. */
  lemma {:induction false} SitesAreBounded(s: Text, token: Text, cursor: nat)
    requires token != [] && cursor <= |s|
    ensures AreSites(s, token, Sites(s, token, cursor), cursor)
    decreases |s| - cursor
  {
    hide StartsWith;
    var first := FirstOccurrence(s, token, cursor);
    if first.Some? {
      SitesAreBounded(s, token, first.value + |token|);
      var later := Sites(s, token, first.value + |token|);
      SitesEarlier(s, token, later, cursor, first.value + |token|);
      if IsBounded(s, token, first.value) {
        assert ([first.value] + later)[1..] == later;
      } else {
        assert [] + later == later;
      }
    }
  }

  lemma SitesEarlier(s: Text, token: Text, sites: seq<nat>, cursor: nat, later: nat)
    requires AreSites(s, token, sites, later) && cursor <= later
    ensures AreSites(s, token, sites, cursor)
  {
  }

  /** The token overlaps itself by all but `d` characters, right behind a character that bounds. */
  predicate OverlapsBounded(token: Text, d: nat) {
    0 < d < |token| && token[d..] == token[..|token| - d] && !IsIdentifierChar(token[d - 1])
  }

  /** An occurrence of the token can hide a bounded one. */
  predicate CanHide(token: Text) {
    exists d :: 0 < d < |token| && OverlapsBounded(token, d)
  }

  /** A bounded occurrence never starts inside another occurrence of such a token. */
  lemma BoundedIsApart(s: Text, token: Text, j: nat, k: nat)
    requires !CanHide(token) && j < k && Occurs(s, token, j) && Occurs(s, token, k) && IsBounded(s, token, k)
    ensures j + |token| <= k
  {
    if k < j + |token| {
      var d := k - j;
      forall m | 0 <= m < |token| - d ensures token[d + m] == token[m] {
        StartsWithAt(s, j, token, d + m);
        StartsWithAt(s, k, token, m);
      }
      StartsWithAt(s, j, token, d - 1);
      SelfOverlap(token, d);
      assert false;
    }
  }

  lemma SelfOverlap(token: Text, d: nat)
    requires 0 < d < |token| && forall m :: 0 <= m < |token| - d ==> token[d + m] == token[m]
    requires !IsIdentifierChar(token[d - 1])
    ensures CanHide(token)
  {
    assert token[d..] == token[..|token| - d];
    assert OverlapsBounded(token, d);
  }

  /** Every bounded occurrence of such a token is replaced. */
  lemma {:induction false} SitesAreAll(s: Text, token: Text, cursor: nat, k: nat)
    requires token != [] && !CanHide(token) && cursor <= k
    requires Occurs(s, token, k) && IsBounded(s, token, k)
    ensures k in Sites(s, token, cursor)
    decreases |s| + 1 - cursor
  {
    hide StartsWith, CanHide, IsIdentifierChar;
    var first := FirstOccurrence(s, token, cursor).value;
    if first < k {
      BoundedIsApart(s, token, first, k);
      SitesAreAll(s, token, first + |token|, k);
    }
  }

  lemma {:induction false} SitesAreOnly(s: Text, token: Text, cursor: nat, k: nat)
    requires token != [] && k in Sites(s, token, cursor)
    ensures cursor <= k && Occurs(s, token, k) && IsBounded(s, token, k)
    decreases |s| + 1 - cursor
  {
    hide StartsWith;
    var first := FirstOccurrence(s, token, cursor).value;
    if !(IsBounded(s, token, first) && k == first) {
      SitesAreOnly(s, token, first + |token|, k);
    }
  }

  predicate IsSite(s: Text, token: Text, k: nat) {
    Occurs(s, token, k) && IsBounded(s, token, k)
  }

  /** In every text exactly the bounded occurrences are replaced, if and only if the token cannot
      hide one of its own. */
  lemma ReplacedExactly(token: Text)
    requires token != []
    ensures (forall s: Text, k: nat :: k in Sites(s, token, 0) <==> IsSite(s, token, k)) <==> !CanHide(token)
  {
    hide CanHide, IsBounded, Occurs;
    if !CanHide(token) {
      forall s: Text, k: nat ensures k in Sites(s, token, 0) <==> IsSite(s, token, k) {
        if k in Sites(s, token, 0) {
          SitesAreOnly(s, token, 0, k);
        }
        if IsSite(s, token, k) {
          SitesAreAll(s, token, 0, k);
        }
      }
    } else {
      var s, d := HiddenIn(token);
      assert !(d in Sites(s, token, 0) <==> IsSite(s, token, d));
    }
  }

  /** Otherwise the token behind the beginning of itself is a bounded occurrence that is missed. */
  lemma HiddenIn(token: Text) returns (s: Text, d: nat)
    requires CanHide(token)
    ensures IsSite(s, token, d) && d !in Sites(s, token, 0)
  {
    hide StartsWith, IsIdentifierChar, IsBounded, Occurs;
    d :| 0 < d < |token| && OverlapsBounded(token, d);
    s := token[..d] + token;
    TokenTwice(token, d);
    FirstAtStart(s, token);
    if d in Sites(s, token, 0) {
      SitesAreOnly(s, token, |token|, d);
      assert false;
    }
  }

  lemma TokenTwice(token: Text, d: nat)
    requires 0 < d < |token| && OverlapsBounded(token, d)
    ensures var s := token[..d] + token; Occurs(s, token, 0) && IsSite(s, token, d)
  {
    var s := token[..d] + token;
    assert token[..d] + token[d..] == token;
    assert s[..|token|] == token[..d] + token[..|token| - d];
    assert s[d..d + |token|] == token;
  }

  lemma FirstAtStart(s: Text, token: Text)
    requires token != [] && Occurs(s, token, 0)
    ensures FirstOccurrence(s, token, 0) == Some(0)
  {
  }

  /** Such a token and text: the first occurrence is not bounded, and hides one that is. */
  lemma OverlapHidesAnOccurrence()
    ensures var s, token := "xx.x.x", "x.x";
            Occurs(s, token, 3) && IsBounded(s, token, 3) && Sites(s, token, 0) == []
  {
    var s, token: Text := "xx.x.x", "x.x";
    assert s[1..4] == token && s[3..6] == token;
    assert s[0..3] == "xx.";
    assert !Occurs(s, token, 0) && Occurs(s, token, 1) && Occurs(s, token, 3);
    assert FirstOccurrence(s, token, 0) == Some(1);
    assert !IsBounded(s, token, 1);
    assert FirstOccurrence(s, token, 4) == None;
    assert Sites(s, token, 4) == [];
  }

  // ------------------------------------------------------------------------------------------
  // The loops as written

  method Find(s: Text, token: Text, from: nat) returns (r: Option<nat>)
    requires from <= |s|
    ensures r == FirstOccurrence(s, token, from)
  {
    hide StartsWith;
    var i := from;
    while i + |token| <= |s|
      invariant from <= i && FirstOccurrence(s, token, from) == FirstOccurrence(s, token, i)
      decreases |s| + 1 - i
    {
      if StartsWith(s, i, token) {
        return Some(i);
      }
      i := i + 1;
    }
    return None;
  }

  lemma SitesOnce(s: Text, token: Text, replacement: Text, cursor: nat, k: nat)
    requires token != [] && cursor <= |s| && FirstOccurrence(s, token, cursor) == Some(k)
    ensures AreSites(s, token, Sites(s, token, cursor), cursor)
    ensures AreSites(s, token, Sites(s, token, k + |token|), k + |token|)
    ensures WithReplaced(s, token, Sites(s, token, cursor), replacement, cursor) ==
            (if IsBounded(s, token, k) then s[cursor..k] + replacement else s[cursor..k + |token|])
            + WithReplaced(s, token, Sites(s, token, k + |token|), replacement, k + |token|)
  {
    hide StartsWith, FirstOccurrence, IsBounded;
    SitesAreBounded(s, token, cursor);
    SitesAreBounded(s, token, k + |token|);
    var later := Sites(s, token, k + |token|);
    if IsBounded(s, token, k) {
      assert ([k] + later)[1..] == later;
    } else {
      assert [] + later == later;
      ReplacedEarlier(s, token, later, replacement, cursor, k + |token|);
    }
  }

  lemma ReplacedEarlier(s: Text, token: Text, sites: seq<nat>, replacement: Text, cursor: nat, later: nat)
    requires AreSites(s, token, sites, later) && cursor <= later <= |s| && AreSites(s, token, sites, cursor)
    ensures WithReplaced(s, token, sites, replacement, cursor) == s[cursor..later] + WithReplaced(s, token, sites, replacement, later)
  {
    hide StartsWith, IsBounded, AreSites, WithReplaced, Occurs;
    ReplacedHere(s, token, sites, replacement, cursor);
    ReplacedHere(s, token, sites, replacement, later);
    if sites == [] {
      assert s[cursor..] == s[cursor..later] + s[later..];
    } else {
      var k := sites[0];
      var rest := WithReplaced(s, token, sites[1..], replacement, k + |token|);
      SliceFurther(s, cursor, later, k, replacement, rest);
    }
  }

  lemma ReplacedHere(s: Text, token: Text, sites: seq<nat>, replacement: Text, cursor: nat)
    requires AreSites(s, token, sites, cursor)
    ensures sites == [] ==> cursor <= |s| && WithReplaced(s, token, sites, replacement, cursor) == s[cursor..]
    ensures sites != [] ==>
              && cursor <= sites[0] <= |s| && AreSites(s, token, sites[1..], sites[0] + |token|)
              && WithReplaced(s, token, sites, replacement, cursor) ==
                 s[cursor..sites[0]] + replacement + WithReplaced(s, token, sites[1..], replacement, sites[0] + |token|)
  {
    hide StartsWith, IsBounded;
  }

  lemma SliceFurther(s: Text, cursor: nat, later: nat, k: nat, replacement: Text, rest: Text)
    requires cursor <= later <= k <= |s|
    ensures s[cursor..k] + replacement + rest == s[cursor..later] + (s[later..k] + replacement + rest)
  {
    assert s[cursor..k] == s[cursor..later] + s[later..k];
    Associative(s[cursor..later], s[later..k] + replacement, rest);
    Associative(s[cursor..later], s[later..k], replacement);
  }

  method ReplaceBoundedToken(template: Text, token: Text, replacement: Text) returns (output: Text)
    requires token != []
    ensures AreSites(template, token, Sites(template, token, 0), 0)
    ensures output == WithReplaced(template, token, Sites(template, token, 0), replacement, 0)
  {
    hide StartsWith, WithReplaced, AreSites, Sites;
    output := [];
    var cursor := 0;
    SitesAreBounded(template, token, 0);
    ghost var all := WithReplaced(template, token, Sites(template, token, 0), replacement, 0);
    assert output + all == all;
    var found := Find(template, token, cursor);
    while found.Some?
      invariant cursor <= |template| && found == FirstOccurrence(template, token, cursor)
      invariant AreSites(template, token, Sites(template, token, cursor), cursor)
      invariant all == output + WithReplaced(template, token, Sites(template, token, cursor), replacement, cursor)
      decreases |template| - cursor
    {
      var index := found.value;
      var end := index + |token|;
      ghost var before := output;
      SitesOnce(template, token, replacement, cursor, index);
      ghost var rest := WithReplaced(template, token, Sites(template, token, end), replacement, end);
      if IsBounded(template, token, index) {
        Associative(before, template[cursor..index] + replacement, rest);
        Associative(before, template[cursor..index], replacement);
        output := output + template[cursor..index];
        output := output + replacement;
      } else {
        Associative(before, template[cursor..end], rest);
        output := output + template[cursor..end];
      }
      cursor := end;
      found := Find(template, token, cursor);
    }
    NoSites(template, token, replacement, cursor);
    output := output + template[cursor..];
  }

  lemma NoSites(s: Text, token: Text, replacement: Text, cursor: nat)
    requires token != [] && cursor <= |s| && FirstOccurrence(s, token, cursor) == None
    ensures AreSites(s, token, Sites(s, token, cursor), cursor)
    ensures WithReplaced(s, token, Sites(s, token, cursor), replacement, cursor) == s[cursor..]
  {
  }

  function TokenOf(rewrite: RelationRewrite, placeholder: Text): (r: Text)
    ensures r != []
  {
    placeholder + "." + rewrite.sourceName
  }

  function ReplacementOf(rewrite: RelationRewrite, placeholder: Text): Text {
    if rewrite.preserveSourceDatabase then placeholder + "." + rewrite.targetRelation else rewrite.targetRelation
  }

  function RewrittenBy(template: Text, rewrites: seq<RelationRewrite>, placeholder: Text): Text {
    if rewrites == [] then template
    else
      var n := |rewrites| - 1;
      var before := RewrittenBy(template, rewrites[..n], placeholder);
      var token := TokenOf(rewrites[n], placeholder);
      SitesAreBounded(before, token, 0);
      WithReplaced(before, token, Sites(before, token, 0), ReplacementOf(rewrites[n], placeholder), 0)
  }

  method RewriteTemplateRelations(template: Text, rewrites: seq<RelationRewrite>, placeholder: Text) returns (rewritten: Text)
    ensures rewritten == RewrittenBy(template, rewrites, placeholder)
  {
    hide WithReplaced, AreSites, Sites;
    rewritten := template;
    for k := 0 to |rewrites|
      invariant rewritten == RewrittenBy(template, rewrites[..k], placeholder)
    {
      assert rewrites[..k + 1][..k] == rewrites[..k];
      rewritten := ReplaceBoundedToken(rewritten, TokenOf(rewrites[k], placeholder), ReplacementOf(rewrites[k], placeholder));
    }
    assert rewrites[..|rewrites|] == rewrites;
  }
}
