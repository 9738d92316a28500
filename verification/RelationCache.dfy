/** Resolution targets parsed and generated once for every model of a compilation, and the
    resolution of one model through that cache
    (crates/sqltide-sqlanalysis/src/relations.rs). */
module RelationCaches {
  import opened Chars
  import Lexing
  import opened Trees
  import opened Facts
  import opened Relations
  import opened WalksAgree
  import Qualification
  import RelationRewrite
  import References
  import ReferenceSpans

  /** Parsing one statement and generating one tree; both may fail. */
  datatype Dialect = Dialect(parseOne: Text -> Option<Value>, generate: Value -> Option<Text>)

  datatype CachedRelation = CachedRelation(tree: Value, canonical: Option<Text>, templates: map<Text, Text>)

  // ------------------------------------------------------------------------------------------
  // Without a cache

  function HasAlias(payload: Value): bool {
    payload.Obj? && Get(payload.entries, Alias).Some? && !Get(payload.entries, Alias).value.Null?
  }

  const SelectKey: Key := Other("select")

  /** The one unaliased relation a target's statement selects from. */
  function SingleRelation(statement: Value): Option<Value> {
    var select := if statement.Obj? then ObjectOf(Get(statement.entries, SelectKey)) else None;
    if select.None? then None
    else
      var expressions := FromExpressions(select.value);
      var joins := ArrayOf(Get(select.value, Joins));
      if expressions.None? || |expressions.value| != 1 || (joins.Some? && joins.value != []) then None
      else
        var relation := expressions.value[0];
        if !relation.Obj? || HasKey(relation.entries, Alias) then None
        else if relation.entries != [] && HasAlias(relation.entries[0].value) then None
        else Some(relation)
  }

  function ParsedRelation(dialect: Dialect, target: Text): Option<Value> {
    match dialect.parseOne("SELECT * FROM " + target) case None => None case Some(tree) => SingleRelation(tree)
  }

  function CanonicalOf(dialect: Dialect, target: Text): Option<Text> {
    match ParsedRelation(dialect, target) case None => None case Some(tree) => dialect.generate(tree)
  }

  function TemplateOf(dialect: Dialect, target: Text, database: Text): Option<Text> {
    match ParsedRelation(dialect, target)
    case None => None
    case Some(tree) => dialect.generate(Qualification.Qualified(tree, database, []))
  }

  /** The generated form of a target: canonical, or qualified with a placeholder. */
  function FormOf(dialect: Dialect, target: Text, database: Option<Text>): Option<Text> {
    if database.None? then CanonicalOf(dialect, target) else TemplateOf(dialect, target, database.value)
  }

  function Render(dialect: Dialect, resolver: Text -> Option<Text>, database: Option<Text>): Text -> Option<Text> {
    (name: Text) => match resolver(name) case None => None case Some(target) => FormOf(dialect, target, database)
  }

  datatype Failure =
    | RawRelation(name: Text)
    | Unresolved(name: Text)
    | InvalidTarget(target: Text)
    | Misplaced
    | NotRendered
    | Reserved

  datatype Resolution = Done(canonicalSql: Text, databaseTemplate: Text) | Failed(failure: Failure)

  datatype ParsedModel = ParsedModel(tree: Value, referenceSlots: seq<Path>, rawRelation: Option<Text>)

  function IdentityFailure(dialect: Dialect, resolver: Text -> Option<Text>, id: Identity): Option<Failure> {
    match resolver(id.name)
    case None => Some(Unresolved(id.name))
    case Some(target) => if ParsedRelation(dialect, target).None? then Some(InvalidTarget(target)) else None
  }

  function SlotFailure(dialect: Dialect, resolver: Text -> Option<Text>, id: Option<Identity>): Option<Failure> {
    match id case None => None case Some(id) => IdentityFailure(dialect, resolver, id)
  }

  function FirstFailure(dialect: Dialect, resolver: Text -> Option<Text>, tree: Value, slots: seq<Path>): Option<Failure> {
    if slots == [] then None
    else
      var n := |slots| - 1;
      var earlier := FirstFailure(dialect, resolver, tree, slots[..n]);
      if earlier.Some? then earlier else SlotFailure(dialect, resolver, SlotIdentity(tree, slots[n]))
  }

  function Expected(refs: seq<References.SqlReference>): multiset<Identity> {
    if refs == [] then multiset{}
    else
      var n := |refs| - 1;
      Expected(refs[..n]) + multiset{Identity(refs[n].relation, refs[n].name, refs[n].refType)}
  }

  function InsertedByStart(r: References.SqlReference, refs: seq<References.SqlReference>): seq<References.SqlReference> {
    if refs == [] || r.start <= refs[0].start then [r] + refs
    else [refs[0]] + InsertedByStart(r, refs[1..])
  }

  /** The references in the order of their starts; those with equal starts keep their order. */
  function SortedByStart(refs: seq<References.SqlReference>): seq<References.SqlReference> {
    if refs == [] then [] else InsertedByStart(refs[0], SortedByStart(refs[1..]))
  }

  predicate StartsAscend(refs: seq<References.SqlReference>) {
    forall j, k :: 0 <= j < k < |refs| ==> refs[j].start <= refs[k].start
  }

  lemma FirstAscends(r: References.SqlReference, rest: seq<References.SqlReference>)
    requires StartsAscend(rest) && forall x :: x in rest ==> r.start <= x.start
    ensures StartsAscend([r] + rest)
  {
    forall j, k | 0 <= j < k < |rest| + 1 ensures ([r] + rest)[j].start <= ([r] + rest)[k].start {
      assert rest[k - 1] in rest;
    }
  }

  lemma {:induction false} InsertedHolds(r: References.SqlReference, refs: seq<References.SqlReference>)
    ensures multiset(InsertedByStart(r, refs)) == multiset{r} + multiset(refs)
    ensures forall x :: x in InsertedByStart(r, refs) ==> x == r || x in refs
  {
    if !(refs == [] || r.start <= refs[0].start) {
      InsertedHolds(r, refs[1..]);
      assert refs == [refs[0]] + refs[1..];
    }
  }

  lemma {:induction false} InsertedAscends(r: References.SqlReference, refs: seq<References.SqlReference>)
    requires StartsAscend(refs)
    ensures StartsAscend(InsertedByStart(r, refs)) && multiset(InsertedByStart(r, refs)) == multiset{r} + multiset(refs)
  {
    InsertedHolds(r, refs);
    if refs == [] || r.start <= refs[0].start {
      FirstAscends(r, refs);
    } else {
      var rest := InsertedByStart(r, refs[1..]);
      InsertedAscends(r, refs[1..]);
      InsertedHolds(r, refs[1..]);
      FirstAscends(refs[0], rest);
    }
  }

  /** Sorting is a rearrangement in ascending order. */
  lemma {:induction false} SortingAscends(refs: seq<References.SqlReference>)
    ensures StartsAscend(SortedByStart(refs)) && multiset(SortedByStart(refs)) == multiset(refs)
  {
    if refs != [] {
      SortingAscends(refs[1..]);
      InsertedAscends(refs[0], SortedByStart(refs[1..]));
      assert refs == [refs[0]] + refs[1..];
    }
  }

  /** References as the scanner gives them are in order already. */
  lemma {:induction false} OrderedIsSorted(sql: Text, refs: seq<References.SqlReference>, from: nat)
    requires ReferenceSpans.Ordered(sql, refs, from)
    ensures SortedByStart(refs) == refs
  {
    if refs != [] {
      OrderedIsSorted(sql, refs[1..], refs[0].end);
      assert |refs| > 1 ==> refs[1..][0].start >= refs[0].end;
    }
  }

  predicate Contains(s: Text, part: Text) {
    exists k :: 0 <= k <= |s| && Lexing.StartsWith(s, k, part)
  }

  /** Resolution as a function of its inputs alone. */
  function Resolved(model: ParsedModel, sql: Text, refs: seq<References.SqlReference>, resolver: Text -> Option<Text>, dialect: Dialect, database: Text): Resolution
    requires ReferenceSpans.Ordered(sql, SortedByStart(refs), 0)
  {
    var ordered := SortedByStart(refs);
    var failure := FirstFailure(dialect, resolver, model.tree, model.referenceSlots);
    if model.rawRelation.Some? then Failed(RawRelation(model.rawRelation.value))
    else if failure.Some? then Failed(failure.value)
    else if Expected(refs) != SlotIds(model.tree, model.referenceSlots) then Failed(Misplaced)
    else
      match ReferenceSpans.Substitution(sql, ordered, Render(dialect, resolver, None), 0)
      case None => Failed(NotRendered)
      case Some(canonical) =>
        if Contains(canonical, database) || Contains(sql, database) then Failed(Reserved)
        else
          match ReferenceSpans.Substitution(sql, ordered, Render(dialect, resolver, Some(database)), 0)
          case None => Failed(NotRendered)
          case Some(template) => Done(canonical, template)
  }

  // ------------------------------------------------------------------------------------------
  // What a resolved query holds

  /** The generated relation of a target, qualified first where a placeholder is given. */
  predicate IsForm(dialect: Dialect, target: Text, database: Option<Text>, form: Text) {
    match dialect.parseOne("SELECT * FROM " + target)
    case None => false
    case Some(statement) =>
      match SingleRelation(statement)
      case None => false
      case Some(tree) =>
        dialect.generate(if database.None? then tree else Qualification.Qualified(tree, database.value, [])) == Some(form)
  }

  /** One form for each reference, of the target its name resolves to. */
  ghost predicate AreForms(dialect: Dialect, resolver: Text -> Option<Text>, refs: seq<References.SqlReference>, database: Option<Text>, forms: seq<Text>) {
    && |forms| == |refs|
    && forall k :: 0 <= k < |refs| ==>
         resolver(refs[k].name).Some? && IsForm(dialect, resolver(refs[k].name).value, database, forms[k])
  }

  /** `out` holds the forms where the references went, and is the authored text everywhere else:
      putting the authored spans back restores it. */
  ghost predicate HoldsForms(sql: Text, refs: seq<References.SqlReference>, out: Text, forms: seq<Text>)
    requires ReferenceSpans.Ordered(sql, refs, 0)
  {
    && |forms| == |refs|
    && var moved := ReferenceSpans.Moved(sql, refs, forms, 0, 0);
    && ReferenceSpans.Ordered(out, moved, 0)
    && ReferenceSpans.Originals(out, moved, 0) == forms
    && ReferenceSpans.Splice(out, moved, ReferenceSpans.Originals(sql, refs, 0), 0) == sql
  }

  ghost predicate HoldsRelations(dialect: Dialect, resolver: Text -> Option<Text>, sql: Text, refs: seq<References.SqlReference>, database: Option<Text>, out: Text)
    requires ReferenceSpans.Ordered(sql, refs, 0)
  {
    exists forms :: AreForms(dialect, resolver, refs, database, forms) && HoldsForms(sql, refs, out, forms)
  }

  /** The canonical SQL holds the generated relations, the template the qualified ones, and the
      placeholder occurs in neither the authored nor the canonical SQL. */
  ghost predicate IsResolution(dialect: Dialect, resolver: Text -> Option<Text>, sql: Text, refs: seq<References.SqlReference>, database: Text, canonicalSql: Text, template: Text)
    requires ReferenceSpans.Ordered(sql, SortedByStart(refs), 0)
  {
    && !Contains(canonicalSql, database) && !Contains(sql, database)
    && HoldsRelations(dialect, resolver, sql, SortedByStart(refs), None, canonicalSql)
    && HoldsRelations(dialect, resolver, sql, SortedByStart(refs), Some(database), template)
  }

  lemma FormIsForm(dialect: Dialect, target: Text, database: Option<Text>)
    ensures FormOf(dialect, target, database).Some? ==> IsForm(dialect, target, database, FormOf(dialect, target, database).value)
  {
    hide SingleRelation, Qualification.Qualified;
  }

  lemma {:induction false} RenderedAreForms(dialect: Dialect, resolver: Text -> Option<Text>, refs: seq<References.SqlReference>, database: Option<Text>)
    requires ReferenceSpans.Rendered(refs, Render(dialect, resolver, database)).Some?
    ensures AreForms(dialect, resolver, refs, database, ReferenceSpans.Rendered(refs, Render(dialect, resolver, database)).value)
  {
    hide IsForm, FormOf;
    if refs != [] {
      var forms := ReferenceSpans.Rendered(refs, Render(dialect, resolver, database)).value;
      RenderedAreForms(dialect, resolver, refs[1..], database);
      FormIsForm(dialect, resolver(refs[0].name).value, database);
      forall k | 0 <= k < |refs|
        ensures resolver(refs[k].name).Some? && IsForm(dialect, resolver(refs[k].name).value, database, forms[k])
      {
        assert k > 0 ==> refs[k] == refs[1..][k - 1] && forms[k] == forms[1..][k - 1];
      }
    }
  }

  lemma SubstitutionHolds(dialect: Dialect, resolver: Text -> Option<Text>, sql: Text, refs: seq<References.SqlReference>, database: Option<Text>)
    requires ReferenceSpans.Ordered(sql, refs, 0)
    ensures var out := ReferenceSpans.Substitution(sql, refs, Render(dialect, resolver, database), 0);
            out.Some? ==> HoldsRelations(dialect, resolver, sql, refs, database, out.value)
  {
    hide IsForm, FormOf, ReferenceSpans.Ordered, ReferenceSpans.Splice, ReferenceSpans.Moved, ReferenceSpans.Originals, ReferenceSpans.Rendered;
    var render := Render(dialect, resolver, database);
    var rendered := ReferenceSpans.Rendered(refs, render);
    if rendered.Some? {
      var forms := rendered.value;
      RenderedAreForms(dialect, resolver, refs, database);
      var out := ReferenceSpans.Splice(sql, refs, forms, 0);
      ReferenceSpans.MovedHoldTexts(sql, refs, forms, 0, []);
      ReferenceSpans.SpliceIsReversible(sql, refs, forms, 0, []);
      assert [] + out == out && sql[0..] == sql;
      assert HoldsForms(sql, refs, out, forms);
    }
  }

  // ------------------------------------------------------------------------------------------
  // With the cache

  /** The forms kept for one target: `None` is the canonical one. */
  function Forms(relation: CachedRelation): set<Option<Text>> {
    (if relation.canonical.Some? then {None} else {})
    + set database | database in relation.templates :: Some(database)
  }

  function Kept(relations: map<Text, CachedRelation>): set<(Text, Option<Text>)> {
    set target, form | target in relations && form in Forms(relations[target]) :: (target, form)
  }

  ghost predicate Faithful(dialect: Dialect, target: Text, relation: CachedRelation) {
    && ParsedRelation(dialect, target) == Some(relation.tree)
    && (relation.canonical.Some? ==> CanonicalOf(dialect, target) == relation.canonical)
    && (forall database :: database in relation.templates ==>
          TemplateOf(dialect, target, database) == Some(relation.templates[database]))
  }

  lemma KeptMore(relations: map<Text, CachedRelation>, target: Text, new_: CachedRelation, form: Option<Text>)
    requires target in relations && form !in Forms(relations[target]) && Forms(new_) == Forms(relations[target]) + {form}
    ensures Kept(relations[target := new_]) == Kept(relations) + {(target, form)} && (target, form) !in Kept(relations)
  {
    hide Forms;
  }

  lemma CanonicalKept(dialect: Dialect, target: Text, relation: CachedRelation, sql: Text)
    requires Faithful(dialect, target, relation) && dialect.generate(relation.tree) == Some(sql)
    ensures Faithful(dialect, target, relation.(canonical := Some(sql)))
    ensures Forms(relation.(canonical := Some(sql))) == Forms(relation) + {None}
  {
    hide ParsedRelation;
  }

  lemma TemplateKept(dialect: Dialect, target: Text, relation: CachedRelation, database: Text, sql: Text)
    requires Faithful(dialect, target, relation) && database !in relation.templates
    requires dialect.generate(Qualification.Qualified(relation.tree, database, [])) == Some(sql)
    ensures var kept := relation.(templates := relation.templates[database := sql]);
            Faithful(dialect, target, kept) && Forms(kept) == Forms(relation) + {Some(database)}
  {
    hide ParsedRelation, Qualification.Qualified;
    var kept := relation.(templates := relation.templates[database := sql]);
    forall form | form in Forms(relation) + {Some(database)} ensures form in Forms(kept) {
    }
    forall form | form in Forms(kept) ensures form in Forms(relation) + {Some(database)} {
    }
  }

  lemma KeptAtFirst(dialect: Dialect, relations: map<Text, CachedRelation>, target: Text, tree: Value)
    requires target !in relations && ParsedRelation(dialect, target) == Some(tree)
    ensures var fresh_ := CachedRelation(tree, None, map[]);
            Faithful(dialect, target, fresh_) && Kept(relations[target := fresh_]) == Kept(relations)
  {
  }

  lemma IsParsed(dialect: Dialect, target: Text, relation: CachedRelation)
    requires Faithful(dialect, target, relation)
    ensures ParsedRelation(dialect, target).Some?
  {
  }

  class RelationCache {
    const dialect: Dialect
    var relations: map<Text, CachedRelation>
    var parses: nat
    var generations: nat
    ghost var failures: nat

    /** Every kept string is what the dialect would give now; each parse was kept or failed, and
        each generation was kept. */
    ghost predicate Valid()
      reads this
    {
      && (forall target :: target in relations ==> Faithful(dialect, target, relations[target]))
      && parses == |relations| + failures
      && generations == |Kept(relations)|
    }

    constructor (dialect: Dialect)
      ensures Valid() && this.dialect == dialect && parses == 0 && generations == 0
    {
      this.dialect := dialect;
      relations, parses, generations, failures := map[], 0, 0, 0;
    }

    method Relation(target: Text) returns (r: Option<CachedRelation>)
      requires Valid()
      modifies this
      ensures Valid()
      ensures r.Some? <==> ParsedRelation(dialect, target).Some?
      ensures r.Some? ==> target in relations && relations[target] == r.value && Faithful(dialect, target, r.value)
      ensures generations == old(generations)
      ensures relations.Keys == old(relations).Keys + if r.Some? then {target} else {}
      ensures forall other :: other in old(relations) ==> relations[other] == old(relations)[other]
      ensures parses == old(parses) + if target in old(relations) then 0 else 1
      ensures failures == old(failures) + if r.None? then 1 else 0
    {
      hide ParsedRelation, Forms, Kept, Faithful, CanonicalOf, TemplateOf;
      if target in relations {
        IsParsed(dialect, target, relations[target]);
      }
      if target !in relations {
        parses := parses + 1;
        var tree := ParsedRelation(dialect, target);
        if tree.None? {
          failures := failures + 1;
          return None;
        }
        KeptAtFirst(dialect, relations, target, tree.value);
        relations := relations[target := CachedRelation(tree.value, None, map[])];
      }
      return Some(relations[target]);
    }

    /** Store one more generated form. */
    method Keep(target: Text, relation: CachedRelation, form: Option<Text>)
      requires Valid() && target in relations && form !in Forms(relations[target])
      requires Faithful(dialect, target, relation) && Forms(relation) == Forms(relations[target]) + {form}
      modifies `relations, `generations
      ensures Valid() && Kept(relations) == Kept(old(relations)) + {(target, form)}
      ensures relations == old(relations)[target := relation] && generations == old(generations) + 1
    {
      hide Faithful, Forms, Kept;
      KeptMore(relations, target, relation, form);
      relations := relations[target := relation];
      generations := generations + 1;
    }

    method Canonical(target: Text) returns (r: Option<Text>)
      requires Valid()
      modifies this
      ensures Valid() && r == CanonicalOf(dialect, target)
      ensures Kept(old(relations)) <= Kept(relations)
      ensures (target, None) in Kept(old(relations)) ==> generations == old(generations) && parses == old(parses)
    {
      hide SingleRelation, Kept;
      var relation := Relation(target);
      KeptGrows(old(relations), relations);
      KeptForms(old(relations), target, None);
      if relation.None? {
        return None;
      }
      if relation.value.canonical.Some? {
        return relation.value.canonical;
      }
      r := dialect.generate(relation.value.tree);
      if r.Some? {
        CanonicalKept(dialect, target, relation.value, r.value);
        Keep(target, relation.value.(canonical := r), None);
      }
    }

    method Template(target: Text, database: Text) returns (r: Option<Text>)
      requires Valid()
      modifies this
      ensures Valid() && r == TemplateOf(dialect, target, database)
      ensures Kept(old(relations)) <= Kept(relations)
      ensures (target, Some(database)) in Kept(old(relations)) ==> generations == old(generations) && parses == old(parses)
    {
      hide SingleRelation, Kept;
      var relation := Relation(target);
      KeptGrows(old(relations), relations);
      KeptForms(old(relations), target, Some(database));
      if relation.None? {
        return None;
      }
      if database in relation.value.templates {
        return Some(relation.value.templates[database]);
      }
      var tree := Qualification.QualifyRelations(relation.value.tree, database, []);
      r := dialect.generate(tree);
      if r.Some? {
        TemplateKept(dialect, target, relation.value, database, r.value);
        Keep(target, relation.value.(templates := relation.value.templates[database := r.value]), Some(database));
      }
    }

    /** Look at one relation expression, below its aliases, and cache its target. */
    method ReferenceTarget(expression: Value, resolver: Text -> Option<Text>) returns (failure: Option<Failure>, id: Option<Identity>)
      requires Valid()
      modifies this
      ensures Valid() && id == IdentityAt(expression) && failure == SlotFailure(dialect, resolver, id)
      decreases expression
    {
      hide SingleRelation, Get, ReferenceIdentity, Kept, Faithful;
      if !expression.Obj? {
        return None, None;
      }
      var alias := AliasOf(expression.entries);
      if alias.Some? {
        AliasIsSmaller(expression);
        var inner := Get(alias.value, This);
        if inner.None? {
          return None, None;
        }
        failure, id := ReferenceTarget(inner.value, resolver);
        return;
      }
      id := ReferenceIdentity(expression.entries);
      if id.None? {
        return None, None;
      }
      var target := resolver(id.value.name);
      if target.None? {
        return Some(Unresolved(id.value.name)), id;
      }
      var relation := Relation(target.value);
      failure := if relation.None? then Some(InvalidTarget(target.value)) else None;
    }

    method ResolveSlots(model: ParsedModel, resolver: Text -> Option<Text>) returns (failure: Option<Failure>, ids: seq<Identity>)
      requires Valid()
      modifies this
      ensures Valid() && failure == FirstFailure(dialect, resolver, model.tree, model.referenceSlots)
      ensures failure.None? ==> multiset(ids) == SlotIds(model.tree, model.referenceSlots)
    {
      hide IdentityAt, At, SlotFailure, FirstFailure, SlotIds, Faithful, Kept;
      var slots := model.referenceSlots;
      failure, ids := None, [];
      NoSlots(dialect, resolver, model.tree, slots);
      for k := 0 to |slots|
        invariant Valid() && failure == FirstFailure(dialect, resolver, model.tree, slots[..k])
        invariant failure.None? ==> multiset(ids) == SlotIds(model.tree, slots[..k])
      {
        OneMoreSlot(dialect, resolver, model.tree, slots, k);
        var expression := At(model.tree, slots[k]);
        NullHasNoIdentity();
        var found, id := ReferenceTarget(if expression.Some? then expression.value else Null, resolver);
        if found.Some? {
          failure := if failure.Some? then failure else found;
        } else if id.Some? {
          ids := ids + [id.value];
        }
      }
      assert slots[..|slots|] == slots;
    }

    method RenderOne(target: Text, database: Option<Text>) returns (r: Option<Text>)
      requires Valid()
      modifies this
      ensures Valid() && r == FormOf(dialect, target, database)
    {
      if database.None? {
        r := Canonical(target);
      } else {
        r := Template(target, database.value);
      }
    }

    method Substituted(sql: Text, refs: seq<References.SqlReference>, resolver: Text -> Option<Text>, database: Option<Text>) returns (r: Option<Text>)
      requires Valid() && ReferenceSpans.Ordered(sql, refs, 0)
      modifies this
      ensures Valid() && r == ReferenceSpans.Substitution(sql, refs, Render(dialect, resolver, database), 0)
    {
      hide ReferenceSpans.Substitution, FormOf, Kept, Faithful;
      ghost var render := Render(dialect, resolver, database);
      var pieces: Text := [];
      var cursor: nat := 0;
      assert refs[0..] == refs;
      ghost var all := ReferenceSpans.Substitution(sql, refs, render, 0);
      assert all.Some? ==> pieces + all.value == all.value;
      for k := 0 to |refs|
        invariant Valid() && cursor <= |sql| && ReferenceSpans.Ordered(sql, refs[k..], cursor)
        invariant var rest := ReferenceSpans.Substitution(sql, refs[k..], render, cursor);
                  all == if rest.Some? then Some(pieces + rest.value) else None
      {
        var reference := refs[k];
        assert refs[k..][0] == reference && refs[k..][1..] == refs[k + 1..];
        ReferenceSpans.SubstitutionOnce(sql, refs[k..], render, cursor);
        var target := resolver(reference.name);
        if target.None? {
          return None;
        }
        var text := RenderOne(target.value, database);
        if text.None? {
          return None;
        }
        ghost var before, later := pieces, ReferenceSpans.Substitution(sql, refs[k + 1..], render, reference.end);
        pieces := pieces + sql[References.Min(cursor, |sql|)..References.Min(reference.start, |sql|)];
        pieces := pieces + text.value;
        if later.Some? {
          ReferenceSpans.SplicedPieces(before, sql[cursor..reference.start], text.value, later.value);
        }
        cursor := reference.end;
      }
      ReferenceSpans.SubstitutionEnds(sql, render, cursor);
      assert refs[|refs|..] == [];
      pieces := pieces + sql[References.Min(cursor, |sql|)..];
      return Some(pieces);
    }

    /** The result never depends on what was resolved before.  References may come in any order, but
        their spans must not overlap. */
    method Resolve(model: ParsedModel, sql: Text, refs: seq<References.SqlReference>, resolver: Text -> Option<Text>, database: Text) returns (r: Resolution)
      requires Valid() && ReferenceSpans.Ordered(sql, SortedByStart(refs), 0)
      modifies this
      ensures Valid() && r == Resolved(model, sql, refs, resolver, dialect, database)
      ensures r.Done? ==> IsResolution(dialect, resolver, sql, refs, database, r.canonicalSql, r.databaseTemplate)
      ensures r.Done? ==> model.rawRelation.None? && Expected(refs) == SlotIds(model.tree, model.referenceSlots)
    {
      hide ReferenceSpans.Substitution, ReferenceSpans.Ordered, FirstFailure, SlotIds, Expected, Contains, Kept, Faithful, SortedByStart, HoldsRelations;
      if model.rawRelation.Some? {
        return Failed(RawRelation(model.rawRelation.value));
      }
      var failure, ids := ResolveSlots(model, resolver);
      if failure.Some? {
        return Failed(failure.value);
      }
      if Expected(refs) != multiset(ids) {
        return Failed(Misplaced);
      }
      var ordered := SortedByStart(refs);
      var canonical := Substituted(sql, ordered, resolver, None);
      if canonical.None? {
        return Failed(NotRendered);
      }
      if Contains(canonical.value, database) || Contains(sql, database) {
        return Failed(Reserved);
      }
      var template := Substituted(sql, ordered, resolver, Some(database));
      if template.None? {
        return Failed(NotRendered);
      }
      SubstitutionHolds(dialect, resolver, sql, ordered, None);
      SubstitutionHolds(dialect, resolver, sql, ordered, Some(database));
      return Done(canonical.value, template.value);
    }
  }

  lemma NullHasNoIdentity()
    ensures IdentityAt(Null) == None
  {
  }

  lemma NoSlots(dialect: Dialect, resolver: Text -> Option<Text>, tree: Value, slots: seq<Path>)
    ensures FirstFailure(dialect, resolver, tree, slots[..0]) == None && SlotIds(tree, slots[..0]) == multiset{}
  {
  }

  lemma OneMoreSlot(dialect: Dialect, resolver: Text -> Option<Text>, tree: Value, slots: seq<Path>, k: nat)
    requires k < |slots|
    ensures var id, earlier := SlotIdentity(tree, slots[k]), FirstFailure(dialect, resolver, tree, slots[..k]);
            && FirstFailure(dialect, resolver, tree, slots[..k + 1]) ==
               (if earlier.Some? then earlier else SlotFailure(dialect, resolver, id))
            && SlotIds(tree, slots[..k + 1]) == SlotIds(tree, slots[..k]) + OneOf(id)
  {
    hide SlotIdentity, SlotFailure;
    assert slots[..k + 1][..k] == slots[..k];
  }

  lemma KeptForms(relations: map<Text, CachedRelation>, target: Text, form: Option<Text>)
    ensures (target, form) in Kept(relations) <==> target in relations && form in Forms(relations[target])
  {
    hide Forms;
  }

  lemma KeptGrows(a: map<Text, CachedRelation>, b: map<Text, CachedRelation>)
    requires a.Keys <= b.Keys && forall target :: target in a ==> Forms(a[target]) <= Forms(b[target])
    ensures Kept(a) <= Kept(b)
  {
    hide Forms;
  }

  // ------------------------------------------------------------------------------------------
  // What a resolved query means

  lemma {:induction false} NoFailureResolves(dialect: Dialect, resolver: Text -> Option<Text>, tree: Value, slots: seq<Path>)
    ensures FirstFailure(dialect, resolver, tree, slots).None? <==>
            RelationRewrite.Resolves(SlotIds(tree, slots), ParsedTargets(dialect, resolver))
  {
    hide ParsedRelation, SlotIdentity;
    if slots != [] {
      NoFailureResolves(dialect, resolver, tree, slots[..|slots| - 1]);
      var id := SlotIdentity(tree, slots[|slots| - 1]);
      assert id.Some? ==> id.value in OneOf(id);
    }
  }

  /** The relation a name resolves to, as the rewriting walk sees it. */
  function ParsedTargets(dialect: Dialect, resolver: Text -> Option<Text>): RelationRewrite.Targets {
    (name: Text) => match resolver(name) case None => None case Some(target) => ParsedRelation(dialect, target)
  }

  /** A query is resolved as text exactly when the tree rewrite succeeds and finds the references
      the scanner found in the text, apart from the dialect's generation and the reserved
      placeholder. */
  lemma ResolvesLikeTheRewrite(tree: Value, sql: Text, refs: seq<References.SqlReference>, resolver: Text -> Option<Text>, dialect: Dialect, database: Text)
    requires Unique(tree) && CallsArePlain(tree, Nowhere) && TablesArePlain(tree, Nowhere)
    requires ReferenceSpans.Ordered(sql, SortedByStart(refs), 0) && Raw(tree, []).None?
    ensures var r := Resolved(ParsedModel(tree, Slots(tree, []), Raw(tree, [])), sql, refs, resolver, dialect, database);
            (r.Done? || r.failure.NotRendered? || r.failure.Reserved?) <==>
              && RelationRewrite.Resolves(Gathered(tree, Nowhere), ParsedTargets(dialect, resolver))
              && Gathered(tree, Nowhere) == Expected(refs)
  {
    hide ReferenceSpans.Substitution, Gathered, Expected, Contains, RelationRewrite.Resolves, FirstFailure;
    WalksFindTheSame(tree);
    NoFailureResolves(dialect, resolver, tree, Slots(tree, []));
    FailuresAreUnresolved(dialect, resolver, tree, Slots(tree, []));
  }

  lemma {:induction false} FailuresAreUnresolved(dialect: Dialect, resolver: Text -> Option<Text>, tree: Value, slots: seq<Path>)
    ensures var f := FirstFailure(dialect, resolver, tree, slots);
            f.Some? ==> f.value.Unresolved? || f.value.InvalidTarget?
  {
    hide ParsedRelation, SlotIdentity;
    if slots != [] {
      FailuresAreUnresolved(dialect, resolver, tree, slots[..|slots| - 1]);
    }
  }
}
