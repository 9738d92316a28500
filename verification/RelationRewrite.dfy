/** Replacing references by the relations they resolve to
    (crates/sqltide-sqlanalysis/src/relations.rs). */
module RelationRewrite {
  import opened Chars
  import opened Trees
  import opened Relations
  import opened Facts
  import opened WalksAgree
  import opened Qualification

  /** The parsed relation a name resolves to; `None` when it has no target or the target is no
      single relation. */
  type Targets = Text -> Option<Value>

  /** The tree with every reference replaced, where its target is known. */
  function Rewritten(v: Value, role: Role, targets: Targets): Value
    decreases v, 1
  {
    if IsReference(role, v) then
      match targets(ReferenceIdentity(v.entries).value.name) case Some(tree) => tree case None => v
    else match v
      case Arr(items) =>
        Arr(seq(|items|, k requires 0 <= k < |items| => Rewritten(items[k], ItemRole(role, items[k]), targets)))
      case Obj(entries) => Obj(RewrittenEntries(entries, role, targets))
      case _ => v
  }

  function RewrittenEntries(entries: seq<Entry>, role: Role, targets: Targets): seq<Entry>
    decreases Obj(entries), 0
  {
    seq(|entries|, k requires 0 <= k < |entries| =>
      Entry(entries[k].key,
            Rewritten(entries[k].value, ChildRole(role, entries[k].key, entries[k].value), targets)))
  }

  ghost predicate Resolves(ids: multiset<Identity>, targets: Targets) {
    forall id :: id in ids ==> targets(id.name).Some?
  }

  /** Every target is a tree of its own that holds no reference. */
  ghost predicate Closed(targets: Targets) {
    forall name :: targets(name).Some? ==>
      Unique(targets(name).value) && Gathered(targets(name).value, Nowhere) == multiset{}
  }

  lemma {:induction false} NothingToRewrite(v: Value, role: Role, targets: Targets)
    requires Gathered(v, role) == multiset{}
    ensures Rewritten(v, role, targets) == v
    decreases v, 1
  {
    hide ReferenceIdentity, AliasOf, KeyRole, InheritedRole;
    match v
    case Arr(items) =>
      forall k | 0 <= k < |items| ensures Rewritten(items[k], ItemRole(role, items[k]), targets) == items[k] {
        ItemsGathered(items, role, k);
        NothingToRewrite(items[k], ItemRole(role, items[k]), targets);
      }
    case Obj(entries) =>
      var r := RewrittenEntries(entries, role, targets);
      forall k | 0 <= k < |entries| ensures r[k] == entries[k] {
        EntriesGathered(entries, role, k);
        NothingToRewrite(entries[k].value, ChildRole(role, entries[k].key, entries[k].value), targets);
      }
      assert r == entries;
    case _ =>
  }

  // ------------------------------------------------------------------------------------------
  // What rewriting keeps

  lemma {:induction false} RewrittenLookup(entries: seq<Entry>, role: Role, targets: Targets, key: Key)
    ensures var r := RewrittenEntries(entries, role, targets);
            && HasKey(r, key) == HasKey(entries, key)
            && (Get(entries, key).Some? ==>
                  var v := Get(entries, key).value;
                  Get(r, key) == Some(Rewritten(v, ChildRole(role, key, v), targets)))
  {
    hide HasKey, ChildRole;
    GetOfMapped(entries, RewrittenEntries(entries, role, targets), key);
  }

  lemma RewrittenTableNode(entries: seq<Entry>, role: Role, targets: Targets)
    requires TablePayload(entries).None?
    ensures TablePayload(RewrittenEntries(entries, role, targets)).None?
  {
    hide HasKey, IsReference;
    RewrittenLookup(entries, role, targets, Table);
    if Get(entries, Table).Some? {
      var child := Get(entries, Table).value;
      assert ChildRole(role, Table, child) == Nowhere;
      NoReferenceNowhere(child);
      if child.Obj? {
        RewrittenLookup(child.entries, Nowhere, targets, Schema);
      }
    }
  }

  lemma NoReferenceNowhere(v: Value)
    ensures !IsReference(Nowhere, v) && !IsReference(InAlias, v)
  {
  }

  lemma {:induction false} RewrittenIsCopy(v: Value, role: Role, targets: Targets, depth: nat)
    requires role == Nowhere || role == InAlias || (v.Obj? && !IsReference(role, v))
    ensures Copied(v, Rewritten(v, role, targets), depth)
    decreases depth
  {
    hide HasKey, IsReference;
    NoReferenceNowhere(v);
    if depth > 0 && v.Obj? {
      forall key | IsDeclarationKey(key)
        ensures CopiedAt(v.entries, Rewritten(v, role, targets).entries, key, depth - 1)
      {
        RewrittenLookup(v.entries, role, targets, key);
        if Get(v.entries, key).Some? {
          var child := Get(v.entries, key).value;
          RewrittenIsCopy(child, ChildRole(role, key, child), targets, depth - 1);
        }
      }
    } else if depth > 0 && v.Arr? {
      forall k | 0 <= k < |v.items|
        ensures Copied(v.items[k], Rewritten(v.items[k], ItemRole(role, v.items[k]), targets), depth - 1)
      {
        RewrittenIsCopy(v.items[k], Nowhere, targets, depth - 1);
      }
    }
  }

  // ------------------------------------------------------------------------------------------
  // Qualification commutes with resolution

  /** The scope below a node: an entry's value adds the names it declares, an array item does not. */
  function Inner(visible: seq<Text>, v: Value, isEntry: bool): seq<Text> {
    if isEntry then Scope(visible, v) else visible
  }

  /** No CTE visible at a reference names a bare table of its target. */
  predicate NoneCaptured(v: Value, role: Role, targets: Targets, visible: seq<Text>, isEntry: bool)
    decreases v
  {
    if IsReference(role, v) then
      var target := targets(ReferenceIdentity(v.entries).value.name);
      target.Some? ==> !Captures(Inner(visible, target.value, isEntry), target.value, [])
    else match v
      case Arr(items) =>
        forall k :: 0 <= k < |items| ==>
          NoneCaptured(items[k], ItemRole(role, items[k]), targets, Inner(visible, v, isEntry), false)
      case Obj(entries) =>
        forall k :: 0 <= k < |entries| ==>
          NoneCaptured(entries[k].value, ChildRole(role, entries[k].key, entries[k].value), targets,
                       Inner(visible, v, isEntry), true)
      case _ => true
  }

  /** Each target qualified on its own, as for a reference's cached template. */
  function QualifiedTargets(targets: Targets, database: Text): Targets {
    (name: Text) => match targets(name) case None => None case Some(tree) => Some(Qualified(tree, database, []))
  }

  lemma InnerKept(v: Value, role: Role, targets: Targets, visible: seq<Text>, isEntry: bool)
    requires !IsReference(role, v)
    ensures Inner(visible, Rewritten(v, role, targets), isEntry) == Inner(visible, v, isEntry)
  {
    if v.Obj? {
      RewrittenIsCopy(v, role, targets, 5);
      CopiedScope(visible, v, Rewritten(v, role, targets));
    }
  }

  /** Where no raw relation is left beside the references, no table node holds a reference and no
      CTE captures a target, qualifying the rewritten tree is rewriting with qualified targets. */
  lemma {:induction false} QualificationCommutes(v: Value, role: Role, targets: Targets, database: Text, visible: seq<Text>, isEntry: bool)
    requires AllQualified(v, Inner(visible, v, isEntry)) && TablesArePlain(v, role)
    requires Resolves(Gathered(v, role), targets) && NoneCaptured(v, role, targets, visible, isEntry)
    ensures var r := Rewritten(v, role, targets);
            Qualified(r, database, Inner(visible, r, isEntry)) == Rewritten(v, role, QualifiedTargets(targets, database))
    decreases v, 1
  {
    hide ReferenceIdentity, AliasOf, Scope, TablePayload, Captures, ItemRole, ChildRole;
    var scope := Inner(visible, v, isEntry);
    if IsReference(role, v) {
      var id := ReferenceIdentity(v.entries).value;
      assert id in Gathered(v, role);
      var tree := targets(id.name).value;
      CapturesExactly(Inner(visible, tree, isEntry), tree, [], database);
      assert Inner(visible, tree, isEntry) + [] == Inner(visible, tree, isEntry);
    } else {
      InnerKept(v, role, targets, visible, isEntry);
      match v
      case Arr(items) =>
        forall k | 0 <= k < |items|
          ensures Qualified(Rewritten(items[k], ItemRole(role, items[k]), targets), database, scope)
               == Rewritten(items[k], ItemRole(role, items[k]), QualifiedTargets(targets, database))
        {
          ItemsGathered(items, role, k);
          QualificationCommutes(items[k], ItemRole(role, items[k]), targets, database, scope, false);
        }
      case Obj(entries) =>
        if TablePayload(entries).Some? {
          NothingToRewrite(v, role, targets);
          NothingToRewrite(v, role, QualifiedTargets(targets, database));
          UnchangedExactly(v, database, scope);
        } else {
          RewrittenTableNode(entries, role, targets);
          CommutesBelow(entries, role, targets, database, scope);
        }
      case _ =>
    }
  }

  lemma {:induction false} CommutesBelow(entries: seq<Entry>, role: Role, targets: Targets, database: Text, scope: seq<Text>)
    requires forall k :: 0 <= k < |entries| ==>
      var Entry(key, child) := entries[k];
      && AllQualified(child, Scope(scope, child)) && TablesArePlain(child, ChildRole(role, key, child))
      && NoneCaptured(child, ChildRole(role, key, child), targets, scope, true)
    requires Resolves(GatheredEntries(entries, role), targets)
    ensures QualifiedEntries(RewrittenEntries(entries, role, targets), database, scope)
         == RewrittenEntries(entries, role, QualifiedTargets(targets, database))
    decreases Obj(entries), 0
  {
    hide Scope, ChildRole, AllQualified, TablesArePlain, NoneCaptured, Rewritten, Qualified, QualifiedTargets;
    var rewritten := RewrittenEntries(entries, role, targets);
    var left := QualifiedEntries(rewritten, database, scope);
    var right := RewrittenEntries(entries, role, QualifiedTargets(targets, database));
    forall k | 0 <= k < |entries| ensures left[k] == right[k] {
      EntriesGathered(entries, role, k);
      var Entry(key, child) := entries[k];
      QualificationCommutes(entries[k].value, ChildRole(role, key, child), targets, database, scope, true);
    }
  }

  /** The same for a whole query without raw relations. */
  lemma ResolutionMayQualifyTargets(tree: Value, targets: Targets, database: Text)
    requires Raw(tree, []).None? && TablesArePlain(tree, Nowhere)
    requires Resolves(Gathered(tree, Nowhere), targets) && NoneCaptured(tree, Nowhere, targets, [], false)
    ensures Qualified(Rewritten(tree, Nowhere, targets), database, [])
         == Rewritten(tree, Nowhere, QualifiedTargets(targets, database))
  {
    RawAbsent(tree, []);
    QualificationCommutes(tree, Nowhere, targets, database, [], false);
  }
}
