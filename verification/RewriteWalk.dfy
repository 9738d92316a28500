/** The rewriting walk as written: it replaces the references of a node's own relation positions
    first, and then walks the node it has just changed
    (crates/sqltide-sqlanalysis/src/relations.rs, `rewrite_tree` and `replacement`). */
module RewriteWalk {
  import opened Chars
  import opened Trees
  import opened Relations
  import opened Facts
  import opened WalksAgree
  import opened RelationRewrite

  /** A node after the positions its role gives it have been replaced, and nothing else. */
  function Replaced(v: Value, role: Role, targets: Targets): Value
    decreases v, 1
  {
    if IsReference(role, v) then
      match targets(ReferenceIdentity(v.entries).value.name) case Some(tree) => tree case None => v
    else match v
      case Arr(items) =>
        Arr(seq(|items|, k requires 0 <= k < |items| => Replaced(items[k], ItemRole(role, items[k]), targets)))
      case Obj(entries) => Obj(ReplacedEntries(entries, role, targets))
      case _ => v
  }

  function ReplacedEntries(entries: seq<Entry>, role: Role, targets: Targets): seq<Entry>
    decreases Obj(entries), 0
  {
    seq(|entries|, k requires 0 <= k < |entries| =>
      if InheritingKey(role) == Some(entries[k].key)
      then Entry(entries[k].key, Replaced(entries[k].value, InheritedRole(role, entries[k].value), targets))
      else entries[k])
  }

  lemma {:induction false} ItemsHaveRoleIds(items: seq<Value>, role: Role, k: nat)
    requires k < |items|
    ensures RoleIds(items[k], ItemRole(role, items[k])) <= RoleIdsOfItems(items, role)
  {
    hide RoleIds;
    var n := |items| - 1;
    if k < n {
      ItemsHaveRoleIds(items[..n], role, k);
    }
  }

  lemma {:induction false} EntriesHaveRoleIds(entries: seq<Entry>, role: Role, k: nat)
    requires k < |entries| && InheritingKey(role) == Some(entries[k].key)
    ensures RoleIds(entries[k].value, InheritedRole(role, entries[k].value)) <= RoleIdsOfEntries(entries, role)
  {
    hide RoleIds;
    var n := |entries| - 1;
    if k < n {
      EntriesHaveRoleIds(entries[..n], role, k);
    }
  }

  lemma {:induction false} NothingToReplace(v: Value, role: Role, targets: Targets)
    requires RoleIds(v, role) == multiset{}
    ensures Replaced(v, role, targets) == v
    decreases v, 1
  {
    hide ReferenceIdentity, AliasOf, RoleIdsOfItems, RoleIdsOfEntries, ReplacedEntries;
    match v
    case Arr(items) =>
      forall k | 0 <= k < |items| ensures Replaced(items[k], ItemRole(role, items[k]), targets) == items[k] {
        ItemsHaveRoleIds(items, role, k);
        NothingToReplace(items[k], ItemRole(role, items[k]), targets);
      }
    case Obj(entries) => NoEntryToReplace(entries, role, targets);
    case _ =>
  }

  lemma {:induction false} NoEntryToReplace(entries: seq<Entry>, role: Role, targets: Targets)
    requires RoleIdsOfEntries(entries, role) == multiset{}
    ensures ReplacedEntries(entries, role, targets) == entries
    decreases Obj(entries), 0
  {
    hide RoleIds, Replaced, InheritedRole;
    var r := ReplacedEntries(entries, role, targets);
    forall k | 0 <= k < |entries| ensures r[k] == entries[k] {
      if InheritingKey(role) == Some(entries[k].key) {
        EntriesHaveRoleIds(entries, role, k);
        NothingToReplace(entries[k].value, InheritedRole(role, entries[k].value), targets);
      }
    }
    assert r == entries;
  }

  /** Walking the replaced node gives what rewriting the original in its role gives. */
  lemma {:induction false} RewrittenAfterwards(v: Value, role: Role, targets: Targets)
    requires Closed(targets) && Resolves(RoleIds(v, role), targets)
    ensures Rewritten(Replaced(v, role, targets), Nowhere, targets) == Rewritten(v, role, targets)
    decreases v, 1
  {
    hide IsReference, Closed, RewrittenEntries, ReplacedEntries, RoleIdsOfItems, RoleIdsOfEntries;
    if IsReference(role, v) {
      ReferenceAfterwards(v, role, targets);
    } else {
      NoReferenceNowhere(Replaced(v, role, targets));
      match v
      case Arr(items) =>
        forall k | 0 <= k < |items|
          ensures Rewritten(Replaced(items[k], ItemRole(role, items[k]), targets), Nowhere, targets)
               == Rewritten(items[k], ItemRole(role, items[k]), targets)
        {
          ItemsHaveRoleIds(items, role, k);
          RewrittenAfterwards(items[k], ItemRole(role, items[k]), targets);
        }
      case Obj(entries) => RewrittenEntriesAfterwards(entries, role, targets);
      case _ =>
    }
  }

  lemma ReferenceAfterwards(v: Value, role: Role, targets: Targets)
    requires IsReference(role, v) && Closed(targets) && Resolves(RoleIds(v, role), targets)
    ensures Rewritten(Replaced(v, role, targets), Nowhere, targets) == Rewritten(v, role, targets)
  {
    hide ReferenceIdentity, AliasOf, Gathered, Unique;
    var id := ReferenceIdentity(v.entries).value;
    assert id in RoleIds(v, role);
    NothingToRewrite(targets(id.name).value, Nowhere, targets);
  }

  lemma {:induction false} RewrittenEntriesAfterwards(entries: seq<Entry>, role: Role, targets: Targets)
    requires Closed(targets) && Resolves(RoleIdsOfEntries(entries, role), targets)
    ensures RewrittenEntries(ReplacedEntries(entries, role, targets), Nowhere, targets)
         == RewrittenEntries(entries, role, targets)
    decreases Obj(entries), 0
  {
    hide Closed, RoleIds, Rewritten, Replaced, KeyRole, InheritedRole;
    var a := RewrittenEntries(ReplacedEntries(entries, role, targets), Nowhere, targets);
    var b := RewrittenEntries(entries, role, targets);
    forall k | 0 <= k < |entries| ensures a[k] == b[k] {
      var Entry(key, child) := entries[k];
      if InheritingKey(role) == Some(key) {
        EntriesHaveRoleIds(entries, role, k);
        RewrittenAfterwards(entries[k].value, InheritedRole(role, child), targets);
        InheritedKeyStartsNone(role, key, Replaced(child, InheritedRole(role, child), targets));
      }
    }
  }

  /** Replacing removes exactly the references of the role. */
  lemma {:induction false} GatheredAfterwards(v: Value, role: Role, targets: Targets)
    requires Closed(targets) && Resolves(RoleIds(v, role), targets)
    ensures Gathered(Replaced(v, role, targets), Nowhere) + RoleIds(v, role) == Gathered(v, role)
    decreases v, 2, 0
  {
    hide ReferenceIdentity, AliasOf, GatheredItems, GatheredEntries, RoleIdsOfItems, RoleIdsOfEntries;
    if IsReference(role, v) {
      assert ReferenceIdentity(v.entries).value in RoleIds(v, role);
    } else {
      NoReferenceNowhere(Replaced(v, role, targets));
      match v
      case Arr(items) =>
        GatheredItemsAfterwards(items, role, targets, |items|);
        assert items[..|items|] == items;
        assert Replaced(v, role, targets).items[..|items|] == Replaced(v, role, targets).items;
      case Obj(entries) =>
        GatheredEntriesAfterwards(entries, role, targets, |entries|);
        assert entries[..|entries|] == entries;
        assert ReplacedEntries(entries, role, targets)[..|entries|] == ReplacedEntries(entries, role, targets);
      case _ =>
    }
  }

  lemma {:induction false} GatheredItemsAfterwards(items: seq<Value>, role: Role, targets: Targets, n: nat)
    requires n <= |items| && Closed(targets) && Resolves(RoleIdsOfItems(items, role), targets)
    requires !IsReference(role, Arr(items))
    ensures GatheredItems(Replaced(Arr(items), role, targets).items[..n], Nowhere) + RoleIdsOfItems(items[..n], role)
         == GatheredItems(items[..n], role)
    decreases Arr(items), 1, n
  {
    hide Closed, Gathered, RoleIds, GatheredItems, RoleIdsOfItems, ItemRole;
    var r := Replaced(Arr(items), role, targets).items;
    GatheredItemsPrefix(items, role, n);
    GatheredItemsPrefix(r, Nowhere, n);
    RoleIdsOfPrefix(items, role, n);
    if n > 0 {
      GatheredItemsAfterwards(items, role, targets, n - 1);
      ItemsHaveRoleIds(items, role, n - 1);
      GatheredAfterwards(items[n - 1], ItemRole(role, items[n - 1]), targets);
      NowhereItem(r[n - 1]);
    }
  }

  lemma NowhereItem(v: Value)
    ensures ItemRole(Nowhere, v) == Nowhere
  {
  }

  lemma GatheredItemsPrefix(items: seq<Value>, role: Role, n: nat)
    requires n <= |items|
    ensures n == 0 ==> GatheredItems(items[..n], role) == multiset{}
    ensures n > 0 ==>
              var last := Gathered(items[n - 1], ItemRole(role, items[n - 1]));
              GatheredItems(items[..n], role) == GatheredItems(items[..n - 1], role) + last
  {
    hide Gathered, ItemRole;
    if n > 0 {
      assert items[..n][..n - 1] == items[..n - 1];
    }
  }

  lemma {:induction false} GatheredEntriesAfterwards(entries: seq<Entry>, role: Role, targets: Targets, n: nat)
    requires n <= |entries| && Closed(targets) && Resolves(RoleIdsOfEntries(entries, role), targets)
    ensures GatheredEntries(ReplacedEntries(entries, role, targets)[..n], Nowhere) + RoleIdsOfEntries(entries[..n], role)
         == GatheredEntries(entries[..n], role)
    decreases Obj(entries), 1, n
  {
    hide Closed, Gathered, RoleIds, Replaced, KeyRole, InheritedRole, GatheredEntries, RoleIdsOfEntries, Resolves;
    var r := ReplacedEntries(entries, role, targets);
    if n == 0 {
      GatheredPrefix(entries, role, 0);
      GatheredPrefix(r, Nowhere, 0);
    } else {
      GatheredEntriesAfterwards(entries, role, targets, n - 1);
      GatheredPrefix(entries, role, n);
      GatheredPrefix(r, Nowhere, n);
      ResolvedEntries(entries, role, targets, n - 1);
      var Entry(key, child) := entries[n - 1];
      if InheritingKey(role) == Some(key) {
        GatheredAfterwards(entries[n - 1].value, InheritedRole(role, child), targets);
        InheritedKeyStartsNone(role, key, Replaced(child, InheritedRole(role, child), targets));
      }
    }
  }

  lemma ResolvedEntries(entries: seq<Entry>, role: Role, targets: Targets, k: nat)
    requires k < |entries| && Resolves(RoleIdsOfEntries(entries, role), targets)
    ensures InheritingKey(role) == Some(entries[k].key) ==>
              Resolves(RoleIds(entries[k].value, InheritedRole(role, entries[k].value)), targets)
  {
    hide RoleIds, InheritedRole;
    if InheritingKey(role) == Some(entries[k].key) {
      EntriesHaveRoleIds(entries, role, k);
    }
  }

  lemma GatheredPrefix(entries: seq<Entry>, role: Role, n: nat)
    requires n <= |entries|
    ensures n == 0 ==> GatheredEntries(entries[..n], role) == multiset{} && RoleIdsOfEntries(entries[..n], role) == multiset{}
    ensures n > 0 ==>
              var Entry(key, v) := entries[n - 1];
              && GatheredEntries(entries[..n], role) ==
                 GatheredEntries(entries[..n - 1], role) + Gathered(v, ChildRole(role, key, v))
              && RoleIdsOfEntries(entries[..n], role) ==
                 RoleIdsOfEntries(entries[..n - 1], role)
                 + if InheritingKey(role) == Some(key) then RoleIds(v, InheritedRole(role, v)) else multiset{}
  {
    hide Gathered, RoleIds, ChildRole, InheritedRole;
    if n > 0 {
      assert entries[..n][..n - 1] == entries[..n - 1];
    }
  }

  lemma {:induction false} ReplacedIsUnique(v: Value, role: Role, targets: Targets)
    requires Unique(v) && Closed(targets)
    ensures Unique(Replaced(v, role, targets))
    decreases v
  {
    hide ReferenceIdentity, AliasOf, Gathered, InheritedRole;
    match v
    case Arr(items) =>
      forall k | 0 <= k < |items| ensures Unique(Replaced(items[k], ItemRole(role, items[k]), targets)) {
        ReplacedIsUnique(items[k], ItemRole(role, items[k]), targets);
      }
    case Obj(entries) =>
      forall k | 0 <= k < |entries| ensures Unique(ReplacedEntries(entries, role, targets)[k].value) {
        ReplacedIsUnique(entries[k].value, InheritedRole(role, entries[k].value), targets);
      }
    case _ =>
  }

  // ------------------------------------------------------------------------------------------
  // One relation expression

  /** The relation that takes an expression's place, inside the expression's alias if it has one. */
  function Replacement(v: Value, targets: Targets): Option<Value> {
    if !v.Obj? then None
    else match AliasOf(v.entries)
      case None =>
        (match ReferenceIdentity(v.entries) case None => None case Some(id) => targets(id.name))
      case Some(alias) =>
        AliasIsSmaller(v);
        match Get(alias, This)
        case None => None
        case Some(inner) =>
          match Replacement(inner, targets)
          case None => None
          case Some(relation) => Some(Obj(Put(v.entries, Alias, Obj(Put(alias, This, relation)))))
  }

  function Either(replacement: Option<Value>, v: Value): Value {
    if replacement.Some? then replacement.value else v
  }

  /** Putting at a key that is there changes the one entry with that key. */
  lemma {:induction false} PutInPlace(entries: seq<Entry>, key: Key, value: Value)
    requires Distinct(entries) && HasKey(entries, key)
    ensures var r := Put(entries, key, value);
            |r| == |entries| &&
            forall k :: 0 <= k < |entries| ==> r[k] == if entries[k].key == key then Entry(key, value) else entries[k]
  {
    if entries[0].key != key {
      PutInPlace(entries[1..], key, value);
    }
  }

  lemma ReplacedUnder(entries: seq<Entry>, role: Role, targets: Targets)
    requires Unique(Obj(entries)) && InheritingKey(role).Some? && !IsReference(role, Obj(entries))
    ensures var key := InheritingKey(role).value;
            Replaced(Obj(entries), role, targets) ==
              if Get(entries, key).None? then Obj(entries)
              else
                var v := Get(entries, key).value;
                Obj(Put(entries, key, Replaced(v, InheritedRole(role, v), targets)))
  {
    hide Replaced, IsReference, InheritedRole;
    var key := InheritingKey(role).value;
    var r := ReplacedEntries(entries, role, targets);
    ReplacedObject(entries, role, targets);
    if Get(entries, key).None? {
      assert r == entries;
    } else {
      GetPlace(entries, key);
      var v := Get(entries, key).value;
      var new_ := Replaced(v, InheritedRole(role, v), targets);
      PutInPlace(entries, key, new_);
      forall k | 0 <= k < |entries| ensures r[k] == Put(entries, key, new_)[k] {
        if entries[k].key == key {
          GetUnique(entries, k);
        }
      }
      assert r == Put(entries, key, new_);
    }
  }

  lemma ReplacedObject(entries: seq<Entry>, role: Role, targets: Targets)
    requires !IsReference(role, Obj(entries))
    ensures Replaced(Obj(entries), role, targets) == Obj(ReplacedEntries(entries, role, targets))
  {
    hide IsReference;
  }

  lemma {:induction false} ReplacedAtSlot(v: Value, targets: Targets)
    requires Unique(v)
    ensures Replaced(v, AtSlot, targets) == Either(Replacement(v, targets), v)
    decreases v
  {
    hide HasKey, Get, Put, ReferenceIdentity;
    if !v.Obj? {
      IdentityByRole(v);
      NothingToReplace(v, AtSlot, targets);
    } else if AliasOf(v.entries).Some? {
      var alias := AliasOf(v.entries).value;
      ReplacedUnder(v.entries, AtSlot, targets);
      UniqueBelow(v.entries, Alias);
      ReplacedUnder(alias, InAlias, targets);
      AliasIsSmaller(v);
      if Get(alias, This).Some? {
        UniqueBelow(alias, This);
        ReplacedAtSlot(Get(alias, This).value, targets);
        if Replacement(Get(alias, This).value, targets).None? {
          PutOfSame(alias, This, Get(alias, This).value);
        }
      }
      if Replacement(v, targets).None? {
        PutOfSame(v.entries, Alias, Obj(alias));
      }
    } else if ReferenceIdentity(v.entries).None? {
      IdentityByRole(v);
      NothingToReplace(v, AtSlot, targets);
    }
  }

  method ReplaceExpression(v: Value, targets: Targets) returns (ok: bool, r: Option<Value>, ids: seq<Identity>)
    ensures ok <==> Resolves(OneOf(IdentityAt(v)), targets)
    ensures ok ==> r == Replacement(v, targets) && multiset(ids) == OneOf(IdentityAt(v))
    decreases v
  {
    hide HasKey, Get, Put, ReferenceIdentity;
    if !v.Obj? {
      return true, None, [];
    }
    var alias := AliasOf(v.entries);
    if alias.Some? {
      AliasIsSmaller(v);
      var inner := Get(alias.value, This);
      if inner.None? {
        return true, None, [];
      }
      ok, r, ids := ReplaceExpression(inner.value, targets);
      if ok && r.Some? {
        r := Some(Obj(Put(v.entries, Alias, Obj(Put(alias.value, This, r.value)))));
      }
      return ok, r, ids;
    }
    var identity := ReferenceIdentity(v.entries);
    if identity.None? {
      return true, None, [];
    }
    r := targets(identity.value.name);
    if r.None? {
      assert identity.value in OneOf(IdentityAt(v));
      return false, None, [];
    }
    return true, r, [identity.value];
  }

  // ------------------------------------------------------------------------------------------
  // The positions of one node

  /** A node's entries with the references of its own FROM clause and join list replaced. */
  function OwnReplaced(entries: seq<Entry>, targets: Targets): seq<Entry> {
    seq(|entries|, k requires 0 <= k < |entries| =>
      Entry(entries[k].key, Replaced(entries[k].value, KeyRole(entries[k].key, entries[k].value), targets)))
  }

  lemma ReplacedJoin(join: seq<Entry>, targets: Targets)
    requires Unique(Obj(join))
    ensures Replaced(Obj(join), InJoin, targets) ==
      match Get(join, This)
      case None => Obj(join)
      case Some(v) =>
        if Replacement(v, targets).Some? then Obj(Put(join, This, Replacement(v, targets).value)) else Obj(join)
  {
    hide HasKey, Put, Get, Replaced, Unique;
    ReplacedUnder(join, InJoin, targets);
    if Get(join, This).Some? {
      var v := Get(join, This).value;
      UniqueBelow(join, This);
      ReplacedAtSlot(v, targets);
      if Replacement(v, targets).None? {
        PutOfSame(join, This, v);
      }
    }
  }

  method ReplaceExpressions(items: seq<Value>, targets: Targets) returns (ok: bool, r: seq<Value>, ids: seq<Identity>)
    requires Unique(Arr(items))
    ensures ok <==> Resolves(RoleIdsOfItems(items, InExpressions), targets)
    ensures ok ==> Arr(r) == Replaced(Arr(items), InExpressions, targets)
    ensures ok ==> multiset(ids) == RoleIdsOfItems(items, InExpressions)
  {
    hide Unique, RoleIds, IdentityAt, Replacement, RoleIdsOfItems, Resolves, Replaced;
    r, ids := [], [];
    NoneYet(items, InExpressions, targets);
    for k := 0 to |items|
      invariant |r| == k && forall j :: 0 <= j < k ==> r[j] == Replaced(items[j], AtSlot, targets)
      invariant multiset(ids) == RoleIdsOfItems(items[..k], InExpressions)
      invariant Resolves(multiset(ids), targets)
    {
      UniqueItem(items, k);
      IdentityByRole(items[k]);
      ReplacedAtSlot(items[k], targets);
      OneMore(items, InExpressions, k, targets);
      var found, replacement, own := ReplaceExpression(items[k], targets);
      if !found {
        return false, r, ids;
      }
      r := r + [if replacement.Some? then replacement.value else items[k]];
      ids := ids + own;
    }
    assert items[..|items|] == items;
    ReplacedItems(items, InExpressions, targets, r);
    return true, r, ids;
  }

  lemma NoneYet(items: seq<Value>, role: Role, targets: Targets)
    ensures RoleIdsOfItems(items[..0], role) == multiset{} && Resolves(multiset{}, targets)
  {
  }

  lemma OneMore(items: seq<Value>, role: Role, k: nat, targets: Targets)
    requires k < |items|
    ensures var own := RoleIds(items[k], ItemRole(role, items[k]));
            && RoleIdsOfItems(items[..k + 1], role) == RoleIdsOfItems(items[..k], role) + own
            && (Resolves(RoleIdsOfItems(items[..k + 1], role), targets) <==>
                Resolves(RoleIdsOfItems(items[..k], role), targets) && Resolves(own, targets))
            && (!Resolves(own, targets) ==> !Resolves(RoleIdsOfItems(items, role), targets))
  {
    hide RoleIds, ItemRole;
    assert items[..k + 1][..k] == items[..k];
    ItemsHaveRoleIds(items, role, k);
  }

  lemma ReplacedItems(items: seq<Value>, role: Role, targets: Targets, r: seq<Value>)
    requires !IsReference(role, Arr(items)) && |r| == |items|
    requires forall j :: 0 <= j < |items| ==> r[j] == Replaced(items[j], ItemRole(role, items[j]), targets)
    ensures Replaced(Arr(items), role, targets) == Arr(r)
  {
    assert Replaced(Arr(items), role, targets).items == r;
  }

  lemma UniqueItem(items: seq<Value>, k: nat)
    requires Unique(Arr(items)) && k < |items|
    ensures Unique(items[k])
  {
  }

  method ReplaceJoin(join: Value, targets: Targets) returns (ok: bool, r: Value, ids: seq<Identity>)
    requires Unique(join)
    ensures ok <==> Resolves(RoleIds(join, ItemRole(InJoins, join)), targets)
    ensures ok ==> r == Replaced(join, ItemRole(InJoins, join), targets)
    ensures ok ==> multiset(ids) == RoleIds(join, ItemRole(InJoins, join))
  {
    hide HasKey, Get, Put, Unique, IdentityAt, RoleIds, Replaced, Replacement, RoleIdsOfEntries;
    if !join.Obj? {
      NoRoleIds(join);
      NothingToReplace(join, Nowhere, targets);
      return true, join, [];
    }
    var expression := Get(join.entries, This);
    ReplacedJoin(join.entries, targets);
    JoinIdentity(join, [], join);
    JoinReads(join);
    if expression.None? {
      return true, join, [];
    }
    var replacement: Option<Value>;
    ok, replacement, ids := ReplaceExpression(expression.value, targets);
    r := if replacement.Some? then Obj(Put(join.entries, This, replacement.value)) else join;
  }

  lemma JoinReads(join: Value)
    requires join.Obj?
    ensures At(join, []) == Some(join)
    ensures SlotIdentity(join, [AtKey(This)]) ==
              match Get(join.entries, This) case None => None case Some(v) => IdentityAt(v)
  {
    AtNext(join, [], AtKey(This));
    assert [] + [AtKey(This)] == [AtKey(This)];
  }

  method ReplaceJoins(joins: seq<Value>, targets: Targets) returns (ok: bool, r: seq<Value>, ids: seq<Identity>)
    requires Unique(Arr(joins))
    ensures ok <==> Resolves(RoleIdsOfItems(joins, InJoins), targets)
    ensures ok ==> Arr(r) == Replaced(Arr(joins), InJoins, targets)
    ensures ok ==> multiset(ids) == RoleIdsOfItems(joins, InJoins)
  {
    hide Unique, RoleIds, ItemRole, RoleIdsOfItems, Resolves, Replaced;
    r, ids := [], [];
    NoneYet(joins, InJoins, targets);
    for k := 0 to |joins|
      invariant |r| == k && forall j :: 0 <= j < k ==> r[j] == Replaced(joins[j], ItemRole(InJoins, joins[j]), targets)
      invariant multiset(ids) == RoleIdsOfItems(joins[..k], InJoins)
      invariant Resolves(multiset(ids), targets)
    {
      UniqueItem(joins, k);
      OneMore(joins, InJoins, k, targets);
      var found, join, own := ReplaceJoin(joins[k], targets);
      if !found {
        return false, r, ids;
      }
      r := r + [join];
      ids := ids + own;
    }
    assert joins[..|joins|] == joins;
    ReplacedItems(joins, InJoins, targets, r);
    return true, r, ids;
  }

  /** Replacing the values under the two keys that start a role. */
  lemma OwnReplacedByPut(entries: seq<Entry>, targets: Targets)
    requires Unique(Obj(entries))
    ensures OwnReplaced(entries, targets) ==
      PutRole(PutRole(entries, entries, From, targets), entries, Joins, targets)
  {
    hide Get, HasKey, Put, Replaced, KeyRole;
    var first := PutRole(entries, entries, From, targets);
    PutRoleInPlace(entries, entries, From, targets);
    PutRoleInPlace(first, entries, Joins, targets);
    forall k | 0 <= k < |entries|
      ensures PutRole(first, entries, Joins, targets)[k] == OwnReplaced(entries, targets)[k]
    {
      var Entry(key, v) := entries[k];
      if key != From && key != Joins {
        PlainKey(key, v);
        NoRoleIds(v);
        NothingToReplace(v, Nowhere, targets);
      }
    }
    assert PutRole(first, entries, Joins, targets) == OwnReplaced(entries, targets);
  }

  lemma PlainKey(key: Key, v: Value)
    requires key != From && key != Joins
    ensures KeyRole(key, v) == Nowhere
  {
  }

  function PutRole(entries: seq<Entry>, original: seq<Entry>, key: Key, targets: Targets): seq<Entry> {
    match Get(original, key)
    case None => entries
    case Some(v) => Put(entries, key, Replaced(v, KeyRole(key, v), targets))
  }

  lemma PutRoleInPlace(entries: seq<Entry>, original: seq<Entry>, key: Key, targets: Targets)
    requires |entries| == |original| && forall k :: 0 <= k < |entries| ==> entries[k].key == original[k].key
    requires Distinct(original)
    ensures var r := PutRole(entries, original, key, targets);
            |r| == |entries| && forall k :: 0 <= k < |entries| ==>
              r[k] == if original[k].key == key
                      then Entry(key, Replaced(original[k].value, KeyRole(key, original[k].value), targets))
                      else entries[k]
  {
    hide Get, Put, Replaced, KeyRole;
    forall j, k | 0 <= j < k < |entries| ensures entries[j].key != entries[k].key {
      assert original[j].key != original[k].key;
    }
    if HasKey(original, key) {
      GetPlace(original, key);
      var at :| 0 <= at < |original| && original[at].key == key && Get(original, key) == Some(original[at].value);
      assert entries[at].key == key;
      PutInPlace(entries, key, Replaced(original[at].value, KeyRole(key, original[at].value), targets));
      forall k | 0 <= k < |original| && original[k].key == key ensures k == at {
      }
    }
  }

  method ReplaceOwnPositions(entries: seq<Entry>, targets: Targets) returns (ok: bool, r: seq<Entry>, ids: seq<Identity>)
    requires Unique(Obj(entries))
    ensures ok <==> Resolves(OwnIds(entries), targets)
    ensures ok ==> r == OwnReplaced(entries, targets) && multiset(ids) == OwnIds(entries)
  {
    hide Get, HasKey, Put, Unique, RoleIdsOfItems, Replaced;
    OwnReplacedByPut(entries, targets);
    ReadFrom(entries, targets);
    ReadJoins(entries, targets);
    r, ids := entries, [];
    var from := ObjectOf(Get(entries, From));
    var expressions := if from.Some? then ArrayOf(Get(from.value, Expressions)) else None;
    if expressions.Some? {
      var found, items, own := ReplaceExpressions(expressions.value, targets);
      if !found {
        return false, r, ids;
      }
      r := Put(r, From, Obj(Put(from.value, Expressions, Arr(items))));
      ids := own;
    }
    var joins := ArrayOf(Get(entries, Joins));
    if joins.Some? {
      var found, items, own := ReplaceJoins(joins.value, targets);
      if !found {
        return false, r, ids;
      }
      r := Put(r, Joins, Arr(items));
      ids := ids + own;
    }
    return true, r, ids;
  }

  /** The FROM clause: its expressions are unique trees, and their references are its own. */
  lemma ReadFrom(entries: seq<Entry>, targets: Targets)
    requires Unique(Obj(entries))
    ensures match FromExpressions(entries)
            case None =>
              OwnIdsAt(entries, From) == multiset{} && PutRole(entries, entries, From, targets) == entries
            case Some(items) =>
              var from := Get(entries, From).value.entries;
              && Unique(Arr(items)) && OwnIdsAt(entries, From) == RoleIdsOfItems(items, InExpressions)
              && PutRole(entries, entries, From, targets)
                 == Put(entries, From, Obj(Put(from, Expressions, Replaced(Arr(items), InExpressions, targets))))
  {
    hide HasKey, Put, Replaced, RoleIds, RoleIdsOfItems, Unique;
    if Get(entries, From).Some? {
      var from := Get(entries, From).value;
      UniqueBelow(entries, From);
      FromClauseIds(from);
      if from.Obj? {
        NoReferenceInFrom(from);
        ReplacedUnder(from.entries, InFrom, targets);
        if Get(from.entries, Expressions).Some? {
          UniqueBelow(from.entries, Expressions);
        }
      }
      if FromExpressions(entries).None? {
        NothingToReplace(from, KeyRole(From, from), targets);
        PutOfSame(entries, From, from);
      }
    }
  }

  lemma NoReferenceInFrom(v: Value)
    ensures !IsReference(InFrom, v) && !IsReference(InJoins, v)
  {
  }

  lemma ReadJoins(entries: seq<Entry>, targets: Targets)
    requires Unique(Obj(entries))
    ensures var first := PutRole(entries, entries, From, targets);
            match ArrayOf(Get(entries, Joins))
            case None => OwnIdsAt(entries, Joins) == multiset{} && PutRole(first, entries, Joins, targets) == first
            case Some(items) =>
              && Unique(Arr(items)) && OwnIdsAt(entries, Joins) == RoleIdsOfItems(items, InJoins)
              && PutRole(first, entries, Joins, targets) == Put(first, Joins, Replaced(Arr(items), InJoins, targets))
  {
    hide HasKey, Put, Replaced, RoleIdsOfItems, Unique;
    if Get(entries, Joins).Some? {
      var joins := Get(entries, Joins).value;
      UniqueBelow(entries, Joins);
      if !joins.Arr? {
        NoRoleIds(joins);
        NothingToReplace(joins, Nowhere, targets);
        if Get(entries, From).Some? {
          var from := Get(entries, From).value;
          GetOfPut(entries, From, Replaced(from, KeyRole(From, from), targets), Joins);
        }
        PutOfSame(PutRole(entries, entries, From, targets), Joins, joins);
      }
    }
  }

  // ------------------------------------------------------------------------------------------
  // The whole walk

  /** What is gathered below the first `n` values once their own positions are replaced. */
  function BelowIds(entries: seq<Entry>, n: nat): multiset<Identity>
    requires n <= |entries|
  {
    if n == 0 then multiset{} else BelowIds(entries, n - 1) + Gathered(entries[n - 1].value, Nowhere)
  }

  lemma {:induction false} BelowAndOwn(entries: seq<Entry>, targets: Targets, n: nat)
    requires n <= |entries| && Distinct(entries) && Closed(targets) && Resolves(OwnIds(entries[..n]), targets)
    ensures BelowIds(OwnReplaced(entries, targets), n) + OwnIds(entries[..n]) == GatheredEntries(entries[..n], Nowhere)
  {
    hide Closed, Replaced, Gathered, RoleIds, KeyRole, OwnIds, Distinct;
    if n > 0 {
      var Entry(key, v) := entries[n - 1];
      assert entries[..n][..n - 1] == entries[..n - 1];
      DistinctFront(entries, n);
      OwnIdsOfLast(entries[..n]);
      BelowAndOwn(entries, targets, n - 1);
      GatheredAfterwards(v, KeyRole(key, v), targets);
    } else {
      NoOwnIds();
    }
  }

  lemma DistinctFront(entries: seq<Entry>, n: nat)
    requires n <= |entries| && Distinct(entries)
    ensures Distinct(entries[..n])
  {
  }

  lemma {:induction false} BelowHolds(entries: seq<Entry>, n: nat, k: nat)
    requires k < n <= |entries|
    ensures Gathered(entries[k].value, Nowhere) <= BelowIds(entries, n)
  {
    hide Gathered;
    if k < n - 1 {
      BelowHolds(entries, n - 1, k);
    }
  }

  lemma {:induction false} RoleIdsAreGathered(v: Value, role: Role)
    ensures RoleIds(v, role) <= Gathered(v, role)
    decreases v, 1, 0
  {
    hide ReferenceIdentity, AliasOf, GatheredItems, GatheredEntries, RoleIdsOfItems, RoleIdsOfEntries;
    match v
    case Arr(items) =>
      RoleIdsOfItemsAreGathered(items, role, |items|);
      assert items[..|items|] == items;
    case Obj(entries) =>
      RoleIdsOfEntriesAreGathered(entries, role, |entries|);
      assert entries[..|entries|] == entries;
    case _ =>
  }

  lemma {:induction false} RoleIdsOfItemsAreGathered(items: seq<Value>, role: Role, n: nat)
    requires n <= |items|
    ensures RoleIdsOfItems(items[..n], role) <= GatheredItems(items[..n], role)
    decreases Arr(items), 0, n
  {
    hide Gathered, RoleIds;
    if n > 0 {
      RoleIdsOfItemsAreGathered(items, role, n - 1);
      RoleIdsAreGathered(items[n - 1], ItemRole(role, items[n - 1]));
      assert items[..n][..n - 1] == items[..n - 1];
    }
  }

  lemma {:induction false} RoleIdsOfEntriesAreGathered(entries: seq<Entry>, role: Role, n: nat)
    requires n <= |entries|
    ensures RoleIdsOfEntries(entries[..n], role) <= GatheredEntries(entries[..n], role)
    decreases Obj(entries), 0, n
  {
    hide Gathered, RoleIds, InheritedRole, KeyRole;
    if n > 0 {
      RoleIdsOfEntriesAreGathered(entries, role, n - 1);
      RoleIdsAreGathered(entries[n - 1].value, InheritedRole(role, entries[n - 1].value));
      assert entries[..n][..n - 1] == entries[..n - 1];
    }
  }

  lemma {:induction false} OwnIdsAreGathered(entries: seq<Entry>, n: nat)
    requires n <= |entries| && Distinct(entries)
    ensures OwnIds(entries[..n]) <= GatheredEntries(entries[..n], Nowhere)
  {
    hide Gathered, RoleIds, KeyRole, OwnIds, Distinct;
    if n > 0 {
      assert entries[..n][..n - 1] == entries[..n - 1];
      DistinctFront(entries, n);
      OwnIdsOfLast(entries[..n]);
      OwnIdsAreGathered(entries, n - 1);
      RoleIdsAreGathered(entries[n - 1].value, KeyRole(entries[n - 1].key, entries[n - 1].value));
    } else {
      NoOwnIds();
    }
  }

  lemma OwnIdsHold(entries: seq<Entry>, k: nat)
    requires k < |entries| && Distinct(entries)
    ensures RoleIds(entries[k].value, KeyRole(entries[k].key, entries[k].value)) <= OwnIds(entries)
  {
    hide Get, RoleIds;
    GetUnique(entries, k);
    NoRoleIds(entries[k].value);
  }

  lemma Fewer<T>(a: multiset<T>, b: multiset<T>)
    requires a <= b
    ensures |a| <= |b| && |b| == |a| + |b - a|
  {
    assert b == a + (b - a);
  }

  /** What the walk over an object's values relies on, once its own positions are replaced. */
  lemma BelowReplaced(entries: seq<Entry>, targets: Targets, k: nat)
    requires k < |entries| && Unique(Obj(entries)) && Closed(targets) && Resolves(OwnIds(entries), targets)
    ensures var Entry(key, v) := entries[k];
            var child := Replaced(v, KeyRole(key, v), targets);
            && Unique(child)
            && Gathered(child, Nowhere) <= Gathered(Obj(entries), Nowhere)
            && |Gathered(child, Nowhere)| <= |Gathered(Obj(entries), Nowhere)|
            && (|Gathered(child, Nowhere)| < |Gathered(Obj(entries), Nowhere)| || child < Obj(entries))
            && Rewritten(child, Nowhere, targets) == RewrittenEntries(entries, Nowhere, targets)[k].value
  {
    hide Closed, Replaced, Gathered, RoleIds, KeyRole, OwnIds, Rewritten;
    var Entry(key, v) := entries[k];
    var child := Replaced(v, KeyRole(key, v), targets);
    ReplacedIsUnique(v, KeyRole(key, v), targets);
    OwnIdsHold(entries, k);
    RewrittenAfterwards(v, KeyRole(key, v), targets);
    GatheredNowhere(entries);
    assert entries[..|entries|] == entries;
    BelowAndOwn(entries, targets, |entries|);
    BelowHolds(OwnReplaced(entries, targets), |entries|, k);
    Fewer(Gathered(child, Nowhere), BelowIds(OwnReplaced(entries, targets), |entries|));
    Fewer(BelowIds(OwnReplaced(entries, targets), |entries|), Gathered(Obj(entries), Nowhere));
    if OwnIds(entries) == multiset{} {
      NothingToReplace(v, KeyRole(key, v), targets);
      assert entries[k].value < entries[k];
    }
  }

  lemma GatheredNowhere(entries: seq<Entry>)
    ensures Gathered(Obj(entries), Nowhere) == GatheredEntries(entries, Nowhere)
    ensures forall targets: Targets :: Rewritten(Obj(entries), Nowhere, targets) == Obj(RewrittenEntries(entries, Nowhere, targets))
  {
  }

  /** The walk replaces the references of every relation position, reports each of them, and
      fails exactly when one has no target.  Targets that hold references themselves would be
      walked again, so they are excluded. */
  method RewriteTree(node: Value, targets: Targets) returns (ok: bool, r: Value, ids: seq<Identity>)
    requires Unique(node) && Closed(targets)
    ensures ok <==> Resolves(Gathered(node, Nowhere), targets)
    ensures ok ==> r == Rewritten(node, Nowhere, targets) && multiset(ids) == Gathered(node, Nowhere)
    decreases |Gathered(node, Nowhere)|, node
  {
    hide Unique, Closed, RewrittenEntries, OwnIds, Replaced, Gathered, Rewritten, GatheredItems, GatheredEntries;
    match node
    case Arr(items) => ok, r, ids := RewriteItems(items, targets);
    case Obj(entries) => ok, r, ids := RewriteEntries(entries, targets);
    case _ =>
      NothingInScalar(node, targets);
      ok, r, ids := true, node, [];
  }

  lemma NothingInScalar(v: Value, targets: Targets)
    requires !v.Arr? && !v.Obj?
    ensures Gathered(v, Nowhere) == multiset{} && Rewritten(v, Nowhere, targets) == v
  {
  }

  method RewriteEntries(entries: seq<Entry>, targets: Targets) returns (ok: bool, r: Value, ids: seq<Identity>)
    requires Unique(Obj(entries)) && Closed(targets)
    ensures ok <==> Resolves(Gathered(Obj(entries), Nowhere), targets)
    ensures ok ==> r == Rewritten(Obj(entries), Nowhere, targets) && multiset(ids) == Gathered(Obj(entries), Nowhere)
    decreases |Gathered(Obj(entries), Nowhere)|, Obj(entries), 0
  {
    hide Unique, Closed, RewrittenEntries, OwnIds, Replaced, Gathered, Rewritten, GatheredEntries, KeyRole;
    hide Resolves, BelowIds, Distinct;
    var replaced: seq<Entry>;
    ok, replaced, ids := ReplaceOwnPositions(entries, targets);
    OwnBefore(entries, targets);
    if !ok {
      return false, Obj(entries), [];
    }
    RewrittenKeys(entries, targets);
    var done: seq<Entry> := [];
    for k := 0 to |entries|
      invariant |done| == k && forall j :: 0 <= j < k ==> done[j] == RewrittenEntries(entries, Nowhere, targets)[j]
      invariant multiset(ids) == OwnIds(entries) + BelowIds(replaced, k)
      invariant Resolves(OwnIds(entries) + BelowIds(replaced, k), targets)
    {
      BelowReplaced(entries, targets, k);
      BelowStep(entries, targets, k);
      var found, child, own := RewriteTree(replaced[k].value, targets);
      if !found {
        return false, Obj(entries), [];
      }
      done := done + [Entry(replaced[k].key, child)];
      ids := ids + own;
    }
    assert done == RewrittenEntries(entries, Nowhere, targets);
    r := Obj(done);
  }

  lemma OwnBefore(entries: seq<Entry>, targets: Targets)
    requires Unique(Obj(entries)) && Closed(targets)
    ensures !Resolves(OwnIds(entries), targets) ==> !Resolves(Gathered(Obj(entries), Nowhere), targets)
    ensures Rewritten(Obj(entries), Nowhere, targets) == Obj(RewrittenEntries(entries, Nowhere, targets))
    ensures BelowIds(OwnReplaced(entries, targets), 0) == multiset{}
    ensures OwnIds(entries) + multiset{} == OwnIds(entries)
    ensures Resolves(OwnIds(entries), targets) ==>
              OwnIds(entries) + BelowIds(OwnReplaced(entries, targets), |entries|) == Gathered(Obj(entries), Nowhere)
  {
    hide Closed, RewrittenEntries, OwnIds, Replaced, Gathered, Rewritten, GatheredEntries, KeyRole, OwnReplaced;
    assert entries[..|entries|] == entries;
    UniqueKeys(entries);
    OwnIdsAreGathered(entries, |entries|);
    GatheredNowhere(entries);
    if Resolves(OwnIds(entries), targets) {
      BelowAndOwn(entries, targets, |entries|);
    }
  }

  lemma BelowStep(entries: seq<Entry>, targets: Targets, k: nat)
    requires k < |entries|
    requires var child := OwnReplaced(entries, targets)[k].value;
             Gathered(child, Nowhere) <= Gathered(Obj(entries), Nowhere)
    ensures var replaced := OwnReplaced(entries, targets);
            var child := replaced[k].value;
            && OwnIds(entries) + BelowIds(replaced, k + 1) == OwnIds(entries) + BelowIds(replaced, k) + Gathered(child, Nowhere)
            && (Resolves(OwnIds(entries) + BelowIds(replaced, k), targets) && Resolves(Gathered(child, Nowhere), targets) ==>
                  Resolves(OwnIds(entries) + BelowIds(replaced, k + 1), targets))
            && (!Resolves(Gathered(child, Nowhere), targets) ==> !Resolves(Gathered(Obj(entries), Nowhere), targets))
  {
    hide OwnIds, Gathered, Replaced, KeyRole;
  }

  lemma RewrittenKeys(entries: seq<Entry>, targets: Targets)
    ensures var r := RewrittenEntries(entries, Nowhere, targets);
            |r| == |entries| && forall k :: 0 <= k < |r| ==> r[k].key == entries[k].key
  {
    hide Rewritten, ChildRole;
  }

  lemma UniqueKeys(entries: seq<Entry>)
    requires Unique(Obj(entries))
    ensures Distinct(entries)
  {
  }

  method RewriteItems(items: seq<Value>, targets: Targets) returns (ok: bool, r: Value, ids: seq<Identity>)
    requires Unique(Arr(items)) && Closed(targets)
    ensures ok <==> Resolves(Gathered(Arr(items), Nowhere), targets)
    ensures ok ==> r == Rewritten(Arr(items), Nowhere, targets) && multiset(ids) == Gathered(Arr(items), Nowhere)
    decreases |Gathered(Arr(items), Nowhere)|, Arr(items), 0
  {
    hide Unique, Closed, Gathered, Rewritten;
    var done: seq<Value> := [];
    ids := [];
    for k := 0 to |items|
      invariant |done| == k && forall j :: 0 <= j < k ==> done[j] == Rewritten(items[j], Nowhere, targets)
      invariant multiset(ids) == GatheredItems(items[..k], Nowhere)
      invariant Resolves(multiset(ids), targets)
    {
      UniqueItem(items, k);
      ItemOfNowhere(items, targets, k);
      var found, item, own := RewriteTree(items[k], targets);
      if !found {
        return false, Arr(items), [];
      }
      done := done + [item];
      ids := ids + own;
    }
    assert items[..|items|] == items;
    RewrittenItems(items, targets, done);
    ok, r := true, Arr(done);
  }

  lemma ItemOfNowhere(items: seq<Value>, targets: Targets, k: nat)
    requires k < |items|
    ensures Gathered(items[k], Nowhere) <= Gathered(Arr(items), Nowhere)
    ensures |Gathered(items[k], Nowhere)| <= |Gathered(Arr(items), Nowhere)|
    ensures GatheredItems(items[..k + 1], Nowhere) == GatheredItems(items[..k], Nowhere) + Gathered(items[k], Nowhere)
  {
    hide ReferenceIdentity, AliasOf;
    ItemsGathered(items, Nowhere, k);
    Fewer(Gathered(items[k], Nowhere), Gathered(Arr(items), Nowhere));
    assert items[..k + 1][..k] == items[..k];
  }

  lemma RewrittenItems(items: seq<Value>, targets: Targets, r: seq<Value>)
    requires |r| == |items| && forall j :: 0 <= j < |items| ==> r[j] == Rewritten(items[j], Nowhere, targets)
    ensures Rewritten(Arr(items), Nowhere, targets) == Arr(r)
    ensures Gathered(Arr(items), Nowhere) == GatheredItems(items, Nowhere)
  {
    assert Rewritten(Arr(items), Nowhere, targets).items == r;
  }
}
