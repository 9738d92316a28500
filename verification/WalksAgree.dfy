/** The slot walk and the rewriting walk find the same references. */
module WalksAgree {
  import opened Chars
  import opened Trees
  import opened Relations
  import opened Facts

  function OneOf(id: Option<Identity>): multiset<Identity> {
    if id.Some? then multiset{id.value} else multiset{}
  }

  /** What resolution reads at one recorded position. */
  function SlotIdentity(tree: Value, slot: Path): Option<Identity> {
    match At(tree, slot) case None => None case Some(v) => IdentityAt(v)
  }

  function SlotIds(tree: Value, slots: seq<Path>): multiset<Identity> {
    if slots == [] then multiset{}
    else SlotIds(tree, slots[..|slots| - 1]) + OneOf(SlotIdentity(tree, slots[|slots| - 1]))
  }

  lemma {:induction false} SlotIdsAppend(tree: Value, a: seq<Path>, b: seq<Path>)
    ensures SlotIds(tree, a + b) == SlotIds(tree, a) + SlotIds(tree, b)
  {
    hide SlotIdentity, OneOf, SlotIds;
    if b == [] {
      assert a + b == a;
      SlotIdsNone(tree);
    } else {
      var n := |b| - 1;
      SlotIdsAppend(tree, a, b[..n]);
      Associative(a, b[..n], [b[n]]);
      assert b[..n] + [b[n]] == b;
      SlotIdsLast(tree, a + b[..n], b[n]);
      SlotIdsLast(tree, b[..n], b[n]);
    }
  }

  lemma SlotIdsLast(tree: Value, front: seq<Path>, last: Path)
    ensures SlotIds(tree, front + [last]) == SlotIds(tree, front) + OneOf(SlotIdentity(tree, last))
  {
    hide SlotIdentity, OneOf;
    assert (front + [last])[..|front|] == front;
  }

  lemma SlotIdsOne(tree: Value, slot: Path)
    ensures SlotIds(tree, [slot]) == OneOf(SlotIdentity(tree, slot))
  {
    assert [slot][..0] == [];
    assert SlotIds(tree, []) == multiset{};
  }

  // ------------------------------------------------------------------------------------------
  // A position and the role that leads to it

  predicate Distinct(entries: seq<Entry>) {
    forall j, k :: 0 <= j < k < |entries| ==> entries[j].key != entries[k].key
  }

  /** What the value under `key` adds in `role`. */
  function UnderKey(entries: seq<Entry>, key: Key, role: Role): multiset<Identity> {
    match Get(entries, key) case None => multiset{} case Some(v) => RoleIds(v, InheritedRole(role, v))
  }

  lemma {:induction false} InheritedOnce(entries: seq<Entry>, role: Role)
    requires Distinct(entries) && InheritingKey(role).Some?
    ensures RoleIdsOfEntries(entries, role) == UnderKey(entries, InheritingKey(role).value, role)
  {
    hide RoleIds, InheritedRole;
    var key := InheritingKey(role).value;
    if entries != [] {
      var n := |entries| - 1;
      InheritedOnce(entries[..n], role);
      GetOfLast(entries, key);
    }
  }

  lemma {:induction false} GetOfLast(entries: seq<Entry>, key: Key)
    requires entries != [] && Distinct(entries)
    ensures var n := |entries| - 1;
            && (entries[n].key != key ==> Get(entries, key) == Get(entries[..n], key))
            && (entries[n].key == key ==> Get(entries, key) == Some(entries[n].value) && Get(entries[..n], key) == None)
  {
    var n := |entries| - 1;
    if entries[n].key == key {
      GetUnique(entries, n);
    } else {
      GetOfFront(entries, key);
    }
  }

  lemma {:induction false} GetOfFront(entries: seq<Entry>, key: Key)
    requires entries != [] && entries[|entries| - 1].key != key
    ensures Get(entries, key) == Get(entries[..|entries| - 1], key)
  {
    hide HasKey;
    if |entries| > 1 {
      GetOfFront(entries[1..], key);
      assert entries[1..][..|entries| - 2] == entries[..|entries| - 1][1..];
    }
  }

  lemma {:induction false} IdentityByRole(v: Value)
    requires Unique(v)
    ensures RoleIds(v, AtSlot) == OneOf(IdentityAt(v))
    decreases v
  {
    hide HasKey, Get, ReferenceIdentity;
    if v.Obj? {
      var alias := AliasOf(v.entries);
      if alias.Some? {
        InheritedOnce(v.entries, AtSlot);
        UniqueBelow(v.entries, Alias);
        InheritedOnce(alias.value, InAlias);
        assert RoleIds(v, AtSlot) == RoleIdsOfEntries(alias.value, InAlias);
        AliasIsSmaller(v);
        if Get(alias.value, This).Some? {
          UniqueBelow(alias.value, This);
          IdentityByRole(Get(alias.value, This).value);
        }
      } else if ReferenceIdentity(v.entries).None? {
        InheritedOnce(v.entries, AtSlot);
        if Get(v.entries, Alias).Some? {
          NoRoleIds(Get(v.entries, Alias).value);
        }
      }
    } else if v.Arr? {
      NoRoleIdsOfItems(v.items, AtSlot);
    }
  }

  lemma UniqueBelow(entries: seq<Entry>, key: Key)
    requires Unique(Obj(entries)) && Get(entries, key).Some?
    ensures Unique(Get(entries, key).value)
  {
    GetPlace(entries, key);
  }

  // ------------------------------------------------------------------------------------------
  // The positions an object records

  /** What the FROM clause and the join list of an object add. */
  function OwnIds(entries: seq<Entry>): multiset<Identity> {
    OwnIdsAt(entries, From) + OwnIdsAt(entries, Joins)
  }

  function OwnIdsAt(entries: seq<Entry>, key: Key): multiset<Identity> {
    match Get(entries, key) case None => multiset{} case Some(v) => RoleIds(v, KeyRole(key, v))
  }

  lemma {:induction false} ItemSlotsHold(tree: Value, path: Path, items: seq<Value>, n: nat)
    requires At(tree, path) == Some(Arr(items)) && n <= |items| && Unique(Arr(items))
    ensures SlotIds(tree, ItemSlots(path, n)) == RoleIdsOfItems(items[..n], InExpressions)
  {
    hide At, IdentityAt, RoleIds, SlotIds, RoleIdsOfItems, Unique, SlotIdentity;
    RoleIdsOfPrefix(items, InExpressions, n);
    if n > 0 {
      ItemSlotsHold(tree, path, items, n - 1);
      ItemSlotHolds(tree, path, items, n - 1);
      SlotIdsLast(tree, ItemSlots(path, n - 1), path + [AtIndex(n - 1)]);
    } else {
      SlotIdsNone(tree);
    }
  }

  lemma ItemSlotHolds(tree: Value, path: Path, items: seq<Value>, k: nat)
    requires At(tree, path) == Some(Arr(items)) && k < |items| && Unique(Arr(items))
    ensures OneOf(SlotIdentity(tree, path + [AtIndex(k)])) == RoleIds(items[k], ItemRole(InExpressions, items[k]))
  {
    hide At, IdentityAt, RoleIds;
    AtNext(tree, path, AtIndex(k));
    IdentityByRole(items[k]);
  }

  lemma RoleIdsOfPrefix(items: seq<Value>, role: Role, n: nat)
    requires n <= |items|
    ensures n == 0 ==> RoleIdsOfItems(items[..n], role) == multiset{}
    ensures n > 0 ==>
              var last := RoleIds(items[n - 1], ItemRole(role, items[n - 1]));
              RoleIdsOfItems(items[..n], role) == RoleIdsOfItems(items[..n - 1], role) + last
  {
    hide RoleIds, ItemRole;
    if n > 0 {
      assert items[..n][..n - 1] == items[..n - 1];
    }
  }

  lemma JoinIdentity(tree: Value, path: Path, join: Value)
    requires At(tree, path) == Some(join) && Unique(join) && join.Obj?
    ensures OneOf(SlotIdentity(tree, path + [AtKey(This)])) == RoleIds(join, InJoin)
  {
    hide At, IdentityAt, Get, HasKey, RoleIdsOfEntries;
    AtNext(tree, path, AtKey(This));
    InheritedOnce(join.entries, InJoin);
    if Get(join.entries, This).Some? {
      UniqueBelow(join.entries, This);
      IdentityByRole(Get(join.entries, This).value);
    }
  }

  /** One element of a join list and the position it records, if any. */
  lemma JoinSlotHolds(tree: Value, path: Path, joins: seq<Value>, n: nat, own: seq<Path>)
    requires At(tree, path) == Some(Arr(joins)) && n < |joins| && Unique(joins[n])
    requires own == if joins[n].Obj? then [path + [AtIndex(n)] + [AtKey(This)]] else []
    ensures SlotIds(tree, own) == RoleIds(joins[n], ItemRole(InJoins, joins[n]))
  {
    hide At, IdentityAt, RoleIds, SlotIdentity, Unique;
    var join := joins[n];
    AtNext(tree, path, AtIndex(n));
    if join.Obj? {
      JoinIdentity(tree, path + [AtIndex(n)], join);
      SlotIdsOne(tree, path + [AtIndex(n)] + [AtKey(This)]);
    } else {
      NoRoleIds(join);
    }
  }

  lemma {:induction false} ThisSlotsHold(tree: Value, path: Path, joins: seq<Value>, n: nat)
    requires At(tree, path) == Some(Arr(joins)) && n <= |joins| && Unique(Arr(joins))
    ensures SlotIds(tree, ThisSlots(joins, n, path)) == RoleIdsOfItems(joins[..n], InJoins)
  {
    hide At, RoleIds, SlotIds, ItemRole, RoleIdsOfItems;
    RoleIdsOfPrefix(joins, InJoins, n);
    if n > 0 {
      ThisSlotsHold(tree, path, joins, n - 1);
      var own: seq<Path> := if joins[n - 1].Obj? then [path + [AtIndex(n - 1)] + [AtKey(This)]] else [];
      SlotIdsAppend(tree, ThisSlots(joins, n - 1, path), own);
      JoinSlotHolds(tree, path, joins, n - 1, own);
    } else {
      SlotIdsNone(tree);
    }
  }

  lemma SlotIdsNone(tree: Value)
    ensures SlotIds(tree, []) == multiset{}
  {
  }

  lemma FromSlotsHold(tree: Value, path: Path, entries: seq<Entry>)
    requires At(tree, path) == Some(Obj(entries)) && Unique(Obj(entries))
    ensures SlotIds(tree, FromSlots(entries, path)) == OwnIdsAt(entries, From)
  {
    hide At, Get, HasKey, SlotIdentity, RoleIds, ItemSlots, Unique;
    AtNext(tree, path, AtKey(From));
    if Get(entries, From).Some? {
      var from := Get(entries, From).value;
      UniqueBelow(entries, From);
      FromClauseIds(from);
      if from.Obj? && Get(from.entries, Expressions).Some? {
        AtNext(tree, path + [AtKey(From)], AtKey(Expressions));
        UniqueBelow(from.entries, Expressions);
        var items := Get(from.entries, Expressions).value;
        if items.Arr? {
          ItemSlotsHold(tree, path + [AtKey(From)] + [AtKey(Expressions)], items.items, |items.items|);
          assert items.items[..|items.items|] == items.items;
        }
      }
    }
  }

  lemma FromClauseIds(from: Value)
    requires Unique(from)
    ensures !from.Obj? ==> RoleIds(from, KeyRole(From, from)) == multiset{}
    ensures from.Obj? ==>
              var items := ArrayOf(Get(from.entries, Expressions));
              RoleIds(from, KeyRole(From, from)) ==
              if items.Some? then RoleIdsOfItems(items.value, InExpressions) else multiset{}
  {
    hide Get, HasKey;
    if from.Obj? {
      InheritedOnce(from.entries, InFrom);
      if Get(from.entries, Expressions).Some? {
        NoRoleIds(Get(from.entries, Expressions).value);
      }
    } else {
      NoRoleIds(from);
    }
  }

  lemma JoinSlotsHold(tree: Value, path: Path, entries: seq<Entry>)
    requires At(tree, path) == Some(Obj(entries)) && Unique(Obj(entries))
    ensures SlotIds(tree, JoinSlots(entries, path)) == OwnIdsAt(entries, Joins)
  {
    hide At, Get, HasKey, SlotIdentity, ThisSlots, Unique, SlotIds, RoleIdsOfItems, RoleIdsOfEntries;
    AtNext(tree, path, AtKey(Joins));
    SlotIdsNone(tree);
    if Get(entries, Joins).Some? {
      var joins := Get(entries, Joins).value;
      UniqueBelow(entries, Joins);
      NoRoleIds(joins);
      if joins.Arr? {
        ThisSlotsHold(tree, path + [AtKey(Joins)], joins.items, |joins.items|);
        assert joins.items[..|joins.items|] == joins.items;
      }
    }
  }

  lemma OwnSlotsHold(tree: Value, path: Path, entries: seq<Entry>)
    requires At(tree, path) == Some(Obj(entries)) && Unique(Obj(entries))
    ensures SlotIds(tree, OwnSlots(entries, path)) == OwnIds(entries)
  {
    FromSlotsHold(tree, path, entries);
    JoinSlotsHold(tree, path, entries);
    SlotIdsAppend(tree, FromSlots(entries, path), JoinSlots(entries, path));
  }

  // ------------------------------------------------------------------------------------------
  // The walks

  /** No table node holds a reference, in its role or without it. */
  predicate TablesArePlain(v: Value, role: Role) {
    match v
    case Arr(items) => forall k :: 0 <= k < |items| ==> TablesArePlain(items[k], ItemRole(role, items[k]))
    case Obj(entries) =>
      if TablePayload(entries).Some? then Gathered(v, role) == multiset{}
      else IsReference(role, v) || forall k :: 0 <= k < |entries| ==>
        TablesArePlain(entries[k].value, ChildRole(role, entries[k].key, entries[k].value))
    case _ => true
  }

  lemma {:induction false} EmptyHasPlainTables(v: Value, role: Role)
    requires Gathered(v, role) == multiset{}
    ensures TablesArePlain(v, role)
    decreases v
  {
    hide ReferenceIdentity, AliasOf, KeyRole, InheritedRole, TablePayload;
    match v
    case Arr(items) =>
      forall k | 0 <= k < |items| ensures TablesArePlain(items[k], ItemRole(role, items[k])) {
        ItemsGathered(items, role, k);
        EmptyHasPlainTables(items[k], ItemRole(role, items[k]));
      }
    case Obj(entries) =>
      forall k | 0 <= k < |entries|
        ensures TablesArePlain(entries[k].value, ChildRole(role, entries[k].key, entries[k].value))
      {
        EntriesGathered(entries, role, k);
        EmptyHasPlainTables(entries[k].value, ChildRole(role, entries[k].key, entries[k].value));
      }
    case _ =>
  }

  lemma {:induction false} TablesWithoutRole(v: Value, role: Role)
    requires TablesArePlain(v, role) && CallsArePlain(v, role)
    ensures TablesArePlain(v, Nowhere)
    decreases v
  {
    hide ReferenceIdentity, AliasOf, KeyRole, InheritedRole, TablePayload, Gathered, RoleIds;
    if IsReference(role, v) {
      EmptyHasPlainTables(v, Nowhere);
    } else {
      RoleSplits(v, role);
      match v
      case Arr(items) =>
        forall k | 0 <= k < |items| ensures TablesArePlain(items[k], ItemRole(Nowhere, items[k])) {
          TablesWithoutRole(items[k], ItemRole(role, items[k]));
        }
      case Obj(entries) =>
        if TablePayload(entries).None? {
          forall k | 0 <= k < |entries|
            ensures TablesArePlain(entries[k].value, ChildRole(Nowhere, entries[k].key, entries[k].value))
          {
            var Entry(key, child) := entries[k];
            InheritedKeyStartsNone(role, key, child);
            TablesWithoutRole(entries[k].value, ChildRole(role, key, child));
          }
        }
      case _ =>
    }
  }

  /** What recorded positions hold is what a rewrite gathers. */
  lemma {:induction false} SlotsHold(tree: Value, path: Path, v: Value)
    requires At(tree, path) == Some(v) && Unique(v) && CallsArePlain(v, Nowhere) && TablesArePlain(v, Nowhere)
    ensures SlotIds(tree, Slots(v, path)) == Gathered(v, Nowhere)
    decreases v, 1, 0
  {
    hide At, SlotIds, GatheredItems, GatheredEntries, SlotsOfItems, SlotsOfEntries, OwnSlots, TablePayload, Get;
    match v
    case Arr(items) =>
      SlotsOfItemsHold(tree, path, items, |items|);
      assert items[..|items|] == items;
    case Obj(entries) =>
      if TablePayload(entries).Some? {
        SlotIdsNone(tree);
      } else {
        SlotsOfEntriesHold(tree, path, entries, |entries|);
        assert entries[..|entries|] == entries;
        OwnSlotsHold(tree, path, entries);
        SlotIdsAppend(tree, SlotsOfEntries(entries, |entries|, path), OwnSlots(entries, path));
      }
    case _ => SlotIdsNone(tree);
  }

  lemma {:induction false} SlotsOfItemsHold(tree: Value, path: Path, items: seq<Value>, n: nat)
    requires At(tree, path) == Some(Arr(items)) && n <= |items|
    requires forall k :: 0 <= k < n ==>
      Unique(items[k]) && CallsArePlain(items[k], Nowhere) && TablesArePlain(items[k], Nowhere)
    ensures SlotIds(tree, SlotsOfItems(items, n, path)) == GatheredItems(items[..n], Nowhere)
    decreases items, 2, n
  {
    hide At, SlotIds, Gathered, Slots, Unique, CallsArePlain, TablesArePlain;
    if n > 0 {
      SlotsOfItemsHold(tree, path, items, n - 1);
      assert items[..n][..n - 1] == items[..n - 1];
      AtNext(tree, path, AtIndex(n - 1));
      SlotsHold(tree, path + [AtIndex(n - 1)], items[n - 1]);
      SlotIdsAppend(tree, SlotsOfItems(items, n - 1, path), Slots(items[n - 1], path + [AtIndex(n - 1)]));
    } else {
      SlotIdsNone(tree);
    }
  }

  /** The children's own positions, and those their keys give them. */
  lemma {:induction false} SlotsOfEntriesHold(tree: Value, path: Path, entries: seq<Entry>, n: nat)
    requires At(tree, path) == Some(Obj(entries)) && n <= |entries| && Distinct(entries)
    requires forall k :: 0 <= k < n ==> Readable(entries[k])
    ensures SlotIds(tree, SlotsOfEntries(entries, n, path)) + OwnIds(entries[..n]) == GatheredEntries(entries[..n], Nowhere)
    decreases entries, 2, n
  {
    hide At, SlotIds, Gathered, Slots, Get, OwnIds, KeyRole;
    if n > 0 {
      var Entry(key, child) := entries[n - 1];
      SlotsOfEntriesHold(tree, path, entries, n - 1);
      assert entries[..n][..n - 1] == entries[..n - 1];
      AtNext(tree, path, AtKey(key));
      GetUnique(entries, n - 1);
      assert child < entries[n - 1];
      assert Readable(entries[n - 1]);
      TablesWithoutRole(child, KeyRole(key, child));
      RoleSplits(child, KeyRole(key, child));
      SlotsHold(tree, path + [AtKey(key)], child);
      SlotIdsAppend(tree, SlotsOfEntries(entries, n - 1, path), Slots(child, path + [AtKey(key)]));
      OwnIdsOfLast(entries[..n]);
    } else {
      SlotIdsNone(tree);
      NoOwnIds();
    }
  }

  predicate Readable(e: Entry) {
    && Unique(e.value) && CallsArePlain(e.value, ChildRole(Nowhere, e.key, e.value))
    && TablesArePlain(e.value, ChildRole(Nowhere, e.key, e.value))
  }

  lemma NoOwnIds()
    ensures OwnIds([]) == multiset{}
  {
  }

  lemma OwnIdsOfLast(entries: seq<Entry>)
    requires entries != [] && Distinct(entries)
    ensures var n := |entries| - 1;
            OwnIds(entries) == OwnIds(entries[..n]) + RoleIds(entries[n].value, KeyRole(entries[n].key, entries[n].value))
  {
    hide Get, RoleIds, Distinct;
    var n := |entries| - 1;
    GetOfLast(entries, From);
    GetOfLast(entries, Joins);
    NoRoleIds(entries[n].value);
  }

  /** The slot walk and the rewriting walk gather the same references of every tree in which no
      reference call and no table node hides one. */
  lemma WalksFindTheSame(tree: Value)
    requires Unique(tree) && CallsArePlain(tree, Nowhere) && TablesArePlain(tree, Nowhere)
    ensures SlotIds(tree, Slots(tree, [])) == Gathered(tree, Nowhere)
  {
    SlotsHold(tree, [], tree);
  }
}
