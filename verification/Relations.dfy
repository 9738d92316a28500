/** Reference calls in relation positions, and their replacement by resolved relations
    (crates/sqltide-sqlanalysis/src/relations.rs). */
module Relations {
  import opened Chars
  import opened Trees
  import References

  datatype Identity = Identity(relation: References.RelationType, name: Text, refType: Option<References.RefType>)

  // ------------------------------------------------------------------------------------------
  // One reference call

  function ScalarName(argument: Value): Option<Text> {
    if !argument.Obj? then None
    else
      var column := ObjectOf(Get(argument.entries, Column));
      var name := if column.Some? then ObjectOf(Get(column.value, Name)) else None;
      if name.Some? then TextOf(Get(name.value, Name))
      else match ObjectOf(Get(argument.entries, Literal))
        case None => None
        case Some(literal) => TextOf(Get(literal, Content))
  }

  function ScalarAt(entries: seq<Entry>, key: Key): Option<Text> {
    match Get(entries, key) case None => None case Some(v) => ScalarName(v)
  }

  function AstRefType(argument: Value): Option<References.RefType> {
    if !argument.Obj? then None
    else match ObjectOf(Get(argument.entries, Equality))
      case None => None
      case Some(equality) =>
        if ScalarAt(equality, Left) != Some("ref_type") then None
        else if ScalarAt(equality, Right) == Some("reference") then Some(References.Reference)
        else if ScalarAt(equality, Right) == Some("mutable") then Some(References.Mutable)
        else None
  }

  function RelationOf(name: Option<Text>): Option<References.RelationType> {
    if name == Some(References.SOURCE_FUNCTION) then Some(References.Source)
    else if name == Some(References.REF_FUNCTION) then Some(References.Ref)
    else None
  }

  function ReferenceIdentity(entries: seq<Entry>): Option<Identity> {
    match ObjectOf(Get(entries, Function))
    case None => None
    case Some(call) =>
      match RelationOf(TextOf(Get(call, Name)))
      case None => None
      case Some(relation) =>
        match ArrayOf(Get(call, Args))
        case None => None
        case Some(args) =>
          if args == [] || ScalarName(args[0]).None? then None
          else
            var refType := if |args| == 2 && relation.Ref? then AstRefType(args[1]) else None;
            Some(Identity(relation, ScalarName(args[0]).value, refType))
  }

  /** The alias payload that keeps an authored alias around a relation. */
  function AliasOf(entries: seq<Entry>): Option<seq<Entry>> {
    ObjectOf(Get(entries, Alias))
  }

  // ------------------------------------------------------------------------------------------
  // Relation positions

  /** Where a node stands with respect to the nearest FROM clause or join list. */
  datatype Role = Nowhere | InFrom | InExpressions | InJoins | InJoin | AtSlot | InAlias

  /** The key below which a role is inherited, beside the keys that start a new one. */
  function InheritingKey(role: Role): Option<Key> {
    match role
    case InFrom => Some(Expressions)
    case InJoin => Some(This)
    case InAlias => Some(This)
    case AtSlot => Some(Alias)
    case _ => None
  }

  function InheritedRole(role: Role, v: Value): Role {
    match role
    case InFrom => if v.Arr? then InExpressions else Nowhere
    case InJoin => AtSlot
    case InAlias => AtSlot
    case AtSlot => if v.Obj? then InAlias else Nowhere
    case _ => Nowhere
  }

  /** The role a key starts in any object. */
  function KeyRole(key: Key, v: Value): Role {
    if key == From && v.Obj? then InFrom
    else if key == Joins && v.Arr? then InJoins
    else Nowhere
  }

  function ChildRole(role: Role, key: Key, v: Value): Role {
    if InheritingKey(role) == Some(key) then InheritedRole(role, v) else KeyRole(key, v)
  }

  function ItemRole(role: Role, item: Value): Role {
    if role == InExpressions then AtSlot
    else if role == InJoins && item.Obj? then InJoin
    else Nowhere
  }

  predicate IsReference(role: Role, v: Value) {
    role == AtSlot && v.Obj? && AliasOf(v.entries).None? && ReferenceIdentity(v.entries).Some?
  }

  /** The references a rewrite of the whole tree replaces; one inside another is not reached. */
  function Gathered(v: Value, role: Role): multiset<Identity>
    decreases v, 0
  {
    if IsReference(role, v) then multiset{ReferenceIdentity(v.entries).value}
    else match v
      case Arr(items) => GatheredItems(items, role)
      case Obj(entries) => GatheredEntries(entries, role)
      case _ => multiset{}
  }

  function GatheredItems(items: seq<Value>, role: Role): multiset<Identity>
    decreases items, 1
  {
    if items == [] then multiset{}
    else
      var n := |items| - 1;
      GatheredItems(items[..n], role) + Gathered(items[n], ItemRole(role, items[n]))
  }

  function GatheredEntries(entries: seq<Entry>, role: Role): multiset<Identity>
    decreases entries, 1
  {
    if entries == [] then multiset{}
    else
      var n := |entries| - 1;
      var Entry(key, v) := entries[n];
      assert v < entries[n];
      GatheredEntries(entries[..n], role) + Gathered(v, ChildRole(role, key, v))
  }

  /** The references a node contributes only because of the role it stands in. */
  function RoleIds(v: Value, role: Role): multiset<Identity>
    decreases v, 0
  {
    if IsReference(role, v) then multiset{ReferenceIdentity(v.entries).value}
    else match v
      case Arr(items) => RoleIdsOfItems(items, role)
      case Obj(entries) => RoleIdsOfEntries(entries, role)
      case _ => multiset{}
  }

  function RoleIdsOfItems(items: seq<Value>, role: Role): multiset<Identity>
    decreases items, 1
  {
    if items == [] then multiset{}
    else
      var n := |items| - 1;
      RoleIdsOfItems(items[..n], role) + RoleIds(items[n], ItemRole(role, items[n]))
  }

  function RoleIdsOfEntries(entries: seq<Entry>, role: Role): multiset<Identity>
    decreases entries, 1
  {
    if entries == [] then multiset{}
    else
      var n := |entries| - 1;
      var Entry(key, v) := entries[n];
      assert v < entries[n];
      RoleIdsOfEntries(entries[..n], role)
      + if InheritingKey(role) == Some(key) then RoleIds(v, InheritedRole(role, v)) else multiset{}
  }

  /** No reference call holds another reference. */
  predicate CallsArePlain(v: Value, role: Role) {
    if IsReference(role, v) then Gathered(v, Nowhere) == multiset{}
    else match v
      case Arr(items) => forall k :: 0 <= k < |items| ==> CallsArePlain(items[k], ItemRole(role, items[k]))
      case Obj(entries) =>
        forall k :: 0 <= k < |entries| ==>
          CallsArePlain(entries[k].value, ChildRole(role, entries[k].key, entries[k].value))
      case _ => true
  }

  lemma {:induction false} ItemsGathered(items: seq<Value>, role: Role, k: nat)
    requires k < |items|
    ensures Gathered(items[k], ItemRole(role, items[k])) <= GatheredItems(items, role)
  {
    hide Gathered;
    var n := |items| - 1;
    if k < n {
      ItemsGathered(items[..n], role, k);
    }
  }

  lemma {:induction false} EntriesGathered(entries: seq<Entry>, role: Role, k: nat)
    requires k < |entries|
    ensures var e := entries[k];
            Gathered(e.value, ChildRole(role, e.key, e.value)) <= GatheredEntries(entries, role)
  {
    hide Gathered;
    var n := |entries| - 1;
    if k < n {
      EntriesGathered(entries[..n], role, k);
    }
  }

  lemma {:induction false} EmptyIsPlain(v: Value, role: Role)
    requires Gathered(v, role) == multiset{}
    ensures CallsArePlain(v, role)
    decreases v
  {
    hide ReferenceIdentity, AliasOf, KeyRole, InheritedRole;
    match v
    case Arr(items) =>
      forall k | 0 <= k < |items| ensures CallsArePlain(items[k], ItemRole(role, items[k])) {
        ItemsGathered(items, role, k);
        EmptyIsPlain(items[k], ItemRole(role, items[k]));
      }
    case Obj(entries) =>
      forall k | 0 <= k < |entries|
        ensures CallsArePlain(entries[k].value, ChildRole(role, entries[k].key, entries[k].value))
      {
        EntriesGathered(entries, role, k);
        EmptyIsPlain(entries[k].value, ChildRole(role, entries[k].key, entries[k].value));
      }
    case _ =>
  }

  /** A node's references are those of its role and those of the same node without the role. */
  lemma {:induction false} RoleSplits(v: Value, role: Role)
    requires CallsArePlain(v, role)
    ensures Gathered(v, role) == RoleIds(v, role) + Gathered(v, Nowhere)
    ensures CallsArePlain(v, Nowhere)
    decreases v, 1
  {
    hide ReferenceIdentity, AliasOf, KeyRole, InheritedRole;
    hide GatheredItems, GatheredEntries, RoleIdsOfItems, RoleIdsOfEntries;
    if IsReference(role, v) {
      EmptyIsPlain(v, Nowhere);
    } else {
      match v
      case Arr(items) => RoleSplitsItems(items, role);
      case Obj(entries) => RoleSplitsEntries(entries, role);
      case _ =>
    }
  }

  lemma {:induction false} RoleSplitsItems(items: seq<Value>, role: Role)
    requires forall k :: 0 <= k < |items| ==> CallsArePlain(items[k], ItemRole(role, items[k]))
    ensures GatheredItems(items, role) == RoleIdsOfItems(items, role) + GatheredItems(items, Nowhere)
    ensures forall k :: 0 <= k < |items| ==> CallsArePlain(items[k], Nowhere)
    decreases items, 1
  {
    hide Gathered, RoleIds, CallsArePlain;
    if items != [] {
      var n := |items| - 1;
      RoleSplitsItems(items[..n], role);
      RoleSplits(items[n], ItemRole(role, items[n]));
      forall k | 0 <= k < |items| ensures CallsArePlain(items[k], Nowhere) {
        assert k < n ==> items[k] == items[..n][k];
      }
    }
  }

  lemma {:induction false} RoleSplitsEntries(entries: seq<Entry>, role: Role)
    requires forall k :: 0 <= k < |entries| ==>
      CallsArePlain(entries[k].value, ChildRole(role, entries[k].key, entries[k].value))
    ensures GatheredEntries(entries, role) == RoleIdsOfEntries(entries, role) + GatheredEntries(entries, Nowhere)
    ensures forall k :: 0 <= k < |entries| ==>
              CallsArePlain(entries[k].value, ChildRole(Nowhere, entries[k].key, entries[k].value))
    decreases entries, 1
  {
    hide Gathered, RoleIds, CallsArePlain, InheritedRole, KeyRole;
    if entries != [] {
      var n := |entries| - 1;
      var Entry(key, v) := entries[n];
      assert v < entries[n];
      RoleSplitsEntries(entries[..n], role);
      RoleSplits(v, ChildRole(role, key, v));
      InheritedKeyStartsNone(role, key, v);
      RoleSplitsLast(entries, role);
      forall k | 0 <= k < |entries|
        ensures CallsArePlain(entries[k].value, ChildRole(Nowhere, entries[k].key, entries[k].value))
      {
        assert k < n ==> entries[k] == entries[..n][k];
      }
    }
  }

  lemma RoleSplitsLast(entries: seq<Entry>, role: Role)
    requires entries != []
    requires var front := entries[..|entries| - 1];
             GatheredEntries(front, role) == RoleIdsOfEntries(front, role) + GatheredEntries(front, Nowhere)
    requires var Entry(key, v) := entries[|entries| - 1];
             Gathered(v, ChildRole(role, key, v)) ==
               (if InheritingKey(role) == Some(key) then RoleIds(v, InheritedRole(role, v)) else multiset{})
               + Gathered(v, ChildRole(Nowhere, key, v))
    ensures GatheredEntries(entries, role) == RoleIdsOfEntries(entries, role) + GatheredEntries(entries, Nowhere)
  {
    hide Gathered, RoleIds, InheritedRole, KeyRole, ChildRole;
  }

  lemma InheritedKeyStartsNone(role: Role, key: Key, v: Value)
    ensures InheritingKey(role) == Some(key) ==> KeyRole(key, v) == Nowhere
    ensures ChildRole(Nowhere, key, v) == KeyRole(key, v)
  {
  }

  lemma {:induction false} NoRoleIds(v: Value)
    ensures RoleIds(v, Nowhere) == multiset{}
  {
    match v
    case Arr(items) => NoRoleIdsOfItems(items, Nowhere);
    case Obj(entries) => NoRoleIdsOfEntries(entries);
    case _ =>
  }

  lemma {:induction false} NoRoleIdsOfItems(items: seq<Value>, role: Role)
    requires role != InExpressions && role != InJoins
    ensures RoleIdsOfItems(items, role) == multiset{}
    decreases items
  {
    if items != [] {
      NoRoleIdsOfItems(items[..|items| - 1], role);
      NoRoleIds(items[|items| - 1]);
    }
  }

  lemma {:induction false} NoRoleIdsOfEntries(entries: seq<Entry>)
    ensures RoleIdsOfEntries(entries, Nowhere) == multiset{}
  {
    if entries != [] {
      NoRoleIdsOfEntries(entries[..|entries| - 1]);
    }
  }
}
