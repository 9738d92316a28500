/** The one traversal that records relation positions and raw relations
    (crates/sqltide-sqlanalysis/src/facts.rs). */
module Facts {
  import opened Chars
  import opened Trees
  import opened Relations
  import Qualification

  datatype Step = AtKey(key: Key) | AtIndex(index: nat)

  type Path = seq<Step>

  function Child(v: Value, step: Step): Option<Value> {
    match step
    case AtKey(key) => if v.Obj? then Get(v.entries, key) else None
    case AtIndex(k) => if v.Arr? && k < |v.items| then Some(v.items[k]) else None
  }

  /** The node a path leads to. */
  function At(tree: Value, path: Path): Option<Value> {
    if path == [] then Some(tree)
    else match At(tree, path[..|path| - 1])
      case None => None
      case Some(v) => Child(v, path[|path| - 1])
  }

  lemma AtNext(tree: Value, path: Path, step: Step)
    requires At(tree, path).Some?
    ensures At(tree, path + [step]) == Child(At(tree, path).value, step)
  {
    assert (path + [step])[..|path|] == path;
  }

  /** The reference a relation position holds, below any alias. */
  function IdentityAt(v: Value): Option<Identity> {
    if !v.Obj? then None
    else match AliasOf(v.entries)
      case None => ReferenceIdentity(v.entries)
      case Some(alias) =>
        AliasIsSmaller(v);
        match Get(alias, This) case None => None case Some(inner) => IdentityAt(inner)
  }

  lemma AliasIsSmaller(v: Value)
    requires v.Obj? && AliasOf(v.entries).Some?
    ensures Get(AliasOf(v.entries).value, This).Some? ==> Get(AliasOf(v.entries).value, This).value < v
  {
    GetIsSmaller(v, Alias);
    var alias := Get(v.entries, Alias).value;
    if HasKey(alias.entries, This) {
      GetIsSmaller(alias, This);
    }
  }

  lemma GetIsSmaller(v: Value, key: Key)
    requires v.Obj? && HasKey(v.entries, key)
    ensures Get(v.entries, key).value < v
  {
    GetPlace(v.entries, key);
  }

  // ------------------------------------------------------------------------------------------
  // Relation positions

  function FromExpressions(entries: seq<Entry>): Option<seq<Value>> {
    match ObjectOf(Get(entries, From)) case None => None case Some(from) => ArrayOf(Get(from, Expressions))
  }

  function FromSlots(entries: seq<Entry>, path: Path): seq<Path> {
    match FromExpressions(entries)
    case None => []
    case Some(items) => ItemSlots(path + [AtKey(From)] + [AtKey(Expressions)], |items|)
  }

  function ItemSlots(path: Path, n: nat): seq<Path> {
    if n == 0 then [] else ItemSlots(path, n - 1) + [path + [AtIndex(n - 1)]]
  }

  function JoinSlots(entries: seq<Entry>, path: Path): seq<Path> {
    match ArrayOf(Get(entries, Joins))
    case None => []
    case Some(joins) => ThisSlots(joins, |joins|, path + [AtKey(Joins)])
  }

  function ThisSlots(joins: seq<Value>, n: nat, path: Path): seq<Path>
    requires n <= |joins|
  {
    if n == 0 then []
    else
      var own: seq<Path> := if joins[n - 1].Obj? then [path + [AtIndex(n - 1)] + [AtKey(This)]] else [];
      ThisSlots(joins, n - 1, path) + own
  }

  function OwnSlots(entries: seq<Entry>, path: Path): seq<Path> {
    FromSlots(entries, path) + JoinSlots(entries, path)
  }

  /** All relation positions outside table nodes: those of the children first. */
  function Slots(v: Value, path: Path): seq<Path>
    decreases v, 0
  {
    match v
    case Arr(items) => SlotsOfItems(items, |items|, path)
    case Obj(entries) =>
      if TablePayload(entries).Some? then []
      else SlotsOfEntries(entries, |entries|, path) + OwnSlots(entries, path)
    case _ => []
  }

  function SlotsOfItems(items: seq<Value>, n: nat, path: Path): seq<Path>
    requires n <= |items|
    decreases items, 1, n
  {
    if n == 0 then []
    else SlotsOfItems(items, n - 1, path) + Slots(items[n - 1], path + [AtIndex(n - 1)])
  }

  function SlotsOfEntries(entries: seq<Entry>, n: nat, path: Path): seq<Path>
    requires n <= |entries|
    decreases entries, 1, n
  {
    if n == 0 then []
    else
      assert entries[n - 1].value < entries[n - 1];
      SlotsOfEntries(entries, n - 1, path) + Slots(entries[n - 1].value, path + [AtKey(entries[n - 1].key)])
  }

  /** The first table that names no visible CTE. */
  function Raw(v: Value, visible: seq<Text>): Option<Text>
    decreases v, 0
  {
    match v
    case Arr(items) => RawOfItems(items, |items|, visible)
    case Obj(entries) =>
      (match TablePayload(entries)
       case Some(table) =>
         var name := IdentifierName(Get(table, Name));
         if name.Some? && name.value !in visible then name else None
       case None => RawOfEntries(entries, |entries|, visible))
    case _ => None
  }

  function Or(first: Option<Text>, second: Option<Text>): Option<Text> {
    if first.Some? then first else second
  }

  function RawOfItems(items: seq<Value>, n: nat, visible: seq<Text>): Option<Text>
    requires n <= |items|
    decreases items, 1, n
  {
    if n == 0 then None else Or(RawOfItems(items, n - 1, visible), Raw(items[n - 1], visible))
  }

  function RawOfEntries(entries: seq<Entry>, n: nat, visible: seq<Text>): Option<Text>
    requires n <= |entries|
    decreases entries, 1, n
  {
    if n == 0 then None
    else
      assert entries[n - 1].value < entries[n - 1];
      Or(RawOfEntries(entries, n - 1, visible), Raw(entries[n - 1].value, Scope(visible, entries[n - 1].value)))
  }

  // ------------------------------------------------------------------------------------------
  // The traversal as written

  class TreeFacts {
    var referenceSlots: seq<Path>
    var rawRelation: Option<Text>

    constructor ()
      ensures referenceSlots == [] && rawRelation == None
    {
      referenceSlots, rawRelation := [], None;
    }

    method RecordReferenceSlots(entries: seq<Entry>, path: Path)
      modifies this
      ensures referenceSlots == old(referenceSlots) + OwnSlots(entries, path) && rawRelation == old(rawRelation)
    {
      hide Get;
      var expressions := FromExpressions(entries);
      if expressions.Some? {
        var base := path + [AtKey(From)] + [AtKey(Expressions)];
        for k := 0 to |expressions.value|
          invariant referenceSlots == old(referenceSlots) + ItemSlots(base, k) && rawRelation == old(rawRelation)
        {
          referenceSlots := referenceSlots + [base + [AtIndex(k)]];
        }
      }
      assert referenceSlots == old(referenceSlots) + FromSlots(entries, path);
      var joins := ArrayOf(Get(entries, Joins));
      if joins.Some? {
        var base := path + [AtKey(Joins)];
        ghost var before := referenceSlots;
        for k := 0 to |joins.value|
          invariant referenceSlots == before + ThisSlots(joins.value, k, base) && rawRelation == old(rawRelation)
        {
          if joins.value[k].Obj? {
            referenceSlots := referenceSlots + [base + [AtIndex(k)] + [AtKey(This)]];
          }
        }
      }
    }

    method Scan(node: Value, path: Path, visible: seq<Text>)
      modifies this
      ensures referenceSlots == old(referenceSlots) + Slots(node, path)
      ensures rawRelation == Or(old(rawRelation), Raw(node, visible))
      decreases node
    {
      hide Get, HasKey, Scope, OwnSlots;
      match node
      case Arr(items) =>
        for k := 0 to |items|
          invariant referenceSlots == old(referenceSlots) + SlotsOfItems(items, k, path)
          invariant rawRelation == Or(old(rawRelation), RawOfItems(items, k, visible))
        {
          Scan(items[k], path + [AtIndex(k)], visible);
        }
      case Obj(entries) =>
        var table := TablePayload(entries);
        if table.Some? {
          var name := IdentifierName(Get(table.value, Name));
          if name.Some? && name.value !in visible && rawRelation.None? {
            rawRelation := name;
          }
          return;
        }
        for k := 0 to |entries|
          invariant referenceSlots == old(referenceSlots) + SlotsOfEntries(entries, k, path)
          invariant rawRelation == Or(old(rawRelation), RawOfEntries(entries, k, visible))
        {
          var payload := entries[k].value;
          Scan(payload, path + [AtKey(entries[k].key)], Scope(visible, payload));
        }
        RecordReferenceSlots(entries, path);
      case _ =>
    }
  }

  // ------------------------------------------------------------------------------------------
  // A tree without raw relations needs no qualification

  lemma {:induction false} RawOfItemsAbsent(items: seq<Value>, n: nat, visible: seq<Text>)
    requires n <= |items| && RawOfItems(items, n, visible).None?
    ensures forall k :: 0 <= k < n ==> Raw(items[k], visible).None?
  {
    hide Raw;
    if n > 0 {
      RawOfItemsAbsent(items, n - 1, visible);
    }
  }

  lemma {:induction false} RawOfEntriesAbsent(entries: seq<Entry>, n: nat, visible: seq<Text>)
    requires n <= |entries| && RawOfEntries(entries, n, visible).None?
    ensures forall k :: 0 <= k < n ==> Raw(entries[k].value, Scope(visible, entries[k].value)).None?
  {
    hide Raw, Scope;
    if n > 0 {
      RawOfEntriesAbsent(entries, n - 1, visible);
    }
  }

  lemma {:induction false} RawAbsent(v: Value, visible: seq<Text>)
    requires Raw(v, visible).None?
    ensures Qualification.AllQualified(v, visible)
  {
    hide Get, HasKey, Scope;
    match v
    case Arr(items) =>
      RawOfItemsAbsent(items, |items|, visible);
      forall k | 0 <= k < |items| ensures Qualification.AllQualified(items[k], visible) {
        RawAbsent(items[k], visible);
      }
    case Obj(entries) =>
      if TablePayload(entries).None? {
        RawOfEntriesAbsent(entries, |entries|, visible);
        forall k | 0 <= k < |entries|
          ensures Qualification.AllQualified(entries[k].value, Scope(visible, entries[k].value))
        {
          RawAbsent(entries[k].value, Scope(visible, entries[k].value));
        }
      }
    case _ =>
  }

  lemma RawAbsentKeeps(v: Value, database: Text)
    requires Raw(v, []).None?
    ensures Qualification.Qualified(v, database, []) == v
  {
    RawAbsent(v, []);
    Qualification.UnchangedExactly(v, database, []);
  }
}
