/** Qualifying physical tables with the database placeholder
    (crates/sqltide-sqlanalysis/src/relations.rs, `qualify_relations`). */
module Qualification {
  import opened Chars
  import opened Trees

  function SchemaOf(database: Text): Value {
    Obj([Entry(Name, Str(database)), Entry(IsQuoted, Scalar("false")), Entry(TrailingComments, Arr([]))])
  }

  /** A table payload that names no visible CTE and has no schema yet. */
  predicate IsBare(table: seq<Entry>, visible: seq<Text>) {
    && IdentifierName(Get(table, Name)).Some?
    && IdentifierName(Get(table, Name)).value !in visible
    && Get(table, Schema) == Some(Null)
  }

  function QualifiedTable(table: seq<Entry>, database: Text, visible: seq<Text>): seq<Entry> {
    if IsBare(table, visible) then Put(table, Schema, SchemaOf(database)) else table
  }

  function Qualified(v: Value, database: Text, visible: seq<Text>): Value
    decreases v, 1
  {
    match v
    case Arr(items) => Arr(seq(|items|, k requires 0 <= k < |items| => Qualified(items[k], database, visible)))
    case Obj(entries) =>
      var table := TablePayload(entries);
      if table.Some? then Obj(Put(entries, Table, Obj(QualifiedTable(table.value, database, visible))))
      else Obj(QualifiedEntries(entries, database, visible))
    case _ => v
  }

  function QualifiedEntries(entries: seq<Entry>, database: Text, visible: seq<Text>): (r: seq<Entry>)
    decreases Obj(entries), 0
  {
    seq(|entries|, k requires 0 <= k < |entries| =>
      Entry(entries[k].key, Qualified(entries[k].value, database, Scope(visible, entries[k].value))))
  }

  /** Every table the walk reaches is qualified already or names a visible CTE. */
  predicate AllQualified(v: Value, visible: seq<Text>) {
    match v
    case Arr(items) => forall k :: 0 <= k < |items| ==> AllQualified(items[k], visible)
    case Obj(entries) =>
      var table := TablePayload(entries);
      if table.Some? then !IsBare(table.value, visible)
      else forall k :: 0 <= k < |entries| ==> AllQualified(entries[k].value, Scope(visible, entries[k].value))
    case _ => true
  }

  /** Qualification changes a tree exactly when it holds a bare table. */
  lemma {:induction false} UnchangedExactly(v: Value, database: Text, visible: seq<Text>)
    ensures Qualified(v, database, visible) == v <==> AllQualified(v, visible)
    decreases v, 1
  {
    match v
    case Arr(items) =>
      forall k | 0 <= k < |items| ensures Qualified(items[k], database, visible) == items[k] <==> AllQualified(items[k], visible) {
        UnchangedExactly(items[k], database, visible);
      }
    case Obj(entries) =>
      var table := TablePayload(entries);
      if table.Some? {
        var payload := QualifiedTable(table.value, database, visible);
        GetOfPut(table.value, Schema, SchemaOf(database), Schema);
        GetOfPut(entries, Table, Obj(payload), Table);
        if payload == table.value {
          PutOfSame(entries, Table, Obj(payload));
        }
      } else {
        UnchangedEntries(entries, database, visible);
      }
    case _ =>
  }

  lemma {:induction false} UnchangedEntries(entries: seq<Entry>, database: Text, visible: seq<Text>)
    ensures QualifiedEntries(entries, database, visible) == entries <==>
            forall k :: 0 <= k < |entries| ==> AllQualified(entries[k].value, Scope(visible, entries[k].value))
    decreases Obj(entries), 0
  {
    hide Scope, Qualified, AllQualified;
    var mapped := QualifiedEntries(entries, database, visible);
    forall k | 0 <= k < |entries|
      ensures mapped[k] == entries[k] <==> AllQualified(entries[k].value, Scope(visible, entries[k].value))
    {
      UnchangedExactly(entries[k].value, database, Scope(visible, entries[k].value));
    }
    if mapped == entries {
      forall k | 0 <= k < |entries| ensures AllQualified(entries[k].value, Scope(visible, entries[k].value)) {
        assert mapped[k] == entries[k];
      }
    }
  }

  // ------------------------------------------------------------------------------------------
  // What qualification keeps

  lemma {:induction false} QualifiedLookup(entries: seq<Entry>, database: Text, visible: seq<Text>, key: Key)
    ensures var q := Qualified(Obj(entries), database, visible);
            && q.Obj? && HasKey(q.entries, key) == HasKey(entries, key)
            && (Get(entries, key).Some? && (key != Table || TablePayload(entries).None?) ==>
                  var v := Get(entries, key).value;
                  Get(q.entries, key) == Some(Qualified(v, database, Scope(visible, v))) || Get(q.entries, key) == Some(v))
  {
    hide Scope, HasKey;
    var table := TablePayload(entries);
    if table.Some? {
      GetOfPut(entries, Table, Obj(QualifiedTable(table.value, database, visible)), key);
    } else {
      GetOfMapped(entries, QualifiedEntries(entries, database, visible), key);
    }
  }

  lemma {:induction false} QualifiedIsCopy(v: Value, database: Text, visible: seq<Text>, depth: nat)
    ensures Copied(v, Qualified(v, database, visible), depth)
    decreases depth
  {
    hide HasKey, Scope;
    if depth > 0 && v.Obj? {
      forall key | IsDeclarationKey(key)
        ensures CopiedAt(v.entries, Qualified(v, database, visible).entries, key, depth - 1)
      {
        QualifiedLookup(v.entries, database, visible, key);
        if Get(v.entries, key).Some? {
          var child := Get(v.entries, key).value;
          QualifiedIsCopy(child, database, Scope(visible, child), depth - 1);
          CopyOfItself(child, depth - 1);
        }
      }
    } else if depth > 0 && v.Arr? {
      forall k | 0 <= k < |v.items|
        ensures Copied(v.items[k], Qualified(v.items[k], database, visible), depth - 1)
      {
        QualifiedIsCopy(v.items[k], database, visible, depth - 1);
      }
    }
  }

  lemma {:induction false} CopyOfItself(v: Value, depth: nat)
    ensures Copied(v, v, depth)
    decreases depth
  {
    if depth > 0 && v.Obj? {
      forall key | IsDeclarationKey(key) ensures CopiedAt(v.entries, v.entries, key, depth - 1) {
        if Get(v.entries, key).Some? {
          CopyOfItself(Get(v.entries, key).value, depth - 1);
        }
      }
    } else if depth > 0 && v.Arr? {
      forall k | 0 <= k < |v.items| ensures Copied(v.items[k], v.items[k], depth - 1) {
        CopyOfItself(v.items[k], depth - 1);
      }
    }
  }

  lemma QualifiedScope(v: Value, database: Text, visible: seq<Text>, names: seq<Text>)
    ensures Scope(names, Qualified(v, database, visible)) == Scope(names, v)
  {
    QualifiedIsCopy(v, database, visible, 5);
    CopiedScope(names, v, Qualified(v, database, visible));
  }

  /** An object stays a table node, or stays none, and keeps whether it is one at all. */
  lemma QualifiedTableNode(entries: seq<Entry>, database: Text, visible: seq<Text>)
    ensures var q := Qualified(Obj(entries), database, visible).entries;
            TablePayload(q) == match TablePayload(entries)
                               case None => None
                               case Some(table) => Some(QualifiedTable(table, database, visible))
  {
    hide Scope, HasKey, IsBare;
    var table := TablePayload(entries);
    if table.Some? {
      var payload := QualifiedTable(table.value, database, visible);
      GetOfPut(entries, Table, Obj(payload), Table);
      GetOfPut(table.value, Schema, SchemaOf(database), Schema);
    } else {
      QualifiedLookup(entries, database, visible, Table);
      if Get(entries, Table).Some? && Get(entries, Table).value.Obj? {
        var child := Get(entries, Table).value;
        QualifiedLookup(child.entries, database, Scope(visible, child), Schema);
      }
    }
  }

  /** Qualifying a second time changes nothing, whatever the second placeholder. */
  lemma {:induction false} QualifiedTwice(v: Value, first: Text, second: Text, visible: seq<Text>)
    ensures AllQualified(Qualified(v, first, visible), visible)
    ensures Qualified(Qualified(v, first, visible), second, visible) == Qualified(v, first, visible)
  {
    NothingLeft(v, first, visible);
    UnchangedExactly(Qualified(v, first, visible), second, visible);
  }

  lemma {:induction false} NothingLeft(v: Value, database: Text, visible: seq<Text>)
    ensures AllQualified(Qualified(v, database, visible), visible)
  {
    hide Scope, HasKey;
    match v
    case Arr(items) =>
      forall k | 0 <= k < |items| ensures AllQualified(Qualified(items[k], database, visible), visible) {
        NothingLeft(items[k], database, visible);
      }
    case Obj(entries) =>
      QualifiedTableNode(entries, database, visible);
      var table := TablePayload(entries);
      if table.Some? {
        GetOfPut(table.value, Schema, SchemaOf(database), Schema);
      } else {
        var q := QualifiedEntries(entries, database, visible);
        forall k | 0 <= k < |entries| ensures AllQualified(q[k].value, Scope(visible, q[k].value)) {
          var child := entries[k].value;
          NothingLeft(child, database, Scope(visible, child));
          QualifiedScope(child, database, Scope(visible, child), visible);
        }
      }
    case _ =>
  }

  // ------------------------------------------------------------------------------------------
  // What qualification writes

  /** A table node the walk reaches, with the CTE names visible there. */
  datatype Site = Site(table: seq<Entry>, visible: seq<Text>)

  function Reached(v: Value, visible: seq<Text>): seq<Site>
    decreases v, 0
  {
    match v
    case Arr(items) => ReachedItems(items, visible)
    case Obj(entries) =>
      var table := TablePayload(entries);
      if table.Some? then [Site(table.value, visible)] else ReachedEntries(entries, visible)
    case _ => []
  }

  function ReachedItems(items: seq<Value>, visible: seq<Text>): seq<Site>
    decreases items, 1
  {
    if items == [] then []
    else
      var n := |items| - 1;
      ReachedItems(items[..n], visible) + Reached(items[n], visible)
  }

  function ReachedEntries(entries: seq<Entry>, visible: seq<Text>): seq<Site>
    decreases entries, 1
  {
    if entries == [] then []
    else
      var n := |entries| - 1;
      assert entries[n].value < entries[n];
      ReachedEntries(entries[..n], visible) + Reached(entries[n].value, Scope(visible, entries[n].value))
  }

  /** An identifier payload for `name`, without quotes. */
  predicate IsPlainIdentifier(payload: Option<Value>, name: Text) {
    IdentifierName(payload) == Some(name) && Get(payload.value.entries, IsQuoted) == Some(Scalar("false"))
  }

  /** The same table, in the schema `database` if it was bare, in its own otherwise. */
  ghost predicate Placed(before: Site, after: Site, database: Text) {
    && after.visible == before.visible
    && (forall key :: key != Schema ==> Get(after.table, key) == Get(before.table, key))
    && if IsBare(before.table, before.visible) then IsPlainIdentifier(Get(after.table, Schema), database)
       else Get(after.table, Schema) == Get(before.table, Schema)
  }

  ghost predicate AllPlaced(before: seq<Site>, after: seq<Site>, database: Text) {
    |before| == |after| && forall k :: 0 <= k < |before| ==> Placed(before[k], after[k], database)
  }

  lemma SchemaIsPlain(database: Text)
    ensures IsPlainIdentifier(Some(SchemaOf(database)), database)
  {
    hide HasKey;
    var quoted, comments := Entry(IsQuoted, Scalar("false")), Entry(TrailingComments, Arr([]));
    GetOfCons(Entry(Name, Str(database)), [quoted, comments], Name);
    GetOfCons(Entry(Name, Str(database)), [quoted, comments], IsQuoted);
    GetOfCons(quoted, [comments], IsQuoted);
    assert SchemaOf(database).entries == [Entry(Name, Str(database))] + [quoted, comments];
    assert [quoted, comments] == [quoted] + [comments];
  }

  lemma PlacedTable(table: seq<Entry>, database: Text, visible: seq<Text>)
    ensures Placed(Site(table, visible), Site(QualifiedTable(table, database, visible), visible), database)
  {
    hide HasKey;
    SchemaIsPlain(database);
    if IsBare(table, visible) {
      forall key ensures Get(QualifiedTable(table, database, visible), key)
                         == if key == Schema then Some(SchemaOf(database)) else Get(table, key)
      {
        GetOfPut(table, Schema, SchemaOf(database), key);
      }
    }
  }

  lemma PlacedBoth(a: seq<Site>, b: seq<Site>, a': seq<Site>, b': seq<Site>, database: Text)
    requires AllPlaced(a, a', database) && AllPlaced(b, b', database)
    ensures AllPlaced(a + b, a' + b', database)
  {
    hide Placed;
  }

  /** A qualified tree has the tables of the original: the bare ones in the schema `database`, the
      others where they were. */
  lemma {:induction false} TablesArePlaced(v: Value, database: Text, visible: seq<Text>)
    ensures AllPlaced(Reached(v, visible), Reached(Qualified(v, database, visible), visible), database)
    decreases v, 0
  {
    hide Placed, HasKey;
    match v
    case Arr(items) =>
      ItemsArePlaced(items, Qualified(v, database, visible).items, database, visible);
    case Obj(entries) =>
      var table := TablePayload(entries);
      QualifiedTableNode(entries, database, visible);
      if table.Some? {
        PlacedTable(table.value, database, visible);
      } else {
        EntriesArePlaced(entries, QualifiedEntries(entries, database, visible), database, visible);
      }
    case _ =>
  }

  lemma {:induction false} ItemsArePlaced(items: seq<Value>, done: seq<Value>, database: Text, visible: seq<Text>)
    requires |done| == |items| && forall k :: 0 <= k < |items| ==> done[k] == Qualified(items[k], database, visible)
    ensures AllPlaced(ReachedItems(items, visible), ReachedItems(done, visible), database)
    decreases items, 1
  {
    hide AllPlaced, Reached, Qualified;
    if items == [] {
      NothingPlaced(database);
    } else {
      var n := |items| - 1;
      ItemsArePlaced(items[..n], done[..n], database, visible);
      TablesArePlaced(items[n], database, visible);
      PlacedBoth(ReachedItems(items[..n], visible), Reached(items[n], visible),
                 ReachedItems(done[..n], visible), Reached(done[n], visible), database);
    }
  }

  lemma NothingPlaced(database: Text)
    ensures AllPlaced([], [], database)
  {
  }

  lemma {:induction false} EntriesArePlaced(entries: seq<Entry>, done: seq<Entry>, database: Text, visible: seq<Text>)
    requires |done| == |entries|
    requires forall k :: 0 <= k < |entries| ==>
               done[k].value == Qualified(entries[k].value, database, Scope(visible, entries[k].value))
    ensures AllPlaced(ReachedEntries(entries, visible), ReachedEntries(done, visible), database)
    decreases entries, 1
  {
    hide AllPlaced, Reached, Qualified, Scope;
    if entries == [] {
      NothingPlaced(database);
    } else {
      var n := |entries| - 1;
      var child := entries[n].value;
      assert child < entries[n];
      EntriesArePlaced(entries[..n], done[..n], database, visible);
      TablesArePlaced(child, database, Scope(visible, child));
      QualifiedScope(child, database, Scope(visible, child), visible);
      PlacedBoth(ReachedEntries(entries[..n], visible), Reached(child, Scope(visible, child)),
                 ReachedEntries(done[..n], visible), Reached(done[n].value, Scope(visible, child)), database);
    }
  }

  /** Nothing is left to qualify exactly when no table reached is bare. */
  lemma {:induction false} QualifiedSites(v: Value, visible: seq<Text>)
    ensures AllQualified(v, visible) <==>
            forall site :: site in Reached(v, visible) ==> !IsBare(site.table, site.visible)
    decreases v, 0
  {
    hide HasKey, Scope, IsBare;
    match v
    case Arr(items) =>
      ItemSites(items, visible);
    case Obj(entries) =>
      var table := TablePayload(entries);
      if table.None? {
        EntrySites(entries, visible);
      } else {
        assert Reached(v, visible) == [Site(table.value, visible)];
        assert Reached(v, visible)[0] in Reached(v, visible);
      }
    case _ =>
  }

  lemma {:induction false} ItemSites(items: seq<Value>, visible: seq<Text>)
    ensures (forall k :: 0 <= k < |items| ==> AllQualified(items[k], visible)) <==>
            forall site :: site in ReachedItems(items, visible) ==> !IsBare(site.table, site.visible)
    decreases items, 1
  {
    hide Reached, AllQualified, IsBare;
    if items != [] {
      var n := |items| - 1;
      var init := items[..n];
      ItemSites(init, visible);
      QualifiedSites(items[n], visible);
      assert (forall k :: 0 <= k < n ==> AllQualified(items[k], visible)) <==>
             forall k :: 0 <= k < n ==> AllQualified(init[k], visible);
    }
  }

  lemma {:induction false} EntrySites(entries: seq<Entry>, visible: seq<Text>)
    ensures (forall k :: 0 <= k < |entries| ==> AllQualified(entries[k].value, Scope(visible, entries[k].value))) <==>
            forall site :: site in ReachedEntries(entries, visible) ==> !IsBare(site.table, site.visible)
    decreases entries, 1
  {
    hide Reached, AllQualified, IsBare, Scope;
    if entries != [] {
      var n := |entries| - 1;
      var init, child := entries[..n], entries[n].value;
      assert child < entries[n];
      EntrySites(init, visible);
      QualifiedSites(child, Scope(visible, child));
      assert (forall k :: 0 <= k < n ==> AllQualified(entries[k].value, Scope(visible, entries[k].value))) <==>
             forall k :: 0 <= k < n ==> AllQualified(init[k].value, Scope(visible, init[k].value));
    }
  }

  /** Two placeholders give different trees exactly when there is a table to qualify. */
  lemma PlaceholdersShow(v: Value, first: Text, second: Text, visible: seq<Text>)
    requires first != second
    ensures Qualified(v, first, visible) == Qualified(v, second, visible) <==> AllQualified(v, visible)
  {
    hide HasKey, Qualified, IsBare, AllQualified, Reached;
    UnchangedExactly(v, first, visible);
    UnchangedExactly(v, second, visible);
    if !AllQualified(v, visible) {
      QualifiedSites(v, visible);
      TablesArePlaced(v, first, visible);
      TablesArePlaced(v, second, visible);
      var sites := Reached(v, visible);
      var k :| 0 <= k < |sites| && IsBare(sites[k].table, sites[k].visible);
      assert Placed(sites[k], Reached(Qualified(v, first, visible), visible)[k], first);
      assert Placed(sites[k], Reached(Qualified(v, second, visible), visible)[k], second);
    }
  }

  /** The tree without the schemas of its tables. */
  function Cleared(v: Value): Value
    decreases v
  {
    match v
    case Arr(items) => Arr(seq(|items|, k requires 0 <= k < |items| => Cleared(items[k])))
    case Obj(entries) =>
      var table := TablePayload(entries);
      if table.Some? then Obj(Put(entries, Table, Obj(Put(table.value, Schema, Null))))
      else Obj(seq(|entries|, k requires 0 <= k < |entries| =>
        assert entries[k].value < entries[k]; Entry(entries[k].key, Cleared(entries[k].value))))
    case _ => v
  }

  lemma {:induction false} PutTwice(entries: seq<Entry>, key: Key, first: Value, second: Value)
    ensures Put(Put(entries, key, first), key, second) == Put(entries, key, second)
  {
    if entries != [] && entries[0].key != key {
      var rest := entries[1..];
      assert Put(entries, key, first)[1..] == Put(rest, key, first);
      PutTwice(rest, key, first, second);
    }
  }

  /** Qualification changes nothing but the schemas of tables. */
  lemma {:induction false} OnlySchemasChange(v: Value, database: Text, visible: seq<Text>)
    ensures Cleared(Qualified(v, database, visible)) == Cleared(v)
    decreases v
  {
    hide HasKey, Scope;
    match v
    case Arr(items) =>
      var done := Qualified(v, database, visible).items;
      forall k | 0 <= k < |items| ensures Cleared(done[k]) == Cleared(items[k]) {
        OnlySchemasChange(items[k], database, visible);
      }
    case Obj(entries) =>
      var table := TablePayload(entries);
      QualifiedTableNode(entries, database, visible);
      if table.Some? {
        var payload := QualifiedTable(table.value, database, visible);
        PutTwice(entries, Table, Obj(payload), Obj(Put(payload, Schema, Null)));
        PutTwice(table.value, Schema, SchemaOf(database), Null);
      } else {
        var done := QualifiedEntries(entries, database, visible);
        forall k | 0 <= k < |entries| ensures Cleared(done[k].value) == Cleared(entries[k].value) {
          assert entries[k].value < entries[k];
          OnlySchemasChange(entries[k].value, database, Scope(visible, entries[k].value));
        }
      }
    case _ =>
  }

  // ------------------------------------------------------------------------------------------
  // Capture

  /** A bare table of `v` under `inner` is named by a CTE of `outer`. */
  predicate Captures(outer: seq<Text>, v: Value, inner: seq<Text>)
    decreases v
  {
    match v
    case Arr(items) => exists k :: 0 <= k < |items| && Captures(outer, items[k], inner)
    case Obj(entries) =>
      var table := TablePayload(entries);
      if table.Some? then
        IsBare(table.value, inner) && IdentifierName(Get(table.value, Name)).value in outer
      else exists k :: 0 <= k < |entries| && Captures(outer, entries[k].value, Scope(inner, entries[k].value))
    case _ => false
  }

  /** More visible names change what qualification does exactly when they capture a table. */
  lemma {:induction false} CapturesExactly(outer: seq<Text>, v: Value, inner: seq<Text>, database: Text)
    ensures Qualified(v, database, outer + inner) == Qualified(v, database, inner) <==> !Captures(outer, v, inner)
    decreases v
  {
    hide Scope, HasKey;
    match v
    case Arr(items) =>
      var a, b := Qualified(v, database, outer + inner).items, Qualified(v, database, inner).items;
      forall k | 0 <= k < |items| ensures a[k] == b[k] <==> !Captures(outer, items[k], inner) {
        CapturesExactly(outer, items[k], inner, database);
      }
    case Obj(entries) =>
      var table := TablePayload(entries);
      if table.Some? {
        var x, y := QualifiedTable(table.value, database, outer + inner), QualifiedTable(table.value, database, inner);
        GetOfPut(table.value, Schema, SchemaOf(database), Schema);
        GetOfPut(entries, Table, Obj(x), Table);
        GetOfPut(entries, Table, Obj(y), Table);
      } else {
        var a, b := QualifiedEntries(entries, database, outer + inner), QualifiedEntries(entries, database, inner);
        forall k | 0 <= k < |entries|
          ensures a[k] == b[k] <==> !Captures(outer, entries[k].value, Scope(inner, entries[k].value))
        {
          ScopeNested(outer, inner, entries[k].value);
          CapturesExactly(outer, entries[k].value, Scope(inner, entries[k].value), database);
        }
        assert a == b ==> forall k :: 0 <= k < |entries| ==> a[k] == b[k];
      }
    case _ =>
  }

  // ------------------------------------------------------------------------------------------
  // The walk as written

  method QualifyRelations(node: Value, database: Text, visible: seq<Text>) returns (r: Value)
    ensures r == Qualified(node, database, visible)
    ensures AllPlaced(Reached(node, visible), Reached(r, visible), database) && Cleared(r) == Cleared(node)
    decreases node
  {
    hide HasKey, Scope, IsBare, AllPlaced, Reached, Cleared;
    TablesArePlaced(node, database, visible);
    OnlySchemasChange(node, database, visible);
    match node
    case Arr(items) =>
      var done: seq<Value> := [];
      for k := 0 to |items|
        invariant |done| == k && forall j :: 0 <= j < k ==> done[j] == Qualified(items[j], database, visible)
      {
        var item := QualifyRelations(items[k], database, visible);
        done := done + [item];
      }
      r := Arr(done);
    case Obj(entries) =>
      var payload := ObjectOf(Get(entries, Table));
      if payload.Some? && Get(payload.value, Schema).Some? {
        var table := QualifiedTable(payload.value, database, visible);
        return Obj(Put(entries, Table, Obj(table)));
      }
      var done: seq<Entry> := [];
      for k := 0 to |entries|
        invariant |done| == k
        invariant forall j :: 0 <= j < k ==> done[j] == QualifiedEntries(entries, database, visible)[j]
      {
        var value := QualifyRelations(entries[k].value, database, Scope(visible, entries[k].value));
        done := done + [Entry(entries[k].key, value)];
      }
      assert done == QualifiedEntries(entries, database, visible);
      r := Obj(done);
    case _ =>
      r := node;
  }
}
