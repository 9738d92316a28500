/** Parsed SQL as JSON-shaped trees, and the lookups every walk shares
    (crates/sqltide-sqlanalysis/src/tree.rs). */
module Trees {
  import opened Chars

  /** The keys the walks ask for by name; every other key is `Other`. */
  datatype Key =
    | From | Expressions | Joins | This | Alias | Table | Schema | Name | With | Ctes
    | Function | Args | Column | Literal | Content | Equality | Left | Right
    | IsQuoted | TrailingComments
    | Other(text: Text)

  datatype Value =
    | Null
    | Scalar(literal: Text)
    | Str(text: Text)
    | Arr(items: seq<Value>)
    | Obj(entries: seq<Entry>)

  datatype Entry = Entry(key: Key, value: Value)

  /** An object's entries in insertion order; lookups find the first with the key. */
  function Get(entries: seq<Entry>, key: Key): (r: Option<Value>)
    ensures r.Some? <==> HasKey(entries, key)
  {
    if entries == [] then None
    else if entries[0].key == key then Some(entries[0].value)
    else Get(entries[1..], key)
  }

  predicate HasKey(entries: seq<Entry>, key: Key) {
    exists k :: 0 <= k < |entries| && entries[k].key == key
  }

  /** Insertion keeps the place of a key that is already there. */
  function Put(entries: seq<Entry>, key: Key, value: Value): seq<Entry> {
    if entries == [] then [Entry(key, value)]
    else if entries[0].key == key then [Entry(key, value)] + entries[1..]
    else [entries[0]] + Put(entries[1..], key, value)
  }

  /** No object of the tree holds a key twice, as in every serde map. */
  predicate Unique(v: Value) {
    match v
    case Arr(items) => forall k :: 0 <= k < |items| ==> Unique(items[k])
    case Obj(entries) =>
      && (forall j, k :: 0 <= j < k < |entries| ==> entries[j].key != entries[k].key)
      && (forall k :: 0 <= k < |entries| ==> Unique(entries[k].value))
    case _ => true
  }

  function ObjectOf(v: Option<Value>): Option<seq<Entry>> {
    if v.Some? && v.value.Obj? then Some(v.value.entries) else None
  }

  function ArrayOf(v: Option<Value>): Option<seq<Value>> {
    if v.Some? && v.value.Arr? then Some(v.value.items) else None
  }

  function TextOf(v: Option<Value>): Option<Text> {
    if v.Some? && v.value.Str? then Some(v.value.text) else None
  }

  /** The `name` of an identifier payload. */
  function IdentifierName(payload: Option<Value>): Option<Text> {
    match ObjectOf(payload) case None => None case Some(entries) => TextOf(Get(entries, Name))
  }

  function CteName(cte: Value): Option<Text> {
    if cte.Obj? then IdentifierName(Get(cte.entries, Alias)) else None
  }

  function CteNames(ctes: seq<Value>): seq<Text> {
    if ctes == [] then []
    else (match CteName(ctes[0]) case Some(name) => [name] case None => []) + CteNames(ctes[1..])
  }

  /** The names a SELECT payload's WITH clause declares. */
  function SelectCteNames(select: seq<Entry>): seq<Text> {
    match ObjectOf(Get(select, With))
    case None => []
    case Some(with) =>
      match ArrayOf(Get(with, Ctes)) case None => [] case Some(ctes) => CteNames(ctes)
  }

  /** The names visible below `v`. */
  function Scope(visible: seq<Text>, v: Value): seq<Text> {
    if v.Obj? then visible + SelectCteNames(v.entries) else visible
  }

  /** The payload of a table node: an object with a `schema` under `table`. */
  function TablePayload(entries: seq<Entry>): (r: Option<seq<Entry>>)
    ensures r.Some? ==> Get(entries, Table) == Some(Obj(r.value)) && HasKey(r.value, Schema)
  {
    match ObjectOf(Get(entries, Table))
    case None => None
    case Some(payload) => if HasKey(payload, Schema) then Some(payload) else None
  }

  // ------------------------------------------------------------------------------------------
  // Facts about lookups

  /** Replacing the values under keys for which the lookups agree keeps the lookup. */
  lemma {:induction false} GetOfMapped(a: seq<Entry>, b: seq<Entry>, key: Key)
    requires |a| == |b| && forall k :: 0 <= k < |a| ==> a[k].key == b[k].key
    ensures HasKey(a, key) <==> HasKey(b, key)
    ensures HasKey(a, key) ==> exists k :: 0 <= k < |a| && a[k].key == key &&
                                 Get(a, key) == Some(a[k].value) && Get(b, key) == Some(b[k].value)
  {
    if a != [] {
      assert a[0].key == b[0].key;
      if a[0].key != key {
        var a', b' := a[1..], b[1..];
        GetOfMapped(a', b', key);
        if HasKey(a', key) {
          var k :| 0 <= k < |a'| && a'[k].key == key && Get(a', key) == Some(a'[k].value) && Get(b', key) == Some(b'[k].value);
          assert a[k + 1] == a'[k] && b[k + 1] == b'[k];
        }
        assert HasKey(a, key) <==> Get(a, key).Some?;
        assert HasKey(b, key) <==> Get(b, key).Some?;
      }
    }
  }

  lemma {:induction false} GetUnique(entries: seq<Entry>, k: nat)
    requires k < |entries| && forall i, j :: 0 <= i < j < |entries| ==> entries[i].key != entries[j].key
    ensures Get(entries, entries[k].key) == Some(entries[k].value)
  {
    if k > 0 {
      GetUnique(entries[1..], k - 1);
    }
  }

  lemma {:induction false} GetPlace(entries: seq<Entry>, key: Key)
    requires HasKey(entries, key)
    ensures exists k :: 0 <= k < |entries| && entries[k].key == key && Get(entries, key) == Some(entries[k].value)
  {
    GetOfMapped(entries, entries, key);
  }

  lemma GetOfCons(first: Entry, rest: seq<Entry>, key: Key)
    ensures Get([first] + rest, key) == if first.key == key then Some(first.value) else Get(rest, key)
  {
    hide HasKey;
    assert ([first] + rest)[1..] == rest;
  }

  lemma {:induction false} GetOfPut(entries: seq<Entry>, key: Key, value: Value, other: Key)
    ensures Get(Put(entries, key, value), other) == if other == key then Some(value) else Get(entries, other)
  {
    hide HasKey, Get;
    if entries == [] {
      assert Put(entries, key, value) == [Entry(key, value)] + entries;
      GetOfCons(Entry(key, value), entries, other);
    } else {
      var rest := entries[1..];
      assert entries == [entries[0]] + rest;
      GetOfCons(entries[0], rest, other);
      GetOfCons(Entry(key, value), rest, other);
      if entries[0].key != key {
        GetOfPut(rest, key, value, other);
        GetOfCons(entries[0], Put(rest, key, value), other);
      }
    }
  }

  lemma {:induction false} PutOfSame(entries: seq<Entry>, key: Key, value: Value)
    requires Get(entries, key) == Some(value)
    ensures Put(entries, key, value) == entries
  {
    if entries[0].key != key {
      PutOfSame(entries[1..], key, value);
    }
  }

  lemma {:induction false} CteNamesOfMapped(a: seq<Value>, b: seq<Value>)
    requires |a| == |b| && forall k :: 0 <= k < |a| ==> CteName(a[k]) == CteName(b[k])
    ensures CteNames(a) == CteNames(b)
  {
    if a != [] {
      assert CteName(a[0]) == CteName(b[0]);
      CteNamesOfMapped(a[1..], b[1..]);
    }
  }

  lemma ScopeNested(outer: seq<Text>, inner: seq<Text>, v: Value)
    ensures Scope(outer + inner, v) == outer + Scope(inner, v)
  {
    if v.Obj? {
      Associative(outer, inner, SelectCteNames(v.entries));
    }
  }

  // ------------------------------------------------------------------------------------------
  // Trees that declare the same CTE names

  predicate IsDeclarationKey(key: Key) {
    key == With || key == Ctes || key == Alias || key == Name
  }

  /** As far as `depth` steps along the keys of CTE declarations show, `b` is `a`. */
  ghost predicate Copied(a: Value, b: Value, depth: nat)
    decreases depth, 0
  {
    && a.Obj? == b.Obj? && a.Arr? == b.Arr? && (a.Str? || b.Str? ==> a == b)
    && (depth > 0 && a.Obj? ==>
          forall key :: IsDeclarationKey(key) ==> CopiedAt(a.entries, b.entries, key, depth - 1))
    && (depth > 0 && a.Arr? ==>
          |a.items| == |b.items| && forall k :: 0 <= k < |a.items| ==> Copied(a.items[k], b.items[k], depth - 1))
  }

  ghost predicate CopiedAt(a: seq<Entry>, b: seq<Entry>, key: Key, depth: nat)
    decreases depth, 1
  {
    && Get(a, key).Some? == Get(b, key).Some?
    && (Get(a, key).Some? ==> Copied(Get(a, key).value, Get(b, key).value, depth))
  }

  lemma CopiedName(a: Value, b: Value)
    requires Copied(a, b, 2)
    ensures CteName(a) == CteName(b)
  {
    hide HasKey;
    if a.Obj? {
      assert IsDeclarationKey(Alias);
      if Get(a.entries, Alias).Some? {
        var x, y := Get(a.entries, Alias).value, Get(b.entries, Alias).value;
        assert IsDeclarationKey(Name);
      }
    }
  }

  lemma CopiedScope(visible: seq<Text>, a: Value, b: Value)
    requires Copied(a, b, 5)
    ensures Scope(visible, a) == Scope(visible, b)
  {
    hide HasKey, CteName;
    if a.Obj? {
      assert IsDeclarationKey(With);
      if Get(a.entries, With).Some? && Get(a.entries, With).value.Obj? {
        var x, y := Get(a.entries, With).value.entries, Get(b.entries, With).value.entries;
        assert IsDeclarationKey(Ctes);
        if Get(x, Ctes).Some? && Get(x, Ctes).value.Arr? {
          var m, n := Get(x, Ctes).value.items, Get(y, Ctes).value.items;
          forall k | 0 <= k < |m| ensures CteName(m[k]) == CteName(n[k]) {
            CopiedName(m[k], n[k]);
          }
          CteNamesOfMapped(m, n);
        }
      }
    }
  }
}
