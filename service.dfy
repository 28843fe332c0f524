/**
 * The value service: definitions read through a cache keyed by entity type and
 * active/all, values stored as text rows keyed by (entity_type, entity_id,
 * definition_id), and the type registry that converts between the two.
 */
module Service {
  import opened Wrappers
  import opened PhpValues
  import opened DataTypes
  import opened Definitions

  /** A value row's key, (entity_type, entity_id, definition_id): a unique index of the value table. */
  type Triple = (int, int, int)

  /** The value table: the `value` column of each row, which may be NULL. */
  type Store = map<Triple, Option<string>>

  /** The cache key "virtualfields:definitions:{t}:active|all", as (t, activeOnly). */
  type CacheKey = (int, bool)

  // ---------------------------------------------------------------------------
  // Specification functions

  /** The definitions of entity type `t` (only the active ones when `activeOnly`), in table order. */
  function Query(table: seq<Definition>, t: int, activeOnly: bool): (r: seq<Definition>)
    ensures forall d :: d in r <==> d in table && d.entityType == t && (d.active || !activeOnly)
  {
    if table == [] then []
    else
      var d := table[0];
      (if d.entityType == t && (d.active || !activeOnly) then [d] else []) + Query(table[1..], t, activeOnly)
  }

  /** The first definition named `name` (strict comparison). */
  function FindByName(defs: seq<Definition>, name: string): (r: Option<Definition>)
    ensures r.None? <==> forall i :: 0 <= i < |defs| ==> defs[i].name != name
    ensures r.Some? ==>
      exists i :: 0 <= i < |defs| && defs[i] == r.value && r.value.name == name
                  && forall j :: 0 <= j < i ==> defs[j].name != name
  {
    if defs == [] then None
    else if defs[0].name == name then Some(defs[0])
    else
      var r := FindByName(defs[1..], name);
      assert forall i :: 1 <= i < |defs| ==> defs[i] == defs[1..][i - 1];
      r
  }

  /** The first definition carrying the name is the one found. */
  lemma {:induction false} FindByNameFirst(defs: seq<Definition>, name: string, i: int)
    requires 0 <= i < |defs| && defs[i].name == name
    requires forall j :: 0 <= j < i ==> defs[j].name != name
    ensures FindByName(defs, name) == Some(defs[i])
  {
    if i > 0 {
      FindByNameFirst(defs[1..], name, i - 1);
    }
  }

  /** A nullable text column as a PHP value. */
  function Text(o: Option<string>): (v: Value)
    ensures v == Null <==> o.None?
  {
    if o.Some? then Str(o.value) else Null
  }

  function RowOf(t: int, id: int, d: Definition): Triple {
    (t, id, d.id)
  }

  /** The text `getValues` deserializes for `d`: the row's value when a row exists, else the default. */
  function StoredOrDefault(store: Store, t: int, id: int, d: Definition): Value {
    if RowOf(t, id, d) in store then Text(store[RowOf(t, id, d)]) else Text(d.defaultValue)
  }

  function FieldValue(reg: map<string, Handler>, store: Store, t: int, id: int, d: Definition): Value {
    Deserialize(reg, StoredOrDefault(store, t, id, d), d.dataType)
  }

  /** The array `getValues` builds: one assignment per definition, in order. */
  function Resolve(reg: map<string, Handler>, store: Store, t: int, id: int, defs: seq<Definition>): Assoc {
    if defs == [] then []
    else
      var d := defs[|defs| - 1];
      Put(Resolve(reg, store, t, id, defs[..|defs| - 1]), d.name, FieldValue(reg, store, t, id, d))
  }

  /** `getValues` has exactly one key per definition name. */
  lemma {:induction false} ResolveKeys(reg: map<string, Handler>, store: Store, t: int, id: int, defs: seq<Definition>)
    ensures KeySet(Resolve(reg, store, t, id, defs)) == set d | d in defs :: d.name
  {
    if defs != [] {
      var init := defs[..|defs| - 1];
      var d := defs[|defs| - 1];
      var prev := Resolve(reg, store, t, id, init);
      var v := FieldValue(reg, store, t, id, d);
      assert defs == init + [d];
      calc {
        KeySet(Resolve(reg, store, t, id, defs));
        KeySet(Put(prev, d.name, v));
        { PutKeySet(prev, d.name, v); }
        KeySet(prev) + {d.name};
        { ResolveKeys(reg, store, t, id, init); }
        (set e | e in init :: e.name) + {d.name};
        { NamesStep(init, d); }
        set e | e in defs :: e.name;
      }
    }
  }

  /** Adding a definition adds its name. */
  lemma NamesStep(init: seq<Definition>, d: Definition)
    ensures (set e | e in init + [d] :: e.name) == (set e | e in init :: e.name) + {d.name}
  {
    var names, initNames := set e | e in init + [d] :: e.name, set e | e in init :: e.name;
    forall n ensures n in names <==> n in initNames + {d.name} {
      if n in names && n != d.name {
        var e :| e in init + [d] && e.name == n;
        assert e in init;
      }
      if n in initNames {
        var e :| e in init && e.name == n;
        assert e in init + [d];
      }
    }
  }

  /**
   * Under each name `getValues` holds the deserialized stored text, or the
   * deserialized default when no row exists (null when both are null); when two
   * definitions share a name the later one wins.
   */
  lemma {:induction false} ResolveValues(reg: map<string, Handler>, store: Store, t: int, id: int,
                                         defs: seq<Definition>, i: int)
    requires 0 <= i < |defs| && forall j :: i < j < |defs| ==> defs[j].name != defs[i].name
    ensures Lookup(Resolve(reg, store, t, id, defs), defs[i].name) == Some(FieldValue(reg, store, t, id, defs[i]))
  {
    var init := defs[..|defs| - 1];
    if i < |defs| - 1 {
      assert defs[i] == init[i];
      assert forall j :: i < j < |init| ==> init[j] == defs[j];
      ResolveValues(reg, store, t, id, init, i);
    }
  }

  /**
   * What one `setValue` call returns and leaves in the store. `defs` are the
   * active definitions the service sees for `t`. A failed save changes nothing.
   */
  function SetOutcome(reg: map<string, Handler>, defs: seq<Definition>, store: Store,
                      t: int, id: int, name: string, v: Value): (r: (bool, Store))
    ensures FindByName(defs, name).None? ==> r == (false, store)
    ensures forall k :: (FindByName(defs, name).None? || k != RowOf(t, id, FindByName(defs, name).value)) ==>
      (k in r.1 <==> k in store) && (k in store ==> r.1[k] == store[k])
  {
    match FindByName(defs, name)
    case None => (false, store)
    case Some(d) =>
      var k := RowOf(t, id, d);
      if v == Null then (true, store - {k})
      else
        // the value record's `string` rule: text passes, an empty value (null, the
        // empty array) skips the rule, anything else fails validation
        match Encode(reg, v, d.dataType)
        case Str(text) => (true, store[k := Some(text)])
        case Null => (true, store[k := None])
        case _ =>
          // any other value fails the rule; the empty array passes it, but converting
          // it to the text column raises PHP's array-to-string error, so no row is
          // written either way
          (false, store)
  }

  /** Every `setValue` call is idempotent: repeating it returns the same and writes the same. */
  lemma SetIdempotent(reg: map<string, Handler>, defs: seq<Definition>, store: Store, t: int, id: int,
                      name: string, v: Value)
    ensures var r := SetOutcome(reg, defs, store, t, id, name, v);
      SetOutcome(reg, defs, r.1, t, id, name, v) == r
  {
    var r := SetOutcome(reg, defs, store, t, id, name, v);
    if FindByName(defs, name).Some? {
      var d := FindByName(defs, name).value;
      var k := RowOf(t, id, d);
      if v == Null {
        assert r.1 - {k} == r.1;
      } else {
        match Encode(reg, v, d.dataType)
        case Str(text) =>
          assert r.1[k := Some(text)] == r.1;
        case Null =>
          assert r.1[k := None] == r.1;
        case _ =>
      }
    }
  }

  /** A null value deletes only its own row, and succeeds. */
  lemma SetNullDeletes(reg: map<string, Handler>, defs: seq<Definition>, store: Store, t: int, id: int,
                       name: string)
    requires FindByName(defs, name).Some?
    ensures var r := SetOutcome(reg, defs, store, t, id, name, Null);
      r.0 && RowOf(t, id, FindByName(defs, name).value) !in r.1
  {
  }

  /**
   * A non-null value whose encoding is text leaves exactly one row for its triple,
   * holding serialize(cast(v)).
   */
  lemma SetUpserts(reg: map<string, Handler>, defs: seq<Definition>, store: Store, t: int, id: int,
                   name: string, v: Value)
    requires FindByName(defs, name).Some? && v != Null
    requires Encode(reg, v, FindByName(defs, name).value.dataType).Str?
    ensures var d := FindByName(defs, name).value; var r := SetOutcome(reg, defs, store, t, id, name, v);
      && r.0
      && RowOf(t, id, d) in r.1
      && r.1[RowOf(t, id, d)] == Some(Encode(reg, v, d.dataType).s)
  {
  }

  /**
   * A value whose encoding is neither text nor empty fails the `string` rule: the
   * save fails and changes nothing.
   */
  lemma SetRejectsNonText(reg: map<string, Handler>, defs: seq<Definition>, store: Store, t: int, id: int,
                          name: string, v: Value)
    requires FindByName(defs, name).Some? && v != Null
    requires var e := Encode(reg, v, FindByName(defs, name).value.dataType); !e.Str? && e != Null && e != EmptyArray
    ensures StringRuleFails(Encode(reg, v, FindByName(defs, name).value.dataType), None)
    ensures SetOutcome(reg, defs, store, t, id, name, v) == (false, store)
  {
  }

  /**
   * An encoding of the empty array skips the `string` rule, and the write that
   * follows cannot store it: the call fails and the store keeps its rows.
   */
  lemma SetEmptyArrayNotStored(reg: map<string, Handler>, defs: seq<Definition>, store: Store, t: int, id: int,
                               name: string, v: Value)
    requires FindByName(defs, name).Some? && v != Null
    requires Encode(reg, v, FindByName(defs, name).value.dataType) == EmptyArray
    ensures !StringRuleFails(Encode(reg, v, FindByName(defs, name).value.dataType), None)
    ensures SetOutcome(reg, defs, store, t, id, name, v) == (false, store)
  {
  }

  /** `setValues`: every entry is applied in order, and the result is the conjunction of the calls' results. */
  function ApplyAll(reg: map<string, Handler>, defs: seq<Definition>, store: Store,
                    t: int, id: int, pending: Assoc): (bool, Store)
  {
    if pending == [] then (true, store)
    else
      var prev := ApplyAll(reg, defs, store, t, id, pending[..|pending| - 1]);
      var e := pending[|pending| - 1];
      var step := SetOutcome(reg, defs, prev.1, t, id, e.0, e.1);
      (prev.0 && step.0, step.1)
  }

  /** No later entry of `pending` writes the row that entry `i` writes. */
  predicate LastForRow(defs: seq<Definition>, pending: Assoc, i: int)
    requires 0 <= i < |pending|
  {
    && FindByName(defs, pending[i].0).Some?
    && forall j :: i < j < |pending| ==>
         FindByName(defs, pending[j].0).None?
         || FindByName(defs, pending[j].0).value.id != FindByName(defs, pending[i].0).value.id
  }

  /** The row of `d` holds what `setValue` wrote for `v`: nothing for null, else the encoded text. */
  predicate Written(reg: map<string, Handler>, store: Store, t: int, id: int, d: Definition, v: Value) {
    && (v == Null ==> RowOf(t, id, d) !in store)
    && (v != Null && Encode(reg, v, d.dataType).Str? ==>
          RowOf(t, id, d) in store && store[RowOf(t, id, d)] == Some(Encode(reg, v, d.dataType).s))
  }

  /** `setValues` returns false as soon as one entry names no definition. */
  lemma {:induction false} ApplyAllUnknownFails(reg: map<string, Handler>, defs: seq<Definition>, store: Store,
                                                t: int, id: int, pending: Assoc, i: int)
    requires 0 <= i < |pending| && FindByName(defs, pending[i].0).None?
    ensures !ApplyAll(reg, defs, store, t, id, pending).0
  {
    if i < |pending| - 1 {
      var init := pending[..|pending| - 1];
      assert init[i] == pending[i];
      ApplyAllUnknownFails(reg, defs, store, t, id, init, i);
    }
  }

  /** `setValues` for one entity leaves the rows of every other entity as they were. */
  lemma {:induction false} ApplyAllOthersUntouched(reg: map<string, Handler>, defs: seq<Definition>, store: Store,
                                                   t: int, id: int, pending: Assoc, k: Triple)
    requires k.0 != t || k.1 != id
    ensures var r := ApplyAll(reg, defs, store, t, id, pending);
      (k in r.1 <==> k in store) && (k in store ==> r.1[k] == store[k])
  {
    if pending != [] {
      ApplyAllOthersUntouched(reg, defs, store, t, id, pending[..|pending| - 1], k);
    }
  }

  /**
   * `setValues` is best effort: every entry naming a definition is applied even
   * when others fail, and the last entry for each row decides what it holds.
   */
  lemma {:induction false} ApplyAllWrites(reg: map<string, Handler>, defs: seq<Definition>, store: Store,
                                          t: int, id: int, pending: Assoc, i: int)
    requires 0 <= i < |pending| && LastForRow(defs, pending, i)
    ensures Written(reg, ApplyAll(reg, defs, store, t, id, pending).1, t, id,
                    FindByName(defs, pending[i].0).value, pending[i].1)
  {
    var init := pending[..|pending| - 1];
    if i < |pending| - 1 {
      assert init[i] == pending[i];
      assert forall j :: i < j < |init| ==> init[j] == pending[j];
      assert LastForRow(defs, init, i);
      ApplyAllWrites(reg, defs, store, t, id, init, i);
    }
  }

  /** The rows of entity (t, id), which `deleteValues` removes. */
  function Owned(store: Store, t: int, id: int): (r: set<Triple>)
    ensures forall k :: k in r <==> k in store && k.0 == t && k.1 == id
  {
    set k | k in store && k.0 == t && k.1 == id
  }

  /** The store without the rows of entity (t, id). */
  function Without(store: Store, t: int, id: int): (r: Store)
    ensures forall k :: k in r <==> k in store && !(k.0 == t && k.1 == id)
    ensures forall k :: k in r ==> r[k] == store[k]
  {
    map k | k in store && !(k.0 == t && k.1 == id) :: store[k]
  }

  /** Deleting an entity's rows removes exactly its rows: the count removed and the rows kept add up. */
  lemma WithoutCount(store: Store, t: int, id: int)
    ensures |store.Keys| == |Without(store, t, id).Keys| + |Owned(store, t, id)|
    ensures Owned(Without(store, t, id), t, id) == {}
  {
    assert store.Keys == Without(store, t, id).Keys + Owned(store, t, id);
    assert Without(store, t, id).Keys * Owned(store, t, id) == {};
  }

  // ---------------------------------------------------------------------------
  // The tables

  /** The two tables the service works on. */
  class Database {
    var definitions: seq<Definition>
    var values: Store

    constructor (definitions: seq<Definition>, values: Store)
      ensures this.definitions == definitions && this.values == values
    {
      this.definitions := definitions;
      this.values := values;
    }
  }

  // ---------------------------------------------------------------------------
  // The service

  class VirtualFieldService {
    const db: Database
    /** The application's cache, restricted to this service's keys; None when no cache component is configured. */
    var cache: Option<map<CacheKey, seq<Definition>>>
    /** The registered type names, in registration order (`array_keys($this->dataTypes)`). */
    var typeNames: seq<string>
    var handlers: map<string, Handler>

    /** The registry's names are exactly its handlers' keys, each once. */
    predicate Valid()
      reads this
    {
      && (set n | n in typeNames) == handlers.Keys
      && (forall i, j :: 0 <= i < j < |typeNames| ==> typeNames[i] != typeNames[j])
    }

    /**
     * `init()`: the eight built-in types. The cache is the application's shared
     * component, so it starts with whatever earlier requests left in it.
     */
    constructor (db: Database, n: Natives, cache0: Option<map<CacheKey, seq<Definition>>>)
      ensures this.db == db
      ensures cache == cache0
      ensures typeNames == DefaultTypeNames && handlers == DefaultHandlers(n)
      ensures Valid()
    {
      this.db := db;
      cache := cache0;
      typeNames := DefaultTypeNames;
      handlers := DefaultHandlers(n);
    }

    /** What `getDefinitions(t, activeOnly)` answers: the cached list while one is present, else the query. */
    function Visible(t: int, activeOnly: bool): seq<Definition>
      reads this, db`definitions
    {
      if cache.Some? && (t, activeOnly) in cache.value then cache.value[(t, activeOnly)]
      else Query(db.definitions, t, activeOnly)
    }

    /** The cache after `getDefinitions(t, activeOnly)`: a miss stores the query's result. */
    function CacheAfterLookup(t: int, activeOnly: bool): Option<map<CacheKey, seq<Definition>>>
      reads this, db`definitions
    {
      if cache.None? || (t, activeOnly) in cache.value then cache
      else Some(cache.value[(t, activeOnly) := Query(db.definitions, t, activeOnly)])
    }

    /** Every cached list is what the query would return now. */
    predicate CacheCoherent()
      reads this, db`definitions
    {
      cache.Some? ==> forall k :: k in cache.value ==> cache.value[k] == Query(db.definitions, k.0, k.1)
    }

    method GetDefinitions(t: int, activeOnly: bool) returns (defs: seq<Definition>)
      modifies this`cache
      ensures defs == old(Visible(t, activeOnly))
      ensures cache == old(CacheAfterLookup(t, activeOnly))
      ensures forall t', a' :: Visible(t', a') == old(Visible(t', a'))
      ensures old(CacheCoherent()) ==> CacheCoherent() && defs == Query(db.definitions, t, activeOnly)
    {
      if cache.Some? && (t, activeOnly) in cache.value {
        return cache.value[(t, activeOnly)];
      }
      defs := Query(db.definitions, t, activeOnly);
      if cache.Some? {
        cache := Some(cache.value[(t, activeOnly) := defs]);
      }
    }

    method GetDefinitionByName(t: int, name: string) returns (r: Option<Definition>)
      modifies this`cache
      ensures r == FindByName(old(Visible(t, true)), name)
      ensures cache == old(CacheAfterLookup(t, true))
      ensures forall t', a' :: Visible(t', a') == old(Visible(t', a'))
    {
      var defs := GetDefinitions(t, true);
      for i := 0 to |defs|
        invariant forall j :: 0 <= j < i ==> defs[j].name != name
      {
        if defs[i].name == name {
          FindByNameFirst(defs, name, i);
          return Some(defs[i]);
        }
      }
      return None;
    }

    method GetValues(t: int, id: int) returns (r: Assoc)
      modifies this`cache
      ensures r == Resolve(handlers, db.values, t, id, old(Visible(t, true)))
      ensures cache == old(CacheAfterLookup(t, true))
    {
      var defs := GetDefinitions(t, true);
      if |defs| == 0 {
        return [];
      }
      r := [];
      for i := 0 to |defs|
        invariant r == Resolve(handlers, db.values, t, id, defs[..i])
      {
        assert defs[..i + 1][..i] == defs[..i];
        r := Put(r, defs[i].name, FieldValue(handlers, db.values, t, id, defs[i]));
      }
      assert defs[..|defs|] == defs;
    }

    method SetValue(t: int, id: int, name: string, v: Value) returns (ok: bool)
      modifies this`cache, db`values
      ensures (ok, db.values) == SetOutcome(handlers, old(Visible(t, true)), old(db.values), t, id, name, v)
      ensures cache == old(CacheAfterLookup(t, true))
      ensures forall t', a' :: Visible(t', a') == old(Visible(t', a'))
    {
      var found := GetDefinitionByName(t, name);
      if found.None? {
        return false;
      }
      var d := found.value;
      if v == Null {
        db.values := db.values - {RowOf(t, id, d)};
        return true;
      }
      var cast := Cast(handlers, v, d.dataType);
      var serialized := Serialize(handlers, cast, d.dataType);
      match serialized
      case Str(text) =>
        db.values := db.values[RowOf(t, id, d) := Some(text)];
        ok := true;
      case Null =>
        db.values := db.values[RowOf(t, id, d) := None];
        ok := true;
      case _ =>
        ok := false;
    }

    method SetValues(t: int, id: int, pending: Assoc) returns (ok: bool)
      modifies this`cache, db`values
      ensures (ok, db.values) == ApplyAll(handlers, old(Visible(t, true)), old(db.values), t, id, pending)
      ensures cache == if pending == [] then old(cache) else old(CacheAfterLookup(t, true))
    {
      ghost var defs := Visible(t, true);
      ghost var after := CacheAfterLookup(t, true);
      ok := true;
      for i := 0 to |pending|
        invariant (ok, db.values) == ApplyAll(handlers, defs, old(db.values), t, id, pending[..i])
        invariant Visible(t, true) == defs
        invariant cache == if i == 0 then old(cache) else after
        invariant db.definitions == old(db.definitions)
      {
        assert pending[..i + 1][..i] == pending[..i];
        var done := SetValue(t, id, pending[i].0, pending[i].1);
        if !done {
          ok := false;
        }
      }
      assert pending[..|pending|] == pending;
    }

    method DeleteValues(t: int, id: int) returns (count: nat)
      modifies db`values
      ensures db.values == Without(old(db.values), t, id)
      ensures count == |Owned(old(db.values), t, id)|
    {
      count := |Owned(db.values, t, id)|;
      db.values := Without(db.values, t, id);
    }

    /** `clearCache`: drop both keys of one entity type, or flush the whole cache. */
    method ClearCache(t: Option<int>)
      modifies this`cache
      ensures old(cache).None? ==> cache == None
      ensures old(cache).Some? && t.None? ==> cache == Some(map[])
      ensures old(cache).Some? && t.Some? ==>
        cache == Some(old(cache).value - {(t.value, true), (t.value, false)})
      ensures t.Some? ==> forall a :: Visible(t.value, a) == Query(db.definitions, t.value, a)
      ensures old(CacheCoherent()) ==> CacheCoherent()
    {
      if cache.None? {
        return;
      }
      if t.None? {
        cache := Some(map[]);
      } else {
        cache := Some(cache.value - {(t.value, true), (t.value, false)});
      }
    }

    /** `registerDataType`: a new name is added at the end; an existing one keeps its place and is overwritten. */
    method RegisterDataType(name: string, h: Handler)
      requires Valid()
      modifies this`typeNames, this`handlers
      ensures Valid()
      ensures handlers == old(handlers)[name := h]
      ensures typeNames == if name in old(typeNames) then old(typeNames) else old(typeNames) + [name]
      ensures name in GetDataTypes()
      ensures forall v :: v != Null ==>
        Cast(handlers, v, name) == h.cast(v) && Deserialize(handlers, v, name) == h.deserialize(v)
      ensures forall v :: Serialize(handlers, v, name) == h.serialize(v)
    {
      if name !in typeNames {
        typeNames := typeNames + [name];
      }
      handlers := handlers[name := h];
    }

    /** `getDataTypes`: every registered name, once. */
    function GetDataTypes(): (r: seq<string>)
      reads this
      ensures Valid() ==> (forall n :: n in r <==> n in handlers)
                          && forall i, j :: 0 <= i < j < |r| ==> r[i] != r[j]
    {
      typeNames
    }
  }
}
