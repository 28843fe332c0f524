/**
 * The module's entity map: integer entity types to host class names, validated
 * once at start-up, with lookups in both directions.
 */
module EntityMap {
  import opened Wrappers
  import opened PhpValues

  /** The `entityMap` setting as configured: an array of arbitrary entries, or not an array. */
  datatype Config = ArrayConfig(entries: seq<(Key, Value)>) | NonArrayConfig

  /**
   * What the class loader knows: the class names that exist, and those that
   * extend ActiveRecord (`class_exists`, `is_subclass_of`).
   */
  datatype ClassFacts = ClassFacts(existing: set<string>, activeRecords: set<string>)

  datatype ConfigError =
    | NotAnArray
    | KeyNotInt(key: Key)
    | ValueNotString(entityType: int, value: Value)
    | ClassMissing(entityType: int, className: string)
    | NotActiveRecord(entityType: int, className: string)

  /** A configured module: its entity map, in configuration order. */
  datatype Module = Module(entityMap: seq<(int, string)>)

  /** The checks made on one entry, in the order the source makes them. */
  function EntryError(e: (Key, Value), facts: ClassFacts): (r: Option<ConfigError>)
    ensures r.None? <==>
      e.0.IntKey? && e.1.Str? && e.1.s in facts.existing && e.1.s in facts.activeRecords
  {
    if !e.0.IntKey? then Some(KeyNotInt(e.0))
    else if !e.1.Str? then Some(ValueNotString(e.0.i, e.1))
    else if e.1.s !in facts.existing then Some(ClassMissing(e.0.i, e.1.s))
    else if e.1.s !in facts.activeRecords then Some(NotActiveRecord(e.0.i, e.1.s))
    else None
  }

  predicate EntryOk(e: (Key, Value), facts: ClassFacts) {
    EntryError(e, facts).None?
  }

  /** The entries of an accepted configuration, converted to (int, class name) pairs. */
  predicate Converts(entries: seq<(Key, Value)>, m: seq<(int, string)>) {
    |m| == |entries| &&
    forall i :: 0 <= i < |m| ==> entries[i].0 == IntKey(m[i].0) && entries[i].1 == Str(m[i].1)
  }

  function CheckEntries(entries: seq<(Key, Value)>, facts: ClassFacts): (r: Result<seq<(int, string)>, ConfigError>)
    ensures r.Ok? <==> forall i :: 0 <= i < |entries| ==> EntryOk(entries[i], facts)
    ensures r.Ok? ==> Converts(entries, r.value)
    ensures r.Err? ==>
      exists i :: 0 <= i < |entries| && Some(r.error) == EntryError(entries[i], facts)
                  && forall j :: 0 <= j < i ==> EntryOk(entries[j], facts)
  {
    if entries == [] then Ok([])
    else
      match EntryError(entries[0], facts)
      case Some(err) => Err(err)
      case None =>
        match CheckEntries(entries[1..], facts)
        case Err(err) =>
          assert forall i :: 0 <= i < |entries| - 1 ==> entries[1..][i] == entries[i + 1];
          Err(err)
        case Ok(rest) => Ok([(entries[0].0.i, entries[0].1.s)] + rest)
  }

  /**
   * `validateEntityMap` followed by the module's construction: the module exists
   * only when every entry passes; otherwise the error of the first offending entry.
   */
  function Configure(config: Config, facts: ClassFacts): (r: Result<Module, ConfigError>)
    ensures config.NonArrayConfig? ==> r == Err(NotAnArray)
    ensures r.Ok? <==>
      config.ArrayConfig? && forall i :: 0 <= i < |config.entries| ==> EntryOk(config.entries[i], facts)
    ensures r.Ok? ==> Converts(config.entries, r.value.entityMap)
    ensures r.Err? && config.ArrayConfig? ==>
      exists i :: 0 <= i < |config.entries| && Some(r.error) == EntryError(config.entries[i], facts)
        && forall j :: 0 <= j < i ==> EntryOk(config.entries[j], facts)
  {
    match config
    case NonArrayConfig => Err(NotAnArray)
    case ArrayConfig(entries) =>
      match CheckEntries(entries, facts)
      case Ok(m) => Ok(Module(m))
      case Err(e) => Err(e)
  }

  // ---------------------------------------------------------------------------
  // Lookups

  /** The key PHP uses when `v` indexes an array; None where PHP refuses the offset. */
  function ArrayKeyOf(v: Value): Option<Key> {
    match v
    case Null => Some(StrKey(""))
    case Bool(b) => Some(IntKey(if b then 1 else 0))
    case Int(i) => Some(IntKey(i))
    case Str(s) => if s == IntToDecimal(StringToInt(s)) then Some(IntKey(StringToInt(s))) else Some(StrKey(s))
    case Arr(_) => None
  }

  /** `$entityMap[$k] ?? null` over the ordered pairs (the first pair with the key). */
  function LookupClass(m: seq<(int, string)>, k: int): (r: Option<string>)
    ensures r.Some? ==> (k, r.value) in m
    ensures r.None? <==> forall i :: 0 <= i < |m| ==> m[i].0 != k
  {
    if m == [] then None
    else if m[0].0 == k then Some(m[0].1)
    else
      var r := LookupClass(m[1..], k);
      assert forall i :: 1 <= i < |m| ==> m[i] == m[1..][i - 1];
      r
  }

  /** `getEntityClass`: the class configured for an entity type, or null. */
  function GetEntityClass(md: Module, entityType: Value): (r: Option<string>)
    ensures entityType.Int? ==> r == LookupClass(md.entityMap, entityType.i)
  {
    match ArrayKeyOf(entityType)
    case Some(IntKey(k)) => LookupClass(md.entityMap, k)
    case _ => None
  }

  /** `array_flip`: each class name to the last entity type that maps to it. */
  function Flip(m: seq<(int, string)>): (f: map<string, int>)
    ensures forall c :: c in f <==> exists i :: 0 <= i < |m| && m[i].1 == c
  {
    if m == [] then map[]
    else
      var f := Flip(m[..|m| - 1]);
      assert forall i :: 0 <= i < |m| - 1 ==> m[..|m| - 1][i] == m[i];
      f[m[|m| - 1].1 := m[|m| - 1].0]
  }

  /** `getEntityType`: the entity type whose class is `className`, or null. */
  function GetEntityType(md: Module, className: string): Option<int> {
    var f := Flip(md.entityMap);
    if className in f then Some(f[className]) else None
  }

  /** `getEntityTypes`: the configured entity types, in map order. */
  function GetEntityTypes(md: Module): (r: seq<int>)
    ensures |r| == |md.entityMap|
    ensures forall i :: 0 <= i < |r| ==> r[i] == md.entityMap[i].0
  {
    seq(|md.entityMap|, i requires 0 <= i < |md.entityMap| => md.entityMap[i].0)
  }

  /** The flipped map sends a class name to the LAST pair that carries it. */
  lemma {:induction false} FlipLastWins(m: seq<(int, string)>, c: string)
    requires c in Flip(m)
    ensures exists i :: 0 <= i < |m| && m[i] == (Flip(m)[c], c)
                        && forall j :: i < j < |m| ==> m[j].1 != c
  {
    var last := m[|m| - 1];
    var init := m[..|m| - 1];
    if last.1 != c {
      FlipLastWins(init, c);
      var i :| 0 <= i < |init| && init[i] == (Flip(init)[c], c)
               && forall j :: i < j < |init| ==> init[j].1 != c;
      assert m[i] == init[i];
      assert forall j :: i < j < |m| - 1 ==> m[j] == init[j];
    } else {
      assert m[|m| - 1] == (Flip(m)[c], c);
    }
  }

  /**
   * `getEntityType` answers with an entity type whose class is `className`, and
   * when several do, with the last of them; it is null exactly when no entry has it.
   */
  lemma GetEntityTypeSpec(md: Module, className: string)
    ensures GetEntityType(md, className).None? <==>
      forall i :: 0 <= i < |md.entityMap| ==> md.entityMap[i].1 != className
    ensures GetEntityType(md, className).Some? ==>
      exists i :: 0 <= i < |md.entityMap|
        && md.entityMap[i] == (GetEntityType(md, className).value, className)
        && forall j :: i < j < |md.entityMap| ==> md.entityMap[j].1 != className
  {
    if className in Flip(md.entityMap) {
      FlipLastWins(md.entityMap, className);
    }
  }

  predicate DistinctTypes(m: seq<(int, string)>) {
    forall i, j :: 0 <= i < j < |m| ==> m[i].0 != m[j].0
  }

  predicate DistinctClasses(m: seq<(int, string)>) {
    forall i, j :: 0 <= i < j < |m| ==> m[i].1 != m[j].1
  }

  /** When no class is configured twice, the two lookups are inverse on every entity type. */
  lemma LookupsInverse(md: Module, k: int)
    requires DistinctTypes(md.entityMap) && DistinctClasses(md.entityMap)
    requires GetEntityClass(md, Int(k)).Some?
    ensures GetEntityType(md, GetEntityClass(md, Int(k)).value) == Some(k)
  {
    var m := md.entityMap;
    var c := GetEntityClass(md, Int(k)).value;
    assert (k, c) in m;
    GetEntityTypeSpec(md, c);
    var i :| 0 <= i < |m| && m[i] == (GetEntityType(md, c).value, c);
    var i' :| 0 <= i' < |m| && m[i'] == (k, c);
    assert i == i';
  }
}
