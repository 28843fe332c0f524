/**
 * The behavior attached to a host record: definitions and values loaded lazily
 * from the service, a buffer of pending assignments read before the stored values
 * and flushed after the record is saved, and the validation rules it attaches.
 */
module Behavior {
  import opened Wrappers
  import opened PhpValues
  import opened Definitions
  import opened Service

  /** What makes an access throw, or leave the behavior for its parent's handling. */
  datatype BehaviorError =
    | MissingObjectType                // the owner has no getObjectType()
    | ObjectTypeNotInt(value: Value)   // getObjectType() returned a non-integer
    | DelegatedToParent(name: string)  // not a virtual field: parent::__get / parent::__set

  /** A validator the behavior appends to its owner, on one attribute. */
  datatype Rule =
    | RequiredRule(attribute: string)
    | IntegerRule(attribute: string)
    | NumberRule(attribute: string)
    | BooleanRule(attribute: string)
    | DateRule(attribute: string, format: string)
  {
    predicate IsTypeRule() {
      !RequiredRule?
    }
  }

  const DateFormat := "php:Y-m-d"
  const DateTimeFormat := "php:Y-m-d H:i:s"

  /** The rules `beforeValidate` attaches for one definition: `required` first, then at most one type rule. */
  function RulesOf(d: Definition): (rules: seq<Rule>)
    ensures RequiredRule(d.name) in rules <==> d.required
    ensures forall r :: r in rules ==> r.attribute == d.name
    ensures var typeRules := if d.required then rules[1..] else rules;
      && (forall r :: r in typeRules ==> r.IsTypeRule())
      && (|typeRules| == 1 <==> d.dataType in ["int", "float", "bool", "date", "datetime"])
      && (|typeRules| == 0 <==> d.dataType !in ["int", "float", "bool", "date", "datetime"])
    ensures d.dataType == "int" ==> IntegerRule(d.name) in rules
    ensures d.dataType == "float" ==> NumberRule(d.name) in rules
    ensures d.dataType == "bool" ==> BooleanRule(d.name) in rules
    ensures d.dataType == "date" ==> DateRule(d.name, DateFormat) in rules
    ensures d.dataType == "datetime" ==> DateRule(d.name, DateTimeFormat) in rules
  {
    (if d.required then [RequiredRule(d.name)] else [])
    + match d.dataType
      case "int" => [IntegerRule(d.name)]
      case "float" => [NumberRule(d.name)]
      case "bool" => [BooleanRule(d.name)]
      case "date" => [DateRule(d.name, DateFormat)]
      case "datetime" => [DateRule(d.name, DateTimeFormat)]
      case _ => []
  }

  /** The rules for a list of definitions, in order. */
  function RulesFor(defs: seq<Definition>): seq<Rule> {
    if defs == [] then [] else RulesFor(defs[..|defs| - 1]) + RulesOf(defs[|defs| - 1])
  }

  /** The rules for one more definition are those already attached followed by its own. */
  lemma RulesForExtend(defs: seq<Definition>, i: nat)
    requires i < |defs|
    ensures RulesFor(defs[..i + 1]) == RulesFor(defs[..i]) + RulesOf(defs[i])
  {
    assert defs[..i + 1][..i] == defs[..i];
  }

  /** Every attached rule comes from some definition, and every definition's rules are attached. */
  lemma {:induction false} RulesForMembers(defs: seq<Definition>)
    ensures forall r :: r in RulesFor(defs) <==> exists d :: d in defs && r in RulesOf(d)
  {
    if defs != [] {
      var init := defs[..|defs| - 1];
      RulesForMembers(init);
      assert defs == init + [defs[|defs| - 1]];
    }
  }

  /** What `__get` answers for a virtual field: the pending value if one is set (even null), else the loaded one. */
  function ReadField(modified: Assoc, loaded: Assoc, name: string): Value {
    if name in KeySet(modified) then Lookup(modified, name).value else Lookup(loaded, name).GetOr(Null)
  }

  /** A pending assignment is what reads see, whatever was loaded, null included. */
  lemma PendingReadFirst(modified: Assoc, loaded: Assoc, name: string, v: Value)
    ensures ReadField(Put(modified, name, v), loaded, name) == v
  {
  }

  /**
   * The scan `canGetProperty`, `canSetProperty`, `__get` and `__set` each make:
   * whether some definition carries exactly this name.
   */
  method Declares(defs: seq<Definition>, name: string) returns (found: bool)
    ensures found <==> FindByName(defs, name).Some?
    ensures found <==> exists i :: 0 <= i < |defs| && defs[i].name == name
  {
    for i := 0 to |defs|
      invariant forall j :: 0 <= j < i ==> defs[j].name != name
    {
      if defs[i].name == name {
        return true;
      }
    }
    found := false;
  }

  /** `__get` agrees with `getVirtualFieldValues`: the loaded values overridden by the pending ones. */
  lemma ReadFieldIsMerged(modified: Assoc, loaded: Assoc, name: string)
    requires DistinctKeys(modified)
    ensures ReadField(modified, loaded, name) == Lookup(Merge(loaded, modified), name).GetOr(Null)
  {
    MergeLookup(loaded, modified, name);
  }

  class VirtualFieldsBehavior {
    const service: VirtualFieldService
    /** The owner's `getObjectType()`, None when it has no such method. */
    const objectType: Option<Value>
    /** The owner's `getIsNewRecord()` and `getPrimaryKey()`, which its insert changes. */
    var isNewRecord: bool
    var primaryKey: Option<int>
    /** The names the parent's `canGetProperty` / `canSetProperty` accept. */
    const parentReadable: set<string>
    const parentWritable: set<string>

    var definitions: Option<seq<Definition>>
    var values: Option<Assoc>
    /** The pending assignments, by field name. */
    var modified: Assoc
    /** The owner's validator list, which `beforeValidate` appends to. */
    var ownerValidators: seq<Rule>

    predicate Valid()
      reads this
    {
      DistinctKeys(modified)
    }

    constructor (service: VirtualFieldService, objectType: Option<Value>, isNewRecord: bool,
                 primaryKey: Option<int>, parentReadable: set<string>, parentWritable: set<string>)
      ensures this.service == service && this.objectType == objectType && this.isNewRecord == isNewRecord
      ensures this.primaryKey == primaryKey
      ensures this.parentReadable == parentReadable && this.parentWritable == parentWritable
      ensures definitions == None && values == None && modified == [] && ownerValidators == []
      ensures Valid()
    {
      this.service := service;
      this.objectType := objectType;
      this.isNewRecord := isNewRecord;
      this.primaryKey := primaryKey;
      this.parentReadable := parentReadable;
      this.parentWritable := parentWritable;
      definitions := None;
      values := None;
      modified := [];
      ownerValidators := [];
    }

    /** `getEntityType`: the owner's object type, which must be an integer. */
    function EntityType(): (r: Result<int, BehaviorError>)
      ensures r.Ok? <==> objectType.Some? && objectType.value.Int?
      ensures r.Ok? ==> objectType == Some(Int(r.value))
    {
      match objectType
      case None => Err(MissingObjectType)
      case Some(Int(t)) => Ok(t)
      case Some(v) => Err(ObjectTypeNotInt(v))
    }

    /** What `getDefinitions()` answers now: the loaded list, else the service's active definitions. */
    function DefinitionsNow(): Result<seq<Definition>, BehaviorError>
      reads this, service, service.db`definitions
    {
      if definitions.Some? then Ok(definitions.value)
      else match EntityType()
        case Err(e) => Err(e)
        case Ok(t) => Ok(service.Visible(t, true))
    }

    /** A new record, or one whose primary key is empty, has no stored values to load. */
    predicate NothingStored()
      reads this
    {
      isNewRecord || primaryKey.None? || primaryKey.value == 0
    }

    /** What `getValues()` answers now: the loaded values, else what the service returns. */
    function ValuesNow(): Result<Assoc, BehaviorError>
      reads this, service, service.db
    {
      if values.Some? then Ok(values.value)
      else if NothingStored() then Ok([])
      else match EntityType()
        case Err(e) => Err(e)
        case Ok(t) => Ok(Resolve(service.handlers, service.db.values, t, primaryKey.value, service.Visible(t, true)))
    }

    method LoadDefinitions() returns (r: Result<seq<Definition>, BehaviorError>)
      modifies this`definitions, service`cache
      ensures r == old(DefinitionsNow())
      ensures definitions == if r.Ok? then Some(r.value) else old(definitions)
      ensures old(definitions).Some? || r.Err? ==> service.cache == old(service.cache)
      ensures old(definitions).None? && r.Ok? ==> service.cache == old(service.CacheAfterLookup(EntityType().value, true))
      ensures forall t', a' :: service.Visible(t', a') == old(service.Visible(t', a'))
    {
      if definitions.Some? {
        return Ok(definitions.value);
      }
      var t := EntityType();
      if t.Err? {
        return Err(t.error);
      }
      var defs := service.GetDefinitions(t.value, true);
      definitions := Some(defs);
      r := Ok(defs);
    }

    /** `getValues()`: loads at most once, and never asks the service about a record with nothing stored. */
    method LoadValues() returns (r: Result<Assoc, BehaviorError>)
      modifies this`values, service`cache
      ensures r == old(ValuesNow())
      ensures values == if r.Ok? then Some(r.value) else old(values)
      ensures old(values).Some? || NothingStored() || r.Err? ==> service.cache == old(service.cache)
      ensures old(values).None? && !NothingStored() && r.Ok? ==>
        service.cache == old(service.CacheAfterLookup(EntityType().value, true))
      ensures forall t', a' :: service.Visible(t', a') == old(service.Visible(t', a'))
    {
      if values.Some? {
        return Ok(values.value);
      }
      if NothingStored() {
        values := Some([]);
        return Ok([]);
      }
      var t := EntityType();
      if t.Err? {
        return Err(t.error);
      }
      var loaded := service.GetValues(t.value, primaryKey.value);
      values := Some(loaded);
      r := Ok(loaded);
    }

    /** `beforeValidate`: appends the rules of every definition to the owner's validators. */
    method BeforeValidate() returns (err: Option<BehaviorError>)
      modifies this`definitions, this`ownerValidators, service`cache
      ensures old(DefinitionsNow()).Err? ==>
        err == Some(old(DefinitionsNow()).error) && ownerValidators == old(ownerValidators)
      ensures old(DefinitionsNow()).Ok? ==>
        err == None && ownerValidators == old(ownerValidators) + RulesFor(old(DefinitionsNow()).value)
      ensures definitions == if old(DefinitionsNow()).Ok? then Some(old(DefinitionsNow()).value) else old(definitions)
      ensures forall t', a' :: service.Visible(t', a') == old(service.Visible(t', a'))
    {
      var loaded := LoadDefinitions();
      if loaded.Err? {
        return Some(loaded.error);
      }
      AppendRules(loaded.value);
      err := None;
    }

    /** The loop of `beforeValidate`: each definition's rules appended in turn. */
    method AppendRules(defs: seq<Definition>)
      modifies this`ownerValidators
      ensures ownerValidators == old(ownerValidators) + RulesFor(defs)
    {
      for i := 0 to |defs|
        invariant ownerValidators == old(ownerValidators) + RulesFor(defs[..i])
      {
        RulesForExtend(defs, i);
        ownerValidators := ownerValidators + RulesOf(defs[i]);
      }
      assert defs[..|defs|] == defs;
    }

    /**
     * `saveVirtualFields` (after insert and after update): nothing happens without
     * pending values; otherwise exactly the pending values go to `setValues`, and
     * the buffer is emptied whatever `setValues` returned.
     */
    method SaveVirtualFields() returns (err: Option<BehaviorError>)
      requires Valid()
      modifies this`modified, service`cache, service.db`values
      ensures Valid()
      ensures old(modified) == [] ==>
        err == None && modified == [] && service.db.values == old(service.db.values)
        && service.cache == old(service.cache)
      ensures old(modified) != [] && EntityType().Err? ==>
        err == Some(EntityType().error) && modified == old(modified)
        && service.db.values == old(service.db.values) && service.cache == old(service.cache)
      ensures old(modified) != [] && EntityType().Ok? && primaryKey.Some? ==>
        var t := EntityType().value;
        && err == None && modified == []
        && service.db.values == old(ApplyAll(service.handlers, service.Visible(t, true), service.db.values,
                                              t, primaryKey.value, modified)).1
        && service.cache == old(service.CacheAfterLookup(t, true))
      ensures old(modified) != [] && EntityType().Ok? && primaryKey.None? ==>
        err == None && modified == [] && service.db.values == old(service.db.values)
        && service.cache == old(service.cache)
    {
      if modified == [] {
        return None;
      }
      var t := EntityType();
      if t.Err? {
        return Some(t.error);
      }
      if primaryKey.Some? {
        var _ := service.SetValues(t.value, primaryKey.value, modified);
      }
      modified := [];
      err := None;
    }

    /**
     * The owner's insert followed by `afterInsert`: the record stops being new and
     * gets its key, then the pending values are saved under that key. Values read
     * before the insert (the empty array of a new record) stay loaded; otherwise
     * the next read asks the service for the new key.
     */
    method AfterInsert(key: int) returns (err: Option<BehaviorError>)
      requires Valid()
      modifies this`isNewRecord, this`primaryKey, this`modified, service`cache, service.db`values
      ensures Valid()
      ensures !isNewRecord && primaryKey == Some(key)
      ensures values == old(values) && definitions == old(definitions)
      ensures old(values).None? && key != 0 && EntityType().Ok? ==>
        var t := EntityType().value;
        ValuesNow() == Ok(Resolve(service.handlers, service.db.values, t, key, service.Visible(t, true)))
      ensures old(modified) == [] ==>
        err == None && modified == [] && service.db.values == old(service.db.values)
        && service.cache == old(service.cache)
      ensures old(modified) != [] && EntityType().Err? ==>
        err == Some(EntityType().error) && modified == old(modified)
        && service.db.values == old(service.db.values) && service.cache == old(service.cache)
      ensures old(modified) != [] && EntityType().Ok? ==>
        var t := EntityType().value;
        && err == None && modified == []
        && service.db.values == old(ApplyAll(service.handlers, service.Visible(t, true), service.db.values,
                                              t, key, modified)).1
        && service.cache == old(service.CacheAfterLookup(t, true))
    {
      isNewRecord := false;
      primaryKey := Some(key);
      err := SaveVirtualFields();
    }

    /** `afterDelete`: every stored value of the record is deleted. */
    method AfterDelete() returns (err: Option<BehaviorError>)
      modifies service.db`values
      ensures EntityType().Err? ==> err == Some(EntityType().error) && service.db.values == old(service.db.values)
      ensures EntityType().Ok? && primaryKey.Some? ==>
        err == None && service.db.values == Without(old(service.db.values), EntityType().value, primaryKey.value)
      ensures EntityType().Ok? && primaryKey.None? ==> err == None && service.db.values == old(service.db.values)
    {
      var t := EntityType();
      if t.Err? {
        return Some(t.error);
      }
      if primaryKey.Some? {
        var _ := service.DeleteValues(t.value, primaryKey.value);
      }
      err := None;
    }

    /** `canGetProperty`: every virtual field name, and whatever the parent accepts. */
    method CanGetProperty(name: string) returns (r: Result<bool, BehaviorError>)
      modifies this`definitions, service`cache
      ensures old(DefinitionsNow()).Err? ==> r == Err(old(DefinitionsNow()).error)
      ensures old(DefinitionsNow()).Ok? ==>
        r == Ok(FindByName(old(DefinitionsNow()).value, name).Some? || name in parentReadable)
      ensures definitions == if old(DefinitionsNow()).Ok? then Some(old(DefinitionsNow()).value) else old(definitions)
      ensures forall t', a' :: service.Visible(t', a') == old(service.Visible(t', a'))
    {
      var loaded := LoadDefinitions();
      if loaded.Err? {
        return Err(loaded.error);
      }
      var declared := Declares(loaded.value, name);
      r := Ok(declared || name in parentReadable);
    }

    /** `canSetProperty`: every virtual field name, and whatever the parent accepts. */
    method CanSetProperty(name: string) returns (r: Result<bool, BehaviorError>)
      modifies this`definitions, service`cache
      ensures old(DefinitionsNow()).Err? ==> r == Err(old(DefinitionsNow()).error)
      ensures old(DefinitionsNow()).Ok? ==>
        r == Ok(FindByName(old(DefinitionsNow()).value, name).Some? || name in parentWritable)
      ensures definitions == if old(DefinitionsNow()).Ok? then Some(old(DefinitionsNow()).value) else old(definitions)
      ensures forall t', a' :: service.Visible(t', a') == old(service.Visible(t', a'))
    {
      var loaded := LoadDefinitions();
      if loaded.Err? {
        return Err(loaded.error);
      }
      var declared := Declares(loaded.value, name);
      r := Ok(declared || name in parentWritable);
    }

    /**
     * `__get`: for a virtual field, the pending value when one is set (even null),
     * else the loaded value (null when absent); any other name goes to the parent.
     */
    method Get(name: string) returns (r: Result<Value, BehaviorError>)
      modifies this`definitions, this`values, service`cache
      ensures old(DefinitionsNow()).Err? ==> r == Err(old(DefinitionsNow()).error)
      ensures old(DefinitionsNow()).Ok? && FindByName(old(DefinitionsNow()).value, name).None? ==>
        r == Err(DelegatedToParent(name))
      ensures old(DefinitionsNow()).Ok? && FindByName(old(DefinitionsNow()).value, name).Some? ==>
        if name in KeySet(modified) then r == Ok(Lookup(modified, name).value)
        else if old(ValuesNow()).Err? then r == Err(old(ValuesNow()).error)
        else r == Ok(ReadField(modified, old(ValuesNow()).value, name))
      ensures definitions == if old(DefinitionsNow()).Ok? then Some(old(DefinitionsNow()).value) else old(definitions)
      ensures values == old(values) || (old(ValuesNow()).Ok? && values == Some(old(ValuesNow()).value))
      ensures forall t', a' :: service.Visible(t', a') == old(service.Visible(t', a'))
    {
      ghost var valuesBefore := ValuesNow();
      var loaded := LoadDefinitions();
      assert ValuesNow() == valuesBefore;
      if loaded.Err? {
        return Err(loaded.error);
      }
      var declared := Declares(loaded.value, name);
      if !declared {
        return Err(DelegatedToParent(name));
      }
      if name in KeySet(modified) {
        return Ok(Lookup(modified, name).value);
      }
      var vals := LoadValues();
      if vals.Err? {
        return Err(vals.error);
      }
      r := Ok(Lookup(vals.value, name).GetOr(Null));
    }

    /** `__set`: a virtual field's value is only recorded as pending; any other name goes to the parent. */
    method Set(name: string, v: Value) returns (err: Option<BehaviorError>)
      requires Valid()
      modifies this`definitions, this`modified, service`cache
      ensures Valid()
      ensures old(DefinitionsNow()).Err? ==> err == Some(old(DefinitionsNow()).error) && modified == old(modified)
      ensures old(DefinitionsNow()).Ok? && FindByName(old(DefinitionsNow()).value, name).None? ==>
        err == Some(DelegatedToParent(name)) && modified == old(modified)
      ensures old(DefinitionsNow()).Ok? && FindByName(old(DefinitionsNow()).value, name).Some? ==>
        err == None && modified == Put(old(modified), name, v)
      ensures definitions == if old(DefinitionsNow()).Ok? then Some(old(DefinitionsNow()).value) else old(definitions)
      ensures forall t', a' :: service.Visible(t', a') == old(service.Visible(t', a'))
    {
      var loaded := LoadDefinitions();
      if loaded.Err? {
        return Some(loaded.error);
      }
      var declared := Declares(loaded.value, name);
      if !declared {
        return Some(DelegatedToParent(name));
      }
      PutKeys(modified, name, v);
      modified := Put(modified, name, v);
      err := None;
    }

    /** `getVirtualFieldNames`: the definitions' names, in order. */
    method GetVirtualFieldNames() returns (r: Result<seq<string>, BehaviorError>)
      modifies this`definitions, service`cache
      ensures old(DefinitionsNow()).Err? ==> r == Err(old(DefinitionsNow()).error)
      ensures old(DefinitionsNow()).Ok? ==>
        && r.Ok?
        && |r.value| == |old(DefinitionsNow()).value|
        && forall i :: 0 <= i < |r.value| ==> r.value[i] == old(DefinitionsNow()).value[i].name
      ensures definitions == if old(DefinitionsNow()).Ok? then Some(old(DefinitionsNow()).value) else old(definitions)
      ensures forall t', a' :: service.Visible(t', a') == old(service.Visible(t', a'))
    {
      var loaded := LoadDefinitions();
      if loaded.Err? {
        return Err(loaded.error);
      }
      var defs := loaded.value;
      r := Ok(seq(|defs|, i requires 0 <= i < |defs| => defs[i].name));
    }

    /** `getVirtualFieldValues`: the loaded values, overridden by the pending ones. */
    method GetVirtualFieldValues() returns (r: Result<Assoc, BehaviorError>)
      requires Valid()
      modifies this`values, service`cache
      ensures old(ValuesNow()).Err? ==> r == Err(old(ValuesNow()).error)
      ensures old(ValuesNow()).Ok? ==> r == Ok(Merge(old(ValuesNow()).value, modified))
      ensures old(ValuesNow()).Ok? ==> forall k :: Lookup(r.value, k).GetOr(Null) == ReadField(modified, old(ValuesNow()).value, k)
      ensures values == if old(ValuesNow()).Ok? then Some(old(ValuesNow()).value) else old(values)
      ensures forall t', a' :: service.Visible(t', a') == old(service.Visible(t', a'))
    {
      var vals := LoadValues();
      if vals.Err? {
        return Err(vals.error);
      }
      r := Ok(Merge(vals.value, modified));
      forall k ensures Lookup(r.value, k).GetOr(Null) == ReadField(modified, vals.value, k) {
        ReadFieldIsMerged(modified, vals.value, k);
      }
    }
  }
}
