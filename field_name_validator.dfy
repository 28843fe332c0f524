/**
 * The field-name validator: a virtual field's name must not be reserved and must
 * not collide with a member of the host class that the field's entity type maps to.
 * Reflection is replaced by what it would report, given as data.
 */
module FieldNameValidator {
  import opened Wrappers
  import opened PhpValues
  import EntityMap

  datatype Visibility = Public | Protected | Private

  /** What reflection reports about one host class. */
  datatype HostClass = HostClass(
    // declared properties, by exact (case-sensitive) name
    properties: map<string, Visibility>,
    // methods, by lower-cased name: PHP method names are case-insensitive
    methods: map<string, Visibility>,
    // `is_subclass_of($class, ActiveRecord::class)`
    isActiveRecord: bool,
    // the table's columns; None when instantiating the class or reading its schema throws
    columns: Option<set<string>>)

  /** The classes `class_exists` finds, by name. */
  type Classes = map<string, HostClass>

  /** The names no virtual field may take (matched exactly). */
  const ReservedNames: seq<string> :=
    ["id", "attributes", "errors", "scenario", "validators", "behaviors", "isNewRecord", "oldAttributes"]

  /** The one error the validator may add, by the check that found it. */
  datatype NameError =
    | ReservedName(name: string)
    | PropertyConflict(name: string, className: string)
    | GetterConflict(name: string, methodName: string, className: string)
    | SetterConflict(name: string, methodName: string, className: string)
    | ColumnConflict(name: string, className: string)

  function GetterName(name: string): string {
    "get" + UcFirst(name)
  }

  function SetterName(name: string): string {
    "set" + UcFirst(name)
  }

  /** `hasMethod($m)` followed by `isPublic()`. */
  predicate HasPublicMethod(c: HostClass, m: string) {
    Lower(m) in c.methods && c.methods[Lower(m)] == Public
  }

  /** `hasProperty($p)` followed by `isPublic() || isProtected()`. */
  predicate HasVisibleProperty(c: HostClass, p: string) {
    p in c.properties && c.properties[p] != Private
  }

  predicate HasColumn(c: HostClass, p: string) {
    c.isActiveRecord && c.columns.Some? && p in c.columns.value
  }

  /**
   * `validateAgainstModel`: the collision checks in their fixed order; the first
   * one that hits is the only error. A class that does not exist is not checked.
   */
  function CheckAgainstClass(name: string, className: string, classes: Classes): (r: Option<NameError>)
    ensures className !in classes ==> r.None?
  {
    if className !in classes then None
    else
      var c := classes[className];
      if HasVisibleProperty(c, name) then Some(PropertyConflict(name, className))
      else if HasPublicMethod(c, GetterName(name)) then Some(GetterConflict(name, GetterName(name), className))
      else if HasPublicMethod(c, SetterName(name)) then Some(SetterConflict(name, SetterName(name), className))
      else if HasColumn(c, name) then Some(ColumnConflict(name, className))
      else None
  }

  /**
   * `validateAttribute` on a definition whose name attribute is `fieldName` and
   * whose entity_type attribute is `entityType`; `vf` (the module) is None when the
   * application has no virtual-fields module (the lookup throws and is ignored).
   * The result is the error added, if any: the validator adds at most one.
   */
  function Check(fieldName: Value, entityType: Value, vf: Option<EntityMap.Module>, classes: Classes)
    : (r: Option<NameError>)
    ensures !Truthy(fieldName) ==> r.None?
    ensures fieldName.Str? && fieldName.s in ReservedNames ==> r == Some(ReservedName(fieldName.s))
    ensures Truthy(fieldName) && !(fieldName.Str? && fieldName.s in ReservedNames)
            && entityType != Null && vf.Some? && EntityMap.GetEntityClass(vf.value, entityType).Some?
            && Truthy(Str(EntityMap.GetEntityClass(vf.value, entityType).value)) ==>
      r == CheckAgainstClass(ToPhpString(fieldName), EntityMap.GetEntityClass(vf.value, entityType).value, classes)
  {
    if !Truthy(fieldName) then None
    else if fieldName.Str? && fieldName.s in ReservedNames then Some(ReservedName(fieldName.s))
    else if entityType == Null || vf.None? then None
    else
      match EntityMap.GetEntityClass(vf.value, entityType)
      case None => None
      case Some(className) =>
        if !Truthy(Str(className)) then None
        else CheckAgainstClass(ToPhpString(fieldName), className, classes)
  }

  // ---------------------------------------------------------------------------
  // Properties

  /** Whatever the host, a reserved name gets exactly the reserved-name error. */
  lemma ReservedWins(name: string, entityType: Value, vf: Option<EntityMap.Module>, classes: Classes)
    requires name in ReservedNames
    ensures Check(Str(name), entityType, vf, classes) == Some(ReservedName(name))
  {
    assert Truthy(Str(name));
  }

  /** Without an entity type, a configured module, or a class for the type, no collision is reported. */
  lemma FailsOpen(name: Value, entityType: Value, vf: Option<EntityMap.Module>, classes: Classes)
    requires !(name.Str? && name.s in ReservedNames)
    requires entityType == Null || vf.None? || EntityMap.GetEntityClass(vf.value, entityType).None?
             || EntityMap.GetEntityClass(vf.value, entityType).value !in classes
    ensures Check(name, entityType, vf, classes).None?
  {
  }

  /**
   * The checks run in order property, getter, setter, column: each kind of error
   * is reported exactly when its check hits and no earlier check did.
   */
  lemma CheckOrder(name: string, className: string, classes: Classes)
    requires className in classes
    ensures var c := classes[className]; var r := CheckAgainstClass(name, className, classes);
      && (r == Some(PropertyConflict(name, className)) <==> HasVisibleProperty(c, name))
      && (r == Some(GetterConflict(name, GetterName(name), className)) <==>
            !HasVisibleProperty(c, name) && HasPublicMethod(c, GetterName(name)))
      && (r == Some(SetterConflict(name, SetterName(name), className)) <==>
            !HasVisibleProperty(c, name) && !HasPublicMethod(c, GetterName(name))
            && HasPublicMethod(c, SetterName(name)))
      && (r == Some(ColumnConflict(name, className)) <==>
            !HasVisibleProperty(c, name) && !HasPublicMethod(c, GetterName(name))
            && !HasPublicMethod(c, SetterName(name)) && HasColumn(c, name))
      && (r.None? <==>
            !HasVisibleProperty(c, name) && !HasPublicMethod(c, GetterName(name))
            && !HasPublicMethod(c, SetterName(name)) && !HasColumn(c, name))
  {
  }

  /** Private properties and non-public accessors never produce an error. */
  lemma HiddenMembersIgnored(name: string, className: string, classes: Classes)
    requires className in classes
    requires var c := classes[className];
      && (name in c.properties ==> c.properties[name] == Private)
      && (Lower(GetterName(name)) in c.methods ==> c.methods[Lower(GetterName(name))] != Public)
      && (Lower(SetterName(name)) in c.methods ==> c.methods[Lower(SetterName(name))] != Public)
      && !HasColumn(c, name)
    ensures CheckAgainstClass(name, className, classes).None?
  {
  }

  /**
   * Method lookup ignores case, so the getter check finds `getfoo`, `getFoo` or
   * `GETFOO` alike for the field `foo`: only the lower-cased "get" + name matters.
   */
  lemma GetterLookupIgnoresCase(c: HostClass, name: string)
    ensures HasPublicMethod(c, GetterName(name)) <==>
      (Lower("get" + name) in c.methods && c.methods[Lower("get" + name)] == Public)
  {
    LowerUcFirst(name);
    assert Lower("get" + UcFirst(name)) == Lower("get") + Lower(UcFirst(name));
    assert Lower("get" + name) == Lower("get") + Lower(name);
  }
}
