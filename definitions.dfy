/**
 * Field definitions: the stored record, the validation rules a definition must
 * pass before it is saved, and the options array kept as JSON text.
 */
module Definitions {
  import opened Wrappers
  import opened PhpValues
  import EntityMap
  import FieldNameValidator
  import DataTypes

  /** A saved row of the definition table. */
  datatype Definition = Definition(
    id: int,
    entityType: int,
    name: string,
    fieldLabel: Option<string>,
    dataType: string,
    required: bool,
    multiple: bool,
    options: Option<string>,
    defaultValue: Option<string>,
    active: bool)

  /**
   * A definition record's attributes as assigned before validation; `id` is
   * present when the record was loaded from the table (an update).
   */
  datatype Attributes = Attributes(
    id: Option<int>,
    entityType: Value,
    name: Value,
    fieldLabel: Value,
    dataType: Value,
    required: Value,
    multiple: Value,
    options: Value,
    defaultValue: Value,
    active: Value)

  /** The attributes a validation error can be attached to. */
  datatype Attr =
    | EntityTypeAttr | NameAttr | LabelAttr | DataTypeAttr
    | RequiredAttr | MultipleAttr | ActiveAttr | OptionsAttr | DefaultValueAttr

  /** The data types the `in` rule accepts. */
  const AllowedDataTypes: seq<string> :=
    ["string", "int", "float", "bool", "date", "datetime", "json", "text"]

  const MaxNameLength := 64
  const MaxLabelLength := 255
  const MaxDataTypeLength := 32

  /** The validators' notion of an empty value (null, '' or []): every rule but `required` skips it. */
  predicate IsEmpty(v: Value) {
    v == Null || v == Str("") || v == EmptyArray
  }

  // ---------------------------------------------------------------------------
  // The name pattern ^[a-zA-Z_][a-zA-Z0-9_]*$

  predicate IdentStart(c: char) {
    'a' <= c <= 'z' || 'A' <= c <= 'Z' || c == '_'
  }

  predicate IdentChar(c: char) {
    IdentStart(c) || IsDigit(c)
  }

  /** A letter or underscore, then letters, digits and underscores only. */
  predicate IsIdentifier(s: string) {
    |s| >= 1 && IdentStart(s[0]) && forall i :: 1 <= i < |s| ==> IdentChar(s[i])
  }

  /**
   * What `preg_match('/^[a-zA-Z_][a-zA-Z0-9_]*$/', $s)` accepts: without the D
   * modifier, `$` also matches just before a final newline.
   */
  predicate MatchesNamePatternAsWritten(s: string) {
    IsIdentifier(s) || (|s| >= 2 && s[|s| - 1] == '\n' && IsIdentifier(s[..|s| - 1]))
  }

  /** The pattern as written lets a name with a trailing newline through. */
  lemma TrailingNewlineAccepted()
    ensures MatchesNamePatternAsWritten("field\n")
    ensures !IsIdentifier("field\n")
  {
    assert "field\n"[..5] == "field";
    assert !IdentChar("field\n"[5]);
  }

  /**
   * The corrected check accepts only names made of letters, digits and
   * underscores, and agrees with the pattern as written on every name that does
   * not end in a newline.
   */
  lemma IdentifierCorrected(s: string)
    ensures IsIdentifier(s) ==> forall i :: 0 <= i < |s| ==> s[i] != '\n' && s[i] != ' '
    ensures (|s| == 0 || s[|s| - 1] != '\n') ==> (MatchesNamePatternAsWritten(s) <==> IsIdentifier(s))
  {
  }

  /** The names the functional tests reject, and those they accept. */
  lemma NamePatternExamples()
    ensures !IsIdentifier("123invalid") && !IsIdentifier("field-name") && !IsIdentifier("field name")
    ensures !IsIdentifier("field.name") && !IsIdentifier("field@name")
    ensures IsIdentifier("_field") && IsIdentifier("field123") && IsIdentifier("fieldName")
  {
    assert !IdentChar("field-name"[5]);
    assert !IdentChar("field name"[5]);
    assert !IdentChar("field.name"[5]);
    assert !IdentChar("field@name"[5]);
  }

  // ---------------------------------------------------------------------------
  // The rules

  /**
   * The integer an `integer` rule accepts: an int, or a sign and digits. The
   * rule's pattern ends in `$` without the D modifier, so one final newline is
   * accepted too.
   */
  function IntegerValue(v: Value): (r: Option<int>)
    ensures v.Int? ==> r == Some(v.i)
  {
    match v
    case Int(i) => Some(i)
    case Str(s) =>
      var body := if |s| > 0 && s[|s| - 1] == '\n' then s[..|s| - 1] else s;
      var digits := if |body| > 0 && (body[0] == '-' || body[0] == '+') then body[1..] else body;
      if |digits| > 0 && AllDigits(digits) then Some(StringToInt(body)) else None
    case _ => None
  }

  /** Signed digits pass the `integer` rule, with one final newline at most; other padding does not. */
  lemma IntegerRuleExamples()
    ensures IntegerValue(Str("5")) == Some(5) && IntegerValue(Str("-5")) == Some(-5)
    ensures IntegerValue(Str("5\n")) == Some(5)
    ensures IntegerValue(Str("5\n\n")).None? && IntegerValue(Str(" 5")).None? && IntegerValue(Str("")).None?
  {
    assert LeadingDigits("5") == "5";
    assert "5\n"[..1] == "5";
    assert "5\n\n"[..2] == "5\n";
    assert !IsDigit("5\n"[1]);
    assert !IsDigit(" 5"[0]);
  }

  /** The characters PHP skips around a numeric string. */
  predicate IsPhpWhitespace(c: char) {
    c == ' ' || c == '\t' || c == '\n' || c == '\r' || c as int == 11 || c as int == 12
  }

  /** `s` without its leading and trailing whitespace. */
  function TrimWhitespace(s: string): (r: string)
    ensures |r| <= |s|
    decreases |s|
  {
    if |s| > 0 && IsPhpWhitespace(s[0]) then TrimWhitespace(s[1..])
    else if |s| > 0 && IsPhpWhitespace(s[|s| - 1]) then TrimWhitespace(s[..|s| - 1])
    else s
  }

  /**
   * `s` is a numeric string (optional surrounding whitespace, an optional sign,
   * digits with an optional decimal part) whose value is the integer `d`.
   */
  predicate NumericStringIs(s: string, d: nat) {
    var t := TrimWhitespace(s);
    var body := if |t| > 0 && (t[0] == '-' || t[0] == '+') then t[1..] else t;
    var whole := LeadingDigits(body);
    var rest := body[|whole|..];
    var frac := if |rest| > 0 && rest[0] == '.' then rest[1..] else rest;
    && (rest == "" || (rest[0] == '.' && AllDigits(frac)))
    && (|whole| > 0 || |frac| > 0)
    && DigitsValue(whole) == d
    && (forall i :: 0 <= i < |frac| ==> frac[i] == '0')
    && (|t| > 0 && t[0] == '-' ==> d == 0)
  }

  /**
   * What the non-strict `boolean` rule accepts: a value loosely equal (`==`) to
   * '1' or '0'. Every bool is; an int must be 0 or 1; a string must be "0" or
   * "1" or a numeric string of value 0 or 1.
   */
  predicate IsBooleanLike(v: Value) {
    v.Bool? || v == Int(0) || v == Int(1)
    || (v.Str? && (v.s == "0" || v.s == "1" || NumericStringIs(v.s, 0) || NumericStringIs(v.s, 1)))
  }

  /** Padding a numeric string with zeros or a decimal part does not stop it passing the `boolean` rule. */
  lemma BooleanRuleAcceptsSpellings()
    ensures IsBooleanLike(Str("01")) && IsBooleanLike(Str("1.0"))
  {
    assert TrimWhitespace("01") == "01";
    assert LeadingDigits("01") == "01" by {
      assert LeadingDigits("1") == "1";
    }
    assert NumericStringIs("01", 1);
    assert TrimWhitespace("1.0") == "1.0";
    assert LeadingDigits("1.0") == "1" by {
      assert LeadingDigits(".0") == "";
    }
    assert NumericStringIs("1.0", 1);
  }

  /** Surrounding whitespace and the sign of zero do not stop a string passing the `boolean` rule. */
  lemma BooleanRuleAcceptsPadding()
    ensures IsBooleanLike(Str(" 1")) && IsBooleanLike(Str("-0"))
  {
    assert TrimWhitespace(" 1") == "1";
    assert LeadingDigits("1") == "1";
    assert NumericStringIs(" 1", 1);
    assert TrimWhitespace("-0") == "-0";
    assert LeadingDigits("0") == "0";
    assert NumericStringIs("-0", 0);
  }

  /** Other numbers and negative ones fail the `boolean` rule. */
  lemma BooleanRuleRejectsNumbers()
    ensures !IsBooleanLike(Str("2")) && !IsBooleanLike(Str("-1")) && !IsBooleanLike(Int(2))
  {
    assert LeadingDigits("2") == "2";
    assert LeadingDigits("1") == "1";
  }

  /** A word fails the `boolean` rule. */
  lemma BooleanRuleRejectsWords()
    ensures !IsBooleanLike(Str("yes"))
  {
    assert LeadingDigits("yes") == "";
  }

  /** The `string` rule with an optional maximum length (in characters). */
  predicate StringRuleFails(v: Value, max: Option<nat>) {
    !IsEmpty(v) && (!v.Str? || (max.Some? && |v.s| > max.value))
  }

  /** Another row with the same entity type and name (the `unique` rule). */
  predicate Duplicate(a: Attributes, table: seq<Definition>) {
    IntegerValue(a.entityType).Some? && a.name.Str? &&
    exists d :: d in table && d.entityType == IntegerValue(a.entityType).value && d.name == a.name.s
                && (a.id.None? || d.id != a.id.value)
  }

  function If(c: bool, s: set<Attr>): set<Attr> {
    if c then s else {}
  }

  /** The `match` rule on a name: the pattern as written, or the corrected identifier check. */
  predicate NameMatches(s: string, corrected: bool) {
    if corrected then IsIdentifier(s) else MatchesNamePatternAsWritten(s)
  }

  /**
   * `rules()`: the attributes that receive an error. `table` is the definition
   * table the unique rule queries; `vf` and `classes` are what the field-name
   * validator consults; `corrected` chooses the name pattern.
   */
  function RuleErrors(a: Attributes, table: seq<Definition>, vf: Option<EntityMap.Module>,
                      classes: FieldNameValidator.Classes, corrected: bool): set<Attr>
  {
    // required
    If(IsEmpty(a.entityType), {EntityTypeAttr}) + If(IsEmpty(a.name), {NameAttr})
    + If(IsEmpty(a.dataType), {DataTypeAttr})
    // integer
    + If(!IsEmpty(a.entityType) && IntegerValue(a.entityType).None?, {EntityTypeAttr})
    // boolean
    + If(!IsEmpty(a.required) && !IsBooleanLike(a.required), {RequiredAttr})
    + If(!IsEmpty(a.multiple) && !IsBooleanLike(a.multiple), {MultipleAttr})
    + If(!IsEmpty(a.active) && !IsBooleanLike(a.active), {ActiveAttr})
    // string, with the length limits
    + If(StringRuleFails(a.options, None), {OptionsAttr})
    + If(StringRuleFails(a.defaultValue, None), {DefaultValueAttr})
    + If(StringRuleFails(a.name, Some(MaxNameLength)), {NameAttr})
    + If(StringRuleFails(a.fieldLabel, Some(MaxLabelLength)), {LabelAttr})
    + If(StringRuleFails(a.dataType, Some(MaxDataTypeLength)), {DataTypeAttr})
    // match
    + If(!IsEmpty(a.name) && (a.name.Arr? || !NameMatches(ToPhpString(a.name), corrected)), {NameAttr})
    // FieldNameValidator
    + If(FieldNameValidator.Check(a.name, a.entityType, vf, classes).Some?, {NameAttr})
    // unique on (entity_type, name): both attributes receive the error
    + If(!IsEmpty(a.entityType) && Duplicate(a, table), {EntityTypeAttr})
    + If(!IsEmpty(a.name) && Duplicate(a, table), {NameAttr})
    // in
    + If(!IsEmpty(a.dataType) && !(a.dataType.Str? && a.dataType.s in AllowedDataTypes), {DataTypeAttr})
  }

  /** The errors `rules()` reports, with the name pattern as the program writes it. */
  function Errors(a: Attributes, table: seq<Definition>, vf: Option<EntityMap.Module>,
                  classes: FieldNameValidator.Classes): set<Attr>
  {
    RuleErrors(a, table, vf, classes, false)
  }

  /** The errors with the corrected name pattern, which refuses a trailing newline. */
  function ErrorsCorrected(a: Attributes, table: seq<Definition>, vf: Option<EntityMap.Module>,
                           classes: FieldNameValidator.Classes): set<Attr>
  {
    RuleErrors(a, table, vf, classes, true)
  }

  /** Validation passes exactly when every rule holds, under either name pattern. */
  lemma RuleErrorsEmptyIff(a: Attributes, table: seq<Definition>, vf: Option<EntityMap.Module>,
                           classes: FieldNameValidator.Classes, corrected: bool)
    ensures RuleErrors(a, table, vf, classes, corrected) == {} <==>
      && IntegerValue(a.entityType).Some?
      && a.name.Str? && NameMatches(a.name.s, corrected) && |a.name.s| <= MaxNameLength
      && a.dataType.Str? && a.dataType.s in AllowedDataTypes
      && !Duplicate(a, table)
      && FieldNameValidator.Check(a.name, a.entityType, vf, classes).None?
      && !StringRuleFails(a.fieldLabel, Some(MaxLabelLength))
      && !StringRuleFails(a.options, None) && !StringRuleFails(a.defaultValue, None)
      && (IsEmpty(a.required) || IsBooleanLike(a.required))
      && (IsEmpty(a.multiple) || IsBooleanLike(a.multiple))
      && (IsEmpty(a.active) || IsBooleanLike(a.active))
  {
    if RuleErrors(a, table, vf, classes, corrected) == {} {
      assert NameAttr !in RuleErrors(a, table, vf, classes, corrected);
      assert DataTypeAttr !in RuleErrors(a, table, vf, classes, corrected);
      assert EntityTypeAttr !in RuleErrors(a, table, vf, classes, corrected);
    }
  }

  /**
   * A definition passes validation exactly when its entity type is an integer,
   * its name matches the pattern (a trailing newline included) in at most 64
   * characters, is free under its entity type and clashes with nothing on the
   * host, its data type is one of the eight names, and its other attributes
   * have the right kinds.
   */
  lemma ValidIff(a: Attributes, table: seq<Definition>, vf: Option<EntityMap.Module>,
                 classes: FieldNameValidator.Classes)
    ensures Errors(a, table, vf, classes) == {} <==>
      && IntegerValue(a.entityType).Some?
      && a.name.Str? && MatchesNamePatternAsWritten(a.name.s) && |a.name.s| <= MaxNameLength
      && a.dataType.Str? && a.dataType.s in AllowedDataTypes
      && !Duplicate(a, table)
      && FieldNameValidator.Check(a.name, a.entityType, vf, classes).None?
      && !StringRuleFails(a.fieldLabel, Some(MaxLabelLength))
      && !StringRuleFails(a.options, None) && !StringRuleFails(a.defaultValue, None)
      && (IsEmpty(a.required) || IsBooleanLike(a.required))
      && (IsEmpty(a.multiple) || IsBooleanLike(a.multiple))
      && (IsEmpty(a.active) || IsBooleanLike(a.active))
  {
    RuleErrorsEmptyIff(a, table, vf, classes, false);
  }

  /** With the corrected pattern, a valid definition's name is an identifier. */
  lemma ValidIffCorrected(a: Attributes, table: seq<Definition>, vf: Option<EntityMap.Module>,
                          classes: FieldNameValidator.Classes)
    ensures ErrorsCorrected(a, table, vf, classes) == {} <==>
      && IntegerValue(a.entityType).Some?
      && a.name.Str? && IsIdentifier(a.name.s) && |a.name.s| <= MaxNameLength
      && a.dataType.Str? && a.dataType.s in AllowedDataTypes
      && !Duplicate(a, table)
      && FieldNameValidator.Check(a.name, a.entityType, vf, classes).None?
      && !StringRuleFails(a.fieldLabel, Some(MaxLabelLength))
      && !StringRuleFails(a.options, None) && !StringRuleFails(a.defaultValue, None)
      && (IsEmpty(a.required) || IsBooleanLike(a.required))
      && (IsEmpty(a.multiple) || IsBooleanLike(a.multiple))
      && (IsEmpty(a.active) || IsBooleanLike(a.active))
  {
    RuleErrorsEmptyIff(a, table, vf, classes, true);
  }

  /**
   * The correction only ever adds the `name` error, and only for a string name
   * that ends in a newline.
   */
  lemma CorrectionOnlyAffectsTrailingNewline(a: Attributes, table: seq<Definition>,
                                             vf: Option<EntityMap.Module>, classes: FieldNameValidator.Classes)
    ensures Errors(a, table, vf, classes) <= ErrorsCorrected(a, table, vf, classes)
    ensures ErrorsCorrected(a, table, vf, classes) - Errors(a, table, vf, classes) <= {NameAttr}
    ensures !(a.name.Str? && |a.name.s| > 0 && a.name.s[|a.name.s| - 1] == '\n') ==>
      Errors(a, table, vf, classes) == ErrorsCorrected(a, table, vf, classes)
  {
    var s := ToPhpString(a.name);
    if !(a.name.Str? && |a.name.s| > 0 && a.name.s[|a.name.s| - 1] == '\n') {
      if a.name.Int? {
        var i := a.name.i;
        var digits := NatToDecimal(if i < 0 then -i else i);
        assert s[|s| - 1] == digits[|digits| - 1];
        assert IsDigit(s[|s| - 1]);
      }
      assert |s| == 0 || s[|s| - 1] != '\n';
      IdentifierCorrected(s);
    }
  }

  /**
   * The discrepancy on a whole record: the name "field\n" is refused by the
   * corrected rules, but the program accepts it unless it is a duplicate or
   * collides with the host class.
   */
  lemma TrailingNewlineSaves(a: Attributes, table: seq<Definition>, vf: Option<EntityMap.Module>,
                             classes: FieldNameValidator.Classes)
    requires a.name == Str("field\n")
    ensures NameAttr in ErrorsCorrected(a, table, vf, classes)
    ensures NameAttr !in Errors(a, table, vf, classes) <==>
      !Duplicate(a, table) && FieldNameValidator.Check(a.name, a.entityType, vf, classes).None?
  {
    TrailingNewlineAccepted();
  }

  /** Each name the tests reject earns a `name` error, whatever else the record holds. */
  lemma BadNamesRejected(a: Attributes, table: seq<Definition>, vf: Option<EntityMap.Module>,
                         classes: FieldNameValidator.Classes)
    requires a.name in [Str("123invalid"), Str("field-name"), Str("field name"), Str("field.name"), Str("field@name")]
    ensures NameAttr in Errors(a, table, vf, classes)
  {
    NamePatternExamples();
    IdentifierCorrected(a.name.s);
  }

  /** An unknown data type earns a `data_type` error. */
  lemma UnknownDataTypeRejected(a: Attributes, table: seq<Definition>, vf: Option<EntityMap.Module>,
                                classes: FieldNameValidator.Classes)
    requires a.dataType == Str("invalid_type")
    ensures DataTypeAttr in Errors(a, table, vf, classes)
  {
  }

  /** A missing entity type, name or data type is an error on that attribute. */
  lemma RequiredAttributes(a: Attributes, table: seq<Definition>, vf: Option<EntityMap.Module>,
                           classes: FieldNameValidator.Classes)
    ensures a.entityType == Null ==> EntityTypeAttr in Errors(a, table, vf, classes)
    ensures a.name == Null ==> NameAttr in Errors(a, table, vf, classes)
    ensures a.dataType == Null ==> DataTypeAttr in Errors(a, table, vf, classes)
  {
  }

  /** A name already defined for the same entity type is rejected with a `name` error. */
  lemma DuplicateRejected(a: Attributes, table: seq<Definition>, vf: Option<EntityMap.Module>,
                          classes: FieldNameValidator.Classes, d: Definition)
    requires d in table && a.entityType == Int(d.entityType) && a.name == Str(d.name) && a.id.None?
    ensures NameAttr in Errors(a, table, vf, classes)
  {
    assert Duplicate(a, table);
    if IsEmpty(a.name) {
      assert NameAttr in If(IsEmpty(a.name), {NameAttr});
    } else {
      assert NameAttr in If(!IsEmpty(a.name) && Duplicate(a, table), {NameAttr});
    }
  }

  /** The same name under another entity type does not trip the unique rule. */
  lemma OtherEntityTypeIsFree(a: Attributes, table: seq<Definition>)
    requires IntegerValue(a.entityType).Some? && a.name.Str?
    requires forall d :: d in table && d.name == a.name.s ==> d.entityType != IntegerValue(a.entityType).value
    ensures !Duplicate(a, table)
  {
  }

  // ---------------------------------------------------------------------------
  // Saving, and the uniqueness invariant of the table

  /** No two rows share (entity_type, name); rows have distinct ids. */
  predicate WellFormedTable(table: seq<Definition>) {
    (forall i, j :: 0 <= i < j < |table| ==>
       table[i].id != table[j].id
       && (table[i].entityType != table[j].entityType || table[i].name != table[j].name))
  }

  /** The row a valid new record becomes, with the id the table assigns and the column defaults. */
  function ToDefinition(a: Attributes, id: int): (d: Definition)
    requires IntegerValue(a.entityType).Some? && a.name.Str? && a.dataType.Str?
    ensures d.id == id && d.entityType == IntegerValue(a.entityType).value
    ensures d.name == a.name.s && d.dataType == a.dataType.s
  {
    Definition(
      id, IntegerValue(a.entityType).value, a.name.s,
      if a.fieldLabel.Str? then Some(a.fieldLabel.s) else None,
      a.dataType.s,
      if a.required == Null then false else Truthy(a.required),
      if a.multiple == Null then false else Truthy(a.multiple),
      if a.options.Str? then Some(a.options.s) else None,
      if a.defaultValue.Str? then Some(a.defaultValue.s) else None,
      if a.active == Null then true else Truthy(a.active))
  }

  /**
   * Inserting a new record that passed validation, under a fresh id, keeps the
   * table free of duplicate (entity_type, name) pairs.
   */
  lemma InsertKeepsUnique(a: Attributes, table: seq<Definition>, vf: Option<EntityMap.Module>,
                          classes: FieldNameValidator.Classes, id: int)
    requires WellFormedTable(table) && a.id.None?
    requires Errors(a, table, vf, classes) == {}
    requires forall d :: d in table ==> d.id != id
    ensures IntegerValue(a.entityType).Some? && a.name.Str? && a.dataType.Str?
    ensures WellFormedTable(table + [ToDefinition(a, id)])
  {
    ValidIff(a, table, vf, classes);
    var t := table + [ToDefinition(a, id)];
    forall i, j | 0 <= i < j < |t|
      ensures t[i].id != t[j].id && (t[i].entityType != t[j].entityType || t[i].name != t[j].name)
    {
      if j == |table| {
        assert t[i] in table;
      }
    }
  }

  // ---------------------------------------------------------------------------
  // The options array

  /**
   * `getOptionsArray`: an empty options text gives the empty array, and so does
   * text that does not decode to an array.
   */
  function OptionsArray(options: Value, n: DataTypes.Natives): (r: Value)
    ensures r.Arr?
    ensures !Truthy(options) ==> r == EmptyArray
    ensures Truthy(options) && n.jsonDecode(ToPhpString(options)).Arr? ==> r == n.jsonDecode(ToPhpString(options))
    ensures Truthy(options) && !n.jsonDecode(ToPhpString(options)).Arr? ==> r == EmptyArray
  {
    if !Truthy(options) then EmptyArray
    else
      var decoded := n.jsonDecode(ToPhpString(options));
      if decoded.Arr? then decoded else EmptyArray
  }

  /** An array stored with `setOptionsArray` is read back by `getOptionsArray`. */
  lemma OptionsRoundTrip(a: Value, text: string, n: DataTypes.Natives)
    requires a.Arr?
    requires n.jsonEncode(a) == Str(text) && n.jsonDecode(text) == a && text != "" && text != "0"
    ensures OptionsArray(n.jsonEncode(a), n) == a
  {
  }

  /** A definition record being edited: `setOptionsArray` assigns its options attribute. */
  class DefinitionRecord {
    var attributes: Attributes

    constructor (attributes: Attributes)
      ensures this.attributes == attributes
    {
      this.attributes := attributes;
    }

    function GetOptionsArray(n: DataTypes.Natives): (r: Value)
      reads this
      ensures r == OptionsArray(attributes.options, n)
    {
      OptionsArray(attributes.options, n)
    }

    method SetOptionsArray(a: Value, n: DataTypes.Natives)
      modifies this
      ensures attributes == old(attributes).(options := n.jsonEncode(a))
    {
      attributes := attributes.(options := n.jsonEncode(a));
    }
  }
}
