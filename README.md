# Virtual fields for Yii2 models — a Dafny model

The modelled system is a Yii2 extension that adds "virtual fields" to ActiveRecord models in the
entity–attribute–value style:

- A **definition** table lists the fields: entity type, name, data type, label, default, active flag and options.
- A **value** table keeps one text row per (entity type, entity id, definition).
- A service caches the definitions and converts values through a registry of per-type `cast`,
  `serialize` and `deserialize` closures.
- A model behavior exposes the fields as ordinary properties, attaches validation rules, and saves
  and deletes values with the owner.
- Two helpers turn definitions into GridView columns and DetailView attributes.

The model is split into one module per file:

| file | module | models |
|---|---|---|
| `wrappers.dfy` | `Wrappers` | `Option` and `Result` |
| `php_values.dfy` | `PhpValues` | PHP's mixed values: null, bool, int, string, array. Also the `(string)` and `(int)` casts, truthiness, `ucfirst` and lower-casing, and ordered associative arrays with `array_merge` |
| `data_types.dfy` | `DataTypes` | the data-type registry, the eight built-in types, and `castValue`/`serializeValue`/`deserializeValue` |
| `entity_map.dfy` | `EntityMap` | `Module`: validating the entity map and looking up in both directions |
| `field_name_validator.dfy` | `FieldNameValidator` | the reserved-name check and the collision checks against the owner class, with reflection given as data |
| `definitions.dfy` | `Definitions` | `VirtualFieldDefinition`: its validation rules, and the options accessors as a class |
| `service.dfy` | `Service` | `VirtualFieldService`, as a class over a `Database` object that holds both tables, plus the cache |
| `behavior.dfy` | `Behavior` | `VirtualFieldsBehavior`, as a class with the loaded definitions and values and the pending assignments |
| `view_descriptors.dfy` | `ViewDescriptors` | what the two view helpers share: labels, type kinds, value renderers, option overrides |
| `grid_view.dfy`, `detail_view.dfy` | `GridView`, `DetailView` | `GridViewHelper` and `DetailViewHelper` |

The store of values is a map from (entity type, entity id, definition id) to the nullable text column.
The cache is `None` when no cache component is configured. Otherwise it maps (entity type, active-only) to a definition list.

## Model

| member | source | states |
|---|---|---|
| PhpValues.DecimalRoundTrip | src/services/VirtualFieldService.php:57-67 | `(int)` applied to the decimal text of any integer gives that integer back, which is what the `int` type's storage relies on |
| PhpValues.LowerUcFirst | src/validators/FieldNameValidator.php:118-121 | upper-casing the first letter does not change a name as a case-insensitive method lookup sees it |
| PhpValues.MergeLookup | src/behaviors/VirtualFieldsBehavior.php:387-393 | after `array_merge($a, $b)` a key of `$b` reads `$b`'s value and any other key reads `$a`'s |
| DataTypes.DefaultHandlers | src/services/VirtualFieldService.php:43-150 | the registry after `init()` has exactly the eight built-in type names |
| DataTypes.Cast | src/services/VirtualFieldService.php:385-396 | null stays null; a type nobody registered leaves the value unchanged |
| DataTypes.Serialize | src/services/VirtualFieldService.php:349-356 | a type nobody registered stores the value's `(string)` conversion |
| DataTypes.Deserialize | src/services/VirtualFieldService.php:365-376 | null stays null; a type nobody registered returns the stored text unchanged |
| DataTypes.IntRoundTrip | src/services/VirtualFieldService.php:57-67 | an integer is stored as its decimal text and read back as the same integer |
| DataTypes.IntCastRoundTrip | src/services/VirtualFieldService.php:57-67 | for `int`, what storage gives back equals what `cast` produced, for every non-null value |
| DataTypes.BoolRoundTrip | src/services/VirtualFieldService.php:79-89 | `bool` stores "1" or "0" by truthiness and reads back exactly the cast value |
| DataTypes.BoolDeserialize | src/services/VirtualFieldService.php:86-88 | a stored value reads as true exactly when it is '1', 1 or true |
| DataTypes.StringIdentity | src/services/VirtualFieldService.php:46-56 | `string` and `text` are the identity on strings in all three directions |
| DataTypes.DatePassThrough | src/services/VirtualFieldService.php:90-123 | `date` and `datetime` store text unchanged and read it back unchanged |
| DataTypes.JsonRoundTrip | src/services/VirtualFieldService.php:124-137 | a structured value comes back from storage when the JSON encoder and decoder are inverse on it |
| DataTypes.DefaultRoundTrip | src/services/VirtualFieldService.php:43-150 | for every built-in type except float and json, whatever is stored as text reads back as the cast value |
| EntityMap.EntryError | src/Module.php:64-93 | an entry is accepted iff its key is an integer and its class exists and is an ActiveRecord |
| EntityMap.CheckEntries | src/Module.php:58-95 | the map is accepted iff every entry is; otherwise the error is that of the first bad entry, and every earlier entry is good |
| EntityMap.Configure | src/Module.php:39-51 | a non-array map is rejected; a valid array map becomes the module's map pair for pair |
| EntityMap.LookupClass | src/Module.php:103-106 | a found class is paired with the key in the map; nothing is found iff no pair has the key |
| EntityMap.GetEntityClass | src/Module.php:103-106 | an integer type maps to the class configured for it |
| EntityMap.Flip | src/Module.php:114-118 | `array_flip` has exactly the configured classes as keys |
| EntityMap.FlipLastWins | src/Module.php:114-118 | a flipped class maps to the type of its last occurrence in the map |
| EntityMap.GetEntityTypeSpec | src/Module.php:114-118 | the reverse lookup fails iff no entry has the class, and otherwise returns the last type configured for it |
| EntityMap.GetEntityTypes | src/Module.php:125-128 | the configured types, in map order |
| EntityMap.LookupsInverse | src/Module.php:103-118 | on a map with distinct types and classes, the two lookups are inverse |
| FieldNameValidator.CheckAgainstClass | src/validators/FieldNameValidator.php:94-99 | a class that does not exist is not checked |
| FieldNameValidator.Check | src/validators/FieldNameValidator.php:45-84 | an empty name passes; a reserved name is always the error; otherwise, when the entity type maps to a class, the result is that class's collision check |
| FieldNameValidator.ReservedWins | src/validators/FieldNameValidator.php:31-58 | each of the eight reserved names is rejected whatever the entity type and configuration |
| FieldNameValidator.FailsOpen | src/validators/FieldNameValidator.php:60-84 | without an entity type, a module, a mapped class, or an existing class, a non-reserved name passes |
| FieldNameValidator.CheckOrder | src/validators/FieldNameValidator.php:94-166 | each error occurs exactly when its check hits and every earlier check missed, in the order property, getter, setter, column |
| FieldNameValidator.HiddenMembersIgnored | src/validators/FieldNameValidator.php:105-140 | private properties and non-public getters or setters never cause a conflict |
| FieldNameValidator.GetterLookupIgnoresCase | src/validators/FieldNameValidator.php:118-121 | the getter check finds a public method named "get"+name in any letter case |
| Definitions.TrailingNewlineAccepted | src/models/VirtualFieldDefinition.php:62 | the name pattern as written accepts "field\n", which is not an identifier |
| Definitions.IdentifierCorrected | src/models/VirtualFieldDefinition.php:62 | a corrected name contains no newline or space; on names not ending in a newline it agrees with the pattern as written |
| Definitions.NamePatternExamples | src/models/VirtualFieldDefinition.php:62 | names starting with a digit or containing '-', ' ', '.' or '@' are refused; "_field", "field123" and "fieldName" are accepted |
| Definitions.IntegerValue | src/models/VirtualFieldDefinition.php:56 | an integer passes the `integer` rule as itself |
| Definitions.IntegerRuleExamples | src/models/VirtualFieldDefinition.php:56 | signed digits pass the `integer` rule, also with one final newline (the pattern ends in `$`); a second newline, a leading space or the empty string does not pass |
| Definitions.ValidIff | src/models/VirtualFieldDefinition.php:52-67 | a definition has no errors iff all eleven rules hold: required, integer, boolean, string lengths, the name pattern as written (a trailing newline included), name validator, unique and in-range |
| Definitions.ValidIffCorrected | src/models/VirtualFieldDefinition.php:52-67 | with the corrected name pattern, a definition has no errors iff the same rules hold with the name an identifier |
| Definitions.CorrectionOnlyAffectsTrailingNewline | src/models/VirtualFieldDefinition.php:62 | the corrected rules report every error the program reports, and add at most the `name` error, only for a name ending in a newline |
| Definitions.TrailingNewlineSaves | src/models/VirtualFieldDefinition.php:62 | a record named "field\n" fails the corrected rules, and the program's rules give it no `name` error unless it is a duplicate or collides with the host class |
| Definitions.BooleanRuleAcceptsSpellings | src/models/VirtualFieldDefinition.php:57 | the loose `boolean` rule accepts "01" and "1.0" |
| Definitions.BooleanRuleAcceptsPadding | src/models/VirtualFieldDefinition.php:57 | the loose `boolean` rule accepts " 1" and "-0" |
| Definitions.BooleanRuleRejectsNumbers | src/models/VirtualFieldDefinition.php:57 | "2", "-1" and 2 fail the `boolean` rule |
| Definitions.BooleanRuleRejectsWords | src/models/VirtualFieldDefinition.php:57 | a word such as "yes" fails the `boolean` rule |
| Definitions.BadNamesRejected | src/models/VirtualFieldDefinition.php:62 | the malformed names always put an error on `name` |
| Definitions.UnknownDataTypeRejected | src/models/VirtualFieldDefinition.php:65 | an unknown data type always puts an error on `data_type` |
| Definitions.RequiredAttributes | src/models/VirtualFieldDefinition.php:55 | a missing entity type, name or data type is an error on that attribute |
| Definitions.DuplicateRejected | src/models/VirtualFieldDefinition.php:64 | a new definition whose (entity type, name) is already in the table is rejected |
| Definitions.OtherEntityTypeIsFree | src/models/VirtualFieldDefinition.php:64 | the same name under a different entity type is not a duplicate |
| Definitions.ToDefinition | src/models/VirtualFieldDefinition.php:52-67 | the stored row keeps the validated entity type, name and data type |
| Definitions.InsertKeepsUnique | src/models/VirtualFieldDefinition.php:52-67 | inserting a definition that passed validation keeps (entity type, name) unique across the table |
| Definitions.OptionsArray | src/models/VirtualFieldDefinition.php:105-113 | the result is always an array: empty for empty options, the decoded array when decoding gives an array, and empty when decoding gives anything else |
| Definitions.OptionsRoundTrip | src/models/VirtualFieldDefinition.php:105-123 | options set from an array are read back as that array when encoding and decoding are inverse |
| Definitions.DefinitionRecord.GetOptionsArray | src/models/VirtualFieldDefinition.php:105-113 | the accessor answers the options interpretation of the record's current options |
| Definitions.DefinitionRecord.SetOptionsArray | src/models/VirtualFieldDefinition.php:120-123 | only the options attribute changes, to the array's JSON encoding |
| Service.Query | src/services/VirtualFieldService.php:171-178 | a definition is listed iff it has the entity type and, when only active ones are asked for, it is active |
| Service.FindByName | src/services/VirtualFieldService.php:329-340 | nothing is found iff no definition has the name; otherwise the first such definition is returned |
| Service.FindByNameFirst | src/services/VirtualFieldService.php:332-339 | the first definition with the name is the one returned |
| Service.Text | src/services/VirtualFieldService.php:216-228 | a NULL column reads as PHP null and only then |
| Service.ResolveKeys | src/services/VirtualFieldService.php:194-233 | `getValues` has exactly one key per definition name |
| Service.ResolveValues | src/services/VirtualFieldService.php:213-230 | a field reads as the deserialized stored text or, when no row exists, the deserialized default; the last definition with the name wins |
| Service.SetOutcome | src/services/VirtualFieldService.php:244-284 | an unknown name fails and changes nothing; no row other than the field's own row changes |
| Service.SetIdempotent | src/services/VirtualFieldService.php:244-284 | setting the same value twice has the effect of setting it once |
| Service.SetNullDeletes | src/services/VirtualFieldService.php:252-259 | setting null succeeds and leaves no row for the field |
| Service.SetUpserts | src/services/VirtualFieldService.php:261-283 | a value that encodes to text creates or updates the field's row with that text |
| Service.SetRejectsNonText | src/models/VirtualFieldValue.php:46-53 | a value whose encoding is neither text nor empty (null, the empty array) fails the value's `string` rule, and the save leaves the store as it was |
| Service.SetEmptyArrayNotStored | src/services/VirtualFieldService.php:280-283 | an encoding equal to the empty array skips the `string` rule, yet the call fails and the store keeps its rows, because the array cannot be written as text |
| Service.ApplyAllUnknownFails | src/services/VirtualFieldService.php:294-305 | `setValues` reports failure when any name is unknown |
| Service.ApplyAllOthersUntouched | src/services/VirtualFieldService.php:294-305 | `setValues` touches no row of another entity |
| Service.ApplyAllWrites | src/services/VirtualFieldService.php:294-305 | for each known field, the last value given for its row is what the store holds afterwards |
| Service.Owned | src/services/VirtualFieldService.php:314-320 | exactly the rows of the given entity |
| Service.Without | src/services/VirtualFieldService.php:314-320 | exactly the rows of other entities remain, unchanged |
| Service.WithoutCount | src/services/VirtualFieldService.php:314-320 | the deleted count plus what remains is the old row count, and no row of the entity remains |
| Service.Database.constructor | src/services/VirtualFieldService.php:159-320 | the tables start as given |
| Service.VirtualFieldService.constructor | src/services/VirtualFieldService.php:32-150 | the registry holds the eight defaults in order; the cache is the shared one, with whatever entries it already holds |
| Service.VirtualFieldService.GetDefinitions | src/services/VirtualFieldService.php:159-185 | the answer is the cached list when one exists, else the query; the cache fills that key only; a coherent cache answers the query |
| Service.VirtualFieldService.GetDefinitionByName | src/services/VirtualFieldService.php:329-340 | the first active definition with the name, through the cache |
| Service.VirtualFieldService.GetValues | src/services/VirtualFieldService.php:194-233 | one deserialized value per active definition, stored text first and the default otherwise |
| Service.VirtualFieldService.SetValue | src/services/VirtualFieldService.php:244-284 | the outcome and the new store are those of `SetOutcome`; no definition visibility changes |
| Service.VirtualFieldService.SetValues | src/services/VirtualFieldService.php:294-305 | each assignment applied in order, with failures reported and not undone; an empty list does not touch the cache |
| Service.VirtualFieldService.DeleteValues | src/services/VirtualFieldService.php:314-320 | removes exactly the entity's rows and returns how many there were |
| Service.VirtualFieldService.ClearCache | src/services/VirtualFieldService.php:403-420 | clears one entity type's two keys, or everything; afterwards the type's lookups answer the query; coherence is kept |
| Service.VirtualFieldService.RegisterDataType | src/services/VirtualFieldService.php:440-447 | the name is registered or replaced, and dispatch under it uses the new closures |
| Service.VirtualFieldService.GetDataTypes | src/services/VirtualFieldService.php:454-457 | exactly the registered names, without repetition |
| Behavior.RulesOf | src/behaviors/VirtualFieldsBehavior.php:181-224 | `required` exactly for required fields; one type rule exactly for int, float, bool, date and datetime: `integer` for int, `number` for float, `boolean` for bool, and `date` with the date or date-time format |
| Behavior.RulesForMembers | src/behaviors/VirtualFieldsBehavior.php:188-222 | the attached rules are exactly the rules of the definitions |
| Behavior.PendingReadFirst | src/behaviors/VirtualFieldsBehavior.php:355-367 | an assigned value is what a later read sees, null included |
| Behavior.Declares | src/behaviors/VirtualFieldsBehavior.php:358-363 | true iff some loaded definition has the name |
| Behavior.ReadFieldIsMerged | src/behaviors/VirtualFieldsBehavior.php:330-347 | reading a field agrees with the merge of loaded and pending values |
| Behavior.VirtualFieldsBehavior.constructor | src/behaviors/VirtualFieldsBehavior.php:40-57 | nothing is loaded or pending yet |
| Behavior.VirtualFieldsBehavior.EntityType | src/behaviors/VirtualFieldsBehavior.php:109-127 | succeeds iff the owner's object type is an integer, and returns it |
| Behavior.VirtualFieldsBehavior.LoadDefinitions | src/behaviors/VirtualFieldsBehavior.php:134-140 | loads the active definitions once and keeps them; visibility through the service is unchanged |
| Behavior.VirtualFieldsBehavior.LoadValues | src/behaviors/VirtualFieldsBehavior.php:147-163 | a new or keyless record loads nothing from the store; otherwise the service's values, once |
| Behavior.VirtualFieldsBehavior.BeforeValidate | src/behaviors/VirtualFieldsBehavior.php:181-224 | appends the rules of every definition to the owner's validators, or reports why it could not |
| Behavior.VirtualFieldsBehavior.AppendRules | src/behaviors/VirtualFieldsBehavior.php:188-222 | the owner's validators gain exactly the definitions' rules, in order |
| Behavior.VirtualFieldsBehavior.SaveVirtualFields | src/behaviors/VirtualFieldsBehavior.php:265-282 | with pending values and a key, the store becomes `setValues` of them and the pending list empties; otherwise nothing is written |
| Behavior.VirtualFieldsBehavior.AfterInsert | src/behaviors/VirtualFieldsBehavior.php:231-234 | after the owner's insert the record is no longer new and has its key; pending values are saved under it; values loaded before stay, and otherwise the next read asks the service for the new key |
| Behavior.VirtualFieldsBehavior.AfterDelete | src/behaviors/VirtualFieldsBehavior.php:251-260 | removes exactly the owner's rows |
| Behavior.VirtualFieldsBehavior.CanGetProperty | src/behaviors/VirtualFieldsBehavior.php:291-302 | readable iff a definition has the name or the parent says so |
| Behavior.VirtualFieldsBehavior.CanSetProperty | src/behaviors/VirtualFieldsBehavior.php:311-322 | writable iff a definition has the name or the parent says so |
| Behavior.VirtualFieldsBehavior.Get | src/behaviors/VirtualFieldsBehavior.php:330-347 | a virtual field reads its pending value, else the loaded value, else null; any other name goes to the parent |
| Behavior.VirtualFieldsBehavior.Set | src/behaviors/VirtualFieldsBehavior.php:355-367 | a virtual field records the value as pending; any other name goes to the parent |
| Behavior.VirtualFieldsBehavior.GetVirtualFieldNames | src/behaviors/VirtualFieldsBehavior.php:374-380 | the definition names, in order |
| Behavior.VirtualFieldsBehavior.GetVirtualFieldValues | src/behaviors/VirtualFieldsBehavior.php:387-393 | the loaded values merged with the pending ones; each key reads as a field read would |
| ViewDescriptors.KindOf | src/helpers/GridViewHelper.php:34-64 | each special switch case is chosen exactly for its type name |
| ViewDescriptors.Label | src/helpers/GridViewHelper.php:30 | the label when it is truthy, else the field name |
| ViewDescriptors.LabelFallback | src/helpers/DetailViewHelper.php:28 | a missing, empty or "0" label shows the name |
| ViewDescriptors.Truncate | src/helpers/GridViewHelper.php:56-59 | text of up to 100 characters is unchanged; longer text keeps its first 100 characters followed by "..." |
| ViewDescriptors.TruncateIdempotent | src/helpers/GridViewHelper.php:56-59 | truncating twice is truncating once |
| ViewDescriptors.Render | src/helpers/GridViewHelper.php:48-62 | the JSON renderers show an array as its `json_encode` (compact in the grid, pretty-printed in the detail view) and pass other values through; the text renderer shows the value's text truncated by `Truncate`, at most 103 characters |
| ViewDescriptors.RenderTextColumn | src/helpers/GridViewHelper.php:56-59 | the text column shows a string of up to 100 characters unchanged, and a longer one as its first 100 characters followed by "..." |
| ViewDescriptors.OverridesFor | src/helpers/GridViewHelper.php:67 | options are found only under the definition's own name and when not null |
| ViewDescriptors.OverrideSemantics | src/helpers/GridViewHelper.php:67-69 | custom options replace the keys they name and leave the others; without options nothing changes |
| GridView.ColumnHeader | src/helpers/GridViewHelper.php:27-31 | every column is a DataColumn for the field, with its label |
| GridView.ColumnFormat | src/helpers/GridViewHelper.php:34-64 | bool, date, datetime and float get their formats, and every other type gets `text` |
| GridView.ColumnFilterAndValue | src/helpers/GridViewHelper.php:34-64 | a filter exactly for bool (No/Yes); a value callback exactly for json (compact JSON) and text (truncated) |
| GridView.ColumnsForIndex | src/helpers/GridViewHelper.php:26-72 | column i is built from definition i |
| GridView.GetColumns | src/helpers/GridViewHelper.php:22-75 | one column per definition, in order, each with its overrides merged |
| GridView.GetColumn | src/helpers/GridViewHelper.php:84-87 | the column `getColumns` builds for the single definition |
| GridView.ColumnWithoutOptions | src/helpers/GridViewHelper.php:66-69 | without options the column is the built one, and it keeps its attribute and filter |
| GridView.ColumnOverride | src/helpers/GridViewHelper.php:66-69 | an option key wins in the column; other keys keep their built value |
| DetailView.AttributeHeader | src/helpers/DetailViewHelper.php:26-29 | every attribute names the field and its label, with no filter or column class |
| DetailView.AttributeFormat | src/helpers/DetailViewHelper.php:32-57 | formats per type, including `ntext` for text and `raw` for json, and `text` for the rest |
| DetailView.AttributeValue | src/helpers/DetailViewHelper.php:45-51 | a value callback exactly for json, pretty-printing it |
| DetailView.AttributesForIndex | src/helpers/DetailViewHelper.php:25-65 | attribute i is built from definition i |
| DetailView.GetAttributes | src/helpers/DetailViewHelper.php:21-68 | one attribute per definition, in order, each with its overrides merged |
| DetailView.GetAttribute | src/helpers/DetailViewHelper.php:77-80 | the attribute `getAttributes` builds for the single definition |
| DetailView.AttributeOverride | src/helpers/DetailViewHelper.php:59-62 | an option key wins in the attribute; other keys keep their built value |

## Left out

- Floats, date and time objects, and JSON text are not modelled inside.
  - `json_encode`, `json_decode` and the `float` handler are parameters (`DataTypes.Natives`).
  - `date` and `datetime` reformat only `\DateTime` objects. The model has no objects, so those handlers pass values through unchanged.
- PhpValues.ToPhpInt uses unbounded integers, so 64-bit overflow is not modelled. On strings it reads an optional sign and leading digits only; leading whitespace and exponent forms are not modelled.
- Database access, transactions, the cache backend and its expiry, and timestamps are abstracted.
  - The tables are fields of a `Database` object.
  - The cache is an optional map inside the service.
  - A definition query returns the rows in table order.
- Service.VirtualFieldService.SetValues is a best-effort loop, as in the code. There is no transaction: a failing field does not undo earlier ones.
- Service.VirtualFieldService.ClearCache: with no entity type, the whole cache is emptied. This assumes the cache backend has `flush`; a backend without it keeps its entries, and that case is not modelled.
- Saving a definition does not clear the service cache; the model does not add an invalidation.
- The framework validators (`integer`, `boolean`, `string`, `unique`, `in`) are modelled by the conditions they check. Their messages and the validator objects are left out.
- Behavior.VirtualFieldsBehavior.Get and Behavior.VirtualFieldsBehavior.Set: a name that is not a virtual field is handed to the parent `__get`/`__set`. That is reported as `DelegatedToParent` rather than modelled.
- Behavior.VirtualFieldsBehavior.SaveVirtualFields and Behavior.VirtualFieldsBehavior.AfterDelete: an owner without a primary key writes or deletes nothing. The source would pass null to the service.
- Events, `afterFind`, `afterInsert` and `afterUpdate` are modelled only by the handlers they call. The cascading delete of definition rows by the database schema is also left out.
- PHP converts numeric string keys to integers when names are used as array keys. This is modelled only for the entity map (`EntityMap.ArrayKeyOf`); field names are assumed to be identifiers.
- The `?? []` fallback of `getColumn` and `getAttribute` can never be taken, because one definition always yields one descriptor. The model does not represent it.
- The form renderer `src/helpers/VirtualFieldRenderer.php` is not part of this model, and neither are the migrations.
- Concurrency between requests is not modelled.
- The behavior is given its service when it is built. The error `getService()` raises when the virtual-fields module is not configured is therefore not modelled.
- Definitions.IsBooleanLike models PHP 8's loose comparison with '1' and '0' for numeric strings with surrounding whitespace, a sign and a decimal part. Exponent forms such as "1e0" are not modelled, and neither are floats.
- Service.SetOutcome: an encoding equal to the empty array (possible for `date` and `datetime` fields given `[]`) passes validation, and PHP then raises its array-to-string error while writing the row. The model reports that as a failed call with the store unchanged. In the program the error propagates, so it would also stop `setValues` and `saveVirtualFields`, where the model's loop goes on with the next field.
- Definitions.IntegerValue follows the `integer` pattern `^[+-]?\d+$`, which also accepts one final newline. The framework version is not fixed by the repository; releases whose pattern also allows surrounding whitespace accept more strings than the model.
- ViewDescriptors.Render: for an array value the text column shows the text "Array". Under PHP 8, `mb_substr` on an array raises a TypeError instead, and that is not modelled.
- EntityMap.ArrayKeyOf and FieldNameValidator.FailsOpen: an array entity type maps to no class, so the name check passes. Under PHP 8, the lookup `$this->entityMap[$entityType] ?? null` with an array key raises a TypeError. That is an `\Error`, which the validator's `catch (\Exception $e)` does not catch, so validation aborts. This abort is not modelled.
- Definitions.Errors follows the program's name pattern; Definitions.ErrorsCorrected is the same rule set with the corrected pattern (see Findings).

## Findings

| source | as written | input that shows it | evidently intended | confidence | as-written member | corrected member |
|---|---|---|---|---|---|---|
| src/models/VirtualFieldDefinition.php:62 | the name pattern `^[a-zA-Z_][a-zA-Z0-9_]*$` ends in `$`, which in PCRE also matches before a final newline | the name "field\n" passes the rule | field names are identifiers without any trailing newline (anchor with `\z` or the `D` modifier) | not executed | Definitions.TrailingNewlineSaves | Definitions.ValidIffCorrected |
