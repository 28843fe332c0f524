/**
 * What the grid and detail helpers have in common: the configuration arrays they
 * produce (plain values and display closures under string keys), the label
 * fallback, the format values, the text truncation and the per-name overrides.
 */
module ViewDescriptors {
  import opened Wrappers
  import opened PhpValues
  import opened Definitions

  /** The display closures the helpers place under `value`, applied to the model's field value. */
  datatype Renderer =
    | CompactJson  // grid, json: an array as json_encode text, anything else unchanged
    | Truncated    // grid, text: the first 100 characters, with "..." when longer
    | PrettyJson   // detail, json: an array as pretty-printed JSON text, anything else unchanged

  /** An entry of a column or attribute configuration. */
  datatype Cell = Data(v: Value) | Callback(renderer: Renderer)

  /** A column or attribute configuration array. */
  type Fields = seq<(string, Cell)>

  /** The custom options, by definition name; a null entry is ignored like a missing one (`isset`). */
  type Options = seq<(string, Option<Fields>)>

  // ---------------------------------------------------------------------------
  // Format values

  const BooleanFormat: Value := Str("boolean")
  const DateFormatValue: Value := Arr([(IntKey(0), Str("date")), (IntKey(1), Str("php:Y-m-d"))])
  const DateTimeFormatValue: Value := Arr([(IntKey(0), Str("datetime")), (IntKey(1), Str("php:Y-m-d H:i:s"))])
  const DecimalFormatValue: Value := Arr([(IntKey(0), Str("decimal")), (IntKey(1), Int(2))])
  const TextFormat: Value := Str("text")
  const NTextFormat: Value := Str("ntext")
  const RawFormat: Value := Str("raw")

  /** The grid's filter for boolean columns: 0 => 'No', 1 => 'Yes'. */
  const BooleanFilter: Value := Arr([(IntKey(0), Str("No")), (IntKey(1), Str("Yes"))])

  /** The data types the helpers' switches distinguish. */
  datatype TypeKind = BoolKind | DateKind | DateTimeKind | FloatKind | JsonKind | TextKind | OtherKind

  function KindOf(dataType: string): (k: TypeKind)
    ensures k == BoolKind <==> dataType == "bool"
    ensures k == DateKind <==> dataType == "date"
    ensures k == DateTimeKind <==> dataType == "datetime"
    ensures k == FloatKind <==> dataType == "float"
    ensures k == JsonKind <==> dataType == "json"
    ensures k == TextKind <==> dataType == "text"
  {
    match dataType
    case "bool" => BoolKind
    case "date" => DateKind
    case "datetime" => DateTimeKind
    case "float" => FloatKind
    case "json" => JsonKind
    case "text" => TextKind
    case _ => OtherKind
  }

  // ---------------------------------------------------------------------------
  // Labels

  /** `$definition->label ?: $definition->name`. */
  function Label(d: Definition): (r: string)
    ensures TruthyText(d.fieldLabel) ==> r == d.fieldLabel.value
    ensures !TruthyText(d.fieldLabel) ==> r == d.name
  {
    if TruthyText(d.fieldLabel) then d.fieldLabel.value else d.name
  }

  /** A missing or empty label falls back to the name, and so does the label "0" (PHP truthiness). */
  lemma LabelFallback(d: Definition)
    requires d.fieldLabel == None || d.fieldLabel == Some("") || d.fieldLabel == Some("0")
    ensures Label(d) == d.name
  {
  }

  // ---------------------------------------------------------------------------
  // Display closures

  const TruncateLength := 100
  const Ellipsis := "..."

  /** `mb_substr($s, 0, 100) . (mb_strlen($s) > 100 ? '...' : '')`. */
  function Truncate(s: string): (r: string)
    ensures |r| <= TruncateLength + |Ellipsis|
    ensures |s| <= TruncateLength ==> r == s
    ensures |s| > TruncateLength ==>
      |r| == TruncateLength + |Ellipsis| && r[..TruncateLength] == s[..TruncateLength] && r[TruncateLength..] == Ellipsis
  {
    if |s| > TruncateLength then s[..TruncateLength] + Ellipsis else s
  }

  /** Truncating text that is already shown truncated changes nothing. */
  lemma TruncateIdempotent(s: string)
    ensures Truncate(Truncate(s)) == Truncate(s)
  {
    if |s| > TruncateLength {
      var r := Truncate(s);
      assert r[..TruncateLength] + Ellipsis == r;
    }
  }

  /**
   * What a closure shows for the model's field value; `encode` and `encodePretty`
   * are `json_encode` without and with JSON_PRETTY_PRINT.
   */
  function Render(r: Renderer, v: Value, encode: Value -> Value, encodePretty: Value -> Value): (shown: Value)
    ensures !v.Arr? && r != Truncated ==> shown == v
    ensures v.Arr? && r == CompactJson ==> shown == encode(v)
    ensures v.Arr? && r == PrettyJson ==> shown == encodePretty(v)
    ensures r == Truncated ==> shown == Str(Truncate(ToPhpString(v)))
    ensures r == Truncated ==> shown.Str? && |shown.s| <= TruncateLength + |Ellipsis|
  {
    match r
    case CompactJson => if v.Arr? then encode(v) else v
    case Truncated => Str(Truncate(ToPhpString(v)))
    case PrettyJson => if v.Arr? then encodePretty(v) else v
  }

  /**
   * The grid's text column shows a string of up to 100 characters as it is, and a
   * longer one as its first 100 characters followed by "...".
   */
  lemma RenderTextColumn(s: string, encode: Value -> Value, encodePretty: Value -> Value)
    ensures var shown := Render(Truncated, Str(s), encode, encodePretty);
      && (|s| <= TruncateLength ==> shown == Str(s))
      && (|s| > TruncateLength ==> shown == Str(s[..TruncateLength] + Ellipsis))
  {
    if |s| > TruncateLength {
      var r := Truncate(s);
      assert r == r[..TruncateLength] + r[TruncateLength..];
    }
  }

  // ---------------------------------------------------------------------------
  // Overrides

  /** `isset($options[$name]) ? $options[$name] : none`. */
  function OverridesFor(options: Options, name: string): (r: Option<Fields>)
    ensures r.Some? ==> Lookup(options, name) == Some(r)
    ensures r.None? ==> Lookup(options, name).None? || Lookup(options, name).value.None?
  {
    var entry := Lookup(options, name);
    if entry.Some? && entry.value.Some? then entry.value else None
  }

  /** `array_merge($config, $options[$name])` when that option is set. */
  function ApplyOverrides(base: Fields, options: Options, name: string): Fields {
    match OverridesFor(options, name)
    case Some(f) => Merge(base, f)
    case None => base
  }

  /**
   * Options given under the definition's name replace the same-named keys and
   * leave the other keys as they were; without such options nothing changes.
   */
  lemma OverrideSemantics(base: Fields, options: Options, name: string, k: string)
    requires OverridesFor(options, name).Some? ==> DistinctKeys(OverridesFor(options, name).value)
    ensures OverridesFor(options, name).None? ==> ApplyOverrides(base, options, name) == base
    ensures OverridesFor(options, name).Some? ==>
      var f := OverridesFor(options, name).value;
      Lookup(ApplyOverrides(base, options, name), k) == if k in KeySet(f) then Lookup(f, k) else Lookup(base, k)
  {
    if OverridesFor(options, name).Some? {
      MergeLookup(base, OverridesFor(options, name).value, k);
    }
  }
}
