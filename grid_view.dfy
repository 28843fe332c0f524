/** The grid helper: one DataColumn configuration per definition. */
module GridView {
  import opened Wrappers
  import opened PhpValues
  import opened Definitions
  import opened ViewDescriptors

  const DataColumnClass := "yii\\grid\\DataColumn"

  const TypedFormats: seq<string> := ["bool", "date", "datetime", "float"]

  /** The keys every column starts with. */
  function Header(d: Definition): Fields {
    [("class", Data(Str(DataColumnClass))), ("attribute", Data(Str(d.name))), ("label", Data(Str(Label(d))))]
  }

  /** The header holds the class, attribute and label, and none of the keys the type switch assigns. */
  lemma HeaderLookups(d: Definition)
    ensures var c := Header(d);
      && Lookup(c, "class") == Some(Data(Str(DataColumnClass)))
      && Lookup(c, "attribute") == Some(Data(Str(d.name)))
      && Lookup(c, "label") == Some(Data(Str(Label(d))))
      && Lookup(c, "format").None? && Lookup(c, "filter").None? && Lookup(c, "value").None?
  {
    var c := Header(d);
    assert Lookup(c[2..], "label") == Some(Data(Str(Label(d))));
    assert Lookup(c[1..], "label") == Lookup(c[1..][1..], "label") by { assert c[1..][1..] == c[2..]; }
  }

  /** The keys the type switch adds after the header, in the order they are assigned. */
  function ColumnExtras(kind: TypeKind): Fields {
    match kind
    case BoolKind => [("format", Data(BooleanFormat)), ("filter", Data(BooleanFilter))]
    case DateKind => [("format", Data(DateFormatValue))]
    case DateTimeKind => [("format", Data(DateTimeFormatValue))]
    case FloatKind => [("format", Data(DecimalFormatValue))]
    case JsonKind => [("value", Callback(CompactJson)), ("format", Data(TextFormat))]
    case TextKind => [("value", Callback(Truncated)), ("format", Data(TextFormat))]
    case OtherKind => [("format", Data(TextFormat))]
  }

  /**
   * The column of one definition before the custom options are merged in; none of
   * the keys the switch assigns is in the header, so each assignment appends.
   */
  function BaseColumn(d: Definition): Fields {
    Header(d) + ColumnExtras(KindOf(d.dataType))
  }

  /** Every column keeps the class, attribute and label it starts with. */
  lemma ColumnHeader(d: Definition)
    ensures var c := BaseColumn(d);
      && Lookup(c, "class") == Some(Data(Str(DataColumnClass)))
      && Lookup(c, "attribute") == Some(Data(Str(d.name)))
      && Lookup(c, "label") == Some(Data(Str(Label(d))))
  {
    HeaderLookups(d);
    var h, e := Header(d), ColumnExtras(KindOf(d.dataType));
    LookupConcat(h, e, "class");
    LookupConcat(h, e, "attribute");
    LookupConcat(h, e, "label");
  }

  /** The grid's format table: boolean, date, datetime and decimal formats, and text for every other type. */
  lemma ColumnFormat(d: Definition)
    ensures var c := BaseColumn(d);
      && (d.dataType == "bool" ==> Lookup(c, "format") == Some(Data(BooleanFormat)))
      && (d.dataType == "date" ==> Lookup(c, "format") == Some(Data(DateFormatValue)))
      && (d.dataType == "datetime" ==> Lookup(c, "format") == Some(Data(DateTimeFormatValue)))
      && (d.dataType == "float" ==> Lookup(c, "format") == Some(Data(DecimalFormatValue)))
      && (d.dataType !in TypedFormats ==> Lookup(c, "format") == Some(Data(TextFormat)))
  {
    HeaderLookups(d);
    var e := ColumnExtras(KindOf(d.dataType));
    LookupConcat(Header(d), e, "format");
    if KindOf(d.dataType) == JsonKind || KindOf(d.dataType) == TextKind {
      assert Lookup(e, "format") == Lookup(e[1..], "format");
    }
  }

  /** Only boolean columns get a filter, the No/Yes list; only json and text columns compute their value. */
  lemma ColumnFilterAndValue(d: Definition)
    ensures var c := BaseColumn(d);
      && (Lookup(c, "filter").Some? <==> d.dataType == "bool")
      && (d.dataType == "bool" ==> Lookup(c, "filter") == Some(Data(BooleanFilter)))
      && (Lookup(c, "value").Some? <==> d.dataType == "json" || d.dataType == "text")
      && (d.dataType == "json" ==> Lookup(c, "value") == Some(Callback(CompactJson)))
      && (d.dataType == "text" ==> Lookup(c, "value") == Some(Callback(Truncated)))
  {
    HeaderLookups(d);
    var e := ColumnExtras(KindOf(d.dataType));
    LookupConcat(Header(d), e, "filter");
    LookupConcat(Header(d), e, "value");
    match KindOf(d.dataType)
    case BoolKind =>
      assert Lookup(e, "filter") == Lookup(e[1..], "filter");
      assert Lookup(e, "value") == Lookup(e[1..], "value");
    case JsonKind =>
      assert Lookup(e, "filter") == Lookup(e[1..], "filter");
    case TextKind =>
      assert Lookup(e, "filter") == Lookup(e[1..], "filter");
    case _ =>
  }

  /** The column `getColumns` produces for one definition. */
  function ColumnFor(d: Definition, options: Options): Fields {
    ApplyOverrides(BaseColumn(d), options, d.name)
  }

  /** The columns for a list of definitions, in order. */
  function ColumnsFor(defs: seq<Definition>, options: Options): (r: seq<Fields>)
    ensures |r| == |defs|
  {
    if defs == [] then [] else ColumnsFor(defs[..|defs| - 1], options) + [ColumnFor(defs[|defs| - 1], options)]
  }

  /** The i-th column is the column of the i-th definition. */
  lemma {:induction false} ColumnsForIndex(defs: seq<Definition>, options: Options, i: int)
    requires 0 <= i < |defs|
    ensures ColumnsFor(defs, options)[i] == ColumnFor(defs[i], options)
  {
    var n := |defs| - 1;
    var prefix, last := ColumnsFor(defs[..n], options), ColumnFor(defs[n], options);
    assert ColumnsFor(defs, options) == prefix + [last];
    if i < n {
      ColumnsForIndex(defs[..n], options, i);
      assert defs[..n][i] == defs[i];
      assert (prefix + [last])[i] == prefix[i];
    } else {
      assert (prefix + [last])[i] == last;
    }
  }

  /** Extending the definitions by one appends that definition's column. */
  lemma ColumnsForStep(defs: seq<Definition>, options: Options, i: int)
    requires 0 <= i < |defs|
    ensures ColumnsFor(defs[..i + 1], options) == ColumnsFor(defs[..i], options) + [ColumnFor(defs[i], options)]
  {
    assert defs[..i + 1][..i] == defs[..i];
  }

  /** `getColumns`: one column per definition, in order. */
  method GetColumns(defs: seq<Definition>, options: Options) returns (columns: seq<Fields>)
    ensures columns == ColumnsFor(defs, options)
  {
    columns := [];
    for i := 0 to |defs|
      invariant columns == ColumnsFor(defs[..i], options)
    {
      var d := defs[i];
      var column := BaseColumn(d);
      var custom := OverridesFor(options, d.name);
      if custom.Some? {
        column := Merge(column, custom.value);
      }
      ColumnsForStep(defs, options, i);
      columns := columns + [column];
    }
    assert defs[..|defs|] == defs;
  }

  /** `getColumn`: the first column of `getColumns([$definition])`. */
  method GetColumn(d: Definition, options: Options) returns (column: Fields)
    ensures column == ColumnFor(d, options)
  {
    var columns := GetColumns([d], options);
    column := columns[0];
  }

  /**
   * Without options for its name, a column shows its definition's attribute and
   * label, is filterable only when boolean, and only json and text columns
   * compute their value.
   */
  lemma ColumnWithoutOptions(d: Definition, options: Options)
    requires OverridesFor(options, d.name).None?
    ensures ColumnFor(d, options) == BaseColumn(d)
    ensures Lookup(ColumnFor(d, options), "attribute") == Some(Data(Str(d.name)))
    ensures Lookup(ColumnFor(d, options), "filter").Some? <==> d.dataType == "bool"
  {
    ColumnHeader(d);
    ColumnFilterAndValue(d);
  }

  /** A custom option replaces its key and keeps every other key of the column. */
  lemma ColumnOverride(d: Definition, options: Options, k: string)
    requires OverridesFor(options, d.name).Some? && DistinctKeys(OverridesFor(options, d.name).value)
    ensures var f := OverridesFor(options, d.name).value;
      && (k in KeySet(f) ==> Lookup(ColumnFor(d, options), k) == Lookup(f, k))
      && (k !in KeySet(f) ==> Lookup(ColumnFor(d, options), k) == Lookup(BaseColumn(d), k))
  {
    OverrideSemantics(BaseColumn(d), options, d.name, k);
  }
}
