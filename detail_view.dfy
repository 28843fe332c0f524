/** The detail helper: one DetailView attribute configuration per definition. */
module DetailView {
  import opened Wrappers
  import opened PhpValues
  import opened Definitions
  import opened ViewDescriptors

  /** The keys every attribute starts with. */
  function Header(d: Definition): Fields {
    [("attribute", Data(Str(d.name))), ("label", Data(Str(Label(d))))]
  }

  /** The header holds the attribute and label, and none of the keys the type switch assigns. */
  lemma HeaderLookups(d: Definition)
    ensures var a := Header(d);
      && Lookup(a, "attribute") == Some(Data(Str(d.name)))
      && Lookup(a, "label") == Some(Data(Str(Label(d))))
      && Lookup(a, "format").None? && Lookup(a, "value").None?
      && Lookup(a, "filter").None? && Lookup(a, "class").None?
  {
  }

  /** The keys the type switch adds after the header, in the order they are assigned. */
  function AttributeExtras(kind: TypeKind): Fields {
    match kind
    case BoolKind => [("format", Data(BooleanFormat))]
    case DateKind => [("format", Data(DateFormatValue))]
    case DateTimeKind => [("format", Data(DateTimeFormatValue))]
    case FloatKind => [("format", Data(DecimalFormatValue))]
    case JsonKind => [("value", Callback(PrettyJson)), ("format", Data(RawFormat))]
    case TextKind => [("format", Data(NTextFormat))]
    case OtherKind => [("format", Data(TextFormat))]
  }

  /**
   * The attribute of one definition before the custom options are merged in; none
   * of the keys the switch assigns is in the header, so each assignment appends.
   */
  function BaseAttribute(d: Definition): Fields {
    Header(d) + AttributeExtras(KindOf(d.dataType))
  }

  /** Every attribute keeps the attribute name and label it starts with, and has no filter or column class. */
  lemma AttributeHeader(d: Definition)
    ensures var a := BaseAttribute(d);
      && Lookup(a, "attribute") == Some(Data(Str(d.name)))
      && Lookup(a, "label") == Some(Data(Str(Label(d))))
      && Lookup(a, "filter").None? && Lookup(a, "class").None?
  {
    HeaderLookups(d);
    var h, e := Header(d), AttributeExtras(KindOf(d.dataType));
    LookupConcat(h, e, "attribute");
    LookupConcat(h, e, "label");
    LookupConcat(h, e, "filter");
    LookupConcat(h, e, "class");
    if KindOf(d.dataType) == JsonKind {
      assert Lookup(e, "filter") == Lookup(e[1..], "filter");
      assert Lookup(e, "class") == Lookup(e[1..], "class");
    }
  }

  /** The detail format table: text becomes ntext, json becomes raw, unknown types fall back to text. */
  lemma AttributeFormat(d: Definition)
    ensures var a := BaseAttribute(d);
      && (d.dataType == "bool" ==> Lookup(a, "format") == Some(Data(BooleanFormat)))
      && (d.dataType == "date" ==> Lookup(a, "format") == Some(Data(DateFormatValue)))
      && (d.dataType == "datetime" ==> Lookup(a, "format") == Some(Data(DateTimeFormatValue)))
      && (d.dataType == "float" ==> Lookup(a, "format") == Some(Data(DecimalFormatValue)))
      && (d.dataType == "text" ==> Lookup(a, "format") == Some(Data(NTextFormat)))
      && (d.dataType == "json" ==> Lookup(a, "format") == Some(Data(RawFormat)))
      && (KindOf(d.dataType) == OtherKind ==> Lookup(a, "format") == Some(Data(TextFormat)))
  {
    HeaderLookups(d);
    var e := AttributeExtras(KindOf(d.dataType));
    LookupConcat(Header(d), e, "format");
    if KindOf(d.dataType) == JsonKind {
      assert Lookup(e, "format") == Lookup(e[1..], "format");
    }
  }

  /** Only json attributes compute their value, as pretty-printed JSON. */
  lemma AttributeValue(d: Definition)
    ensures var a := BaseAttribute(d);
      && (Lookup(a, "value").Some? <==> d.dataType == "json")
      && (d.dataType == "json" ==> Lookup(a, "value") == Some(Callback(PrettyJson)))
  {
    HeaderLookups(d);
    var e := AttributeExtras(KindOf(d.dataType));
    LookupConcat(Header(d), e, "value");
  }

  /** The attribute `getAttributes` produces for one definition. */
  function AttributeFor(d: Definition, options: Options): Fields {
    ApplyOverrides(BaseAttribute(d), options, d.name)
  }

  /** The attributes for a list of definitions, in order. */
  function AttributesFor(defs: seq<Definition>, options: Options): (r: seq<Fields>)
    ensures |r| == |defs|
  {
    if defs == [] then [] else AttributesFor(defs[..|defs| - 1], options) + [AttributeFor(defs[|defs| - 1], options)]
  }

  /** The i-th attribute is the attribute of the i-th definition. */
  lemma {:induction false} AttributesForIndex(defs: seq<Definition>, options: Options, i: int)
    requires 0 <= i < |defs|
    ensures AttributesFor(defs, options)[i] == AttributeFor(defs[i], options)
  {
    var n := |defs| - 1;
    var prefix, last := AttributesFor(defs[..n], options), AttributeFor(defs[n], options);
    assert AttributesFor(defs, options) == prefix + [last];
    if i < n {
      AttributesForIndex(defs[..n], options, i);
      assert defs[..n][i] == defs[i];
      assert (prefix + [last])[i] == prefix[i];
    } else {
      assert (prefix + [last])[i] == last;
    }
  }

  /** Extending the definitions by one appends that definition's attribute. */
  lemma AttributesForStep(defs: seq<Definition>, options: Options, i: int)
    requires 0 <= i < |defs|
    ensures AttributesFor(defs[..i + 1], options) == AttributesFor(defs[..i], options) + [AttributeFor(defs[i], options)]
  {
    assert defs[..i + 1][..i] == defs[..i];
  }

  /** `getAttributes`: one attribute per definition, in order. */
  method GetAttributes(defs: seq<Definition>, options: Options) returns (attributes: seq<Fields>)
    ensures attributes == AttributesFor(defs, options)
  {
    attributes := [];
    for i := 0 to |defs|
      invariant attributes == AttributesFor(defs[..i], options)
    {
      var d := defs[i];
      var attribute := BaseAttribute(d);
      var custom := OverridesFor(options, d.name);
      if custom.Some? {
        attribute := Merge(attribute, custom.value);
      }
      AttributesForStep(defs, options, i);
      attributes := attributes + [attribute];
    }
    assert defs[..|defs|] == defs;
  }

  /** `getAttribute`: the first attribute of `getAttributes([$definition])`. */
  method GetAttribute(d: Definition, options: Options) returns (attribute: Fields)
    ensures attribute == AttributeFor(d, options)
  {
    var attributes := GetAttributes([d], options);
    attribute := attributes[0];
  }

  /** A custom option replaces its key and keeps every other key of the attribute. */
  lemma AttributeOverride(d: Definition, options: Options, k: string)
    requires OverridesFor(options, d.name).Some? && DistinctKeys(OverridesFor(options, d.name).value)
    ensures var f := OverridesFor(options, d.name).value;
      && (k in KeySet(f) ==> Lookup(AttributeFor(d, options), k) == Lookup(f, k))
      && (k !in KeySet(f) ==> Lookup(AttributeFor(d, options), k) == Lookup(BaseAttribute(d), k))
  {
    OverrideSemantics(BaseAttribute(d), options, d.name, k);
  }
}
