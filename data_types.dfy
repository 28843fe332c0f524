/**
 * The type registry of the value service: for each data-type name, the three
 * closures `cast`, `serialize` and `deserialize`, the eight built-in types, and
 * the dispatch with its fallback for names nobody registered.
 */
module DataTypes {
  import opened PhpValues

  /** The closures registered under one type name. */
  datatype Handler = Handler(
    cast: Value -> Value,
    serialize: Value -> Value,
    deserialize: Value -> Value)

  /**
   * The runtime facilities the built-in handlers call and the model does not
   * look inside: `json_encode` (a string, or false on failure),
   * `json_decode($text, true)`, and the handler of the `float` type.
   */
  datatype Natives = Natives(
    jsonEncode: Value -> Value,
    jsonDecode: string -> Value,
    float: Handler)

  /** The names `registerDefaultDataTypes` installs, in installation order. */
  const DefaultTypeNames: seq<string> :=
    ["string", "int", "float", "bool", "date", "datetime", "json", "text"]

  /** `(string) $value` for cast, serialize and deserialize alike. */
  const StringHandler: Handler :=
    Handler(v => Str(ToPhpString(v)), v => Str(ToPhpString(v)), v => Str(ToPhpString(v)))

  const IntHandler: Handler :=
    Handler(v => Int(ToPhpInt(v)), v => Str(ToPhpString(v)), v => Int(ToPhpInt(v)))

  /** Cast with `(bool)`, store "1"/"0", read back true only for '1', 1 or true. */
  const BoolHandler: Handler :=
    Handler(
      v => Bool(Truthy(v)),
      v => Str(if Truthy(v) then "1" else "0"),
      v => Bool(v == Str("1") || v == Int(1) || v == Bool(true)))

  /**
   * `date` and `datetime`: only a \DateTime object is reformatted, and the model
   * has no objects, so every value passes through unchanged.
   */
  const PassThroughHandler: Handler :=
    Handler(v => v, v => v, v => v)

  function JsonHandler(n: Natives): Handler {
    Handler(
      (v: Value) => if v.Str? then n.jsonDecode(v.s) else v,
      v => n.jsonEncode(v),
      v => n.jsonDecode(ToPhpString(v)))
  }

  /** The registry right after `init()`. */
  function DefaultHandlers(n: Natives): (reg: map<string, Handler>)
    ensures reg.Keys == set t | t in DefaultTypeNames
  {
    map[
      "string" := StringHandler,
      "int" := IntHandler,
      "float" := n.float,
      "bool" := BoolHandler,
      "date" := PassThroughHandler,
      "datetime" := PassThroughHandler,
      "json" := JsonHandler(n),
      "text" := StringHandler]
  }

  // ---------------------------------------------------------------------------
  // Dispatch (castValue, serializeValue, deserializeValue)

  /** `castValue`: null stays null; an unregistered type leaves the value as it is. */
  function Cast(reg: map<string, Handler>, v: Value, t: string): (r: Value)
    ensures v == Null ==> r == Null
    ensures v != Null && t !in reg ==> r == v
  {
    if v == Null then Null else if t !in reg then v else reg[t].cast(v)
  }

  /** `serializeValue`: an unregistered type is stored as its `(string)` conversion. */
  function Serialize(reg: map<string, Handler>, v: Value, t: string): (r: Value)
    ensures t !in reg ==> r == Str(ToPhpString(v))
  {
    if t !in reg then Str(ToPhpString(v)) else reg[t].serialize(v)
  }

  /** `deserializeValue`: null stays null; an unregistered type leaves the text as it is. */
  function Deserialize(reg: map<string, Handler>, v: Value, t: string): (r: Value)
    ensures v == Null ==> r == Null
    ensures v != Null && t !in reg ==> r == v
  {
    if v == Null then Null else if t !in reg then v else reg[t].deserialize(v)
  }

  /** What a non-null value becomes in storage: serialize after cast. */
  function Encode(reg: map<string, Handler>, v: Value, t: string): Value {
    Serialize(reg, Cast(reg, v, t), t)
  }

  // ---------------------------------------------------------------------------
  // Properties of the built-in types

  /** An integer survives cast, serialize and deserialize. */
  lemma IntRoundTrip(n: Natives, x: int)
    ensures Encode(DefaultHandlers(n), Int(x), "int") == Str(IntToDecimal(x))
    ensures Deserialize(DefaultHandlers(n), Encode(DefaultHandlers(n), Int(x), "int"), "int") == Int(x)
  {
    DecimalRoundTrip(x);
  }

  /** For `int`, whatever cast produced is what deserialize gives back from storage. */
  lemma IntCastRoundTrip(n: Natives, v: Value)
    requires v != Null
    ensures Cast(DefaultHandlers(n), v, "int") == Int(ToPhpInt(v))
    ensures Deserialize(DefaultHandlers(n), Encode(DefaultHandlers(n), v, "int"), "int")
            == Cast(DefaultHandlers(n), v, "int")
  {
    DecimalRoundTrip(ToPhpInt(v));
  }

  /** `bool` stores "1" or "0" and reads back exactly the cast value. */
  lemma BoolRoundTrip(n: Natives, v: Value)
    requires v != Null
    ensures Encode(DefaultHandlers(n), v, "bool") == Str(if Truthy(v) then "1" else "0")
    ensures Deserialize(DefaultHandlers(n), Encode(DefaultHandlers(n), v, "bool"), "bool")
            == Cast(DefaultHandlers(n), v, "bool")
  {
  }

  /** `bool` deserializes to true only for '1', 1 and true. */
  lemma BoolDeserialize(n: Natives, v: Value)
    requires v != Null
    ensures Deserialize(DefaultHandlers(n), v, "bool")
            == Bool(v == Str("1") || v == Int(1) || v == Bool(true))
  {
  }

  /** `string` and `text` are the identity on strings in all three directions. */
  lemma StringIdentity(n: Natives, t: string, s: string)
    requires t == "string" || t == "text"
    ensures Cast(DefaultHandlers(n), Str(s), t) == Str(s)
    ensures Serialize(DefaultHandlers(n), Str(s), t) == Str(s)
    ensures Deserialize(DefaultHandlers(n), Str(s), t) == Str(s)
  {
  }

  /** `date` and `datetime` pass text through unchanged. */
  lemma DatePassThrough(n: Natives, t: string, s: string)
    requires t == "date" || t == "datetime"
    ensures Encode(DefaultHandlers(n), Str(s), t) == Str(s)
    ensures Deserialize(DefaultHandlers(n), Str(s), t) == Str(s)
  {
  }

  /**
   * `json`: a structured (non-string) value comes back from storage whenever the
   * host's encoder and decoder are inverse on it.
   */
  lemma JsonRoundTrip(n: Natives, v: Value, text: string)
    requires v != Null && !v.Str?
    requires n.jsonEncode(v) == Str(text) && n.jsonDecode(text) == v
    ensures Encode(DefaultHandlers(n), v, "json") == Str(text)
    ensures Deserialize(DefaultHandlers(n), Encode(DefaultHandlers(n), v, "json"), "json") == v
  {
  }

  /**
   * The round-trip law: for every built-in type except `float` and `json` (whose
   * behaviour is the host's), a value whose encoding is text is read back from
   * that text as the cast value.
   */
  lemma DefaultRoundTrip(n: Natives, t: string, v: Value)
    requires t in DefaultTypeNames && t != "float" && t != "json"
    requires v != Null && Encode(DefaultHandlers(n), v, t).Str?
    ensures Deserialize(DefaultHandlers(n), Encode(DefaultHandlers(n), v, t), t)
            == Cast(DefaultHandlers(n), v, t)
  {
    if t == "int" {
      IntCastRoundTrip(n, v);
    }
  }
}
