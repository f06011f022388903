/** An abstract JSON value, standing for `serde_json::Value`, and the few
    deserialization rules a derived `Deserialize` applies to the field
    types the manifests use: `String`, `Vec<String>`, `Option<String>`,
    required fields and `#[serde(default)]` fields. */
module Json {
  import opened Wrappers
  import opened Seqs

  /** Object keys are unique, as in `serde_json::Map`. */
  datatype Value =
    | Null
    | Bool(b: bool)
    | Number(n: int)
    | Str(s: string)
    | Array(items: seq<Value>)
    | Object(fields: map<string, Value>)

  /** `Value::get(key)`: the field of an object, nothing for any other value. */
  function Get(v: Value, key: string): Option<Value> {
    if v.Object? && key in v.fields then Some(v.fields[key]) else None
  }

  /** Deserializing a `String`. */
  function AsString(v: Value): Result<string, string> {
    if v.Str? then Ok(v.s) else Err("invalid type: expected a string")
  }

  /** Deserializing a `Vec<String>`: an array whose every element is a string. */
  function AsStrings(v: Value): Result<seq<string>, string> {
    if v.Array? then Sequence(Map(v.items, AsString)) else Err("invalid type: expected a sequence")
  }

  /** Deserializing an `Option<String>`: `null` is `None`. */
  function AsOptionalString(v: Value): Result<Option<string>, string> {
    if v.Null? then Ok(None)
    else if v.Str? then Ok(Some(v.s))
    else Err("invalid type: expected an optional string")
  }

  /** One field of a derived `Deserialize` struct: decoded when present;
      when absent, the default if the field has one, else an error.
      Unknown keys are ignored by the caller simply by not asking for them. */
  function Field<T>(fields: map<string, Value>, key: string,
                    decode: Value -> Result<T, string>, default: Option<T>): Result<T, string>
  {
    if key in fields then decode(fields[key])
    else if default.Some? then Ok(default.value)
    else Err("missing field `" + key + "`")
  }

  /** Serializing a `Vec<String>`. */
  function FromStrings(xs: seq<string>): Value {
    Array(Map(xs, (s: string) => Str(s)))
  }

  /** Serializing an `Option<String>`. */
  function FromOptionalString(o: Option<string>): Value {
    if o.Some? then Str(o.value) else Null
  }

  /** A serialized `Vec<String>` deserializes to itself. */
  lemma StringsRoundTrip(xs: seq<string>)
    ensures AsStrings(FromStrings(xs)) == Ok(xs)
  {
    var r := Sequence(Map(FromStrings(xs).items, AsString));
    assert r.Ok? && r.value == xs;
  }

  /** A serialized `Option<String>` deserializes to itself. */
  lemma OptionalStringRoundTrip(o: Option<string>)
    ensures AsOptionalString(FromOptionalString(o)) == Ok(o)
  {
  }
}
