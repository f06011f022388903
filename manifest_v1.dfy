/** The legacy manifest shape (src/manifest/v1.rs): modules grouped into
    named "datapacks", given either as a top-level array of groups or as an
    object whose `datapacks` field is that array. */
module ManifestV1 {
  import opened Wrappers
  import opened Seqs
  import opened Json

  /** A legacy module: its id is stored under `name` and its display name
      under `display_name`. */
  datatype Module = Module(
    id: string,
    name: string,
    documentation: string,
    description: string,
    dependencies: seq<string>,
    weakDependencies: seq<string>)

  datatype Datapack = Datapack(name: string, modules: seq<Module>)

  datatype Manifest = Manifest(datapacks: seq<Datapack>)

  const SHAPE_ERROR := "Expected a 'datapacks' key or an array of datapacks"

  /** The shape sniffing of the custom `Deserialize`: a top-level array is
      the list of groups; failing that, the `datapacks` field when it is an
      array; anything else has no groups. */
  function GroupValues(v: Value): (r: Option<seq<Value>>)
    ensures v.Array? ==> r == Some(v.items)
    ensures !v.Array? ==> (r.Some? <==> Get(v, "datapacks").Some? && Get(v, "datapacks").value.Array?)
    ensures !v.Array? && r.Some? ==> r.value == Get(v, "datapacks").value.items
  {
    if v.Array? then Some(v.items)
    else match Get(v, "datapacks") {
      case Some(Array(items)) => Some(items)
      case _ => None
    }
  }

  /** The derived `Deserialize` for a legacy `Module`, with its renames and
      its `#[serde(default)]` fields. */
  function DecodeModule(v: Value): Result<Module, string> {
    if !v.Object? then Err("invalid type: expected struct Module")
    else
      var f := v.fields;
      var id :- Field(f, "name", AsString, None);
      var name :- Field(f, "display_name", AsString, None);
      var documentation :- Field(f, "documentation", AsString, Some(""));
      var description :- Field(f, "description", AsString, Some(""));
      var dependencies :- Field(f, "dependencies", AsStrings, Some([]));
      var weakDependencies :- Field(f, "weak_dependencies", AsStrings, Some([]));
      Ok(Module(id, name, documentation, description, dependencies, weakDependencies))
  }

  /** The derived `Deserialize` for a `Datapack`: a name and its modules. */
  function DecodeDatapack(v: Value): (r: Result<Datapack, string>)
    ensures r.Ok? <==> (v.Object? && "name" in v.fields && v.fields["name"].Str?
      && "modules" in v.fields && v.fields["modules"].Array?
      && forall i :: 0 <= i < |v.fields["modules"].items| ==> DecodeModule(v.fields["modules"].items[i]).Ok?)
    ensures r.Ok? ==> (r.value.name == v.fields["name"].s
      && |r.value.modules| == |v.fields["modules"].items|
      && forall i :: 0 <= i < |r.value.modules| ==> DecodeModule(v.fields["modules"].items[i]) == Ok(r.value.modules[i]))
  {
    if !v.Object? then Err("invalid type: expected struct Datapack")
    else
      var name :- Field(v.fields, "name", AsString, None);
      var items :- Field(v.fields, "modules", (m: Value) => if m.Array? then Ok(m.items) else Err("invalid type: expected a sequence"), None);
      var modules :- Sequence(Map(items, DecodeModule));
      Ok(Datapack(name, modules))
  }

  /** The custom `Deserialize` for `Manifest`: find the groups, then decode
      each of them; one bad group rejects the whole manifest. */
  function Decode(v: Value): (r: Result<Manifest, string>)
    ensures GroupValues(v).None? ==> r == Err(SHAPE_ERROR)
    ensures GroupValues(v).Some? ==>
      (r.Ok? <==> forall i :: 0 <= i < |GroupValues(v).value| ==> DecodeDatapack(GroupValues(v).value[i]).Ok?)
    ensures r.Ok? ==> GroupValues(v).Some? && var items := GroupValues(v).value;
      |r.value.datapacks| == |items|
      && forall i :: 0 <= i < |items| ==> DecodeDatapack(items[i]) == Ok(r.value.datapacks[i])
  {
    match GroupValues(v) {
      case None => Err(SHAPE_ERROR)
      case Some(items) =>
        var datapacks :- Sequence(Map(items, DecodeDatapack));
        Ok(Manifest(datapacks))
    }
  }

  /** The derived `Serialize` for a legacy `Module`, under its renamed keys. */
  function EncodeModule(m: Module): Value {
    Object(map[
      "name" := Str(m.id),
      "display_name" := Str(m.name),
      "documentation" := Str(m.documentation),
      "description" := Str(m.description),
      "dependencies" := FromStrings(m.dependencies),
      "weak_dependencies" := FromStrings(m.weakDependencies)])
  }

  /** The derived `Serialize` for a `Datapack`. */
  function EncodeDatapack(d: Datapack): Value {
    Object(map["name" := Str(d.name), "modules" := Array(Map(d.modules, EncodeModule))])
  }

  /** The derived `Serialize` for `Manifest`: the object form. */
  function Encode(m: Manifest): Value {
    Object(map["datapacks" := Array(Map(m.datapacks, EncodeDatapack))])
  }

  /** A serialized legacy module decodes to itself. */
  lemma ModuleRoundTrip(m: Module)
    ensures DecodeModule(EncodeModule(m)) == Ok(m)
  {
    StringsRoundTrip(m.dependencies);
    StringsRoundTrip(m.weakDependencies);
  }

  /** A serialized group decodes to itself. */
  lemma DatapackRoundTrip(d: Datapack)
    ensures DecodeDatapack(EncodeDatapack(d)) == Ok(d)
  {
    var items := Map(d.modules, EncodeModule);
    forall i | 0 <= i < |items|
      ensures DecodeModule(items[i]) == Ok(d.modules[i])
    {
      ModuleRoundTrip(d.modules[i]);
    }
    var r := Sequence(Map(items, DecodeModule));
    assert r.Ok? && r.value == d.modules;
  }

  /** Decoding a list of serialized groups gives the groups back, in order. */
  lemma GroupsRoundTrip(groups: seq<Datapack>)
    ensures Sequence(Map(Map(groups, EncodeDatapack), DecodeDatapack)) == Ok(groups)
  {
    var items := Map(groups, EncodeDatapack);
    forall i | 0 <= i < |items|
      ensures DecodeDatapack(items[i]) == Ok(groups[i])
    {
      DatapackRoundTrip(groups[i]);
    }
    var r := Sequence(Map(items, DecodeDatapack));
    assert r.Ok? && r.value == groups;
  }

  /** The object form round-trips ... */
  lemma RoundTrip(m: Manifest)
    ensures Decode(Encode(m)) == Ok(m)
  {
    GroupsRoundTrip(m.datapacks);
  }

  /** ... and so does the bare array form. */
  lemma ArrayFormRoundTrip(groups: seq<Datapack>)
    ensures Decode(Array(Map(groups, EncodeDatapack))) == Ok(Manifest(groups))
  {
    GroupsRoundTrip(groups);
  }

  /** The top-level array is looked at first: an array is read as the
      groups even when an object with other groups would also parse. A value
      that is neither an array nor an object with a `datapacks` array is
      refused with the shape error. */
  lemma NeitherShapeIsRefused(v: Value)
    requires !v.Array? && !(v.Object? && "datapacks" in v.fields && v.fields["datapacks"].Array?)
    ensures Decode(v) == Err(SHAPE_ERROR)
  {
  }

  /** Only `name` and `display_name` are required: every other field takes
      its default, and the id comes from `name`. */
  lemma MinimalModule(id: string, name: string)
    ensures DecodeModule(Object(map["name" := Str(id), "display_name" := Str(name)]))
      == Ok(Module(id, name, "", "", [], []))
  {
  }

  /** A module decodes only with both names present as strings, and reads its
      id from `name` and its display name from `display_name`. */
  lemma RequiredFields(v: Value)
    ensures var r := DecodeModule(v);
      r.Ok? ==>
        && Get(v, "name") == Some(Str(r.value.id))
        && Get(v, "display_name") == Some(Str(r.value.name))
  {
  }

  /** Absent optional fields take their defaults. */
  lemma DecodeDefaults(fields: map<string, Value>)
    ensures var r := DecodeModule(Object(fields));
      r.Ok? ==>
        && ("documentation" !in fields ==> r.value.documentation == "")
        && ("description" !in fields ==> r.value.description == "")
        && ("dependencies" !in fields ==> r.value.dependencies == [])
        && ("weak_dependencies" !in fields ==> r.value.weakDependencies == [])
  {
  }
}
