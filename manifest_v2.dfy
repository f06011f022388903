/** The current, flat manifest shape (src/manifest/v2.rs): a `modules`
    list, each module with serde defaults for its kind and its lists.

    One `Module` record serves the whole model. It carries the fields
    v2.rs declares (`download`, `image`) and those manifest/mod.rs sets
    when converting a legacy manifest (`slug`, `icon`, `banner`, `readme`).
    v2.rs declares none of the latter, so its decoder ignores them in the
    payload, as serde ignores unknown keys, and leaves them empty. */
module ManifestV2 {
  import opened Wrappers
  import opened Seqs
  import opened Json

  /** The kinds of module. `Combined` is the variant src/bundle/fetch.rs
      relies on; v2.rs declares only the first two, so only those have a
      serialized name. */
  datatype ModuleKind = DataPack | ResourcePack | Combined

  /** `#[default]` is on `DataPack`. */
  const DEFAULT_KIND: ModuleKind := DataPack

  datatype Module = Module(
    id: string,
    name: string,
    slug: string,
    download: string,
    documentation: string,
    description: string,
    image: Option<string>,
    icon: Option<string>,
    banner: Option<string>,
    readme: Option<string>,
    kind: ModuleKind,
    tags: seq<string>,
    dependencies: seq<string>,
    weakDependencies: seq<string>)

  datatype Manifest = Manifest(modules: seq<Module>)

  /** `rename_all = "snake_case"` on the two declared variants. */
  function KindName(k: ModuleKind): string
    requires k != Combined
  {
    if k == DataPack then "data_pack" else "resource_pack"
  }

  /** Deserializing a `ModuleKind`: one of the two snake_case names. */
  function ParseKind(v: Value): Result<ModuleKind, string> {
    if v.Str? && v.s == "data_pack" then Ok(DataPack)
    else if v.Str? && v.s == "resource_pack" then Ok(ResourcePack)
    else Err("unknown variant, expected `data_pack` or `resource_pack`")
  }

  /** Every declared kind is read back from its name ... */
  lemma KindNameRoundTrip(k: ModuleKind)
    requires k != Combined
    ensures ParseKind(Str(KindName(k))) == Ok(k)
  {
  }

  /** ... and only those names are accepted, each for its own kind. */
  lemma ParseKindAcceptsOnlyNames(v: Value)
    ensures ParseKind(v).Ok? ==> ParseKind(v).value != Combined && v == Str(KindName(ParseKind(v).value))
  {
  }

  /** A module is what v2.rs can carry: a declared kind and none of the
      fields it does not declare. */
  predicate Declared(m: Module) {
    m.kind != Combined && m.slug == "" && m.icon.None? && m.banner.None? && m.readme.None?
  }

  /** The derived `Deserialize` for `Module`. */
  function DecodeModule(v: Value): Result<Module, string> {
    if !v.Object? then Err("invalid type: expected struct Module")
    else
      var f := v.fields;
      var id :- Field(f, "id", AsString, None);
      var name :- Field(f, "name", AsString, None);
      var download :- Field(f, "download", AsString, None);
      var documentation :- Field(f, "documentation", AsString, None);
      var description :- Field(f, "description", AsString, None);
      var image :- Field(f, "image", AsOptionalString, Some(None));
      var kind :- Field(f, "kind", ParseKind, Some(DEFAULT_KIND));
      var tags :- Field(f, "tags", AsStrings, Some([]));
      var dependencies :- Field(f, "dependencies", AsStrings, Some([]));
      var weakDependencies :- Field(f, "weak_dependencies", AsStrings, Some([]));
      Ok(Module(id, name, "", download, documentation, description, image,
                None, None, None, kind, tags, dependencies, weakDependencies))
  }

  /** The derived `Deserialize` for `Manifest`: a required `modules` array,
      decoded element by element; one bad module rejects the manifest. */
  function Decode(v: Value): (r: Result<Manifest, string>)
    ensures r.Ok? <==> (v.Object? && "modules" in v.fields && v.fields["modules"].Array?
      && forall i :: 0 <= i < |v.fields["modules"].items| ==> DecodeModule(v.fields["modules"].items[i]).Ok?)
    ensures r.Ok? ==> var items := v.fields["modules"].items;
      |r.value.modules| == |items|
      && forall i :: 0 <= i < |items| ==> DecodeModule(items[i]) == Ok(r.value.modules[i])
  {
    if !v.Object? then Err("invalid type: expected struct Manifest")
    else
      var items :- Field(v.fields, "modules", (m: Value) => if m.Array? then Ok(m.items) else Err("invalid type: expected a sequence"), None);
      var modules :- Sequence(Map(items, DecodeModule));
      Ok(Manifest(modules))
  }

  /** The derived `Serialize` for `Module` (every declared field is written,
      `image` as `null` when absent). */
  function EncodeModule(m: Module): Value
    requires m.kind != Combined
  {
    Object(map[
      "id" := Str(m.id),
      "name" := Str(m.name),
      "download" := Str(m.download),
      "documentation" := Str(m.documentation),
      "description" := Str(m.description),
      "image" := FromOptionalString(m.image),
      "kind" := Str(KindName(m.kind)),
      "tags" := FromStrings(m.tags),
      "dependencies" := FromStrings(m.dependencies),
      "weak_dependencies" := FromStrings(m.weakDependencies)])
  }

  /** The derived `Serialize` for `Manifest`. */
  function Encode(m: Manifest): Value
    requires forall i :: 0 <= i < |m.modules| ==> m.modules[i].kind != Combined
  {
    Object(map["modules" := Array(seq(|m.modules|, i requires 0 <= i < |m.modules| => EncodeModule(m.modules[i])))])
  }

  /** Serializing then deserializing a module gives it back. */
  lemma ModuleRoundTrip(m: Module)
    requires Declared(m)
    ensures DecodeModule(EncodeModule(m)) == Ok(m)
  {
    StringsRoundTrip(m.tags);
    StringsRoundTrip(m.dependencies);
    StringsRoundTrip(m.weakDependencies);
    OptionalStringRoundTrip(m.image);
  }

  /** Serializing then deserializing a manifest gives it back. */
  lemma RoundTrip(m: Manifest)
    requires forall i :: 0 <= i < |m.modules| ==> m.modules[i].kind != Combined && Declared(m.modules[i])
    ensures Decode(Encode(m)) == Ok(m)
  {
    var items := Encode(m).fields["modules"].items;
    forall i | 0 <= i < |items|
      ensures DecodeModule(items[i]) == Ok(m.modules[i])
    {
      ModuleRoundTrip(m.modules[i]);
    }
    var r := Sequence(Map(items, DecodeModule));
    assert r.Ok? && r.value == m.modules;
  }

  /** Every decoded module is one v2.rs can carry: its kind is declared and
      the fields v2.rs does not declare are empty. */
  lemma DecodedModuleDeclared(v: Value)
    ensures DecodeModule(v).Ok? ==> Declared(DecodeModule(v).value)
  {
    if DecodeModule(v).Ok? && "kind" in v.fields {
      ParseKindAcceptsOnlyNames(v.fields["kind"]);
    }
  }

  /** Every module of a decoded manifest is one v2.rs can carry. */
  lemma {:induction false} DecodedDeclared(v: Value)
    ensures Decode(v).Ok? ==> forall i :: 0 <= i < |Decode(v).value.modules| ==> Declared(Decode(v).value.modules[i])
  {
    if Decode(v).Ok? {
      var items := v.fields["modules"].items;
      forall i | 0 <= i < |Decode(v).value.modules|
        ensures Declared(Decode(v).value.modules[i])
      {
        DecodedModuleDeclared(items[i]);
      }
    }
  }

  /** Absent `kind`, `tags`, `dependencies` and `weak_dependencies` take
      their serde defaults: `DataPack` and empty lists. */
  lemma DecodeDefaults(fields: map<string, Value>)
    ensures var r := DecodeModule(Object(fields));
      r.Ok? ==>
        && ("kind" !in fields ==> r.value.kind == DataPack)
        && ("tags" !in fields ==> r.value.tags == [])
        && ("dependencies" !in fields ==> r.value.dependencies == [])
        && ("weak_dependencies" !in fields ==> r.value.weakDependencies == [])
        && ("image" !in fields ==> r.value.image == None)
  {
  }

  /** `id`, `name`, `download`, `documentation` and `description` are
      required strings: a module decodes only when all five are present,
      and each is read from its own key. */
  lemma RequiredFields(v: Value)
    ensures var r := DecodeModule(v);
      r.Ok? ==>
        && v.Object?
        && Get(v, "id") == Some(Str(r.value.id))
        && Get(v, "name") == Some(Str(r.value.name))
        && Get(v, "download") == Some(Str(r.value.download))
        && Get(v, "documentation") == Some(Str(r.value.documentation))
        && Get(v, "description") == Some(Str(r.value.description))
  {
  }

  /** The five required strings alone make a module, with every default
      applied. */
  lemma MinimalModule(id: string, name: string, download: string, documentation: string, description: string)
    ensures DecodeModule(Object(map[
      "id" := Str(id), "name" := Str(name), "download" := Str(download),
      "documentation" := Str(documentation), "description" := Str(description)]))
      == Ok(Module(id, name, "", download, documentation, description, None, None, None, None, DataPack, [], [], []))
  {
  }
}
