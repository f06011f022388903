/** The version-agnostic manifest (src/manifest/mod.rs): an untagged choice
    between the legacy and the current shape, and the conversion of a
    legacy manifest into the current one. */
module Manifest {
  import opened Wrappers
  import opened Seqs
  import opened Strings
  import opened Json
  import V1 = ManifestV1
  import opened ManifestV2

  datatype ManifestKind = V1(legacy: V1.Manifest) | V2(current: ManifestV2.Manifest)

  /** serde's message when no variant of an untagged enum matches. */
  const UNTAGGED_ERROR := "data did not match any variant of untagged enum ManifestKind"

  /** `#[serde(untagged)]`: the variants are tried in declaration order, so
      the legacy shape is tried first and the current one only when it fails. */
  function Decode(v: Value): (r: Result<ManifestKind, string>)
    ensures V1.Decode(v).Ok? ==> r == Ok(V1(V1.Decode(v).value))
    ensures V1.Decode(v).Err? && ManifestV2.Decode(v).Ok? ==> r == Ok(V2(ManifestV2.Decode(v).value))
    ensures r.Err? <==> V1.Decode(v).Err? && ManifestV2.Decode(v).Err?
    ensures r.Err? ==> r.error == UNTAGGED_ERROR
  {
    match V1.Decode(v) {
      case Ok(m) => Ok(V1(m))
      case Err(_) =>
        match ManifestV2.Decode(v) {
          case Ok(m) => Ok(V2(m))
          case Err(_) => Err(UNTAGGED_ERROR)
        }
    }
  }

  /** Untagged serialization writes the variant's own form. */
  function Encode(k: ManifestKind): Value
    requires k.V2? ==> forall i :: 0 <= i < |k.current.modules| ==> k.current.modules[i].kind != Combined
  {
    match k {
      case V1(m) => V1.Encode(m)
      case V2(m) => ManifestV2.Encode(m)
    }
  }

  /** Both variants survive the untagged round trip: a legacy manifest is
      read back as legacy, and a current one, which has no `datapacks` key,
      fails the legacy shape and is read back as current. */
  lemma RoundTrip(k: ManifestKind)
    requires k.V2? ==> forall i :: 0 <= i < |k.current.modules| ==>
      k.current.modules[i].kind != Combined && Declared(k.current.modules[i])
    ensures Decode(Encode(k)) == Ok(k)
  {
    match k {
      case V1(m) => V1.RoundTrip(m);
      case V2(m) =>
        assert V1.GroupValues(Encode(k)).None?;
        ManifestV2.RoundTrip(m);
    }
  }

  const LEGACY_PREFIX := "bs."
  const SLUG_PREFIX := "bookshelf-"
  const LEGACY_DOCS_HOST := "https://bookshelf.docs.gunivers.net/"
  const DOCS_HOST := "https://docs.mcbookshelf.dev/"

  /** The slug a legacy id is given. */
  function Slug(id: string): string {
    Replace(id, LEGACY_PREFIX, SLUG_PREFIX)
  }

  /** A legacy documentation link moved to the new documentation host. */
  function Documentation(url: string): string {
    Replace(url, LEGACY_DOCS_HOST, DOCS_HOST)
  }

  /** The tags a module inherits from the name of its legacy group. */
  function GroupTags(group: string): (r: seq<string>)
    ensures group == "Bookshelf" <==> r == ["lib"]
    ensures group == "Bookshelf Dev" <==> r == ["dev"]
    ensures group != "Bookshelf" && group != "Bookshelf Dev" <==> r == []
  {
    if group == "Bookshelf" then ["lib"]
    else if group == "Bookshelf Dev" then ["dev"]
    else []
  }

  /** One legacy module of group `group` as a current module. The legacy
      shape has no download link and no image, so those are empty. */
  function ConvertModule(group: string, m: V1.Module): ManifestV2.Module {
    ManifestV2.Module(
      m.id, m.name, Slug(m.id), "", Documentation(m.documentation), m.description,
      None, None, None, None, DEFAULT_KIND, GroupTags(group), m.dependencies, m.weakDependencies)
  }

  /** The `flat_map` over the groups: each group's modules, converted, one
      group after the other. */
  function ConvertGroups(groups: seq<V1.Datapack>): seq<ManifestV2.Module> {
    if groups == [] then [] else ConvertGroup(groups[0]) + ConvertGroups(groups[1..])
  }

  /** The modules of one legacy group, converted, in their order. */
  function ConvertGroup(g: V1.Datapack): (r: seq<ManifestV2.Module>)
    ensures |r| == |g.modules|
    ensures forall j :: 0 <= j < |g.modules| ==> r[j] == ConvertModule(g.name, g.modules[j])
  {
    Map(g.modules, (m: V1.Module) => ConvertModule(g.name, m))
  }

  /** `From<v1::Manifest> for v2::Manifest`. */
  function Convert(m: V1.Manifest): (r: ManifestV2.Manifest)
    ensures |r.modules| == TotalModules(m.datapacks)
    ensures forall i :: 0 <= i < |r.modules| ==> r.modules[i].kind == DataPack
  {
    ConvertCount(m.datapacks);
    ConvertKinds(m.datapacks);
    ManifestV2.Manifest(ConvertGroups(m.datapacks))
  }

  /** `into_latest`: a current manifest is kept as it is; a legacy one is
      converted, one data pack per legacy module. */
  function IntoLatest(k: ManifestKind): (r: ManifestV2.Manifest)
    ensures k.V2? ==> r == k.current
    ensures k.V1? ==> |r.modules| == TotalModules(k.legacy.datapacks)
    ensures k.V1? ==> forall i :: 0 <= i < |r.modules| ==> r.modules[i].kind == DataPack
  {
    match k {
      case V1(m) => Convert(m)
      case V2(m) => m
    }
  }

  /** The number of modules over all groups. */
  function TotalModules(groups: seq<V1.Datapack>): nat {
    if groups == [] then 0 else |groups[0].modules| + TotalModules(groups[1..])
  }

  /** Converting loses and invents no module: there are as many current
      modules as legacy modules over all groups. */
  lemma {:induction false} ConvertCount(groups: seq<V1.Datapack>)
    ensures |ConvertGroups(groups)| == TotalModules(groups)
  {
    if groups != [] {
      ConvertCount(groups[1..]);
    }
  }

  /** Converting distributes over concatenating group lists. */
  lemma {:induction false} ConvertAppend(a: seq<V1.Datapack>, b: seq<V1.Datapack>)
    ensures ConvertGroups(a + b) == ConvertGroups(a) + ConvertGroups(b)
    ensures TotalModules(a + b) == TotalModules(a) + TotalModules(b)
  {
    if a == [] {
      assert a + b == b;
    } else {
      assert (a + b)[0] == a[0];
      assert (a + b)[1..] == a[1..] + b;
      ConvertAppend(a[1..], b);
    }
  }

  /** Module `j` of group `g` becomes the converted module at position
      `TotalModules(groups[..g]) + j`: groups keep their order and modules
      keep their order within a group. */
  lemma {:induction false} ConvertAt(groups: seq<V1.Datapack>, g: nat, j: nat)
    requires g < |groups| && j < |groups[g].modules|
    ensures TotalModules(groups[..g]) + j < |ConvertGroups(groups)|
    ensures ConvertGroups(groups)[TotalModules(groups[..g]) + j]
      == ConvertModule(groups[g].name, groups[g].modules[j])
  {
    var before := groups[..g];
    var rest := groups[g..];
    assert groups == before + rest;
    ConvertAppend(before, rest);
    ConvertCount(before);
    ConvertCount(rest);
    assert rest[0] == groups[g];
  }

  /** Every converted module lies at some position of some group. */
  lemma {:induction false} ConvertFrom(groups: seq<V1.Datapack>, i: nat)
    requires i < |ConvertGroups(groups)|
    ensures exists g, j ::
      && 0 <= g < |groups| && 0 <= j < |groups[g].modules|
      && ConvertGroups(groups)[i] == ConvertModule(groups[g].name, groups[g].modules[j])
  {
    var first := ConvertGroup(groups[0]);
    if i < |first| {
      assert ConvertGroups(groups)[i] == ConvertModule(groups[0].name, groups[0].modules[i]);
    } else {
      ConvertFrom(groups[1..], i - |first|);
      var g, j :| 0 <= g < |groups[1..]| && 0 <= j < |groups[1..][g].modules|
        && ConvertGroups(groups[1..])[i - |first|] == ConvertModule(groups[1..][g].name, groups[1..][g].modules[j]);
      assert groups[g + 1] == groups[1..][g];
    }
  }

  /** A legacy id `bs.<rest>` becomes the slug `bookshelf-<rest>`. */
  lemma SlugOfLegacyId(rest: string)
    requires !Contains(rest, LEGACY_PREFIX)
    ensures Slug(LEGACY_PREFIX + rest) == SLUG_PREFIX + rest
  {
    ReplaceLeading(LEGACY_PREFIX, rest, SLUG_PREFIX);
  }

  /** A page on the legacy documentation host moves to the same path on the
      new host. */
  lemma DocumentationOfLegacyHost(path: string)
    requires !Contains(path, LEGACY_DOCS_HOST)
    ensures Documentation(LEGACY_DOCS_HOST + path) == DOCS_HOST + path
  {
    ReplaceLeading(LEGACY_DOCS_HOST, path, DOCS_HOST);
  }

  /** Every converted module is a data pack. */
  lemma ConvertKinds(groups: seq<V1.Datapack>)
    ensures forall i :: 0 <= i < |ConvertGroups(groups)| ==> ConvertGroups(groups)[i].kind == DataPack
  {
    forall i | 0 <= i < |ConvertGroups(groups)|
      ensures ConvertGroups(groups)[i].kind == DataPack
    {
      ConvertFrom(groups, i);
    }
  }

  /** No slug keeps the legacy `bs.` prefix anywhere. */
  lemma SlugRemovesLegacyPrefix(id: string)
    ensures !Contains(Slug(id), LEGACY_PREFIX)
  {
    var from, to := LEGACY_PREFIX, SLUG_PREFIX;
    forall k | 0 <= k < |to|
      ensures Incompatible(to[k..], from)
    {
      if k == 0 {
        assert to[k..][1] != from[1];
      } else {
        assert to[k..][0] != from[0];
      }
    }
    forall j | 1 <= j < |from|
      ensures Incompatible(from[j..], to)
    {
      assert from[j..][0] != to[0];
    }
    ReplaceRemovesAll(id, from, to);
  }

  /** An id without the legacy prefix is its own slug. */
  lemma SlugOfPlainId(id: string)
    requires !Contains(id, LEGACY_PREFIX)
    ensures Slug(id) == id
  {
    ReplaceAbsent(id, LEGACY_PREFIX, SLUG_PREFIX);
  }

  /** The new host cut at its letters `h`. */
  lemma DocsHostPieces()
    ensures DOCS_HOST == "h" + "ttps://docs.mcbooks" + "h" + "elf.dev/"
  {
  }

  /** The new host has an `h` only at positions 0 and 20. */
  lemma DocsHostLetters()
    ensures |DOCS_HOST| == 29 && DOCS_HOST[0] == DOCS_HOST[20] == 'h'
    ensures forall k :: 0 < k < |DOCS_HOST| && k != 20 ==> DOCS_HOST[k] != 'h'
  {
    var before, after := "ttps://docs.mcbooks", "elf.dev/";
    DocsHostPieces();
    assert 'h' !in before && 'h' !in after;
    forall k | 0 < k < |DOCS_HOST| && k != 20
      ensures DOCS_HOST[k] != 'h'
    {
      if k < 20 {
        assert DOCS_HOST[k] == before[k - 1];
      } else {
        assert DOCS_HOST[k] == after[k - 21];
      }
    }
  }

  /** The legacy host cut at its letters `h`. */
  lemma LegacyHostPieces()
    ensures LEGACY_DOCS_HOST == "h" + "ttps://books" + "h" + "elf.docs.gunivers.net/"
  {
  }

  /** The legacy host has an `h` only at positions 0 and 13. */
  lemma LegacyHostLetters()
    ensures |LEGACY_DOCS_HOST| == 36 && LEGACY_DOCS_HOST[0] == LEGACY_DOCS_HOST[13] == 'h'
    ensures forall j :: 0 < j < |LEGACY_DOCS_HOST| && j != 13 ==> LEGACY_DOCS_HOST[j] != 'h'
  {
    var before, after := "ttps://books", "elf.docs.gunivers.net/";
    LegacyHostPieces();
    assert 'h' !in before && 'h' !in after;
    forall j | 0 < j < |LEGACY_DOCS_HOST| && j != 13
      ensures LEGACY_DOCS_HOST[j] != 'h'
    {
      if j < 13 {
        assert LEGACY_DOCS_HOST[j] == before[j - 1];
      } else {
        assert LEGACY_DOCS_HOST[j] == after[j - 14];
      }
    }
  }

  /** No suffix of the new host lines up with the legacy host. */
  lemma DocsHostSuffixes()
    ensures forall k :: 0 <= k < |DOCS_HOST| ==> Incompatible(DOCS_HOST[k..], LEGACY_DOCS_HOST)
  {
    var from, to := LEGACY_DOCS_HOST, DOCS_HOST;
    DocsHostLetters();
    forall k | 0 <= k < |to|
      ensures Incompatible(to[k..], from)
    {
      if k == 0 {
        assert to[k..][8] != from[8];
      } else if k == 20 {
        assert to[k..][1] != from[1];
      } else {
        assert to[k..][0] == to[k] != from[0];
      }
    }
  }

  /** No proper suffix of the legacy host lines up with the new host. */
  lemma LegacyHostSuffixes()
    ensures forall j :: 1 <= j < |LEGACY_DOCS_HOST| ==> Incompatible(LEGACY_DOCS_HOST[j..], DOCS_HOST)
  {
    var from, to := LEGACY_DOCS_HOST, DOCS_HOST;
    LegacyHostLetters();
    forall j | 1 <= j < |from|
      ensures Incompatible(from[j..], to)
    {
      if j == 13 {
        assert from[j..][1] != to[1];
      } else {
        assert from[j..][0] == from[j] != to[0];
      }
    }
  }

  /** No converted documentation link still points at the legacy host. */
  lemma DocumentationRewritten(url: string)
    ensures !Contains(Documentation(url), LEGACY_DOCS_HOST)
  {
    DocsHostSuffixes();
    LegacyHostSuffixes();
    ReplaceRemovesAll(url, LEGACY_DOCS_HOST, DOCS_HOST);
  }

  /** A link that never mentioned the legacy host is kept as it is. */
  lemma DocumentationKept(url: string)
    requires !Contains(url, LEGACY_DOCS_HOST)
    ensures Documentation(url) == url
  {
    ReplaceAbsent(url, LEGACY_DOCS_HOST, DOCS_HOST);
  }

  /** What conversion guarantees of every module it produces: the id, names,
      description and dependencies are carried over; the kind is the
      default; there is no icon, banner or readme; the slug has no `bs.`;
      the documentation no legacy host; the tags come from the group. */
  lemma ConvertedModule(group: string, m: V1.Module)
    ensures var c := ConvertModule(group, m);
      && c.id == m.id && c.name == m.name && c.description == m.description
      && c.dependencies == m.dependencies && c.weakDependencies == m.weakDependencies
      && c.kind == DataPack
      && c.icon.None? && c.banner.None? && c.readme.None?
      && !Contains(c.slug, LEGACY_PREFIX)
      && !Contains(c.documentation, LEGACY_DOCS_HOST)
      && c.tags in {["lib"], ["dev"], []}
      && (c.tags == ["lib"] <==> group == "Bookshelf")
      && (c.tags == ["dev"] <==> group == "Bookshelf Dev")
  {
    SlugRemovesLegacyPrefix(m.id);
    DocumentationRewritten(m.documentation);
  }

  /** Whatever manifest was read, its latest form has only data and
      resource packs: a legacy one converts to data packs, and the current
      shape cannot name any other kind. */
  lemma LatestKinds(v: Value)
    requires Decode(v).Ok?
    ensures var modules := IntoLatest(Decode(v).value).modules;
      forall i :: 0 <= i < |modules| ==> modules[i].kind != Combined
  {
    var modules := IntoLatest(Decode(v).value).modules;
    match Decode(v).value {
      case V1(m) =>
        forall i | 0 <= i < |modules|
          ensures modules[i].kind == DataPack
        {
          ConvertFrom(m.datapacks, i);
        }
      case V2(m) =>
        DecodedDeclared(v);
    }
  }

  /** A manifest read in the legacy shape is used converted. */
  lemma LatestOfLegacy(v: Value)
    requires V1.Decode(v).Ok?
    ensures Decode(v).Ok? && IntoLatest(Decode(v).value) == Convert(V1.Decode(v).value)
    ensures |IntoLatest(Decode(v).value).modules| == TotalModules(V1.Decode(v).value.datapacks)
  {
    ConvertCount(V1.Decode(v).value.datapacks);
  }

  /** A manifest in the current shape is used as read. */
  lemma LatestOfCurrent(v: Value)
    requires V1.Decode(v).Err? && ManifestV2.Decode(v).Ok?
    ensures Decode(v).Ok? && IntoLatest(Decode(v).value) == ManifestV2.Decode(v).value
  {
  }
}
