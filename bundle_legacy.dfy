/** The sequential bundle assembler (src/bundle.rs), the one the download
    endpoint calls.

    `fetch(version, module)` stands for `fetch_module_archive`: the opened
    archive of a module, or why it could not be had. `zip` encodes a
    specialized bundle for the outer archive. A bundle is the archive the
    response carries, before encoding. */
module LegacyBundle {
  import opened Wrappers
  import opened Seqs
  import opened Archives
  import opened ManifestV2

  const EMPTY_BUNDLE_ERROR := "Cannot create an empty bundle"
  const RESOURCE_PACKS_ENTRY := "resource_packs.zip"
  const DATA_PACKS_ENTRY := "data_packs.zip"

  predicate IsDataPack(m: Module) {
    m.kind == DataPack
  }

  predicate IsNotDataPack(m: Module) {
    m.kind != DataPack
  }

  /** `partition(matches!(kind, DataPack))`: data packs first, every other
      kind second, each list in input order. */
  function Partition(modules: seq<Module>): (r: (seq<Module>, seq<Module>))
    ensures r.0 == Filter(modules, IsDataPack) && r.1 == Filter(modules, IsNotDataPack)
    ensures multiset(r.0) + multiset(r.1) == multiset(modules)
    ensures forall i :: 0 <= i < |r.0| ==> r.0[i].kind == DataPack
    ensures forall i :: 0 <= i < |r.1| ==> r.1[i].kind != DataPack
  {
    FilterSplit(modules, IsDataPack, IsNotDataPack);
    (Filter(modules, IsDataPack), Filter(modules, IsNotDataPack))
  }

  /** The archives of the modules, in list order. */
  function Fetched(version: string, modules: seq<Module>,
                   fetch: (string, Module) -> Result<Archive, string>): (r: seq<Result<Archive, string>>)
    ensures |r| == |modules|
    ensures forall i :: 0 <= i < |modules| ==> r[i] == fetch(version, modules[i])
  {
    seq(|modules|, i requires 0 <= i < |modules| => fetch(version, modules[i]))
  }

  /** The bundle `create_specialized_bundle` builds. */
  function SpecializedSpec(version: string, modules: seq<Module>,
                           fetch: (string, Module) -> Result<Archive, string>): Result<Archive, string>
  {
    Merge(Fetched(version, modules, fetch))
  }

  /** `create_specialized_bundle`: fetch the modules one after the other,
      stop at the first failure, and copy the entries not seen yet. */
  method CreateSpecializedBundle(version: string, modules: seq<Module>,
                                 fetch: (string, Module) -> Result<Archive, string>)
    returns (r: Result<Archive, string>)
    ensures r == SpecializedSpec(version, modules, fetch)
  {
    ghost var fetched := Fetched(version, modules, fetch);
    var duplicates: set<string> := {};
    var out: Archive := [];
    for i := 0 to |modules|
      invariant duplicates == Names(out)
      invariant MergeFrom(out, fetched[i..]) == SpecializedSpec(version, modules, fetch)
    {
      assert fetched[i..][0] == fetched[i] && fetched[i..][1..] == fetched[i + 1..];
      var archive := fetch(version, modules[i]);
      if archive.Err? {
        return Err(archive.error);
      }
      duplicates, out := CopyNew(duplicates, out, archive.value);
    }
    return Ok(out);
  }

  /** The outer archive of `create_bundle` when both kinds are present, as
      written: the data-pack bundle is built (and may fail) first and goes
      under `resource_packs.zip`; the other bundle goes under
      `data_packs.zip`. */
  function WrapSpec(version: string, data: seq<Module>, resource: seq<Module>,
                    fetch: (string, Module) -> Result<Archive, string>,
                    zip: Archive -> Bytes): Result<Archive, string>
  {
    match SpecializedSpec(version, data, fetch) {
      case Err(e) => Err(e)
      case Ok(d) =>
        match SpecializedSpec(version, resource, fetch) {
          case Err(e) => Err(e)
          case Ok(p) => Ok([Entry(RESOURCE_PACKS_ENTRY, zip(d)), Entry(DATA_PACKS_ENTRY, zip(p))])
        }
    }
  }

  /** `create_bundle`: one kind gives its specialized bundle, both kinds the
      outer archive, and no module is an error. */
  function BundleSpec(version: string, modules: seq<Module>,
                      fetch: (string, Module) -> Result<Archive, string>,
                      zip: Archive -> Bytes): Result<Archive, string>
  {
    var (data, resource) := Partition(modules);
    if data != [] && resource == [] then SpecializedSpec(version, data, fetch)
    else if data == [] && resource != [] then SpecializedSpec(version, resource, fetch)
    else if data != [] then WrapSpec(version, data, resource, fetch, zip)
    else Err(EMPTY_BUNDLE_ERROR)
  }

  method CreateBundle(version: string, modules: seq<Module>,
                      fetch: (string, Module) -> Result<Archive, string>,
                      zip: Archive -> Bytes) returns (r: Result<Archive, string>)
    ensures r == BundleSpec(version, modules, fetch, zip)
  {
    var (data, resource) := Partition(modules);
    if data != [] && resource == [] {
      r := CreateSpecializedBundle(version, data, fetch);
    } else if data == [] && resource != [] {
      r := CreateSpecializedBundle(version, resource, fetch);
    } else if data != [] && resource != [] {
      var d := CreateSpecializedBundle(version, data, fetch);
      if d.Err? {
        return Err(d.error);
      }
      var p := CreateSpecializedBundle(version, resource, fetch);
      if p.Err? {
        return Err(p.error);
      }
      r := Ok([Entry(RESOURCE_PACKS_ENTRY, zip(d.value)), Entry(DATA_PACKS_ENTRY, zip(p.value))]);
    } else {
      r := Err(EMPTY_BUNDLE_ERROR);
    }
  }

  /** A specialized bundle exists iff every module's archive was fetched;
      otherwise it carries the error of the first module, in list order,
      that failed. */
  lemma SpecializedFails(version: string, modules: seq<Module>,
                         fetch: (string, Module) -> Result<Archive, string>)
    ensures var r := SpecializedSpec(version, modules, fetch);
      && (r.Ok? <==> forall i :: 0 <= i < |modules| ==> fetch(version, modules[i]).Ok?)
      && (r.Err? ==> exists k ::
            && 0 <= k < |modules| && fetch(version, modules[k]) == Err(r.error)
            && forall j :: 0 <= j < k ==> fetch(version, modules[j]).Ok?)
  {
    MergeProperties(Fetched(version, modules, fetch));
  }

  /** The names of a specialized bundle are pairwise distinct and are exactly
      the names in the modules' archives. */
  lemma SpecializedNames(version: string, modules: seq<Module>,
                         fetch: (string, Module) -> Result<Archive, string>)
    requires SpecializedSpec(version, modules, fetch).Ok?
    ensures DistinctNames(SpecializedSpec(version, modules, fetch).value)
    ensures forall name :: name in Names(SpecializedSpec(version, modules, fetch).value) <==>
      exists i :: 0 <= i < |modules| && fetch(version, modules[i]).Ok?
        && name in Names(fetch(version, modules[i]).value)
  {
    MergeProperties(Fetched(version, modules, fetch));
  }

  /** The first listed module holding a file name provides its content. */
  lemma SpecializedFirstWins(version: string, modules: seq<Module>,
                             fetch: (string, Module) -> Result<Archive, string>,
                             k: nat, name: string)
    requires SpecializedSpec(version, modules, fetch).Ok?
    requires k < |modules| && fetch(version, modules[k]).Ok?
    requires name in Names(fetch(version, modules[k]).value)
    requires forall j :: 0 <= j < k && fetch(version, modules[j]).Ok? ==>
      name !in Names(fetch(version, modules[j]).value)
    ensures Lookup(SpecializedSpec(version, modules, fetch).value, name)
      == Lookup(fetch(version, modules[k]).value, name)
  {
    var fetched := Fetched(version, modules, fetch);
    MergeProperties(fetched);
    var archives := Sequence(fetched).value;
    forall j | 0 <= j < k
      ensures name !in Names(archives[j])
    {
      assert fetched[j] == Ok(archives[j]);
    }
    assert fetched[k] == Ok(archives[k]);
    LookupConcat(archives, k, name);
  }

  /** No module at all is the one case refused outright. */
  lemma EmptyBundle(version: string, fetch: (string, Module) -> Result<Archive, string>, zip: Archive -> Bytes)
    ensures BundleSpec(version, [], fetch, zip) == Err(EMPTY_BUNDLE_ERROR)
  {
  }

  /** A single kind gives its specialized bundle, unwrapped. Any kind other
      than a data pack counts as a resource pack. */
  lemma SingleKind(version: string, modules: seq<Module>,
                   fetch: (string, Module) -> Result<Archive, string>, zip: Archive -> Bytes)
    requires modules != []
    requires (forall i :: 0 <= i < |modules| ==> modules[i].kind == DataPack)
          || (forall i :: 0 <= i < |modules| ==> modules[i].kind != DataPack)
    ensures BundleSpec(version, modules, fetch, zip) == SpecializedSpec(version, modules, fetch)
  {
    if forall i :: 0 <= i < |modules| ==> modules[i].kind == DataPack {
      FilterAll(modules, IsDataPack);
      FilterNone(modules, IsNotDataPack);
    } else {
      FilterAll(modules, IsNotDataPack);
      FilterNone(modules, IsDataPack);
    }
  }

  /** With both kinds present the outer archive is exactly two entries, in
      this order, whose names are swapped relative to their content:
      `resource_packs.zip` holds the data-pack bundle and `data_packs.zip`
      the resource-pack bundle. */
  lemma SwappedEntries(version: string, modules: seq<Module>,
                       fetch: (string, Module) -> Result<Archive, string>, zip: Archive -> Bytes)
    requires Filter(modules, IsDataPack) != [] && Filter(modules, IsNotDataPack) != []
    requires BundleSpec(version, modules, fetch, zip).Ok?
    ensures var b := BundleSpec(version, modules, fetch, zip).value;
      var d := SpecializedSpec(version, Filter(modules, IsDataPack), fetch);
      var p := SpecializedSpec(version, Filter(modules, IsNotDataPack), fetch);
      && d.Ok? && p.Ok?
      && b == [Entry(RESOURCE_PACKS_ENTRY, zip(d.value)), Entry(DATA_PACKS_ENTRY, zip(p.value))]
      && DistinctNames(b)
      && Lookup(b, RESOURCE_PACKS_ENTRY) == Some(zip(d.value))
      && Lookup(b, DATA_PACKS_ENTRY) == Some(zip(p.value))
  {
    var data, resource := Filter(modules, IsDataPack), Filter(modules, IsNotDataPack);
    assert BundleSpec(version, modules, fetch, zip) == WrapSpec(version, data, resource, fetch, zip);
    var b := BundleSpec(version, modules, fetch, zip).value;
    var d := SpecializedSpec(version, data, fetch).value;
    var p := SpecializedSpec(version, resource, fetch).value;
    assert b == [Entry(RESOURCE_PACKS_ENTRY, zip(d)), Entry(DATA_PACKS_ENTRY, zip(p))];
    assert b[1..] == [Entry(DATA_PACKS_ENTRY, zip(p))];
  }

  /** Every module's archive was fetched. */
  predicate AllFetched(version: string, modules: seq<Module>, fetch: (string, Module) -> Result<Archive, string>) {
    forall i :: 0 <= i < |modules| ==> fetch(version, modules[i]).Ok?
  }

  /** Every module's archive was fetched iff every data pack's and every
      other module's archive was. */
  lemma SplitFetched(version: string, modules: seq<Module>, fetch: (string, Module) -> Result<Archive, string>)
    ensures AllFetched(version, modules, fetch)
      <==> AllFetched(version, Filter(modules, IsDataPack), fetch) && AllFetched(version, Filter(modules, IsNotDataPack), fetch)
  {
    if !AllFetched(version, modules, fetch) {
      var i :| 0 <= i < |modules| && fetch(version, modules[i]).Err?;
      var p := if IsDataPack(modules[i]) then IsDataPack else IsNotDataPack;
      assert modules[i] in Filter(modules, p);
    }
  }

  /** The success half of `SpecializedFails`, in terms of `AllFetched`. */
  lemma SpecializedOk(version: string, modules: seq<Module>, fetch: (string, Module) -> Result<Archive, string>)
    ensures SpecializedSpec(version, modules, fetch).Ok? <==> AllFetched(version, modules, fetch)
  {
    SpecializedFails(version, modules, fetch);
  }

  /** A non-empty bundle exists iff every module's archive was fetched. */
  lemma BundleFails(version: string, modules: seq<Module>,
                    fetch: (string, Module) -> Result<Archive, string>, zip: Archive -> Bytes)
    requires modules != []
    ensures BundleSpec(version, modules, fetch, zip).Ok?
      <==> forall i :: 0 <= i < |modules| ==> fetch(version, modules[i]).Ok?
  {
    var data, resource := Filter(modules, IsDataPack), Filter(modules, IsNotDataPack);
    assert modules[0] in data || modules[0] in resource;
    SplitFetched(version, modules, fetch);
    SpecializedOk(version, data, fetch);
    SpecializedOk(version, resource, fetch);
    if resource == [] {
      assert BundleSpec(version, modules, fetch, zip) == SpecializedSpec(version, data, fetch);
    } else if data == [] {
      assert BundleSpec(version, modules, fetch, zip) == SpecializedSpec(version, resource, fetch);
    } else {
      assert BundleSpec(version, modules, fetch, zip) == WrapSpec(version, data, resource, fetch, zip);
    }
  }
}
