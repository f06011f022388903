/** The download endpoint (src/api/download.rs): look the manifest up,
    select the requested modules, build the bundle and answer with a status
    code, headers and a body.

    The manifest lookup is a parameter (`fetch_manifest` is not part of this
    model): an error, no manifest for the version, or the manifest read. The
    module archives and the ZIP encoder are the parameters of the bundler. */
module Download {
  import opened Wrappers
  import opened Seqs
  import opened Strings
  import opened Archives
  import opened ManifestV2
  import opened Manifest
  import LegacyBundle

  const OK: nat := 200
  const UNPROCESSABLE_ENTITY: nat := 422
  const INTERNAL_SERVER_ERROR: nat := 500

  datatype Response = Response(status: nat, headers: seq<(string, string)>, body: Bytes)

  /** A response made of a status code alone. */
  function Status(code: nat): Response {
    Response(code, [], [])
  }

  /** The headers of a bundle download for `version`. */
  function Headers(version: string): seq<(string, string)> {
    [("content-type", "application/zip"),
     ("content-disposition", "attachment; filename=\"bookshelf-" + version + ".zip\"")]
  }

  /** The `modules` query parameter: without it every module is kept; with
      it, a module is kept iff its id is exactly one of the comma-separated
      pieces (pieces naming no module are ignored), and the kept modules
      stay in manifest order. */
  function Select(modules: seq<Module>, param: Option<string>): (r: seq<Module>)
    ensures param.None? ==> r == modules
    ensures param.Some? ==> forall m :: m in r <==> m in modules && m.id in Split(param.value, ',')
    ensures param.Some? ==> r == Filter(modules, (m: Module) => m.id in Split(param.value, ','))
  {
    match param {
      case None => modules
      case Some(p) =>
        var ids := Split(p, ',');
        var keep := (m: Module) => m.id in ids;
        FilterMembers(modules, keep);
        Filter(modules, keep)
    }
  }

  /** A list of ids without commas, joined with commas, selects exactly the
      modules with those ids. */
  lemma SelectIds(modules: seq<Module>, ids: seq<string>)
    requires |ids| >= 1
    requires forall i :: 0 <= i < |ids| ==> ',' !in ids[i]
    ensures forall m :: m in Select(modules, Some(Join(ids, ','))) <==> m in modules && m.id in ids
  {
    SplitJoin(ids, ',');
  }

  /** The handler. */
  method Download(lookup: Result<Option<ManifestKind>, string>, version: string, param: Option<string>,
                  fetch: (string, Module) -> Result<Archive, string>, zip: Archive -> Bytes)
    returns (r: Response)
    ensures lookup.Err? ==> r == Status(INTERNAL_SERVER_ERROR)
    ensures lookup == Ok(None) ==> r == Status(UNPROCESSABLE_ENTITY)
    ensures lookup.Ok? && lookup.value.Some? ==>
      var selected := Select(IntoLatest(lookup.value.value).modules, param);
      var bundle := LegacyBundle.BundleSpec(version, selected, fetch, zip);
      && (selected == [] ==> r == Status(UNPROCESSABLE_ENTITY))
      && (selected != [] && bundle.Err? ==> r == Status(INTERNAL_SERVER_ERROR))
      && (selected != [] && bundle.Ok? ==> r == Response(OK, Headers(version), zip(bundle.value)))
  {
    if lookup.Err? {
      return Status(INTERNAL_SERVER_ERROR);
    }
    if lookup.value.None? {
      return Status(UNPROCESSABLE_ENTITY);
    }
    var modules := IntoLatest(lookup.value.value).modules;
    if param.Some? {
      var ids := Split(param.value, ',');
      modules := Filter(modules, (m: Module) => m.id in ids);
    }
    if modules == [] {
      return Status(UNPROCESSABLE_ENTITY);
    }
    var bundle := LegacyBundle.CreateBundle(version, modules, fetch, zip);
    if bundle.Err? {
      return Status(INTERNAL_SERVER_ERROR);
    }
    return Response(OK, Headers(version), zip(bundle.value));
  }

  /** Once the manifest is found and the selection is not empty, the
      bundle, and so the download, succeeds iff every selected module's
      archive was fetched. */
  lemma DownloadSucceeds(lookup: Result<Option<ManifestKind>, string>, version: string, param: Option<string>,
                         fetch: (string, Module) -> Result<Archive, string>, zip: Archive -> Bytes)
    requires lookup.Ok? && lookup.value.Some?
    requires Select(IntoLatest(lookup.value.value).modules, param) != []
    ensures var selected := Select(IntoLatest(lookup.value.value).modules, param);
      (LegacyBundle.BundleSpec(version, selected, fetch, zip).Ok?
       <==> forall i :: 0 <= i < |selected| ==> fetch(version, selected[i]).Ok?)
  {
    LegacyBundle.BundleFails(version, Select(IntoLatest(lookup.value.value).modules, param), fetch, zip);
  }
}
