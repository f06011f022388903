/** Fetching one module's archive (src/bundle/fetch.rs): a disk cache in
    front of two upstream sources, with a background refresh that pings
    Modrinth at most once per cooldown period for each cached file.

    The disk is a map from path to bytes: a read succeeds exactly when the
    path is present. The last-refresh table is a map from path to an instant
    in nanoseconds. The network is a record of three functions: the
    Modrinth version listing and the GitHub release listing, each keyed by
    the URL queried, and the download of a file by URL. The spawned refresh
    is returned to the caller as a task, to be run later with
    `CompleteRefresh`, whenever the scheduler gets to it. */
module Fetch {
  import opened Wrappers
  import opened Seqs
  import opened Strings
  import opened Archives
  import opened ManifestV2
  import opened Bundle

  datatype ModrinthFile = ModrinthFile(url: string, primary: bool, fileType: string)

  datatype GithubAsset = GithubAsset(name: string, url: string)

  datatype Upstream = Upstream(
    modrinth: string -> Result<seq<ModrinthFile>, string>,
    github: string -> Result<seq<GithubAsset>, string>,
    download: string -> Result<Bytes, string>)

  const FILE_NOT_FOUND := "Failed to find file"
  const ASSET_NOT_FOUND := "Failed to find asset"
  const SOURCES_FAILED := "Failed to fetch module from sources"

  /** The resource-pack half of a combined module is wanted. */
  predicate WantsResourcePack(m: VersionedModule, kind: ModuleKind) {
    m.kind == Combined && kind == ResourcePack
  }

  /** The Modrinth project version queried for a module: by slug and version. */
  function ModrinthVersionUrl(m: VersionedModule): string {
    "https://api.modrinth.com/v3/project/" + m.slug + "/version/" + m.version
  }

  /** The GitHub release queried for a module: by version only. */
  function GithubReleaseUrl(version: string): string {
    "https://api.github.com/repos/mcbookshelf/Bookshelf/releases/tags/v" + version
  }

  /** Which Modrinth file is wanted: the resource-pack file of a combined
      module asked for as a resource pack, the primary file otherwise. */
  predicate ModrinthPicks(m: VersionedModule, kind: ModuleKind, f: ModrinthFile) {
    if WantsResourcePack(m, kind) then EndsWith(f.fileType, "resource-pack") else f.primary
  }

  /** `fetch_module_url_from_modrinth`, given the outcome of listing the
      project version: the URL of the first wanted file. */
  function ModrinthUrl(m: VersionedModule, kind: ModuleKind,
                       listing: Result<seq<ModrinthFile>, string>): (r: Result<string, string>)
    ensures listing.Err? ==> r == Err(listing.error)
    ensures listing.Ok? ==>
      (r.Ok? <==> exists i :: 0 <= i < |listing.value| && ModrinthPicks(m, kind, listing.value[i]))
    ensures listing.Ok? && r.Err? ==> r.error == FILE_NOT_FOUND
    ensures r.Ok? ==> exists i ::
      && 0 <= i < |listing.value| && ModrinthPicks(m, kind, listing.value[i])
      && listing.value[i].url == r.value
      && forall j :: 0 <= j < i ==> !ModrinthPicks(m, kind, listing.value[j])
  {
    match listing {
      case Err(e) => Err(e)
      case Ok(files) =>
        match Find(files, (f: ModrinthFile) => ModrinthPicks(m, kind, f)) {
          case None => Err(FILE_NOT_FOUND)
          case Some(i) => Ok(files[i].url)
        }
    }
  }

  /** The asset-name prefix looked for on GitHub. */
  function AssetPrefix(m: VersionedModule, kind: ModuleKind): string {
    m.id + "-" + (if WantsResourcePack(m, kind) then "rp" else "")
  }

  /** `fetch_module_url_from_github`, given the outcome of listing the
      release: the URL of the first asset whose name has the prefix. */
  function GithubUrl(m: VersionedModule, kind: ModuleKind,
                     release: Result<seq<GithubAsset>, string>): (r: Result<string, string>)
    ensures release.Err? ==> r == Err(release.error)
    ensures release.Ok? ==>
      (r.Ok? <==> exists i :: 0 <= i < |release.value| && StartsWith(release.value[i].name, AssetPrefix(m, kind)))
    ensures release.Ok? && r.Err? ==> r.error == ASSET_NOT_FOUND
    ensures r.Ok? ==> exists i ::
      && 0 <= i < |release.value| && StartsWith(release.value[i].name, AssetPrefix(m, kind))
      && release.value[i].url == r.value
      && forall j :: 0 <= j < i ==> !StartsWith(release.value[j].name, AssetPrefix(m, kind))
  {
    match release {
      case Err(e) => Err(e)
      case Ok(assets) =>
        var prefix := AssetPrefix(m, kind);
        match Find(assets, (a: GithubAsset) => StartsWith(a.name, prefix)) {
          case None => Err(ASSET_NOT_FOUND)
          case Some(i) => Ok(assets[i].url)
        }
    }
  }

  /** The URL the module is downloaded from: Modrinth's, or else GitHub's. */
  function SourceUrl(m: VersionedModule, kind: ModuleKind, up: Upstream): Result<string, string> {
    match ModrinthUrl(m, kind, up.modrinth(ModrinthVersionUrl(m))) {
      case Ok(url) => Ok(url)
      case Err(_) =>
        match GithubUrl(m, kind, up.github(GithubReleaseUrl(m.version))) {
          case Ok(url) => Ok(url)
          case Err(_) => Err(SOURCES_FAILED)
        }
    }
  }

  /** `fetch_module_from_sources`: download from the URL found; a failed
      download is final. */
  function FetchFromSources(m: VersionedModule, kind: ModuleKind, up: Upstream): Result<Bytes, string> {
    var url :- SourceUrl(m, kind, up);
    up.download(url)
  }

  /** GitHub is asked only when Modrinth cannot name a file: when it can,
      the outcome is the download of that file, whatever GitHub holds, and
      a failed download is an error with no second try. */
  lemma ModrinthFirst(m: VersionedModule, kind: ModuleKind, up: Upstream,
                      github: string -> Result<seq<GithubAsset>, string>)
    requires ModrinthUrl(m, kind, up.modrinth(ModrinthVersionUrl(m))).Ok?
    ensures var url := ModrinthUrl(m, kind, up.modrinth(ModrinthVersionUrl(m))).value;
      && FetchFromSources(m, kind, up) == up.download(url)
      && FetchFromSources(m, kind, up) == FetchFromSources(m, kind, up.(github := github))
  {
  }

  /** When Modrinth cannot name a file, GitHub's asset is downloaded, and
      when neither can, the fetch fails with the context message. */
  lemma GithubFallback(m: VersionedModule, kind: ModuleKind, up: Upstream)
    requires ModrinthUrl(m, kind, up.modrinth(ModrinthVersionUrl(m))).Err?
    ensures var g := GithubUrl(m, kind, up.github(GithubReleaseUrl(m.version)));
      && (g.Ok? ==> FetchFromSources(m, kind, up) == up.download(g.value))
      && (g.Err? ==> FetchFromSources(m, kind, up) == Err(SOURCES_FAILED))
  {
  }

  /** The cache file of a module: by version and id only. */
  function CachePath(version: string, id: string): string {
    "cache/" + version + "/" + id + ".zip"
  }

  /** The path of a module does not depend on the kind it is fetched as,
      nor on its slug: both halves of a combined module share one entry. */
  lemma CachePathIgnoresKindAndSlug(a: VersionedModule, b: VersionedModule)
    requires a.id == b.id && a.version == b.version
    ensures CachePath(a.version, a.id) == CachePath(b.version, b.id)
  {
  }

  /** The cooldown: 600 seconds, in nanoseconds. */
  const COOLDOWN: nat := 600 * 1_000_000_000

  /** `Instant::duration_since`, which saturates at zero. */
  function Elapsed(now: int, last: int): nat {
    if now >= last then now - last else 0
  }

  datatype CacheState = CacheState(disk: map<string, Bytes>, lastRefresh: map<string, int>)

  /** A refresh is due when the path was never refreshed, or when strictly
      more than the cooldown has passed since. */
  predicate RefreshDue(s: CacheState, path: string, now: int) {
    path !in s.lastRefresh || Elapsed(now, s.lastRefresh[path]) > COOLDOWN
  }

  /** A spawned background refresh: the module to look up, and the path
      and instant to record. */
  datatype Refresh = Refresh(m: VersionedModule, kind: ModuleKind, path: string, at: int)

  datatype FetchOutcome = FetchOutcome(result: Result<Bytes, string>, task: Option<Refresh>, state: CacheState)

  /** `fetch_module`: serve the cached file, spawning a refresh when one is
      due; otherwise fetch from the sources and write the file. */
  function FetchSpec(s: CacheState, m: VersionedModule, kind: ModuleKind, now: int,
                     up: Upstream, write: Result<(), string>): FetchOutcome
  {
    var path := CachePath(m.version, m.id);
    if path in s.disk then
      var task := if RefreshDue(s, path, now) then Some(Refresh(m, kind, path, now)) else None;
      FetchOutcome(Ok(s.disk[path]), task, s)
    else
      match FetchFromSources(m, kind, up) {
        case Err(e) => FetchOutcome(Err(e), None, s)
        case Ok(bytes) =>
          if write.Err? then FetchOutcome(Err(write.error), None, s)
          else FetchOutcome(Ok(bytes), None, s.(disk := s.disk[path := bytes]))
      }
  }

  /** The spawned task: record the instant when Modrinth still names a file.
      The ping that follows is not awaited for its outcome, so the download
      function plays no part. */
  function RefreshSpec(s: CacheState, t: Refresh, up: Upstream): CacheState {
    if ModrinthUrl(t.m, t.kind, up.modrinth(ModrinthVersionUrl(t.m))).Ok?
    then s.(lastRefresh := s.lastRefresh[t.path := t.at])
    else s
  }

  /** The module cache, with the two tables it updates in place. */
  class Resolver {
    var disk: map<string, Bytes>
    var lastRefresh: map<string, int>

    function State(): CacheState
      reads this
    {
      CacheState(disk, lastRefresh)
    }

    constructor(disk0: map<string, Bytes>)
      ensures disk == disk0 && lastRefresh == map[]
    {
      disk := disk0;
      lastRefresh := map[];
    }

    method FetchModule(m: VersionedModule, kind: ModuleKind, now: int, up: Upstream, write: Result<(), string>)
      returns (r: Result<Bytes, string>, task: Option<Refresh>)
      modifies this
      ensures var o := FetchSpec(old(State()), m, kind, now, up, write);
        r == o.result && task == o.task && State() == o.state
    {
      var path := CachePath(m.version, m.id);
      if path in disk {
        if path !in lastRefresh || Elapsed(now, lastRefresh[path]) > COOLDOWN {
          task := Some(Refresh(m, kind, path, now));
        } else {
          task := None;
        }
        r := Ok(disk[path]);
      } else {
        task := None;
        var bytes := FetchFromSources(m, kind, up);
        if bytes.Err? {
          r := Err(bytes.error);
        } else if write.Err? {
          r := Err(write.error);
        } else {
          disk := disk[path := bytes.value];
          r := Ok(bytes.value);
        }
      }
    }

    method CompleteRefresh(t: Refresh, up: Upstream)
      modifies this
      ensures State() == RefreshSpec(old(State()), t, up)
    {
      var url := ModrinthUrl(t.m, t.kind, up.modrinth(ModrinthVersionUrl(t.m)));
      if url.Ok? {
        lastRefresh := lastRefresh[t.path := t.at];
      }
    }
  }

  /** A cache hit returns exactly the cached bytes and writes nothing; a
      refresh is spawned iff one is due. */
  lemma CacheHit(s: CacheState, m: VersionedModule, kind: ModuleKind, now: int,
                 up: Upstream, write: Result<(), string>)
    requires CachePath(m.version, m.id) in s.disk
    ensures var o := FetchSpec(s, m, kind, now, up, write);
      && o.result == Ok(s.disk[CachePath(m.version, m.id)])
      && o.state == s
      && (o.task.Some? <==> RefreshDue(s, CachePath(m.version, m.id), now))
      && (o.task.Some? ==> o.task == Some(Refresh(m, kind, CachePath(m.version, m.id), now)))
  {
  }

  /** On a miss, a successful fetch leaves the cache mapping the path to
      exactly the returned bytes, and changes nothing else; a failed fetch
      or write returns an error and changes nothing. */
  lemma CacheMiss(s: CacheState, m: VersionedModule, kind: ModuleKind, now: int,
                  up: Upstream, write: Result<(), string>)
    requires CachePath(m.version, m.id) !in s.disk
    ensures var o := FetchSpec(s, m, kind, now, up, write);
      var path := CachePath(m.version, m.id);
      && o.task.None?
      && (o.result.Ok? <==> FetchFromSources(m, kind, up).Ok? && write.Ok?)
      && (o.result.Ok? ==>
            && o.result == FetchFromSources(m, kind, up)
            && o.state.disk == s.disk[path := o.result.value]
            && o.state.lastRefresh == s.lastRefresh)
      && (o.result.Err? ==> o.state == s)
  {
  }

  /** Once a module was fetched, fetching it again, as any kind, at any
      time and whatever the sources say, serves the same bytes from the
      cache. */
  lemma RepeatServesCache(s: CacheState, m: VersionedModule, kind: ModuleKind, now: int,
                          up: Upstream, write: Result<(), string>,
                          m2: VersionedModule, kind2: ModuleKind, now2: int,
                          up2: Upstream, write2: Result<(), string>)
    requires m2.id == m.id && m2.version == m.version
    requires FetchSpec(s, m, kind, now, up, write).result.Ok?
    ensures var o := FetchSpec(s, m, kind, now, up, write);
      FetchSpec(o.state, m2, kind2, now2, up2, write2).result == o.result
  {
  }

  /** The cooldown is strict: a refresh at `t` keeps the next one from being
      due until strictly more than 600 seconds later. */
  lemma CooldownBoundary(s: CacheState, path: string, t: int)
    ensures !RefreshDue(s.(lastRefresh := s.lastRefresh[path := t]), path, t + COOLDOWN)
    ensures RefreshDue(s.(lastRefresh := s.lastRefresh[path := t]), path, t + COOLDOWN + 1)
  {
  }

  /** The refresh records its instant iff Modrinth names a file, touches
      neither the disk nor other paths, and does not depend on whether the
      ping download succeeds. */
  lemma RefreshRecords(s: CacheState, t: Refresh, up: Upstream,
                       download: string -> Result<Bytes, string>)
    ensures var s' := RefreshSpec(s, t, up);
      && s'.disk == s.disk
      && (ModrinthUrl(t.m, t.kind, up.modrinth(ModrinthVersionUrl(t.m))).Ok? ==> s'.lastRefresh == s.lastRefresh[t.path := t.at])
      && (ModrinthUrl(t.m, t.kind, up.modrinth(ModrinthVersionUrl(t.m))).Err? ==> s' == s)
      && s' == RefreshSpec(s, t, up.(download := download))
  {
  }

  /** A recorded refresh stops further refreshes of that path within the
      cooldown. */
  lemma RefreshSuppresses(s: CacheState, t: Refresh, up: Upstream, now: int)
    requires ModrinthUrl(t.m, t.kind, up.modrinth(ModrinthVersionUrl(t.m))).Ok?
    requires t.at <= now <= t.at + COOLDOWN
    ensures !RefreshDue(RefreshSpec(s, t, up), t.path, now)
  {
  }
}
