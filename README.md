# Bookshelf API: manifests, bundles and module fetching

This project models the core of the Bookshelf API, a web service that
assembles Minecraft data packs and resource packs for a chosen Bookshelf
version. Its properties are proved in Dafny.

The model covers four pieces:

- **The manifest adapter** (`src/manifest/*`). A version's manifest comes in
  one of two shapes:
  - legacy (v1): modules grouped into named "datapacks", given either as a
    top-level array or under a `datapacks` key;
  - current (v2): a flat `modules` list.

  The shapes are told apart by serde's untagged rule: legacy is tried first.
  A legacy manifest is converted into the current shape:
  - groups are flattened;
  - the slug and the documentation host are rewritten;
  - the group name becomes the tags;
  - the kind defaults to data pack.
- **The bundlers.** Modules are split by kind, and each kind becomes one
  pack. A pack merges the archives of its modules, and the first entry of
  each file name wins. Two packs are wrapped in an outer archive.
  - `src/bundle/mod.rs` fetches all modules concurrently and merges them in
    completion order.
  - `src/bundle.rs` fetches them one after the other, in list order.
- **Module fetching** (`src/bundle/fetch.rs`):
  - a disk cache keyed by version and id;
  - a background refresh with a 600-second cooldown;
  - the Modrinth-then-GitHub source fallback;
  - the two asset-selection rules.
- **The download endpoint** (`src/api/download.rs`): the comma-separated
  module filter and the choice of status code.

Every physical effect is a parameter of the model, and nothing is executed:

- JSON is an abstract value (`Json.Value`).
- An archive is a sequence of (file name, bytes) entries. ZIP encoding is a
  parameter `zip`, and ZIP decoding a parameter `unzip`.
- The disk and the last-refresh table are maps held by the `Fetch.Resolver`
  class.
- The network is a record of functions (`Fetch.Upstream`).
- The clock is an integer number of nanoseconds.
- The order in which concurrent fetches complete is a permutation chosen
  by the caller.
- A background refresh is a task, returned by `Resolver.FetchModule` and run
  later by `Resolver.CompleteRefresh`.

The files of the repository do not all agree with each other. Each file is
modelled as written:

- **`ModuleKind`.** `src/bundle/fetch.rs` uses a `Combined` kind, which
  `src/manifest/v2.rs` does not declare. The model has one `ModuleKind` that
  includes `Combined`. v2 decoding never produces it, and `KindName` has no
  name for it.
- **The `Module` record.** `src/manifest/mod.rs` sets `slug`, `icon`,
  `banner` and `readme`, which `src/manifest/v2.rs` does not declare. It sets
  neither `download` nor `image`, which v2.rs does declare. One `Module`
  record carries all these fields.
  - v2 decoding leaves the undeclared fields empty, because serde ignores
    unknown keys.
  - Legacy conversion leaves `download` empty and `image` absent.
- **The two bundlers.** Both files define the `bundle` module, and both are
  modelled: `Bundle` for `src/bundle/mod.rs` and `LegacyBundle` for
  `src/bundle.rs`. The download endpoint calls the two-argument
  `create_bundle(version, modules)`, which is `LegacyBundle.CreateBundle`.
- **The fetch arity.** `src/bundle/mod.rs:98` calls `fetch_module` with
  two arguments, but `src/bundle/fetch.rs:44-48` declares three. `Bundle`
  takes the fetch outcome as a function of the module alone.
  `Fetch.Resolver.FetchModule` takes the kind, as fetch.rs declares.
- **Bundle entry names.** With both kinds present, `src/bundle.rs:34-37`
  stores the data-pack bundle under `resource_packs.zip` and the
  resource-pack bundle under `data_packs.zip`. `src/bundle/mod.rs:75-78`
  uses the matching names. The model keeps both as written, and
  `LegacyBundle.SwappedEntries` states the swap.
- **Empty bundle.** `src/bundle/mod.rs` builds an empty pack for an empty
  module list. `src/bundle.rs` refuses it with "Cannot create an empty
  bundle".

## Model

| member | source | states |
|---|---|---|
| `Seqs.Sequence` | src/manifest/v1.rs:46-49 | Collecting results succeeds iff every element succeeds, keeping every value in order. Otherwise it returns the first error in order. |
| `Seqs.Find` | src/bundle/fetch.rs:112-115 | `find` returns the index of the first element that satisfies the predicate, and nothing iff no element does. |
| `Seqs.FilterSplit` | src/bundle.rs:21-23 | Two filters that disagree on every element split the input: the two multisets add up to the input's. |
| `Seqs.FilterAppend` | src/api/download.rs:28 | Filtering (`retain`) preserves order: it distributes over concatenation. |
| `Strings.ReplaceRemovesAll` | src/manifest/mod.rs:37-40 | When the replacement cannot overlap the pattern, no occurrence of the pattern survives `replace`. |
| `Strings.ReplaceLeading` | src/manifest/mod.rs:33 | A leading occurrence of the pattern is replaced, and the rest is kept when it holds no other occurrence. |
| `Strings.ReplaceAbsent` | src/manifest/mod.rs:33 | `replace` leaves a string without the pattern unchanged. |
| `Strings.Split` | src/api/download.rs:27 | `split` gives at least one piece, and no piece contains the separator. |
| `Strings.JoinSplit` | src/api/download.rs:27 | Joining the pieces of a split with the separator gives the string back. |
| `Strings.SplitJoin` | src/api/download.rs:27 | Pieces free of the separator are recovered by splitting their join. |
| `Json.StringsRoundTrip` | src/manifest/v2.rs:19 | A serialized `Vec<String>` deserializes to itself. |
| `Json.OptionalStringRoundTrip` | src/manifest/v2.rs:15 | A serialized `Option<String>` deserializes to itself, with `null` read as none. |
| `ManifestV2.KindNameRoundTrip` | src/manifest/v2.rs:26-32 | Each declared kind is read back from its snake_case name. |
| `ManifestV2.ParseKindAcceptsOnlyNames` | src/manifest/v2.rs:27-32 | Only `data_pack` and `resource_pack` are accepted, each as its own kind, and `Combined` is never produced. |
| `ManifestV2.Decode` | src/manifest/v2.rs:3-6 | A manifest decodes iff it has a `modules` array whose every element decodes. Its modules are those elements decoded one by one, in order. |
| `ManifestV2.ModuleRoundTrip` | src/manifest/v2.rs:8-24 | A module with a declared kind and no undeclared fields survives serialization and deserialization. |
| `ManifestV2.RoundTrip` | src/manifest/v2.rs:3-6 | A manifest of such modules survives serialization and deserialization. |
| `ManifestV2.DecodedModuleDeclared` | src/manifest/v2.rs:8-24 | A decoded module always has a declared kind, and the fields v2.rs does not declare are empty. |
| `ManifestV2.DecodedDeclared` | src/manifest/v2.rs:3-6 | Every module of a decoded manifest has a declared kind and empty undeclared fields. |
| `ManifestV2.DecodeDefaults` | src/manifest/v2.rs:15-23 | An absent `kind` gives `DataPack`, and absent `tags` and dependency lists give empty lists. An absent `image` gives none. |
| `ManifestV2.RequiredFields` | src/manifest/v2.rs:10-14 | A module decodes only with `id`, `name`, `download`, `documentation` and `description` present. Each is read from its own key. |
| `ManifestV2.MinimalModule` | src/manifest/v2.rs:9-24 | The five required strings alone decode to a module with every default applied. |
| `ManifestV1.GroupValues` | src/manifest/v1.rs:40-42 | A top-level array is checked first and is the list of groups. Failing that, an array-valued `datapacks` field holds the groups. |
| `ManifestV1.Decode` | src/manifest/v1.rs:34-53 | Any other shape gives the shape error. Otherwise the manifest decodes iff every group decodes, and the groups keep their input order. |
| `ManifestV1.NeitherShapeIsRefused` | src/manifest/v1.rs:44 | A value that is neither an array nor an object with a `datapacks` array is refused with "Expected a 'datapacks' key or an array of datapacks". |
| `ManifestV1.DecodeDatapack` | src/manifest/v1.rs:11-15 | A group decodes iff it has a string `name` and a `modules` array whose every element decodes. It keeps that name, and its modules are the elements decoded in order. |
| `ManifestV1.ModuleRoundTrip` | src/manifest/v1.rs:17-31 | A legacy module survives serialization under its renamed keys. |
| `ManifestV1.DatapackRoundTrip` | src/manifest/v1.rs:11-15 | A group survives serialization. |
| `ManifestV1.GroupsRoundTrip` | src/manifest/v1.rs:46-49 | A list of serialized groups decodes to the same groups in the same order. |
| `ManifestV1.RoundTrip` | src/manifest/v1.rs:6-9 | The object form of a legacy manifest decodes to itself. |
| `ManifestV1.ArrayFormRoundTrip` | src/manifest/v1.rs:40-41 | A bare array of serialized groups decodes to the manifest of those groups. |
| `ManifestV1.RequiredFields` | src/manifest/v1.rs:19-22 | The id is read from `name` and the display name from `display_name`. Both are required. |
| `ManifestV1.DecodeDefaults` | src/manifest/v1.rs:23-30 | An absent `documentation` or `description` gives an empty string, and an absent dependency list an empty list. |
| `ManifestV1.MinimalModule` | src/manifest/v1.rs:19-30 | `name` and `display_name` alone decode to a module with every default applied. |
| `Manifest.Decode` | src/manifest/mod.rs:7-12 | The legacy shape is tried first, and the current shape only when the legacy shape fails. The manifest is refused iff both fail. |
| `Manifest.RoundTrip` | src/manifest/mod.rs:7-12 | Each variant survives untagged serialization. A current manifest fails the legacy shape and is read back as current. |
| `Manifest.IntoLatest` | src/manifest/mod.rs:18-23 | A current manifest is returned unchanged. A legacy one gives one data-pack module per legacy module. |
| `Manifest.Convert` | src/manifest/mod.rs:26-53 | The conversion has one module per module of all groups, and every one is a data pack. |
| `Manifest.LatestOfCurrent` | src/manifest/mod.rs:21 | `into_latest` of a manifest read in the current shape returns it unchanged. |
| `Manifest.LatestOfLegacy` | src/manifest/mod.rs:20 | `into_latest` of a legacy manifest is its conversion, with one module per legacy module. |
| `Manifest.GroupTags` | src/manifest/mod.rs:43-47 | "Bookshelf" gives `["lib"]`, "Bookshelf Dev" gives `["dev"]`, and any other group name gives no tag, each as an if and only if. |
| `Manifest.ConvertGroup` | src/manifest/mod.rs:30-50 | One group converts to as many modules as it has. Module `j` is the conversion of its `j`-th module under the group's name. |
| `Manifest.ConvertCount` | src/manifest/mod.rs:29-51 | The conversion has as many modules as all groups together. |
| `Manifest.ConvertAppend` | src/manifest/mod.rs:29-51 | Converting distributes over concatenating group lists. |
| `Manifest.ConvertAt` | src/manifest/mod.rs:29-51 | Module `j` of group `g` lands at position (modules of the earlier groups) + `j`: group order, then module order. |
| `Manifest.ConvertFrom` | src/manifest/mod.rs:29-51 | Every converted module comes from some module of some group. |
| `Manifest.ConvertedModule` | src/manifest/mod.rs:28-50 | A converted module keeps its id, name, description and dependency lists. Its kind is `DataPack`, and it has no icon, banner or readme. Its slug contains no `bs.` and its documentation no legacy host. Its tags follow its group name. |
| `Manifest.SlugRemovesLegacyPrefix` | src/manifest/mod.rs:33 | No slug contains `bs.` anywhere. |
| `Manifest.SlugOfLegacyId` | src/manifest/mod.rs:33 | An id `bs.<rest>`, with no further `bs.` in `rest`, has the slug `bookshelf-<rest>`. |
| `Manifest.SlugOfPlainId` | src/manifest/mod.rs:33 | An id without `bs.` is its own slug. |
| `Manifest.DocumentationRewritten` | src/manifest/mod.rs:37-40 | No converted documentation link contains `https://bookshelf.docs.gunivers.net/`. |
| `Manifest.DocumentationOfLegacyHost` | src/manifest/mod.rs:37-40 | A link to a path on the legacy host moves to the same path on `https://docs.mcbookshelf.dev/`. |
| `Manifest.DocumentationKept` | src/manifest/mod.rs:37-40 | A link that never mentioned the legacy host is kept as it is. |
| `Manifest.LatestKinds` | src/manifest/mod.rs:18-23 | Whichever shape was read, the latest manifest has no `Combined` module. |
| `Archives.Lookup` | src/bundle/mod.rs:105-112 | Reading a file by name finds it iff the name is in the archive, and returns the content of its first entry. |
| `Archives.AbsorbDistinct` | src/bundle/mod.rs:94 | The merge never writes two entries with the same name. |
| `Archives.AbsorbNames` | src/bundle/mod.rs:105-112 | The names written are those already written plus those offered. |
| `Archives.AbsorbLookup` | src/bundle/mod.rs:109-112 | A name already written keeps its content, and a new name takes the content of its first entry. |
| `Archives.AbsorbAppend` | src/bundle/mod.rs:101-114 | Merging two archives in turn is merging their concatenation. |
| `Archives.AbsorbFresh` | src/bundle.rs:59-63 | Entries with fresh, distinct names are all copied, in order. |
| `Archives.AbsorbIdempotent` | src/bundle.rs:53-64 | The merge is idempotent. |
| `Archives.LookupConcat` | src/bundle.rs:54-64 | In a concatenation, a name first found in part `k` is read from part `k`. |
| `Archives.MergeFromSequence` | src/bundle/mod.rs:101-103 | Merging fetch outcomes fails with the first failure, and otherwise merges all the archives concatenated. |
| `Archives.MergeProperties` | src/bundle/mod.rs:101-112 | A merge succeeds iff every outcome succeeds, and otherwise fails with the first error. Its names are distinct and are the union of all names. Each name has the content of its first occurrence. |
| `Archives.CopyNew` | src/bundle/mod.rs:105-112 | The loop over one archive's entries computes the first-writer-wins merge and keeps `seen` equal to the names written. |
| `Bundle.Display` | src/bundle/mod.rs:38-42 | The `id@version` text splits at `@` into the id and the version, when neither contains `@`. |
| `Bundle.DisplayInjective` | src/bundle/mod.rs:38-42 | Two such modules display alike iff their ids and versions agree. |
| `Bundle.Partition` | src/bundle/mod.rs:50-55 | The loop returns the data packs and the resource packs, each in input order. |
| `Bundle.PartitionExact` | src/bundle/mod.rs:50-55 | Every module lands in exactly one list, the one of its kind. |
| `Bundle.CompletedCovers` | src/bundle/mod.rs:96-101 | Under a completion-order permutation, every module's outcome is delivered, and there are as many outcomes as modules. |
| `Bundle.CreatePack` | src/bundle/mod.rs:85-118 | The loop over completed fetches stops at the first failure, and otherwise builds the first-writer-wins merge in completion order. |
| `Bundle.PackFails` | src/bundle/mod.rs:101-103 | A pack is built iff every module is fetched and opened. A failure carries one module's error. |
| `Bundle.PackNames` | src/bundle/mod.rs:94-112 | A pack's names are distinct, and they are exactly the names in the modules' archives. |
| `Bundle.PackNamesOrderFree` | src/bundle/mod.rs:96-101 | The completion order changes neither whether a pack is built nor which names it holds. |
| `Bundle.PackFirstWins` | src/bundle/mod.rs:101-112 | A name takes its content from the earliest-completed archive that holds it. |
| `Bundle.EmptyPack` | src/bundle/mod.rs:85-118 | No module gives an empty pack, not an error. |
| `Bundle.CreatePacks` | src/bundle/mod.rs:67-82 | The data pack is built first, then the resource pack. Either failure is returned. |
| `Bundle.CreateBundle` | src/bundle/mod.rs:45-64 | The partition and dispatch compute the bundle specification. |
| `Bundle.BundleFails` | src/bundle/mod.rs:45-64 | A bundle is built iff every module is fetched and opened. |
| `Bundle.BundleWrapsBoth` | src/bundle/mod.rs:57-58 | With both kinds present, the bundle is exactly `data_packs.zip` (the data pack) followed by `resource_packs.zip` (the resource pack). |
| `Bundle.BundleSingleKind` | src/bundle/mod.rs:59-63 | With one kind present, the bundle is exactly that kind's pack, unwrapped, built from all the modules. Its names are distinct and are those of the archives. |
| `Bundle.EmptyBundle` | src/bundle/mod.rs:61-63 | No module gives an empty bundle. |
| `LegacyBundle.Partition` | src/bundle.rs:21-23 | `DataPack` goes to the first list and every other kind to the second. Together the two lists hold exactly the input. |
| `LegacyBundle.CreateSpecializedBundle` | src/bundle.rs:46-69 | The sequential loop stops at the first failed fetch, and otherwise builds the first-writer-wins merge in list order. |
| `LegacyBundle.CreateBundle` | src/bundle.rs:19-44 | The partition and the four-way match compute the bundle specification. |
| `LegacyBundle.SpecializedFails` | src/bundle.rs:55 | A specialized bundle is built iff every archive is fetched. Otherwise it fails with the first failing module's error, in list order. |
| `LegacyBundle.SpecializedNames` | src/bundle.rs:53-64 | A specialized bundle's names are distinct, and they are exactly those of the archives. |
| `LegacyBundle.SpecializedFirstWins` | src/bundle.rs:59-63 | The first listed module holding a name provides its content. |
| `LegacyBundle.EmptyBundle` | src/bundle.rs:42 | No module gives the error "Cannot create an empty bundle". |
| `LegacyBundle.SingleKind` | src/bundle.rs:26-27 | A single kind gives its specialized bundle, unwrapped. |
| `LegacyBundle.SwappedEntries` | src/bundle.rs:34-37 | With both kinds, the bundle is exactly `resource_packs.zip` holding the data-pack bundle, followed by `data_packs.zip` holding the resource-pack bundle. |
| `LegacyBundle.BundleFails` | src/bundle.rs:25-43 | A non-empty bundle is built iff every module's archive is fetched. |
| `Fetch.ModrinthUrl` | src/bundle/fetch.rs:97-119 | Returns the URL of the first file wanted: the `resource-pack` file of a combined module asked for as a resource pack, the primary file otherwise. Fails with "Failed to find file" iff there is none. |
| `Fetch.GithubUrl` | src/bundle/fetch.rs:128-145 | Returns the URL of the first asset named with `id-` (or `id-rp` for the resource half of a combined module). Fails with "Failed to find asset" iff there is none. |
| `Fetch.ModrinthFirst` | src/bundle/fetch.rs:77-84 | When Modrinth names a file, that file is downloaded whatever GitHub holds, and a failed download is final. |
| `Fetch.GithubFallback` | src/bundle/fetch.rs:77-82 | When Modrinth names no file, GitHub's asset is downloaded. When neither names one, the fetch fails with "Failed to fetch module from sources". |
| `Fetch.CachePathIgnoresKindAndSlug` | src/bundle/fetch.rs:49 | The cache path depends on the version and the id only. |
| `Fetch.Resolver.constructor` | src/bundle/fetch.rs:16 | A resolver starts with the given disk and no refresh recorded. |
| `Fetch.Resolver.FetchModule` | src/bundle/fetch.rs:44-69 | Returns the result, the spawned task and the new disk and refresh table that the fetch specification gives for the old state. |
| `Fetch.Resolver.CompleteRefresh` | src/bundle/fetch.rs:55-60 | The new state is the refresh specification of the old one. |
| `Fetch.CacheHit` | src/bundle/fetch.rs:50-62 | A hit returns exactly the cached bytes and changes no state. It spawns a refresh iff one is due. |
| `Fetch.CacheMiss` | src/bundle/fetch.rs:63-67 | A successful miss writes exactly the returned bytes at the path and nothing else. A failed fetch or write returns an error and changes nothing. |
| `Fetch.RepeatServesCache` | src/bundle/fetch.rs:49-67 | After a successful fetch, fetching the same id and version again, as any kind, serves the same bytes. |
| `Fetch.CooldownBoundary` | src/bundle/fetch.rs:52-54 | A refresh is not due exactly 600 s after the last one, and is due one nanosecond later. |
| `Fetch.RefreshRecords` | src/bundle/fetch.rs:56-58 | The refresh records its instant iff Modrinth names a file, whatever the ping download does. It leaves the disk alone. |
| `Fetch.RefreshSuppresses` | src/bundle/fetch.rs:52-58 | A recorded refresh keeps the path from being refreshed again within the cooldown. |
| `Download.Select` | src/api/download.rs:26-29 | With no `modules` parameter every module is kept. Otherwise a module is kept iff its id is exactly one of the comma-separated pieces, and the kept modules keep their order. |
| `Download.SelectIds` | src/api/download.rs:27-28 | Comma-free ids joined by commas select exactly the modules with those ids. |
| `Download.Download` | src/api/download.rs:18-47 | The response codes: 500 for a failed lookup, 422 for no manifest, 422 for an empty selection and 500 for a failed bundle. Otherwise 200 with `application/zip`, the `bookshelf-{version}.zip` file name and the encoded bundle. |
| `Download.DownloadSucceeds` | src/api/download.rs:34-45 | With a manifest and a non-empty selection, the bundle succeeds iff every selected archive is fetched. |

## Left out

- ZIP encoding, decoding and compression settings. These are a foreign library. Archives are entry sequences, and `zip` and `unzip` are parameters.
- Errors from reading or writing individual ZIP entries (`by_index`, `start_file`, `copy`, `finish`). Only the opening of an archive can fail in the model.
- HTTP transport, axum routing and headers beyond the two set by the handler. Status codes are numbers, and header names are lower-case.
- The disk beyond presence. A file read succeeds iff its path is a key of the disk map. A failed write leaves the disk unchanged, so a truncated or partial file is not modelled.
- Concurrency. `tokio::spawn` is a returned task, and the `FuturesUnordered` completion order is a caller-supplied permutation. Interleavings of cache reads and writes between concurrent fetches are not modelled.
- The `#[cached]` memoization, which is library behaviour. On `create_bundle` and `fetch_module_archive` (`src/bundle.rs:19`, `src/bundle.rs:71`) it expires after 60 seconds. On the Modrinth URL, the GitHub URL and the GitHub release lookups (`src/bundle/fetch.rs:91-153`) it has no expiry: a URL or release list, once found, is served for the life of the process. The model looks both up afresh on every call, so it does not capture a stale memo.
- `fetch_module_archive` in `src/bundle.rs:71-95`. It is an uninterpreted `fetch(version, module)`.
- `src/api/manifest.rs` (`fetch_manifest`) and `src/api/versions.rs`. The manifest lookup is a parameter of the download handler.
- JSON parsing and serde's exact error texts. The messages the code writes itself are reproduced. The "missing field", "invalid type" and untagged-enum texts the model produces only approximate serde's wording.
- serde's acceptance of a struct written as a JSON array, and its rejection of duplicate keys.
- Bundle.Partition, Bundle.CreateBundle: both require that no module is `Combined`, because the match at `src/bundle/mod.rs:50-55` has only a `DataPack` and a `ResourcePack` arm. The model's one `ModuleKind` also holds the `Combined` kind that `src/bundle/fetch.rs` uses, and the requires keeps that match exhaustive. v2 decoding never produces `Combined` (`Manifest.LatestKinds`).
- Bundle.CreatePack: the fetch is a function of the module alone, matching the two-argument call in `src/bundle/mod.rs:98`. The cache of `Fetch.Resolver` is not threaded through the concurrent fetches.
- Fetch.Resolver.FetchModule: a cached file is Modrinth-refreshed by pinging its URL; the model records only whether the URL was found, because the ping's outcome is ignored.
