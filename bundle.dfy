/** The concurrent bundle assembler (src/bundle/mod.rs).

    The modules are split by kind; each kind becomes one pack, and two packs
    are wrapped in an outer archive. A pack is built by fetching every
    module at once and copying the entries of each archive as its fetch
    completes, keeping only the first entry of each file name.

    Fetching and ZIP decoding are parameters: `fetch` gives the outcome of
    `fetch_module` for a module and `unzip` the outcome of reading those
    bytes as an archive. The order in which the fetches complete is chosen
    by the scheduler, so it is a parameter too: `order[k]` is the index of
    the module whose fetch completed `k`-th. `zip` encodes a pack for the
    outer archive. A bundle is the archive the response carries, before
    encoding. */
module Bundle {
  import opened Wrappers
  import opened Seqs
  import opened Strings
  import opened Archives
  import opened ManifestV2

  datatype VersionedModule = VersionedModule(id: string, slug: string, kind: ModuleKind, version: string)

  /** `Display`: the id and the version joined by `@`; splitting it at `@`
      gives both back when neither contains `@`. */
  function Display(m: VersionedModule): (r: string)
    ensures '@' !in m.id && '@' !in m.version ==> Split(r, '@') == [m.id, m.version]
  {
    SplitPair(m.id, m.version, '@');
    m.id + "@" + m.version
  }

  /** So two modules display alike only when their ids and versions agree. */
  lemma DisplayInjective(a: VersionedModule, b: VersionedModule)
    requires '@' !in a.id && '@' !in a.version && '@' !in b.id && '@' !in b.version
    ensures Display(a) == Display(b) <==> a.id == b.id && a.version == b.version
  {
  }

  predicate IsDataPack(m: VersionedModule) {
    m.kind == DataPack
  }

  predicate IsResourcePack(m: VersionedModule) {
    m.kind == ResourcePack
  }

  /** The kinds this file can match on: its `match` has an arm for data
      packs and one for resource packs only. */
  predicate Splittable(modules: seq<VersionedModule>) {
    forall i :: 0 <= i < |modules| ==> modules[i].kind != Combined
  }

  /** One more module extends the list of its kind and no other. */
  lemma PartitionStep(modules: seq<VersionedModule>, i: nat)
    requires i < |modules|
    ensures Filter(modules[..i + 1], IsDataPack)
      == if IsDataPack(modules[i]) then Filter(modules[..i], IsDataPack) + [modules[i]] else Filter(modules[..i], IsDataPack)
    ensures Filter(modules[..i + 1], IsResourcePack)
      == if IsResourcePack(modules[i]) then Filter(modules[..i], IsResourcePack) + [modules[i]] else Filter(modules[..i], IsResourcePack)
  {
    assert modules[..i + 1] == modules[..i] + [modules[i]];
    FilterSnoc(modules[..i], modules[i], IsDataPack);
    FilterSnoc(modules[..i], modules[i], IsResourcePack);
  }

  /** The `for` loop that pushes each module onto the list of its kind. */
  method Partition(modules: seq<VersionedModule>) returns (data: seq<VersionedModule>, resource: seq<VersionedModule>)
    requires Splittable(modules)
    ensures data == Filter(modules, IsDataPack)
    ensures resource == Filter(modules, IsResourcePack)
  {
    data, resource := [], [];
    for i := 0 to |modules|
      invariant data == Filter(modules[..i], IsDataPack)
      invariant resource == Filter(modules[..i], IsResourcePack)
    {
      var m := modules[i];
      PartitionStep(modules, i);
      match m.kind {
        case DataPack => data := data + [m];
        case ResourcePack => resource := resource + [m];
      }
    }
    assert modules[..|modules|] == modules;
  }

  /** Every module lands in exactly one list, the one of its kind; each list
      keeps the relative order of the input (it is a `Filter`). */
  lemma PartitionExact(modules: seq<VersionedModule>)
    requires Splittable(modules)
    ensures multiset(Filter(modules, IsDataPack)) + multiset(Filter(modules, IsResourcePack)) == multiset(modules)
    ensures forall m :: m in Filter(modules, IsDataPack) ==> m.kind == DataPack
    ensures forall m :: m in Filter(modules, IsResourcePack) ==> m.kind == ResourcePack
  {
    FilterSplit(modules, IsDataPack, IsResourcePack);
  }

  /** `order` lists each of the `n` tasks exactly once. */
  predicate IsPermutation(order: seq<nat>, n: nat) {
    && |order| == n
    && (forall k :: 0 <= k < |order| ==> order[k] < n)
    && (forall i :: 0 <= i < n ==> i in order)
  }

  /** Fetching a module and opening what was fetched as an archive. */
  function Outcome(fetch: VersionedModule -> Result<Bytes, string>,
                   unzip: Bytes -> Result<Archive, string>,
                   m: VersionedModule): Result<Archive, string> {
    match fetch(m) {
      case Err(e) => Err(e)
      case Ok(bytes) => unzip(bytes)
    }
  }

  /** The outcomes in the order the fetches complete. */
  function Completed(modules: seq<VersionedModule>,
                     fetch: VersionedModule -> Result<Bytes, string>,
                     unzip: Bytes -> Result<Archive, string>,
                     order: seq<nat>): (r: seq<Result<Archive, string>>)
    requires forall k :: 0 <= k < |order| ==> order[k] < |modules|
    ensures |r| == |order|
    ensures forall k :: 0 <= k < |order| ==> r[k] == Outcome(fetch, unzip, modules[order[k]])
  {
    seq(|order|, k requires 0 <= k < |order| => Outcome(fetch, unzip, modules[order[k]]))
  }

  /** Draining the stream completes every module: the completed outcomes
      are as many as the modules, and each module's outcome is among them. */
  lemma CompletedCovers(modules: seq<VersionedModule>,
                        fetch: VersionedModule -> Result<Bytes, string>,
                        unzip: Bytes -> Result<Archive, string>,
                        order: seq<nat>)
    requires IsPermutation(order, |modules|)
    ensures |Completed(modules, fetch, unzip, order)| == |modules|
    ensures forall i :: 0 <= i < |modules| ==> Outcome(fetch, unzip, modules[i]) in Completed(modules, fetch, unzip, order)
  {
    var completed := Completed(modules, fetch, unzip, order);
    forall i | 0 <= i < |modules|
      ensures Outcome(fetch, unzip, modules[i]) in completed
    {
      assert i in order;
      var k :| 0 <= k < |order| && order[k] == i;
      assert completed[k] == Outcome(fetch, unzip, modules[i]);
    }
  }

  /** The pack `create_pack` builds for one completion order. */
  function PackSpec(modules: seq<VersionedModule>,
                    fetch: VersionedModule -> Result<Bytes, string>,
                    unzip: Bytes -> Result<Archive, string>,
                    order: seq<nat>): Result<Archive, string>
    requires IsPermutation(order, |modules|)
  {
    Merge(Completed(modules, fetch, unzip, order))
  }

  /** `create_pack`: take the completed fetches one by one, give up on the
      first failure, and copy the entries not seen yet. */
  method CreatePack(modules: seq<VersionedModule>,
                    fetch: VersionedModule -> Result<Bytes, string>,
                    unzip: Bytes -> Result<Archive, string>,
                    order: seq<nat>) returns (r: Result<Archive, string>)
    requires IsPermutation(order, |modules|)
    ensures r == PackSpec(modules, fetch, unzip, order)
  {
    ghost var completed := Completed(modules, fetch, unzip, order);
    var seen: set<string> := {};
    var out: Archive := [];
    var k := 0;
    while k < |order|
      invariant 0 <= k <= |order|
      invariant seen == Names(out)
      invariant MergeFrom(out, completed[k..]) == PackSpec(modules, fetch, unzip, order)
    {
      assert completed[k..][0] == completed[k] && completed[k..][1..] == completed[k + 1..];
      var data := fetch(modules[order[k]]);
      if data.Err? {
        return Err(data.error);
      }
      var archive := unzip(data.value);
      if archive.Err? {
        return Err(archive.error);
      }
      seen, out := CopyNew(seen, out, archive.value);
      k := k + 1;
    }
    return Ok(out);
  }

  /** A pack exists iff every module was fetched and opened; a failed pack
      carries the error of one of its modules. */
  lemma PackFails(modules: seq<VersionedModule>,
                  fetch: VersionedModule -> Result<Bytes, string>,
                  unzip: Bytes -> Result<Archive, string>,
                  order: seq<nat>)
    requires IsPermutation(order, |modules|)
    ensures var r := PackSpec(modules, fetch, unzip, order);
      && (r.Ok? <==> forall i :: 0 <= i < |modules| ==> Outcome(fetch, unzip, modules[i]).Ok?)
      && (r.Err? ==> exists i :: 0 <= i < |modules| && Outcome(fetch, unzip, modules[i]) == Err(r.error))
  {
    var completed := Completed(modules, fetch, unzip, order);
    MergeProperties(completed);
    if forall k :: 0 <= k < |completed| ==> completed[k].Ok? {
      forall i | 0 <= i < |modules|
        ensures Outcome(fetch, unzip, modules[i]).Ok?
      {
        assert i in order;
        var k :| 0 <= k < |order| && order[k] == i;
        assert completed[k] == Outcome(fetch, unzip, modules[i]);
      }
    }
  }

  /** The names of a pack are pairwise distinct and are exactly the names
      found in the modules' archives, whatever the completion order. */
  lemma PackNames(modules: seq<VersionedModule>,
                  fetch: VersionedModule -> Result<Bytes, string>,
                  unzip: Bytes -> Result<Archive, string>,
                  order: seq<nat>)
    requires IsPermutation(order, |modules|)
    requires PackSpec(modules, fetch, unzip, order).Ok?
    ensures DistinctNames(PackSpec(modules, fetch, unzip, order).value)
    ensures forall name :: name in Names(PackSpec(modules, fetch, unzip, order).value) <==>
      exists i :: 0 <= i < |modules| && Outcome(fetch, unzip, modules[i]).Ok?
        && name in Names(Outcome(fetch, unzip, modules[i]).value)
  {
    var completed := Completed(modules, fetch, unzip, order);
    MergeProperties(completed);
    var pack := PackSpec(modules, fetch, unzip, order).value;
    forall name
      ensures name in Names(pack) <==>
        exists i :: 0 <= i < |modules| && Outcome(fetch, unzip, modules[i]).Ok?
          && name in Names(Outcome(fetch, unzip, modules[i]).value)
    {
      if exists i :: 0 <= i < |modules| && Outcome(fetch, unzip, modules[i]).Ok?
          && name in Names(Outcome(fetch, unzip, modules[i]).value) {
        var i :| 0 <= i < |modules| && Outcome(fetch, unzip, modules[i]).Ok?
          && name in Names(Outcome(fetch, unzip, modules[i]).value);
        assert i in order;
        var k :| 0 <= k < |order| && order[k] == i;
        assert completed[k] == Outcome(fetch, unzip, modules[i]);
      }
    }
  }

  /** The completion order does not change which files a pack holds. */
  lemma PackNamesOrderFree(modules: seq<VersionedModule>,
                           fetch: VersionedModule -> Result<Bytes, string>,
                           unzip: Bytes -> Result<Archive, string>,
                           order1: seq<nat>, order2: seq<nat>)
    requires IsPermutation(order1, |modules|) && IsPermutation(order2, |modules|)
    requires PackSpec(modules, fetch, unzip, order1).Ok?
    ensures PackSpec(modules, fetch, unzip, order2).Ok?
    ensures Names(PackSpec(modules, fetch, unzip, order1).value) == Names(PackSpec(modules, fetch, unzip, order2).value)
  {
    PackFails(modules, fetch, unzip, order1);
    PackFails(modules, fetch, unzip, order2);
    PackNames(modules, fetch, unzip, order1);
    PackNames(modules, fetch, unzip, order2);
  }

  /** First completed wins: a file name is read from the archive of the
      earliest-completed module that holds it. */
  lemma PackFirstWins(modules: seq<VersionedModule>,
                      fetch: VersionedModule -> Result<Bytes, string>,
                      unzip: Bytes -> Result<Archive, string>,
                      order: seq<nat>, k: nat, name: string)
    requires IsPermutation(order, |modules|)
    requires PackSpec(modules, fetch, unzip, order).Ok?
    requires k < |order|
    requires Outcome(fetch, unzip, modules[order[k]]).Ok?
    requires name in Names(Outcome(fetch, unzip, modules[order[k]]).value)
    requires forall j :: 0 <= j < k && Outcome(fetch, unzip, modules[order[j]]).Ok? ==>
      name !in Names(Outcome(fetch, unzip, modules[order[j]]).value)
    ensures Lookup(PackSpec(modules, fetch, unzip, order).value, name)
      == Lookup(Outcome(fetch, unzip, modules[order[k]]).value, name)
  {
    var completed := Completed(modules, fetch, unzip, order);
    MergeProperties(completed);
    var archives := Sequence(completed).value;
    forall j | 0 <= j < k
      ensures name !in Names(archives[j])
    {
      assert completed[j] == Ok(archives[j]);
    }
    assert completed[k] == Ok(archives[k]);
    LookupConcat(archives, k, name);
  }

  /** With no module, the pack is empty rather than an error. */
  lemma EmptyPack(fetch: VersionedModule -> Result<Bytes, string>, unzip: Bytes -> Result<Archive, string>)
    ensures PackSpec([], fetch, unzip, []) == Ok([])
  {
  }

  const DATA_PACKS_ENTRY := "data_packs.zip"
  const RESOURCE_PACKS_ENTRY := "resource_packs.zip"

  /** `create_packs`: the data pack is built (and may fail) first, then the
      resource pack; the outer archive holds the two encoded packs. */
  function PacksSpec(data: seq<VersionedModule>, resource: seq<VersionedModule>,
                     fetch: VersionedModule -> Result<Bytes, string>,
                     unzip: Bytes -> Result<Archive, string>,
                     dataOrder: seq<nat>, resourceOrder: seq<nat>,
                     zip: Archive -> Bytes): Result<Archive, string>
    requires IsPermutation(dataOrder, |data|) && IsPermutation(resourceOrder, |resource|)
  {
    match PackSpec(data, fetch, unzip, dataOrder) {
      case Err(e) => Err(e)
      case Ok(d) =>
        match PackSpec(resource, fetch, unzip, resourceOrder) {
          case Err(e) => Err(e)
          case Ok(p) => Ok([Entry(DATA_PACKS_ENTRY, zip(d)), Entry(RESOURCE_PACKS_ENTRY, zip(p))])
        }
    }
  }

  method CreatePacks(data: seq<VersionedModule>, resource: seq<VersionedModule>,
                     fetch: VersionedModule -> Result<Bytes, string>,
                     unzip: Bytes -> Result<Archive, string>,
                     dataOrder: seq<nat>, resourceOrder: seq<nat>,
                     zip: Archive -> Bytes) returns (r: Result<Archive, string>)
    requires IsPermutation(dataOrder, |data|) && IsPermutation(resourceOrder, |resource|)
    ensures r == PacksSpec(data, resource, fetch, unzip, dataOrder, resourceOrder, zip)
  {
    var d := CreatePack(data, fetch, unzip, dataOrder);
    if d.Err? {
      return Err(d.error);
    }
    var p := CreatePack(resource, fetch, unzip, resourceOrder);
    if p.Err? {
      return Err(p.error);
    }
    return Ok([Entry(DATA_PACKS_ENTRY, zip(d.value)), Entry(RESOURCE_PACKS_ENTRY, zip(p.value))]);
  }

  /** The completion orders the scheduler may pick for the two lists. */
  predicate Schedules(modules: seq<VersionedModule>, dataOrder: seq<nat>, resourceOrder: seq<nat>) {
    && IsPermutation(dataOrder, |Filter(modules, IsDataPack)|)
    && IsPermutation(resourceOrder, |Filter(modules, IsResourcePack)|)
  }

  /** `create_bundle`: both kinds give the wrapped pair, one kind gives its
      pack alone, and no module gives the (empty) resource pack. */
  function BundleSpec(modules: seq<VersionedModule>,
                      fetch: VersionedModule -> Result<Bytes, string>,
                      unzip: Bytes -> Result<Archive, string>,
                      dataOrder: seq<nat>, resourceOrder: seq<nat>,
                      zip: Archive -> Bytes): Result<Archive, string>
    requires Schedules(modules, dataOrder, resourceOrder)
  {
    var data := Filter(modules, IsDataPack);
    var resource := Filter(modules, IsResourcePack);
    if data != [] && resource != [] then PacksSpec(data, resource, fetch, unzip, dataOrder, resourceOrder, zip)
    else if data != [] then PackSpec(data, fetch, unzip, dataOrder)
    else PackSpec(resource, fetch, unzip, resourceOrder)
  }

  method CreateBundle(modules: seq<VersionedModule>,
                      fetch: VersionedModule -> Result<Bytes, string>,
                      unzip: Bytes -> Result<Archive, string>,
                      dataOrder: seq<nat>, resourceOrder: seq<nat>,
                      zip: Archive -> Bytes) returns (r: Result<Archive, string>)
    requires Splittable(modules)
    requires Schedules(modules, dataOrder, resourceOrder)
    ensures r == BundleSpec(modules, fetch, unzip, dataOrder, resourceOrder, zip)
  {
    var data, resource := Partition(modules);
    if data != [] && resource != [] {
      r := CreatePacks(data, resource, fetch, unzip, dataOrder, resourceOrder, zip);
    } else if data != [] {
      r := CreatePack(data, fetch, unzip, dataOrder);
    } else {
      r := CreatePack(resource, fetch, unzip, resourceOrder);
    }
  }

  /** Every module was fetched and opened. */
  predicate AllOk(modules: seq<VersionedModule>,
                  fetch: VersionedModule -> Result<Bytes, string>,
                  unzip: Bytes -> Result<Archive, string>) {
    forall i :: 0 <= i < |modules| ==> Outcome(fetch, unzip, modules[i]).Ok?
  }

  /** Every module was fetched and opened iff every data pack and every
      resource pack was. */
  lemma SplitOk(modules: seq<VersionedModule>,
                fetch: VersionedModule -> Result<Bytes, string>,
                unzip: Bytes -> Result<Archive, string>)
    requires Splittable(modules)
    ensures AllOk(modules, fetch, unzip)
      <==> AllOk(Filter(modules, IsDataPack), fetch, unzip) && AllOk(Filter(modules, IsResourcePack), fetch, unzip)
  {
    if !AllOk(modules, fetch, unzip) {
      var i :| 0 <= i < |modules| && Outcome(fetch, unzip, modules[i]).Err?;
      var p := if IsDataPack(modules[i]) then IsDataPack else IsResourcePack;
      assert p(modules[i]);
      assert modules[i] in Filter(modules, p);
    }
  }

  /** The success half of `PackFails`, in terms of `AllOk`. */
  lemma PackOk(modules: seq<VersionedModule>,
               fetch: VersionedModule -> Result<Bytes, string>,
               unzip: Bytes -> Result<Archive, string>,
               order: seq<nat>)
    requires IsPermutation(order, |modules|)
    ensures PackSpec(modules, fetch, unzip, order).Ok? <==> AllOk(modules, fetch, unzip)
  {
    PackFails(modules, fetch, unzip, order);
  }

  /** A bundle exists iff every module was fetched and opened. */
  lemma BundleFails(modules: seq<VersionedModule>,
                    fetch: VersionedModule -> Result<Bytes, string>,
                    unzip: Bytes -> Result<Archive, string>,
                    dataOrder: seq<nat>, resourceOrder: seq<nat>,
                    zip: Archive -> Bytes)
    requires Splittable(modules)
    requires Schedules(modules, dataOrder, resourceOrder)
    ensures BundleSpec(modules, fetch, unzip, dataOrder, resourceOrder, zip).Ok?
      <==> forall i :: 0 <= i < |modules| ==> Outcome(fetch, unzip, modules[i]).Ok?
  {
    var data := Filter(modules, IsDataPack);
    var resource := Filter(modules, IsResourcePack);
    SplitOk(modules, fetch, unzip);
    PackOk(data, fetch, unzip, dataOrder);
    PackOk(resource, fetch, unzip, resourceOrder);
    if data != [] && resource != [] {
      assert BundleSpec(modules, fetch, unzip, dataOrder, resourceOrder, zip)
        == PacksSpec(data, resource, fetch, unzip, dataOrder, resourceOrder, zip);
    } else if data != [] {
      assert BundleSpec(modules, fetch, unzip, dataOrder, resourceOrder, zip) == PackSpec(data, fetch, unzip, dataOrder);
    } else {
      assert BundleSpec(modules, fetch, unzip, dataOrder, resourceOrder, zip) == PackSpec(resource, fetch, unzip, resourceOrder);
    }
  }

  /** With both kinds present, the bundle is exactly two entries: the data
      pack under `data_packs.zip`, then the resource pack under
      `resource_packs.zip`. */
  lemma BundleWrapsBoth(modules: seq<VersionedModule>,
                        fetch: VersionedModule -> Result<Bytes, string>,
                        unzip: Bytes -> Result<Archive, string>,
                        dataOrder: seq<nat>, resourceOrder: seq<nat>,
                        zip: Archive -> Bytes)
    requires Schedules(modules, dataOrder, resourceOrder)
    requires Filter(modules, IsDataPack) != [] && Filter(modules, IsResourcePack) != []
    requires BundleSpec(modules, fetch, unzip, dataOrder, resourceOrder, zip).Ok?
    ensures var b := BundleSpec(modules, fetch, unzip, dataOrder, resourceOrder, zip).value;
      var d := PackSpec(Filter(modules, IsDataPack), fetch, unzip, dataOrder);
      var p := PackSpec(Filter(modules, IsResourcePack), fetch, unzip, resourceOrder);
      && d.Ok? && p.Ok?
      && |b| == 2 && DistinctNames(b)
      && b[0] == Entry(DATA_PACKS_ENTRY, zip(d.value))
      && b[1] == Entry(RESOURCE_PACKS_ENTRY, zip(p.value))
  {
  }

  /** With a single kind present, its pack is the bundle, unwrapped; its
      files are those of the modules' archives, each once. */
  lemma BundleSingleKind(modules: seq<VersionedModule>,
                         fetch: VersionedModule -> Result<Bytes, string>,
                         unzip: Bytes -> Result<Archive, string>,
                         dataOrder: seq<nat>, resourceOrder: seq<nat>,
                         zip: Archive -> Bytes)
    requires Splittable(modules)
    requires Schedules(modules, dataOrder, resourceOrder)
    requires modules != []
    requires forall i :: 0 <= i < |modules| ==> modules[i].kind == modules[0].kind
    ensures modules[0].kind == DataPack ==>
      && Filter(modules, IsDataPack) == modules
      && BundleSpec(modules, fetch, unzip, dataOrder, resourceOrder, zip)
         == PackSpec(Filter(modules, IsDataPack), fetch, unzip, dataOrder)
    ensures modules[0].kind != DataPack ==>
      && Filter(modules, IsResourcePack) == modules
      && BundleSpec(modules, fetch, unzip, dataOrder, resourceOrder, zip)
         == PackSpec(Filter(modules, IsResourcePack), fetch, unzip, resourceOrder)
    ensures var b := BundleSpec(modules, fetch, unzip, dataOrder, resourceOrder, zip);
      b.Ok? ==>
        && DistinctNames(b.value)
        && forall name :: name in Names(b.value) <==>
          exists i :: 0 <= i < |modules| && Outcome(fetch, unzip, modules[i]).Ok?
            && name in Names(Outcome(fetch, unzip, modules[i]).value)
  {
    if modules[0].kind == DataPack {
      FilterAll(modules, IsDataPack);
      FilterNone(modules, IsResourcePack);
      if BundleSpec(modules, fetch, unzip, dataOrder, resourceOrder, zip).Ok? {
        PackNames(modules, fetch, unzip, dataOrder);
      }
    } else {
      FilterAll(modules, IsResourcePack);
      FilterNone(modules, IsDataPack);
      if BundleSpec(modules, fetch, unzip, dataOrder, resourceOrder, zip).Ok? {
        PackNames(modules, fetch, unzip, resourceOrder);
      }
    }
  }

  /** No module at all gives an empty bundle, not an error. */
  lemma EmptyBundle(fetch: VersionedModule -> Result<Bytes, string>,
                    unzip: Bytes -> Result<Archive, string>,
                    zip: Archive -> Bytes)
    ensures BundleSpec([], fetch, unzip, [], [], zip) == Ok([])
  {
  }
}
