/** Archives as the bundlers see them: ordered lists of named entries. ZIP
    encoding is not modelled; an archive is the sequence of (file name,
    bytes) pairs it holds, in index order.

    The bundlers merge many archives into one under a first-writer-wins rule
    keyed by file name. `Absorb` is the specification of that merge, and
    `CopyNew` is the loop both bundlers run over the entries of one
    archive (src/bundle/mod.rs:105-112, src/bundle.rs:56-64). */
module Archives {
  import opened Wrappers
  import opened Seqs

  newtype byte = x: int | 0 <= x < 256

  type Bytes = seq<byte>

  datatype Entry = Entry(name: string, data: Bytes)

  type Archive = seq<Entry>

  /** The file names an archive holds. */
  function Names(a: Archive): set<string> {
    set i | 0 <= i < |a| :: a[i].name
  }

  /** No two entries share a file name. */
  predicate DistinctNames(a: Archive) {
    forall i, j :: 0 <= i < j < |a| ==> a[i].name != a[j].name
  }

  /** Reading a file by name: the content of its first entry. */
  function Lookup(a: Archive, name: string): (r: Option<Bytes>)
    ensures r.Some? <==> name in Names(a)
    ensures r.Some? ==> exists i ::
      && 0 <= i < |a| && a[i] == Entry(name, r.value)
      && forall j :: 0 <= j < i ==> a[j].name != name
  {
    if a == [] then None
    else if a[0].name == name then Some(a[0].data)
    else
      var r := Lookup(a[1..], name);
      assert Names(a) == {a[0].name} + Names(a[1..]) by {
        assert forall i :: 0 < i < |a| ==> a[i] == a[1..][i - 1];
      }
      if r.Some? then
        var i :| 0 <= i < |a[1..]| && a[1..][i] == Entry(name, r.value)
          && forall j :: 0 <= j < i ==> a[1..][j].name != name;
        assert a[i + 1] == a[1..][i];
        r
      else r
  }

  /** The archives of a list, one after the other. */
  function Concat(archives: seq<Archive>): Archive {
    if archives == [] then [] else archives[0] + Concat(archives[1..])
  }

  /** Copying the entries of `e`, in order, into `acc`, skipping every entry
      whose name was already written. */
  function Absorb(acc: Archive, e: Archive): Archive
    decreases |e|
  {
    if e == [] then acc
    else Absorb(if e[0].name in Names(acc) then acc else acc + [e[0]], e[1..])
  }

  /** Merging the outcomes of fetching archives, in the order given: stop at
      the first failure, otherwise absorb each archive in turn. */
  function MergeFrom(acc: Archive, rs: seq<Result<Archive, string>>): Result<Archive, string>
    decreases |rs|
  {
    if rs == [] then Ok(acc)
    else if rs[0].Err? then Err(rs[0].error)
    else MergeFrom(Absorb(acc, rs[0].value), rs[1..])
  }

  /** A pack built from nothing. */
  function Merge(rs: seq<Result<Archive, string>>): Result<Archive, string> {
    MergeFrom([], rs)
  }

  lemma NamesCons(a: Archive)
    requires a != []
    ensures Names(a) == {a[0].name} + Names(a[1..])
  {
    assert forall i :: 0 < i < |a| ==> a[i] == a[1..][i - 1];
  }

  lemma NamesAppend(a: Archive, b: Archive)
    ensures Names(a + b) == Names(a) + Names(b)
  {
    forall n | n in Names(a + b)
      ensures n in Names(a) + Names(b)
    {
      var i :| 0 <= i < |a + b| && (a + b)[i].name == n;
      if i < |a| {
        assert a[i] == (a + b)[i];
      } else {
        assert b[i - |a|] == (a + b)[i];
      }
    }
    forall n | n in Names(a)
      ensures n in Names(a + b)
    {
      var i :| 0 <= i < |a| && a[i].name == n;
      assert (a + b)[i] == a[i];
    }
    forall n | n in Names(b)
      ensures n in Names(a + b)
    {
      var i :| 0 <= i < |b| && b[i].name == n;
      assert (a + b)[|a| + i] == b[i];
    }
  }

  lemma NamesSnoc(a: Archive, e: Entry)
    ensures Names(a + [e]) == Names(a) + {e.name}
  {
    NamesAppend(a, [e]);
    assert [e][0] == e;
    assert Names([e]) == {e.name};
  }

  /** Looking a name up in two archives one after the other. */
  lemma {:induction false} LookupAppend(a: Archive, b: Archive, name: string)
    ensures Lookup(a + b, name) == if name in Names(a) then Lookup(a, name) else Lookup(b, name)
  {
    if a == [] {
      assert a + b == b;
    } else {
      assert (a + b)[0] == a[0];
      assert (a + b)[1..] == a[1..] + b;
      NamesCons(a);
      LookupAppend(a[1..], b, name);
    }
  }

  /** Absorbing two archives is absorbing the first and then the second. */
  lemma {:induction false} AbsorbAppend(acc: Archive, a: Archive, b: Archive)
    ensures Absorb(acc, a + b) == Absorb(Absorb(acc, a), b)
    decreases |a|
  {
    if a == [] {
      assert a + b == b;
    } else {
      assert (a + b)[0] == a[0];
      assert (a + b)[1..] == a[1..] + b;
      AbsorbAppend(if a[0].name in Names(acc) then acc else acc + [a[0]], a[1..], b);
    }
  }

  /** Absorbing never creates a duplicate name. */
  lemma {:induction false} AbsorbDistinct(acc: Archive, e: Archive)
    requires DistinctNames(acc)
    ensures DistinctNames(Absorb(acc, e))
    decreases |e|
  {
    if e != [] {
      var next := if e[0].name in Names(acc) then acc else acc + [e[0]];
      if e[0].name !in Names(acc) {
        forall i, j | 0 <= i < j < |next|
          ensures next[i].name != next[j].name
        {
          if j == |acc| {
            assert next[i] == acc[i];
          }
        }
      }
      AbsorbDistinct(next, e[1..]);
    }
  }

  /** The names written are the names already there and those offered. */
  lemma {:induction false} AbsorbNames(acc: Archive, e: Archive)
    ensures Names(Absorb(acc, e)) == Names(acc) + Names(e)
    decreases |e|
  {
    if e != [] {
      var next := if e[0].name in Names(acc) then acc else acc + [e[0]];
      NamesSnoc(acc, e[0]);
      NamesCons(e);
      AbsorbNames(next, e[1..]);
    }
  }

  /** First writer wins: a name already written keeps its content, and a new
      name gets the content of its first entry in `e`. */
  lemma {:induction false} AbsorbLookup(acc: Archive, e: Archive, name: string)
    ensures Lookup(Absorb(acc, e), name)
      == if name in Names(acc) then Lookup(acc, name) else Lookup(e, name)
    decreases |e|
  {
    if e != [] {
      NamesCons(e);
      if e[0].name in Names(acc) {
        AbsorbLookup(acc, e[1..], name);
      } else {
        var next := acc + [e[0]];
        AbsorbLookup(next, e[1..], name);
        NamesSnoc(acc, e[0]);
        LookupAppend(acc, [e[0]], name);
      }
    }
  }

  /** Entries with fresh, distinct names are all copied, in order. */
  lemma {:induction false} AbsorbFresh(acc: Archive, e: Archive)
    requires DistinctNames(e)
    requires Names(acc) !! Names(e)
    ensures Absorb(acc, e) == acc + e
    decreases |e|
  {
    if e == [] {
      assert acc + e == acc;
    } else {
      NamesCons(e);
      NamesSnoc(acc, e[0]);
      assert e[0].name !in Names(e[1..]) by {
        forall i | 0 <= i < |e[1..]|
          ensures e[1..][i].name != e[0].name
        {
          assert e[1..][i] == e[i + 1];
        }
      }
      assert DistinctNames(e[1..]) by {
        forall i, j | 0 <= i < j < |e[1..]|
          ensures e[1..][i].name != e[1..][j].name
        {
          assert e[1..][i] == e[i + 1] && e[1..][j] == e[j + 1];
        }
      }
      AbsorbFresh(acc + [e[0]], e[1..]);
      assert acc + [e[0]] + e[1..] == acc + e;
    }
  }

  /** Deduplicating is idempotent: a merged archive merges to itself. */
  lemma AbsorbIdempotent(e: Archive)
    ensures Absorb([], Absorb([], e)) == Absorb([], e)
  {
    assert DistinctNames([]);
    AbsorbDistinct([], e);
    assert Names([]) == {};
    AbsorbFresh([], Absorb([], e));
  }

  /** A name occurs in a concatenation iff it occurs in one of the parts. */
  lemma {:induction false} NamesConcat(archives: seq<Archive>, name: string)
    ensures name in Names(Concat(archives))
      <==> exists k :: 0 <= k < |archives| && name in Names(archives[k])
  {
    if archives != [] {
      NamesAppend(archives[0], Concat(archives[1..]));
      NamesConcat(archives[1..], name);
      if name in Names(Concat(archives[1..])) {
        var k :| 0 <= k < |archives[1..]| && name in Names(archives[1..][k]);
        assert archives[k + 1] == archives[1..][k];
      }
      if exists k :: 0 <= k < |archives| && name in Names(archives[k]) {
        var k :| 0 <= k < |archives| && name in Names(archives[k]);
        if k > 0 {
          assert archives[1..][k - 1] == archives[k];
        }
      }
    }
  }

  /** In a concatenation, a name first found in part `k` is read from part `k`. */
  lemma {:induction false} LookupConcat(archives: seq<Archive>, k: nat, name: string)
    requires k < |archives| && name in Names(archives[k])
    requires forall j :: 0 <= j < k ==> name !in Names(archives[j])
    ensures Lookup(Concat(archives), name) == Lookup(archives[k], name)
  {
    LookupAppend(archives[0], Concat(archives[1..]), name);
    if k > 0 {
      assert name !in Names(archives[0]);
      forall j | 0 <= j < k - 1
        ensures name !in Names(archives[1..][j])
      {
        assert archives[1..][j] == archives[j + 1];
      }
      assert archives[1..][k - 1] == archives[k];
      LookupConcat(archives[1..], k - 1, name);
    }
  }

  /** Merging fails with the first failure in order, and otherwise absorbs
      the concatenation of all the archives. */
  lemma {:induction false} MergeFromSequence(acc: Archive, rs: seq<Result<Archive, string>>)
    ensures MergeFrom(acc, rs) == match Sequence(rs) {
      case Ok(archives) => Ok(Absorb(acc, Concat(archives)))
      case Err(e) => Err(e)
    }
    decreases |rs|
  {
    if rs != [] && rs[0].Ok? {
      var v := rs[0].value;
      MergeFromSequence(Absorb(acc, v), rs[1..]);
      match Sequence(rs[1..]) {
        case Err(_) =>
        case Ok(vs) =>
          assert Sequence(rs) == Ok([v] + vs);
          assert ([v] + vs)[1..] == vs;
          AbsorbAppend(acc, v, Concat(vs));
      }
    }
  }

  /** What a merged pack is: it exists iff every fetch succeeded, otherwise
      it is the first failure in order; its names are pairwise distinct and
      are exactly the names of all the archives; and each name has the
      content of its first occurrence, archive by archive and then entry by
      entry. */
  lemma MergeProperties(rs: seq<Result<Archive, string>>)
    ensures Merge(rs).Ok? <==> forall k :: 0 <= k < |rs| ==> rs[k].Ok?
    ensures Merge(rs).Err? ==> exists k ::
      && 0 <= k < |rs| && rs[k] == Err(Merge(rs).error)
      && forall j :: 0 <= j < k ==> rs[j].Ok?
    ensures Merge(rs).Ok? ==> DistinctNames(Merge(rs).value)
    ensures Merge(rs).Ok? ==> forall name ::
      (name in Names(Merge(rs).value) <==> exists k :: 0 <= k < |rs| && name in Names(rs[k].value))
    ensures Merge(rs).Ok? ==> forall name ::
      Lookup(Merge(rs).value, name) == Lookup(Concat(Sequence(rs).value), name)
  {
    MergeFromSequence([], rs);
    if Merge(rs).Ok? {
      var archives := Sequence(rs).value;
      var m := Merge(rs).value;
      assert m == Absorb([], Concat(archives));
      assert Names([]) == {};
      assert DistinctNames([]);
      AbsorbDistinct([], Concat(archives));
      AbsorbNames([], Concat(archives));
      forall name
        ensures name in Names(m) <==> exists k :: 0 <= k < |rs| && name in Names(rs[k].value)
      {
        NamesConcat(archives, name);
        if name in Names(m) {
          var k :| 0 <= k < |archives| && name in Names(archives[k]);
          assert rs[k].value == archives[k];
        }
      }
      forall name
        ensures Lookup(m, name) == Lookup(Concat(archives), name)
      {
        AbsorbLookup([], Concat(archives), name);
      }
    }
  }

  /** The loop over the entries of one archive: copy each entry whose name
      has not been seen yet and record the name. */
  method CopyNew(seen: set<string>, out: Archive, archive: Archive)
    returns (seen': set<string>, out': Archive)
    requires seen == Names(out)
    ensures out' == Absorb(out, archive)
    ensures seen' == Names(out')
  {
    seen', out' := seen, out;
    var i := 0;
    while i < |archive|
      invariant 0 <= i <= |archive|
      invariant seen' == Names(out')
      invariant Absorb(out', archive[i..]) == Absorb(out, archive)
    {
      var entry := archive[i];
      assert archive[i..][0] == entry && archive[i..][1..] == archive[i + 1..];
      if entry.name !in seen' {
        NamesSnoc(out', entry);
        seen' := seen' + {entry.name};
        out' := out' + [entry];
      }
      i := i + 1;
    }
  }
}
