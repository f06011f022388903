/** The handful of `str` operations the service uses: `starts_with`,
    `ends_with`, `contains`, `replace` and `split`. Strings are `seq<char>`. */
module Strings {

  /** `str::starts_with`. */
  predicate StartsWith(s: string, prefix: string) {
    |prefix| <= |s| && s[..|prefix|] == prefix
  }

  /** `str::ends_with`. */
  predicate EndsWith(s: string, suffix: string) {
    |suffix| <= |s| && s[|s| - |suffix|..] == suffix
  }

  /** `str::contains`: `p` occurs at some position of `s`. */
  predicate Contains(s: string, p: string)
    decreases |s|
  {
    StartsWith(s, p) || (s != [] && Contains(s[1..], p))
  }

  /** `str::replace(from, to)` for a non-empty pattern: scan from the left
      and replace every non-overlapping occurrence of `from` by `to`. */
  function Replace(s: string, from: string, to: string): string
    requires |from| > 0
    decreases |s|
  {
    if s == [] then []
    else if StartsWith(s, from) then to + Replace(s[|from|..], from, to)
    else [s[0]] + Replace(s[1..], from, to)
  }

  /** A string without the pattern is left as it is. */
  lemma {:induction false} ReplaceAbsent(s: string, from: string, to: string)
    requires |from| > 0 && !Contains(s, from)
    ensures Replace(s, from, to) == s
    decreases |s|
  {
    if s != [] {
      ReplaceAbsent(s[1..], from, to);
      assert s == [s[0]] + s[1..];
    }
  }

  /** A leading pattern is written as the replacement, and nothing after it
      changes when the rest holds no further occurrence. */
  lemma ReplaceLeading(from: string, rest: string, to: string)
    requires |from| > 0 && !Contains(rest, from)
    ensures Replace(from + rest, from, to) == to + rest
  {
    var s := from + rest;
    assert s[..|from|] == from;
    assert s[|from|..] == rest;
    ReplaceAbsent(rest, from, to);
  }

  /** `a` and `b` differ at some position both of them have. */
  ghost predicate Incompatible(a: string, b: string) {
    exists i :: 0 <= i < |a| && i < |b| && a[i] != b[i]
  }

  /** No occurrence of `from` can overlap an inserted copy of `to`: neither
      a suffix of `to` nor `to` after a proper prefix of `from` lines up
      with `from`. */
  ghost predicate NonOverlapping(from: string, to: string) {
    && |from| > 0 && |to| > 0
    && (forall k :: 0 <= k < |to| ==> Incompatible(to[k..], from))
    && (forall j :: 1 <= j < |from| ==> Incompatible(from[j..], to))
  }

  /** If a replaced string starts with a suffix of the pattern, so did the
      original, and the original did not start with the whole pattern. */
  lemma {:induction false} ReplacePrefix(s: string, from: string, to: string, j: nat)
    requires NonOverlapping(from, to) && j < |from|
    ensures StartsWith(Replace(s, from, to), from[j..]) ==> !StartsWith(s, from) && StartsWith(s, from[j..])
    decreases |s|
  {
    var r := Replace(s, from, to);
    var q := from[j..];
    if s == [] {
    } else if StartsWith(s, from) {
      assert r == to + Replace(s[|from|..], from, to);
      if j == 0 {
        assert Incompatible(to[0..], from);
        var i :| 0 <= i < |to[0..]| && i < |from| && to[0..][i] != from[i];
        assert r[i] == to[i];
      } else {
        assert Incompatible(from[j..], to);
        var i :| 0 <= i < |q| && i < |to| && q[i] != to[i];
        assert r[i] == to[i];
      }
    } else {
      var rest := Replace(s[1..], from, to);
      assert r == [s[0]] + rest;
      if j + 1 < |from| {
        ReplacePrefix(s[1..], from, to, j + 1);
        if StartsWith(r, q) {
          assert rest[..|q| - 1] == r[1..|q|] == q[1..] == from[j + 1..];
          assert StartsWith(s[1..], from[j + 1..]);
          forall k | 0 <= k < |q|
            ensures s[k] == q[k]
          {
            if k == 0 {
              assert s[0] == r[0] == q[0];
            } else {
              assert s[k] == s[1..][k - 1] == from[j + 1..][k - 1] == q[k];
            }
          }
          assert s[..|q|] == q;
        }
      } else if StartsWith(r, q) {
        assert s[..|q|] == [s[0]];
      }
    }
  }

  /** Prefixing a string with one whose every suffix is incompatible with
      the pattern creates no occurrence of it. */
  lemma {:induction false} NoOccurrenceAfter(u: string, t: string, p: string)
    requires forall k :: 0 <= k < |u| ==> Incompatible(u[k..], p)
    requires !Contains(t, p)
    ensures !Contains(u + t, p)
    decreases |u|
  {
    if u == [] {
      assert u + t == t;
    } else {
      assert Incompatible(u[0..], p);
      var i :| 0 <= i < |u[0..]| && i < |p| && u[0..][i] != p[i];
      assert (u + t)[i] == u[i];
      forall k | 0 <= k < |u[1..]|
        ensures Incompatible(u[1..][k..], p)
      {
        assert u[1..][k..] == u[k + 1..];
      }
      NoOccurrenceAfter(u[1..], t, p);
      assert (u + t)[1..] == u[1..] + t;
    }
  }

  /** When the replacement cannot overlap the pattern, no occurrence of the
      pattern survives `Replace`. */
  lemma {:induction false} ReplaceRemovesAll(s: string, from: string, to: string)
    requires NonOverlapping(from, to)
    ensures !Contains(Replace(s, from, to), from)
    decreases |s|
  {
    if s == [] {
    } else if StartsWith(s, from) {
      ReplaceRemovesAll(s[|from|..], from, to);
      NoOccurrenceAfter(to, Replace(s[|from|..], from, to), from);
    } else {
      ReplaceRemovesAll(s[1..], from, to);
      ReplacePrefix(s, from, to, 0);
      assert from[0..] == from;
      var r := Replace(s, from, to);
      assert r == [s[0]] + Replace(s[1..], from, to);
      assert r[1..] == Replace(s[1..], from, to);
    }
  }

  /** `str::split(sep)`: the pieces between separators, in order; the empty
      string gives one empty piece. */
  function Split(s: string, sep: char): (r: seq<string>)
    ensures |r| >= 1
    ensures forall i :: 0 <= i < |r| ==> sep !in r[i]
    decreases |s|
  {
    if s == [] then [""]
    else
      var rest := Split(s[1..], sep);
      if s[0] == sep then [""] + rest
      else [[s[0]] + rest[0]] + rest[1..]
  }

  /** The pieces glued back together with the separator. */
  function Join(pieces: seq<string>, sep: char): string
    requires |pieces| >= 1
  {
    if |pieces| == 1 then pieces[0] else pieces[0] + [sep] + Join(pieces[1..], sep)
  }

  /** Splitting loses nothing: joining the pieces gives the string back. */
  lemma {:induction false} JoinSplit(s: string, sep: char)
    ensures Join(Split(s, sep), sep) == s
    decreases |s|
  {
    if s != [] {
      var rest := Split(s[1..], sep);
      JoinSplit(s[1..], sep);
      if s[0] == sep {
        assert Split(s, sep)[1..] == rest;
      } else if |rest| == 1 {
        assert Join(Split(s, sep), sep) == [s[0]] + rest[0];
      } else {
        var first := [s[0]] + rest[0];
        assert Split(s, sep)[1..] == rest[1..];
        assert Join(Split(s, sep), sep) == first + [sep] + Join(rest[1..], sep);
      }
    }
  }

  /** Splitting a separator-free prefix followed by `x`. */
  lemma {:induction false} SplitFree(w: string, x: string, sep: char)
    requires sep !in w
    ensures Split(w + x, sep) == [w + Split(x, sep)[0]] + Split(x, sep)[1..]
    decreases |w|
  {
    if w == [] {
      var r := Split(x, sep);
      assert w + x == x && w + r[0] == r[0];
      assert r == [r[0]] + r[1..];
    } else {
      assert (w + x)[0] == w[0];
      assert (w + x)[1..] == w[1..] + x;
      SplitFree(w[1..], x, sep);
      assert [w[0]] + (w[1..] + Split(x, sep)[0]) == w + Split(x, sep)[0];
    }
  }

  /** Pieces without the separator are recovered by splitting their join. */
  lemma {:induction false} SplitJoin(pieces: seq<string>, sep: char)
    requires |pieces| >= 1
    requires forall i :: 0 <= i < |pieces| ==> sep !in pieces[i]
    ensures Split(Join(pieces, sep), sep) == pieces
    decreases |pieces|
  {
    if |pieces| == 1 {
      SplitFree(pieces[0], "", sep);
      assert pieces[0] + "" == pieces[0];
    } else {
      var tail := Join(pieces[1..], sep);
      SplitJoin(pieces[1..], sep);
      assert Join(pieces, sep) == pieces[0] + ([sep] + tail);
      SplitFree(pieces[0], [sep] + tail, sep);
      assert ([sep] + tail)[1..] == tail;
      assert Split([sep] + tail, sep) == [""] + pieces[1..];
      assert pieces[0] + "" == pieces[0];
      assert pieces == [pieces[0]] + pieces[1..];
    }
  }

  /** Two separator-free strings joined by the separator split back into
      the two of them. */
  lemma SplitPair(a: string, b: string, sep: char)
    ensures sep !in a && sep !in b ==> Split(a + [sep] + b, sep) == [a, b]
  {
    if sep !in a && sep !in b {
      var pieces := [a, b];
      assert Join(pieces[1..], sep) == b;
      assert Join(pieces, sep) == a + [sep] + b;
      SplitJoin(pieces, sep);
    }
  }
}
