/** Filesystem paths as `pathlib` sees them: a sequence of segments, with
    the `name`, `suffix` and `stem` of the last one, and the ordering
    `sorted()` uses. */
module Paths {
  import opened Text

  /** A path as its list of segments (`Path.parts`). */
  type Path = seq<string>

  /** `Path.name`: the last segment, empty for the empty path. */
  function Name(p: Path): string
  {
    if |p| == 0 then "" else p[|p| - 1]
  }

  /** A non-empty path keeps its name below any directory. */
  lemma NameUnderPrefix(d: Path, p: Path)
    requires |p| >= 1
    ensures Name(d + p) == Name(p)
  {
  }

  /** `PurePath.suffix`: from the last dot of the name, unless that dot
      starts the name or ends it. */
  function Suffix(name: string): (r: string)
    ensures r == "" || (|r| >= 2 && r[0] == '.' && '.' !in r[1..] && |r| < |name| && EndsWith(name, r))
  {
    var i := RFind(name, '.');
    if 0 < i < |name| - 1 then name[i..] else ""
  }

  /** `PurePath.stem`: the name without its suffix. */
  function Stem(name: string): (r: string)
    ensures r + Suffix(name) == name
  {
    var i := RFind(name, '.');
    if 0 < i < |name| - 1 then name[..i] else name
  }

  /** A name that ends in an extension such as `.jp2`, with something before
      it, has exactly that suffix, and its stem is the rest. */
  lemma KnownSuffix(name: string, ext: string)
    requires |ext| >= 2 && ext[0] == '.' && '.' !in ext[1..]
    requires |name| > |ext| && EndsWith(name, ext)
    ensures Suffix(name) == ext
    ensures Stem(name) == name[..|name| - |ext|]
  {
    var p := |name| - |ext|;
    var i := RFind(name, '.');
    assert name[p] == ext[0];
    assert forall j :: p < j < |name| ==> name[j] == ext[1..][j - p - 1];
    assert i == p;
  }

  /** Python's `<=` on paths: the lists of segments compared
      lexicographically, each segment with the ordering of `str`. */
  predicate PathLe(p: Path, q: Path)
    decreases |p|
  {
    |p| == 0 || (|q| > 0 && (StrLt(p[0], q[0]) || (p[0] == q[0] && PathLe(p[1..], q[1..]))))
  }

  lemma {:induction false} PathLeReflexive(p: Path)
    ensures PathLe(p, p)
    decreases |p|
  {
    if |p| > 0 {
      PathLeReflexive(p[1..]);
    }
  }

  lemma {:induction false} PathLeTotal(p: Path, q: Path)
    ensures PathLe(p, q) || PathLe(q, p)
    decreases |p|
  {
    if |p| > 0 && |q| > 0 {
      if p[0] == q[0] {
        PathLeTotal(p[1..], q[1..]);
      } else {
        StrLeTotal(p[0], q[0]);
      }
    }
  }

  lemma {:induction false} PathLeTransitive(p: Path, q: Path, r: Path)
    requires PathLe(p, q) && PathLe(q, r)
    ensures PathLe(p, r)
    decreases |p|
  {
    if |p| > 0 {
      if StrLt(p[0], q[0]) && StrLt(q[0], r[0]) {
        StrLtTransitive(p[0], q[0], r[0]);
      } else if p[0] == q[0] && q[0] == r[0] {
        PathLeTransitive(p[1..], q[1..], r[1..]);
      }
    }
  }

  /** Paths below a common directory compare as their relative parts do, so
      sorting full paths sorts the relative listing. */
  lemma {:induction false} PathLeUnderPrefix(d: Path, p: Path, q: Path)
    ensures PathLe(d + p, d + q) <==> PathLe(p, q)
    decreases |d|
  {
    if |d| > 0 {
      PathLeUnderPrefix(d[1..], p, q);
      assert (d + p)[1..] == d[1..] + p;
      assert (d + q)[1..] == d[1..] + q;
      StrLeReflexive(d[0]);
    } else {
      assert d + p == p && d + q == q;
    }
  }

  ghost predicate Sorted(s: seq<Path>)
  {
    forall i, j :: 0 <= i < j < |s| ==> PathLe(s[i], s[j])
  }

  /** A lower bound of a sorted sequence can go in front of it. */
  lemma ConsSorted(a: Path, s: seq<Path>)
    requires Sorted(s)
    requires forall j :: 0 <= j < |s| ==> PathLe(a, s[j])
    ensures Sorted([a] + s)
  {
    var t := [a] + s;
    forall i, j | 0 <= i < j < |t| ensures PathLe(t[i], t[j]) {
      if i > 0 {
        assert t[i] == s[i - 1] && t[j] == s[j - 1];
      } else {
        assert t[j] == s[j - 1];
      }
    }
  }

  /** Inserts `x` into a sorted sequence before its first element not below `x`. */
  function Insert(x: Path, s: seq<Path>): (r: seq<Path>)
    requires Sorted(s)
    ensures Sorted(r)
    ensures multiset(r) == multiset(s) + multiset{x}
    decreases |s|
  {
    if |s| == 0 then [x]
    else if PathLe(x, s[0]) then
      forall j | 0 <= j < |s| ensures PathLe(x, s[j]) {
        if j > 0 {
          PathLeTransitive(x, s[0], s[j]);
        }
      }
      ConsSorted(x, s);
      [x] + s
    else
      PathLeTotal(x, s[0]);
      var rest := Insert(x, s[1..]);
      LowerBoundKept(s[0], x, s[1..], rest);
      ConsSorted(s[0], rest);
      assert s == [s[0]] + s[1..];
      [s[0]] + rest
  }

  /** A lower bound of `x` and of every element of `s` bounds every
      element of a sequence holding exactly those. */
  lemma LowerBoundKept(a: Path, x: Path, s: seq<Path>, r: seq<Path>)
    requires multiset(r) == multiset(s) + multiset{x}
    requires PathLe(a, x) && forall j :: 0 <= j < |s| ==> PathLe(a, s[j])
    ensures forall j :: 0 <= j < |r| ==> PathLe(a, r[j])
  {
    forall j | 0 <= j < |r| ensures PathLe(a, r[j]) {
      assert r[j] in multiset(r);
      if r[j] != x {
        assert r[j] in multiset(s);
        var k :| 0 <= k < |s| && s[k] == r[j];
      }
    }
  }

  /** `sorted(paths)`: the same paths, in ascending order. */
  function Sort(s: seq<Path>): (r: seq<Path>)
    ensures Sorted(r)
    ensures multiset(r) == multiset(s)
    decreases |s|
  {
    if |s| == 0 then []
    else
      assert s == [s[0]] + s[1..];
      Insert(s[0], Sort(s[1..]))
  }
}
