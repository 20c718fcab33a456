/**
 * The order in which a buffer save hands segments to the concat step:
 * `sorted(glob(...))` puts the paths in string order, then the stable
 * `segments.sort(key=os.path.getmtime)` orders them by modification time,
 * so that files with equal times stay in path order.
 */
module Segments {
  import opened Paths
  import Lex

  /** `os.path.getmtime(p)` for a file that exists. */
  function Mtime(files: map<FilePath, int>, p: FilePath): int {
    if p in files then files[p] else 0
  }

  /** Strictly earlier in the save order: older, or as old with the smaller path string. */
  predicate Before(x: FilePath, y: FilePath, files: map<FilePath, int>) {
    Mtime(files, x) < Mtime(files, y) || (Mtime(files, x) == Mtime(files, y) && Lex.Less(x.Str(), y.Str()))
  }

  /** Strictly increasing path strings: the result of `sorted()` on distinct paths. */
  predicate ByPath(s: seq<FilePath>) {
    forall i, j {:trigger Lex.Less(s[i].Str(), s[j].Str())} :: 0 <= i < j < |s| ==> Lex.Less(s[i].Str(), s[j].Str())
  }

  /** Oldest first, ties by path string, no file twice. */
  predicate Chronological(s: seq<FilePath>, files: map<FilePath, int>) {
    forall i, j {:trigger Before(s[i], s[j], files)} :: 0 <= i < j < |s| ==> Before(s[i], s[j], files)
  }

  /** No two members of the set print as the same path string (true of one directory's files). */
  predicate DistinctStrs(found: set<FilePath>) {
    forall x, y :: x in found && y in found && x != y ==> x.Str() != y.Str()
  }

  lemma OneDirectoryDistinct(found: set<FilePath>, dir: string)
    requires forall p :: p in found ==> p.dir == dir
    ensures DistinctStrs(found)
  {
    forall x, y | x in found && y in found && x != y
      ensures x.Str() != y.Str()
    {
      if x.Str() == y.Str() {
        JoinInjective(dir, x.name, y.name);
      }
    }
  }

  lemma BeforeAsymmetric(x: FilePath, y: FilePath, files: map<FilePath, int>)
    requires Before(x, y, files)
    ensures !Before(y, x, files)
  {
    if Mtime(files, x) == Mtime(files, y) {
      Lex.LessAsymmetric(x.Str(), y.Str());
    }
  }

  lemma BeforeTransitive(x: FilePath, y: FilePath, z: FilePath, files: map<FilePath, int>)
    requires Before(x, y, files) && Before(y, z, files)
    ensures Before(x, z, files)
  {
    if Mtime(files, x) == Mtime(files, y) == Mtime(files, z) {
      Lex.LessTransitive(x.Str(), y.Str(), z.Str());
    }
  }

  /** Putting `x` after the paths smaller than it keeps a listing in path order. */
  lemma InsertByPath(s: seq<FilePath>, x: FilePath, k: int)
    requires ByPath(s) && 0 <= k <= |s| && x !in s
    requires forall m :: 0 <= m < k ==> Lex.Less(s[m].Str(), x.Str())
    requires k < |s| ==> !Lex.Less(s[k].Str(), x.Str()) && s[k].Str() != x.Str()
    ensures ByPath(s[..k] + [x] + s[k..])
  {
    if k < |s| {
      Lex.LessTotal(s[k].Str(), x.Str());
      forall m | k < m < |s|
        ensures Lex.Less(x.Str(), s[m].Str())
      {
        Lex.LessTransitive(x.Str(), s[k].Str(), s[m].Str());
      }
    }
    var q := s[..k] + [x] + s[k..];
    forall a, b | 0 <= a < b < |q|
      ensures Lex.Less(q[a].Str(), q[b].Str())
    {
      if b < k {
        assert q[a] == s[a] && q[b] == s[b];
      } else if b == k {
        assert q[a] == s[a];
      } else if a < k {
        assert q[a] == s[a] && q[b] == s[b - 1];
      } else if a == k {
        assert q[b] == s[b - 1];
      } else {
        assert q[a] == s[a - 1] && q[b] == s[b - 1];
      }
    }
  }

  /** `sorted(found)`: every found path once, in increasing string order. */
  method SortByPath(found: set<FilePath>) returns (s: seq<FilePath>)
    requires DistinctStrs(found)
    ensures ByPath(s)
    ensures forall p :: p in s <==> p in found
  {
    s := [];
    var rest := found;
    while rest != {}
      invariant rest <= found
      invariant forall p :: p in s ==> p in found && p !in rest
      invariant forall p :: p in found ==> p in s || p in rest
      invariant ByPath(s)
      decreases rest
    {
      var x :| x in rest;
      var k := 0;
      while k < |s| && Lex.Less(s[k].Str(), x.Str())
        invariant 0 <= k <= |s|
        invariant forall m :: 0 <= m < k ==> Lex.Less(s[m].Str(), x.Str())
      {
        k := k + 1;
      }
      assert k < |s| ==> s[k] in found && s[k] != x;
      InsertByPath(s, x, k);
      s := s[..k] + [x] + s[k..];
      rest := rest - {x};
    }
  }

  lemma PathBeforeLater(segs: seq<FilePath>, i: int, y: FilePath)
    requires ByPath(segs) && 0 <= i < |segs| && y in segs[..i]
    ensures Lex.Less(y.Str(), segs[i].Str())
  {
    var k :| 0 <= k < i && segs[..i][k] == y;
    assert segs[k] == y;
  }

  /** Putting `x` between the files before it and the files after it keeps a listing chronological. */
  lemma InsertKeepsChronological(p: seq<FilePath>, x: FilePath, j: int, files: map<FilePath, int>)
    requires Chronological(p, files) && 0 <= j <= |p|
    requires forall k :: 0 <= k < j ==> Before(p[k], x, files)
    requires forall k :: j <= k < |p| ==> Before(x, p[k], files)
    ensures Chronological(p[..j] + [x] + p[j..], files)
  {
    var q := p[..j] + [x] + p[j..];
    forall a, b | 0 <= a < b < |q|
      ensures Before(q[a], q[b], files)
    {
      if b < j {
        assert q[a] == p[a] && q[b] == p[b];
      } else if b == j {
        assert q[a] == p[a];
      } else if a < j {
        assert q[a] == p[a] && q[b] == p[b - 1];
      } else if a == j {
        assert q[b] == p[b - 1];
      } else {
        assert q[a] == p[a - 1] && q[b] == p[b - 1];
      }
    }
  }

  /**
   * One round of the insertion sort: the sorted prefix `p` holds the first `i`
   * files of `segs`, and `x`, the next one, goes in after the files no newer than it.
   */
  lemma InsertionStep(p: seq<FilePath>, segs: seq<FilePath>, i: int, j: int, files: map<FilePath, int>)
    requires ByPath(segs) && 0 <= i < |segs| && |p| == i
    requires multiset(p) == multiset(segs[..i]) && Chronological(p, files)
    requires 0 <= j <= i
    requires j == 0 || Mtime(files, p[j - 1]) <= Mtime(files, segs[i])
    requires forall k :: j <= k < i ==> Mtime(files, p[k]) > Mtime(files, segs[i])
    ensures Chronological(p[..j] + [segs[i]] + p[j..], files)
  {
    var x := segs[i];
    forall k | 0 <= k < j
      ensures Before(p[k], x, files)
    {
      if k < j - 1 {
        assert Before(p[k], p[j - 1], files);
      }
      assert p[k] in multiset(segs[..i]);
      PathBeforeLater(segs, i, p[k]);
    }
    InsertKeepsChronological(p, x, j, files);
  }

  lemma InsertionCounts(p: seq<FilePath>, segs: seq<FilePath>, i: int, j: int)
    requires 0 <= i < |segs| && 0 <= j <= |p| && multiset(p) == multiset(segs[..i])
    ensures multiset(p[..j] + [segs[i]] + p[j..]) == multiset(segs[..i + 1])
  {
    assert p == p[..j] + p[j..];
    assert segs[..i + 1] == segs[..i] + [segs[i]];
  }

  /**
   * `segments.sort(key=os.path.getmtime)` on a list in path order: an
   * insertion sort (Python's sort is stable, and so is this one) that puts
   * each file after every file no newer than it, so files with equal times
   * keep their path order.
   */
  method SortByMtime(segs: seq<FilePath>, files: map<FilePath, int>) returns (r: seq<FilePath>)
    requires ByPath(segs)
    ensures Chronological(r, files)
    ensures multiset(r) == multiset(segs)
  {
    r := [];
    var i := 0;
    while i < |segs|
      invariant 0 <= i <= |segs| && |r| == i
      invariant multiset(r) == multiset(segs[..i])
      invariant Chronological(r, files)
    {
      var x := segs[i];
      var j := i;
      while j > 0 && Mtime(files, r[j - 1]) > Mtime(files, x)
        invariant 0 <= j <= i
        invariant forall k :: j <= k < i ==> Mtime(files, r[k]) > Mtime(files, x)
      {
        j := j - 1;
      }
      InsertionStep(r, segs, i, j, files);
      InsertionCounts(r, segs, i, j);
      r := r[..j] + [x] + r[j..];
      i := i + 1;
    }
    assert segs[..i] == segs;
  }

  /** A chronological listing starts with its oldest file, so two listings of the same files start alike. */
  lemma SameFirst(a: seq<FilePath>, b: seq<FilePath>, files: map<FilePath, int>)
    requires Chronological(a, files) && Chronological(b, files)
    requires multiset(a) == multiset(b) && a != [] && b != []
    ensures a[0] == b[0]
  {
    if a[0] != b[0] {
      assert b[0] in multiset(a) && a[0] in multiset(b);
      var i :| 0 <= i < |a| && a[i] == b[0];
      var j :| 0 <= j < |b| && b[j] == a[0];
      assert Before(a[0], a[i], files) && Before(b[0], b[j], files);
      BeforeAsymmetric(a[0], b[0], files);
    }
  }

  lemma ChronologicalTail(a: seq<FilePath>, files: map<FilePath, int>)
    requires Chronological(a, files) && a != []
    ensures Chronological(a[1..], files)
  {
    forall x, y | 0 <= x < y < |a| - 1
      ensures Before(a[1..][x], a[1..][y], files)
    {
      assert Before(a[x + 1], a[y + 1], files);
    }
  }

  /** Any two chronological listings of the same files are the same sequence: the save order is determined. */
  lemma {:induction false} ChronologicalUnique(a: seq<FilePath>, b: seq<FilePath>, files: map<FilePath, int>)
    requires Chronological(a, files) && Chronological(b, files)
    requires multiset(a) == multiset(b)
    ensures a == b
    decreases |a|
  {
    assert |a| == |multiset(a)| == |multiset(b)| == |b|;
    if a != [] {
      SameFirst(a, b, files);
      assert a == [a[0]] + a[1..] && b == [b[0]] + b[1..];
      assert multiset(a[1..]) == multiset(a) - multiset{a[0]};
      assert multiset(b[1..]) == multiset(b) - multiset{b[0]};
      ChronologicalTail(a, files);
      ChronologicalTail(b, files);
      ChronologicalUnique(a[1..], b[1..], files);
    }
  }

  /** In a chronological listing no file appears twice. */
  lemma ChronologicalDistinct(s: seq<FilePath>, files: map<FilePath, int>)
    requires Chronological(s, files)
    ensures forall i, j :: 0 <= i < j < |s| ==> s[i] != s[j]
  {
    forall i, j | 0 <= i < j < |s|
      ensures s[i] != s[j]
    {
      assert Before(s[i], s[j], files);
      Lex.LessIrreflexive(s[i].Str());
    }
  }

  lemma {:induction false} DistinctCounts(s: seq<FilePath>)
    requires forall i, j :: 0 <= i < j < |s| ==> s[i] != s[j]
    ensures forall x :: multiset(s)[x] == if x in s then 1 else 0
    decreases |s|
  {
    if s != [] {
      var t := s[..|s| - 1];
      assert s == t + [s[|s| - 1]];
      DistinctCounts(t);
      assert s[|s| - 1] !in t;
    }
  }

  /**
   * The save order is determined by the set of segment files and their
   * times: any two chronological listings of the same files are equal.
   */
  lemma SaveOrderUnique(a: seq<FilePath>, b: seq<FilePath>, files: map<FilePath, int>)
    requires Chronological(a, files) && Chronological(b, files)
    requires forall p :: p in a <==> p in b
    ensures a == b
  {
    ChronologicalDistinct(a, files);
    ChronologicalDistinct(b, files);
    DistinctCounts(a);
    DistinctCounts(b);
    assert multiset(a) == multiset(b);
    ChronologicalUnique(a, b, files);
  }
}
