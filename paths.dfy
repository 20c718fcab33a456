/**
 * Windows path strings as the recorder builds them: `os.path.join`, the
 * `os.sep` to `/` rewrite used for FFmpeg, and the `prefix*suffix` glob
 * patterns of the buffer directory.
 */
module Paths {
  import Lex

  /** `os.sep` and `os.altsep` on Windows, the only platform the recorder targets (gdigrab capture). */
  const Sep: char := '\\'
  const AltSep: char := '/'

  /** `os.path.join` appends to `dir` without a separator: it is empty, ends in a separator, or is a bare drive `X:`. */
  predicate JoinsDirectly(dir: string) {
    |dir| == 0 || dir[|dir| - 1] == Sep || dir[|dir| - 1] == AltSep || (|dir| == 2 && dir[1] == ':')
  }

  /** `os.path.join(dir, name)` for a relative `name`. */
  function Join(dir: string, name: string): (r: string)
    ensures |r| - |dir| - |name| == (if JoinsDirectly(dir) then 0 else 1)
    ensures r[..|dir|] == dir && r[|r| - |name|..] == name
    ensures |r| == |dir| + |name| + 1 ==> r[|dir|] == Sep
  {
    if JoinsDirectly(dir) then dir + name else dir + [Sep] + name
  }

  /** Within one directory, different names give different paths. */
  lemma JoinInjective(dir: string, a: string, b: string)
    requires Join(dir, a) == Join(dir, b)
    ensures a == b
  {
    var ja, jb := Join(dir, a), Join(dir, b);
    assert a == ja[|ja| - |a|..] && b == jb[|jb| - |b|..];
  }

  /** Within one directory, paths sort as their file names do. */
  lemma JoinOrder(dir: string, a: string, b: string)
    ensures Lex.Less(Join(dir, a), Join(dir, b)) == Lex.Less(a, b)
  {
    if JoinsDirectly(dir) {
      Lex.LessSharedPrefix(dir, a, b);
    } else {
      assert Join(dir, a) == (dir + [Sep]) + a && Join(dir, b) == (dir + [Sep]) + b;
      Lex.LessSharedPrefix(dir + [Sep], a, b);
    }
  }

  /** A file: the directory it is looked up in and its name there. */
  datatype FilePath = FilePath(dir: string, name: string) {
    /** The string Python holds for it, `os.path.join(dir, name)`. */
    function Str(): string {
      Join(dir, name)
    }
  }

  function Strs(ps: seq<FilePath>): (r: seq<string>)
    ensures |r| == |ps| && forall i :: 0 <= i < |ps| ==> r[i] == ps[i].Str()
  {
    seq(|ps|, i requires 0 <= i < |ps| => ps[i].Str())
  }

  /** `p.replace(os.sep, '/')`: every backslash becomes a slash, every other character stays. */
  function ToForward(p: string): (r: string)
    ensures |r| == |p| && Sep !in r
    ensures forall i :: 0 <= i < |p| ==> r[i] == (if p[i] == Sep then AltSep else p[i])
    decreases |p|
  {
    if p == [] then [] else [if p[0] == Sep then AltSep else p[0]] + ToForward(p[1..])
  }

  /** A glob pattern `prefix*suffix`. */
  datatype Pattern = Pattern(prefix: string, suffix: string)

  /** The three patterns the buffer clean-up deletes: `buffer_*.mp4`, `*.m3u8`, `*.ts`. */
  const SegmentFiles: Pattern := Pattern("buffer_", ".mp4")
  const PlaylistFiles: Pattern := Pattern("", ".m3u8")
  const FragmentFiles: Pattern := Pattern("", ".ts")

  /**
   * `glob` matching a name in the searched directory: the name starts with the
   * prefix and ends with the suffix (the `*` takes the middle, possibly empty),
   * and a leading dot is matched only by a pattern that starts with a dot.
   */
  predicate Matches(name: string, pat: Pattern) {
    && |pat.prefix| + |pat.suffix| <= |name|
    && name[..|pat.prefix|] == pat.prefix
    && name[|name| - |pat.suffix|..] == pat.suffix
    && (|name| > 0 && name[0] == '.' ==> |pat.prefix| > 0 && pat.prefix[0] == '.')
  }
}
