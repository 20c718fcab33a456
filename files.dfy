/**
 * The part of the file system the recorder touches: every file with its
 * modification time, and the files the operating system refuses to delete.
 */
module Files {
  import opened Paths

  /** `glob.glob(os.path.join(dir, pat))` over a snapshot of the files. */
  function GlobIn(files: map<FilePath, int>, dir: string, pat: Pattern): (r: set<FilePath>)
    ensures forall p :: p in r <==> p in files && p.dir == dir && Matches(p.name, pat)
  {
    set p | p in files && p.dir == dir && Matches(p.name, pat)
  }

  /** The files left after trying to delete every file of `doomed`: the locked ones survive. */
  function Without(files: map<FilePath, int>, doomed: set<FilePath>, locked: set<FilePath>): (r: map<FilePath, int>)
    ensures forall p :: p in r <==> p in files && (p in doomed ==> p in locked)
    ensures forall p :: p in r ==> r[p] == files[p]
  {
    files - (doomed - locked)
  }

  /** What the buffer clean-up deletes: `buffer_*.mp4`, `*.m3u8` and `*.ts` files of `dir`. */
  predicate IsBufferJunk(p: FilePath, dir: string) {
    p.dir == dir && (Matches(p.name, SegmentFiles) || Matches(p.name, PlaylistFiles) || Matches(p.name, FragmentFiles))
  }

  function Junk(files: map<FilePath, int>, dir: string): (r: set<FilePath>)
    ensures forall p :: p in r <==> p in files && IsBufferJunk(p, dir)
  {
    set p | p in files && IsBufferJunk(p, dir)
  }

  /** The files after a buffer clean-up of `dir` in which every unlocked junk file was deleted. */
  function AfterCleanup(files: map<FilePath, int>, locked: set<FilePath>, dir: string): (r: map<FilePath, int>)
    ensures Junk(r, dir) <= locked
    ensures forall p :: p in files && !(IsBufferJunk(p, dir) && p !in locked) ==> p in r && r[p] == files[p]
    ensures r.Keys <= files.Keys
  {
    Without(files, Junk(files, dir), locked)
  }

  /** The three sweeps of the clean-up, one pattern after the other, delete exactly the unlocked junk. */
  lemma SweepsMakeCleanup(f0: map<FilePath, int>, locked: set<FilePath>, dir: string)
    ensures
      var f1 := Without(f0, GlobIn(f0, dir, SegmentFiles), locked);
      var f2 := Without(f1, GlobIn(f1, dir, PlaylistFiles), locked);
      Without(f2, GlobIn(f2, dir, FragmentFiles), locked) == AfterCleanup(f0, locked, dir)
  {
    var f1 := Without(f0, GlobIn(f0, dir, SegmentFiles), locked);
    var f2 := Without(f1, GlobIn(f1, dir, PlaylistFiles), locked);
    var f3 := Without(f2, GlobIn(f2, dir, FragmentFiles), locked);
    assert f3.Keys == AfterCleanup(f0, locked, dir).Keys;
  }

  class FileSystem {
    var files: map<FilePath, int>
    /** Files whose deletion the operating system refuses (open elsewhere, no permission). */
    var locked: set<FilePath>

    constructor (files: map<FilePath, int>, locked: set<FilePath>)
      ensures this.files == files && this.locked == locked
    {
      this.files := files;
      this.locked := locked;
    }

    function Glob(dir: string, pat: Pattern): set<FilePath>
      reads this
    {
      GlobIn(files, dir, pat)
    }

    /** `os.remove(p)`; `ok` is false where Python raises (no such file, or locked). */
    method Remove(p: FilePath) returns (ok: bool)
      modifies this`files
      ensures ok == (p in old(files) && p !in locked)
      ensures files == if ok then old(files) - {p} else old(files)
    {
      ok := p in files && p !in locked;
      if ok {
        files := files - {p};
      }
    }

    /** Creating or overwriting `p`, which then carries modification time `mtime`. */
    method Write(p: FilePath, mtime: int)
      modifies this`files
      ensures files == old(files)[p := mtime]
    {
      files := files[p := mtime];
    }

    /** `for f in glob(...): try: os.remove(f) except: pass` — failures are skipped. */
    method RemoveMatching(dir: string, pat: Pattern)
      modifies this`files
      ensures files == Without(old(files), GlobIn(old(files), dir, pat), locked)
    {
      var found := GlobIn(files, dir, pat);
      ghost var before := files;
      var rest := found;
      while rest != {}
        invariant rest <= found
        invariant files == Without(before, found - rest, locked)
        decreases rest
      {
        var f :| f in rest;
        var _ := Remove(f);
        rest := rest - {f};
      }
    }
  }
}
