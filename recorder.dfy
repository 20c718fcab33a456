/**
 * The recording-session engine: a three-state machine (idle, fulltime,
 * buffer) that owns at most one FFmpeg process, builds the capture commands,
 * and on a buffer save gathers the ring's segment files, orders them, writes
 * the concat manifest, runs the concat step and cleans the buffer directory.
 *
 * The outside world is abstracted: an FFmpeg start either succeeds or fails,
 * the concat step either raises or completes, the file system is the map of
 * `Files.FileSystem`, and the timestamp and clock come in as values.
 */
module Recorder {
  import opened Options
  import opened Paths
  import opened Files
  import Decimal
  import Segments
  import Manifest
  import Config

  datatype Mode = Fulltime | Buffer

  /** A running FFmpeg, known by the argument list it was started with. */
  datatype Process = Process(args: seq<string>)

  /** How the concat step ends: it returns (with some exit code) or raises (a timeout, a failed start). */
  datatype ConcatOutcome = Completed(exitCode: int) | Raised

  /** What the environment answers during one operation. */
  datatype Env = Env(
    timestamp: string,      // `_get_timestamp()`
    now: int,               // `time.time()`, and the modification time of files written now
    spawnOk: bool,          // whether `subprocess.Popen` starts FFmpeg
    concat: ConcatOutcome,  // how `subprocess.run` of the concat step ends
    concatWrote: bool)      // whether the concat step left an output file behind

  /** One call of the database's `add_video(path, mode)`. */
  datatype Registration = Registration(path: string, mode: Mode)

  /** One run of the concat step: the manifest it was given and its argument list. */
  datatype ConcatRun = ConcatRun(manifest: string, args: seq<string>)

  /** Length of one buffer segment, in seconds. */
  const SegmentDuration: int := 10

  /**
   * `buffer_duration_seconds // segment_duration + 2`: enough segments to
   * cover the buffer length, plus the one being written and one spare.
   */
  function MaxSegments(bufferSeconds: int): (n: int)
    ensures (n - 2) * SegmentDuration <= bufferSeconds < (n - 1) * SegmentDuration
    ensures bufferSeconds >= 0 ==> n >= 2
  {
    bufferSeconds / SegmentDuration + 2
  }

  /** The default five minutes keep a ring of 32 segments. */
  lemma DefaultRingSize()
    ensures MaxSegments(60 * Config.DefaultMinutes) == 32
  {
  }

  /** Every buffer length the settings setter allows gives a ring of 8 to 182 segments. */
  lemma RingSizeBounds(minutes: int)
    requires Config.MinMinutes <= minutes <= Config.MaxMinutes
    ensures 8 <= MaxSegments(60 * minutes) <= 182
  {
  }

  // ----- FFmpeg argument lists -----

  /** Screen capture with libx264 and no audio input, shared by both recording modes. */
  const CaptureArgs: seq<string> := [
    "ffmpeg", "-f", "gdigrab", "-framerate", "30", "-i", "desktop",
    "-c:v", "libx264", "-preset", "ultrafast", "-crf", "23", "-pix_fmt", "yuv420p"]

  /** The value FFmpeg reads for `flag`: the argument after its first occurrence. */
  function OptionValue(args: seq<string>, flag: string): (r: Option<string>)
    ensures r.Some? ==> exists i :: 0 <= i < |args| - 1 && args[i] == flag && args[i + 1] == r.value
    decreases |args|
  {
    if |args| < 2 then None
    else if args[0] == flag then Some(args[1])
    else OptionValue(args[1..], flag)
  }

  function FulltimeCommand(output: string): seq<string> {
    CaptureArgs + ["-y", output]
  }

  /** Where the capture options sit in the fulltime command. */
  lemma FulltimeCommandShape(output: string)
    ensures var tail := CaptureArgs[7..] + ["-y", output];
      && FulltimeCommand(output) == ["ffmpeg"] + (["-f", "gdigrab"] + (["-framerate", "30", "-i", "desktop"] + tail))
      && FulltimeCommand(output) == ["ffmpeg", "-f", "gdigrab"] + (["-framerate", "30"] + (["-i", "desktop"] + tail))
      && FulltimeCommand(output) == ["ffmpeg", "-f", "gdigrab", "-framerate", "30"] + (["-i", "desktop"] + tail)
  {
  }

  lemma FulltimeFormatArgument(output: string)
    ensures OptionValue(FulltimeCommand(output), "-f") == Some("gdigrab")
  {
    FulltimeCommandShape(output);
    OptionValueAt(["ffmpeg"], "-f", "gdigrab", ["-framerate", "30", "-i", "desktop"] + (CaptureArgs[7..] + ["-y", output]));
  }

  lemma FulltimeRateArgument(output: string)
    ensures OptionValue(FulltimeCommand(output), "-framerate") == Some("30")
  {
    FulltimeCommandShape(output);
    OptionValueAt(["ffmpeg", "-f", "gdigrab"], "-framerate", "30", ["-i", "desktop"] + (CaptureArgs[7..] + ["-y", output]));
  }

  lemma FulltimeInputArgument(output: string)
    ensures OptionValue(FulltimeCommand(output), "-i") == Some("desktop")
  {
    FulltimeCommandShape(output);
    OptionValueAt(["ffmpeg", "-f", "gdigrab", "-framerate", "30"], "-i", "desktop", CaptureArgs[7..] + ["-y", output]);
  }

  /**
   * The fulltime command captures the desktop at 30 frames per second and
   * ends with `-y` and the output path, so FFmpeg overwrites and writes
   * exactly the file the recorder keeps as its current output.
   */
  lemma FulltimeCommandArguments(output: string)
    ensures FulltimeCommand(output)[0] == "ffmpeg"
    ensures FulltimeCommand(output)[|FulltimeCommand(output)| - 2..] == ["-y", output]
    ensures OptionValue(FulltimeCommand(output), "-f") == Some("gdigrab")
    ensures OptionValue(FulltimeCommand(output), "-framerate") == Some("30")
    ensures OptionValue(FulltimeCommand(output), "-i") == Some("desktop")
  {
    FulltimeFormatArgument(output);
    FulltimeRateArgument(output);
    FulltimeInputArgument(output);
  }

  /** `os.path.join(buffer_dir, "buffer_%04d.mp4")`. */
  function SegmentPattern(bufferDir: string): string {
    Join(bufferDir, "buffer_%04d.mp4")
  }

  function BufferCommand(wrap: int, pattern: string): seq<string> {
    CaptureArgs + [
      "-f", "segment",
      "-segment_time", Decimal.IntToString(SegmentDuration),
      "-segment_wrap", Decimal.IntToString(wrap),
      "-reset_timestamps", "1",
      "-y", pattern]
  }

  function ConcatCommand(manifestPath: string, output: string): seq<string> {
    ["ffmpeg", "-f", "concat", "-safe", "0", "-i", manifestPath, "-c", "copy", "-y", output]
  }

  lemma {:induction false} OptionValueSkips(a: seq<string>, b: seq<string>, flag: string)
    requires forall i :: 0 <= i < |a| ==> a[i] != flag
    requires |b| >= 2
    ensures OptionValue(a + b, flag) == OptionValue(b, flag)
    decreases |a|
  {
    if a != [] {
      assert (a + b)[0] == a[0] && (a + b)[1..] == a[1..] + b;
      OptionValueSkips(a[1..], b, flag);
    } else {
      assert a + b == b;
    }
  }

  /** A flag's value is the argument right after its first occurrence. */
  lemma OptionValueAt(a: seq<string>, flag: string, v: string, b: seq<string>)
    requires forall i :: 0 <= i < |a| ==> a[i] != flag
    ensures OptionValue(a + ([flag, v] + b), flag) == Some(v)
  {
    OptionValueSkips(a, [flag, v] + b, flag);
  }

  /** Where the two numbers sit in the segmented command. */
  lemma BufferCommandShape(wrap: int, pattern: string)
    ensures var t, w := Decimal.IntToString(SegmentDuration), Decimal.IntToString(wrap);
      var head := CaptureArgs + ["-f", "segment"];
      var tail := ["-reset_timestamps", "1", "-y", pattern];
      && BufferCommand(wrap, pattern) == head + (["-segment_time", t] + ["-segment_wrap", w, "-reset_timestamps", "1", "-y", pattern])
      && BufferCommand(wrap, pattern) == (head + ["-segment_time", t]) + (["-segment_wrap", w] + tail)
  {
  }

  lemma SegmentTimeArgument(wrap: int, pattern: string)
    ensures OptionValue(BufferCommand(wrap, pattern), "-segment_time") == Some(Decimal.IntToString(SegmentDuration))
  {
    var t, w := Decimal.IntToString(SegmentDuration), Decimal.IntToString(wrap);
    BufferCommandShape(wrap, pattern);
    OptionValueAt(CaptureArgs + ["-f", "segment"], "-segment_time", t, ["-segment_wrap", w, "-reset_timestamps", "1", "-y", pattern]);
  }

  lemma SegmentWrapArgument(wrap: int, pattern: string)
    ensures OptionValue(BufferCommand(wrap, pattern), "-segment_wrap") == Some(Decimal.IntToString(wrap))
  {
    var t, w := Decimal.IntToString(SegmentDuration), Decimal.IntToString(wrap);
    BufferCommandShape(wrap, pattern);
    OptionValueAt(CaptureArgs + ["-f", "segment"] + ["-segment_time", t], "-segment_wrap", w, ["-reset_timestamps", "1", "-y", pattern]);
  }

  /**
   * The segmented command hands FFmpeg the ring size and segment length the
   * recorder computed (as decimal strings that read back as those numbers),
   * and names the segment pattern as its output.
   */
  lemma BufferCommandArguments(wrap: int, pattern: string)
    ensures var args := BufferCommand(wrap, pattern);
      && OptionValue(args, "-segment_wrap").Some?
      && Decimal.ParseInt(OptionValue(args, "-segment_wrap").value) == Some(wrap)
      && OptionValue(args, "-segment_time").Some?
      && Decimal.ParseInt(OptionValue(args, "-segment_time").value) == Some(SegmentDuration)
      && args[|args| - 1] == pattern
  {
    SegmentTimeArgument(wrap, pattern);
    SegmentWrapArgument(wrap, pattern);
    Decimal.IntToStringRoundTrip(SegmentDuration);
    Decimal.IntToStringRoundTrip(wrap);
  }

  /** The concat step reads the manifest file and writes the output file. */
  lemma ConcatCommandArguments(manifestPath: string, output: string)
    ensures OptionValue(ConcatCommand(manifestPath, output), "-i") == Some(manifestPath)
    ensures OptionValue(ConcatCommand(manifestPath, output), "-f") == Some("concat")
    ensures ConcatCommand(manifestPath, output)[|ConcatCommand(manifestPath, output)| - 1] == output
  {
    var head := ["ffmpeg", "-f", "concat", "-safe", "0"];
    assert ConcatCommand(manifestPath, output) == head + (["-i", manifestPath] + ["-c", "copy", "-y", output]);
    OptionValueAt(head, "-i", manifestPath, ["-c", "copy", "-y", output]);
  }

  // ----- File names -----

  function RecordingName(timestamp: string): string {
    "recording_" + timestamp + ".mp4"
  }

  function ReplayName(timestamp: string): string {
    "replay_" + timestamp + ".mp4"
  }

  /**
   * A recording and a replay never share a file name, and each name
   * determines its timestamp, so two saves at different seconds never
   * overwrite each other.
   */
  lemma FileNamesDistinct(t1: string, t2: string)
    ensures RecordingName(t1) != ReplayName(t2)
    ensures RecordingName(t1) == RecordingName(t2) ==> t1 == t2
    ensures ReplayName(t1) == ReplayName(t2) ==> t1 == t2
  {
    assert RecordingName(t1)[0] == 'r' && RecordingName(t1)[2] == 'c';
    assert ReplayName(t2)[2] == 'p';
    if RecordingName(t1) == RecordingName(t2) {
      assert t1 == RecordingName(t1)[10..|RecordingName(t1)| - 4];
      assert t2 == RecordingName(t2)[10..|RecordingName(t2)| - 4];
    }
    if ReplayName(t1) == ReplayName(t2) {
      assert t1 == ReplayName(t1)[7..|ReplayName(t1)| - 4];
      assert t2 == ReplayName(t2)[7..|ReplayName(t2)| - 4];
    }
  }

  const ManifestName: string := "concat.txt"

  /** FFmpeg's `%04d`: the decimal digits, zero-padded on the left to at least four. */
  function Pad4(n: nat): (s: string)
    ensures |s| >= 4 && forall i :: 0 <= i < |s| ==> Decimal.IsDigit(s[i])
  {
    var d := Decimal.NatToString(n);
    if |d| >= 4 then d else seq(4 - |d|, _ => '0') + d
  }

  /** The file FFmpeg writes for segment number `k` of the ring. */
  function SegmentName(k: nat): string {
    "buffer_" + Pad4(k) + ".mp4"
  }

  lemma SuffixOf(a: string, b: string)
    ensures (a + b)[|a + b| - |b|..] == b
  {
  }

  /** Every segment FFmpeg writes is found by the save's glob and deleted by the clean-up. */
  lemma SegmentFilesMatch(k: nat)
    ensures Matches(SegmentName(k), SegmentFiles)
  {
    var p := Pad4(k);
    var name := SegmentName(k);
    assert name == "buffer_" + (p + ".mp4");
    assert name[..7] == "buffer_";
    SuffixOf("buffer_" + p, ".mp4");
  }

  /** The replay and manifest names are not buffer junk, so a clean-up of the same directory leaves them. */
  lemma SavedNamesSurviveCleanup(timestamp: string)
    ensures !Matches(ReplayName(timestamp), SegmentFiles)
    ensures !Matches(ReplayName(timestamp), PlaylistFiles)
    ensures !Matches(ReplayName(timestamp), FragmentFiles)
    ensures !Matches(ManifestName, SegmentFiles)
    ensures !Matches(ManifestName, PlaylistFiles)
    ensures !Matches(ManifestName, FragmentFiles)
  {
    var name := ReplayName(timestamp);
    assert name == ("replay_" + timestamp) + ".mp4";
    assert name[0] == 'r';
    SuffixOf("replay_" + timestamp, ".mp4");
    assert name[|name| - 3] == 'm';
    assert name[|name| - 4] == '.';
  }

  lemma SavedPathsAreNotJunk(timestamp: string, outputDir: string, bufferDir: string)
    ensures !IsBufferJunk(FilePath(outputDir, ReplayName(timestamp)), bufferDir)
    ensures !IsBufferJunk(FilePath(bufferDir, ManifestName), bufferDir)
  {
    SavedNamesSurviveCleanup(timestamp);
  }

  /**
   * The files after a save with segments: the manifest written, the concat
   * output if the step wrote one, the buffer cleaned, the manifest deleted.
   */
  function FilesAfterSave(files: map<FilePath, int>, locked: set<FilePath>, bufferDir: string,
                          manifestFile: FilePath, output: FilePath, env: Env): map<FilePath, int>
  {
    var written := files[manifestFile := env.now];
    var concatDone := if env.concatWrote then written[output := env.now] else written;
    Without(AfterCleanup(concatDone, locked, bufferDir), {manifestFile}, locked)
  }

  /** One failed-or-not `os.remove` is a `Without` of that one file. */
  lemma RemoveIsWithout(before: map<FilePath, int>, after: map<FilePath, int>, p: FilePath, locked: set<FilePath>, ok: bool)
    requires ok == (p in before && p !in locked)
    requires after == if ok then before - {p} else before
    ensures after == Without(before, {p}, locked)
  {
  }

  /**
   * After a save no unlocked buffer junk and no unlocked manifest remain, the
   * replay survives whenever the concat step wrote it, and every other file
   * that is not unlocked junk keeps its modification time.
   */
  lemma SaveLeavesReplayOnly(files: map<FilePath, int>, locked: set<FilePath>, timestamp: string,
                             outputDir: string, bufferDir: string, env: Env)
    requires env.timestamp == timestamp
    ensures var output := FilePath(outputDir, ReplayName(timestamp));
      var manifestFile := FilePath(bufferDir, ManifestName);
      var r := FilesAfterSave(files, locked, bufferDir, manifestFile, output, env);
      && Junk(r, bufferDir) <= locked
      && (manifestFile in r ==> manifestFile in locked)
      && (env.concatWrote ==> output in r && r[output] == env.now)
      && (forall p :: p in files && p != output && p != manifestFile && !(IsBufferJunk(p, bufferDir) && p !in locked)
            ==> p in r && r[p] == files[p])
  {
    SavedPathsAreNotJunk(timestamp, outputDir, bufferDir);
    var output := FilePath(outputDir, ReplayName(timestamp));
    var manifestFile := FilePath(bufferDir, ManifestName);
    assert output != manifestFile by {
      assert ReplayName(timestamp)[0] == 'r' && ManifestName[0] == 'c';
    }
  }

  // ----- The recorder -----

  class ScreenRecorder {
    const settings: Config.Settings
    const fs: FileSystem
    var currentMode: Option<Mode>
    var process: Option<Process>
    var currentOutputFile: Option<FilePath>
    var bufferStartTime: Option<int>
    /** The database's `add_video` calls so far. */
    var registered: seq<Registration>
    /** The concat steps run so far. */
    var concatRuns: seq<ConcatRun>

    /**
     * A recorder holds a process exactly when it is in a mode; in fulltime
     * mode the process records to the current output file, and in buffer
     * mode the start time is known.
     */
    predicate Valid()
      reads this
    {
      && (currentMode.None? <==> process.None?)
      && (currentMode == Some(Fulltime) ==>
            currentOutputFile.Some? && process == Some(Process(FulltimeCommand(currentOutputFile.value.Str()))))
      && (currentMode == Some(Buffer) ==> bufferStartTime.Some?)
    }

    constructor (settings: Config.Settings, fs: FileSystem)
      ensures Valid()
      ensures this.settings == settings && this.fs == fs
      ensures currentMode.None? && currentOutputFile.None? && bufferStartTime.None?
      ensures registered == [] && concatRuns == []
    {
      this.settings := settings;
      this.fs := fs;
      currentMode := None;
      process := None;
      currentOutputFile := None;
      bufferStartTime := None;
      registered := [];
      concatRuns := [];
    }

    /** `<app data>\.buffer`, where the ring's segments live. */
    function BufferDir(): string {
      Join(settings.appDataDir, ".buffer")
    }

    function OutputDir(): string
      requires settings.OutputDirIsStr()
      reads settings
    {
      settings.OutputDir().s
    }

    /** `_cleanup_buffer`: delete every `buffer_*.mp4`, `*.m3u8` and `*.ts` of the buffer directory, skipping failures. */
    method CleanupBuffer()
      modifies fs`files
      ensures fs.files == AfterCleanup(old(fs.files), fs.locked, BufferDir())
    {
      ghost var before := fs.files;
      var dir := BufferDir();
      fs.RemoveMatching(dir, SegmentFiles);
      fs.RemoveMatching(dir, PlaylistFiles);
      fs.RemoveMatching(dir, FragmentFiles);
      SweepsMakeCleanup(before, fs.locked, dir);
    }

    /** `is_recording`: a process is held. */
    function IsRecording(): (r: bool)
      requires Valid()
      reads this
      ensures r <==> process.Some?
    {
      currentMode.Some?
    }

    /** `get_mode`. */
    function GetMode(): (r: Option<Mode>)
      requires Valid()
      reads this
      ensures r.None? <==> process.None?
      ensures r == Some(Fulltime) ==> currentOutputFile.Some?
    {
      currentMode
    }

    /**
     * `start_fulltime`: refused while any mode is active; otherwise the buffer
     * is cleaned, the output path is chosen (and kept even when FFmpeg fails to
     * start), and the mode is set only when FFmpeg starts.
     */
    method StartFulltime(env: Env) returns (ok: bool)
      requires Valid() && settings.OutputDirIsStr()
      modifies this, fs`files
      ensures Valid()
      ensures old(currentMode).Some? ==> !ok && unchanged(this) && fs.files == old(fs.files)
      ensures old(currentMode).None? ==>
        && ok == env.spawnOk
        && fs.files == AfterCleanup(old(fs.files), fs.locked, BufferDir())
        && currentOutputFile == Some(FilePath(OutputDir(), RecordingName(env.timestamp)))
        && currentMode == (if ok then Some(Fulltime) else None)
        && bufferStartTime == old(bufferStartTime)
        && registered == old(registered) && concatRuns == old(concatRuns)
    {
      if currentMode.Some? {
        return false;
      }
      CleanupBuffer();
      var output := FilePath(OutputDir(), RecordingName(env.timestamp));
      currentOutputFile := Some(output);
      if env.spawnOk {
        process := Some(Process(FulltimeCommand(output.Str())));
        currentMode := Some(Fulltime);
        ok := true;
      } else {
        ok := false;
      }
    }

    /**
     * `stop_fulltime`: outside fulltime mode nothing happens. Otherwise FFmpeg
     * is stopped, the state goes back to idle, the recording is registered if
     * its file exists, and its path is returned whether or not it exists.
     */
    method StopFulltime() returns (path: Option<FilePath>)
      requires Valid()
      modifies this
      ensures Valid()
      ensures old(currentMode) != Some(Fulltime) ==> path.None? && unchanged(this)
      ensures old(currentMode) == Some(Fulltime) ==>
        && path == old(currentOutputFile) && path.Some?
        && old(process) == Some(Process(FulltimeCommand(path.value.Str())))
        && currentMode.None? && process.None? && currentOutputFile.None?
        && registered == old(registered) + (if path.value in fs.files then [Registration(path.value.Str(), Fulltime)] else [])
        && bufferStartTime == old(bufferStartTime) && concatRuns == old(concatRuns)
    {
      if currentMode != Some(Fulltime) || process.None? {
        return None;
      }
      path := currentOutputFile;
      process := None;
      currentMode := None;
      currentOutputFile := None;
      if path.value in fs.files {
        registered := registered + [Registration(path.value.Str(), Fulltime)];
      }
    }

    /**
     * `start_buffer`: refused while any mode is active; otherwise the buffer
     * is cleaned and FFmpeg is started on a ring of `MaxSegments` segments.
     */
    method StartBuffer(env: Env) returns (ok: bool)
      requires Valid() && settings.MinutesIsInt()
      modifies this, fs`files
      ensures Valid()
      ensures old(currentMode).Some? ==> !ok && unchanged(this) && fs.files == old(fs.files)
      ensures old(currentMode).None? ==>
        && ok == env.spawnOk
        && fs.files == AfterCleanup(old(fs.files), fs.locked, BufferDir())
        && (ok ==>
              && currentMode == Some(Buffer)
              && process == Some(Process(BufferCommand(
                   MaxSegments(settings.BufferDurationSeconds()), SegmentPattern(BufferDir()))))
              && bufferStartTime == Some(env.now))
        && (!ok ==> currentMode.None? && bufferStartTime == old(bufferStartTime))
        && currentOutputFile == old(currentOutputFile)
        && registered == old(registered) && concatRuns == old(concatRuns)
    {
      if currentMode.Some? {
        return false;
      }
      CleanupBuffer();
      var maxSegments := settings.BufferDurationSeconds() / SegmentDuration + 2;
      var pattern := SegmentPattern(BufferDir());
      if env.spawnOk {
        process := Some(Process(BufferCommand(maxSegments, pattern)));
        currentMode := Some(Buffer);
        bufferStartTime := Some(env.now);
        ok := true;
      } else {
        ok := false;
      }
    }

    /**
     * `save_buffer`: outside buffer mode nothing happens. Otherwise FFmpeg is
     * stopped and the state goes back to idle; with no segment files the save
     * ends there. With segments, the manifest lists them oldest first (ties in
     * path order) and `ConcatSegments` finishes the save.
     */
    method SaveBuffer(env: Env) returns (saved: Option<FilePath>, ghost order: seq<FilePath>)
      requires Valid() && settings.OutputDirIsStr()
      modifies this, fs`files
      ensures Valid()
      ensures old(currentMode) != Some(Buffer) ==> saved.None? && unchanged(this) && fs.files == old(fs.files)
      ensures old(currentMode) == Some(Buffer) ==>
        && currentMode.None? && process.None?
        && currentOutputFile == old(currentOutputFile) && bufferStartTime == old(bufferStartTime)
      ensures old(currentMode) == Some(Buffer) && GlobIn(old(fs.files), BufferDir(), SegmentFiles) == {} ==>
        && saved.None? && fs.files == old(fs.files)
        && registered == old(registered) && concatRuns == old(concatRuns)
      ensures old(currentMode) == Some(Buffer) && GlobIn(old(fs.files), BufferDir(), SegmentFiles) != {} ==>
        && Segments.Chronological(order, old(fs.files))
        && (forall p :: p in order <==> p in GlobIn(old(fs.files), BufferDir(), SegmentFiles))
        && Saved(old(fs.files), old(registered), old(concatRuns), order, env, saved)
    {
      order := [];
      if currentMode != Some(Buffer) || process.None? {
        return None, order;
      }
      process := None;
      currentMode := None;
      var dir := BufferDir();
      var found := fs.Glob(dir, SegmentFiles);
      Segments.OneDirectoryDistinct(found, dir);
      var byPath := Segments.SortByPath(found);
      if |byPath| == 0 {
        assert forall p :: p !in found;
        return None, order;
      }
      var segs := Segments.SortByMtime(byPath, fs.files);
      SameMembers(segs, byPath);
      order := segs;
      saved := ConcatSegments(segs, env);
    }

    lemma SameMembers(a: seq<FilePath>, b: seq<FilePath>)
      requires multiset(a) == multiset(b)
      ensures forall p :: p in a <==> p in b
    {
      forall p
        ensures p in a <==> p in b
      {
        assert p in a <==> multiset(a)[p] > 0;
        assert p in b <==> multiset(b)[p] > 0;
      }
    }

    /**
     * What a save with segments leaves behind, from the files, database calls
     * and concat runs before it: one concat run on the manifest of `order`;
     * the manifest written, then the output if the concat step wrote one, then
     * the buffer cleaned and the manifest deleted, whether or not the step
     * raised; the replay path returned and registered (when its file exists)
     * unless the step raised, whatever its exit code.
     */
    ghost predicate Saved(files0: map<FilePath, int>, registered0: seq<Registration>, runs0: seq<ConcatRun>,
                          order: seq<FilePath>, env: Env, saved: Option<FilePath>)
      requires settings.OutputDirIsStr()
      reads this, settings, fs
    {
      var output := FilePath(OutputDir(), ReplayName(env.timestamp));
      var manifestFile := FilePath(BufferDir(), ManifestName);
      && concatRuns == runs0 + [ConcatRun(Manifest.Text(Strs(order)), ConcatCommand(manifestFile.Str(), output.Str()))]
      && fs.files == FilesAfterSave(files0, fs.locked, BufferDir(), manifestFile, output, env)
      && saved == (if env.concat.Raised? then None else Some(output))
      && registered == registered0 + (if env.concat.Completed? && output in fs.files then [Registration(output.Str(), Buffer)] else [])
    }

    /** The end of `save_buffer` once the segments are known and ordered. */
    method ConcatSegments(segs: seq<FilePath>, env: Env) returns (saved: Option<FilePath>)
      requires settings.OutputDirIsStr()
      modifies this`registered, this`concatRuns, fs`files
      ensures Saved(old(fs.files), old(registered), old(concatRuns), segs, env, saved)
    {
      var dir := BufferDir();
      var output := FilePath(OutputDir(), ReplayName(env.timestamp));
      var manifestFile := FilePath(dir, ManifestName);
      ghost var files0 := fs.files;
      var text := Manifest.WriteManifest(Strs(segs));
      fs.Write(manifestFile, env.now);
      concatRuns := concatRuns + [ConcatRun(text, ConcatCommand(manifestFile.Str(), output.Str()))];
      if env.concatWrote {
        fs.Write(output, env.now);
      }
      ghost var concatDone := fs.files;
      CleanupBuffer();
      ghost var cleaned := fs.files;
      var removed := fs.Remove(manifestFile);
      RemoveIsWithout(cleaned, fs.files, manifestFile, fs.locked, removed);
      if env.concat.Raised? {
        return None;
      }
      if output in fs.files {
        registered := registered + [Registration(output.Str(), Buffer)];
      }
      saved := Some(output);
    }

    /** `cancel_buffer`: outside buffer mode nothing happens; otherwise FFmpeg is stopped and the buffer cleaned. */
    method CancelBuffer()
      requires Valid()
      modifies this, fs`files
      ensures Valid()
      ensures old(currentMode) != Some(Buffer) ==> unchanged(this) && fs.files == old(fs.files)
      ensures old(currentMode) == Some(Buffer) ==>
        && currentMode.None? && process.None?
        && fs.files == AfterCleanup(old(fs.files), fs.locked, BufferDir())
        && currentOutputFile == old(currentOutputFile) && bufferStartTime == old(bufferStartTime)
        && registered == old(registered) && concatRuns == old(concatRuns)
    {
      if currentMode != Some(Buffer) || process.None? {
        return;
      }
      process := None;
      currentMode := None;
      CleanupBuffer();
    }
  }
}
