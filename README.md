# ScreenRecorder session engine, in Dafny

This project models the core of ScreenRecorder, a Windows background screen
recorder that drives FFmpeg. It covers three parts.

- **The recording-session engine** (`ScreenRecorder`, in `recorder.dfy`).
  - It is a three-state machine: idle, fulltime or buffer.
  - It holds at most one FFmpeg process and refuses to start a second session.
  - It builds the capture commands, including the segmented ring buffer whose
    size is `buffer_duration_seconds // 10 + 2`.
  - On a buffer save it collects the `buffer_*.mp4` segments and orders them
    by modification time, with ties broken by path. It writes the
    `concat.txt` manifest (in the model with the corrected quoting, see Findings), runs the concat step, then cleans the buffer
    directory and deletes the manifest, whether or not the step raised.
- **The settings store** (`Settings`, in `settings.dfy`, module `Config`): a key/value map
  filled with defaults on load, a buffer length clamped to 1..30 minutes, and
  the minutes-to-seconds conversion.
- **The hotkey dispatch** (`ScreenRecorderApp`, in `app.dfy`). F9 and F10
  start, stop or save according to the recorder's mode. Quitting brings the
  recorder back to idle. The overlay label shows the running mode.

The outside world is abstracted:
- An FFmpeg start either succeeds or fails (`Env.spawnOk`).
- The concat step either completes, with any exit code, or raises
  (`ConcatOutcome`). Whether it left an output file is a separate flag.
- The file system is a map from path to modification time, plus a set of
  files the operating system refuses to delete (`Files.FileSystem`).
- The timestamp and the clock are input values.
- The database's `add_video` calls and the concat runs are kept as lists on
  the recorder, so their number and arguments can be stated.

Supporting modules:
- `paths.dfy`: Windows `os.path.join`, glob patterns with their hidden-file
  rule, and the `os.sep` to `/` rewrite.
- `lex.dfy`: Python's string order.
- `decimal.dfy`: `str()` of an integer, and reading it back.
- `segments.dfy`: the two sorts of the save order.
- `manifest.dfy`: the manifest text, and a model of how FFmpeg's concat
  demuxer reads it. The reader gives the written text its meaning: a
  manifest is right when reading it yields the segment paths, in order.

Two behaviours of the code worth stating plainly, both modelled:
- `save_buffer` ignores the concat step's exit code (recorder.py:257-267);
  only an exception yields None.
- `stop_fulltime` returns the path whether or not the file exists
  (recorder.py:153); only the registration depends on it (recorder.py:147).

The recorder model writes the corrected manifest quoting (see Findings): for a
segment path holding an apostrophe, its manifest differs from the text
recorder.py:244 writes, which `Manifest.LineAsWritten` models.

## Model

| member | source | states |
|---|---|---|
| Recorder.MaxSegments | recorder.py:167 | the ring holds enough 10-second segments to cover the buffer length plus one: `(n-2)*10 <= seconds < (n-1)*10`, and at least 2 for any non-negative length |
| Recorder.DefaultRingSize | recorder.py:167 | the default 5-minute buffer keeps a ring of 32 segments |
| Recorder.RingSizeBounds | recorder.py:167 | every buffer length the settings setter allows gives a ring of 8 to 182 segments |
| Recorder.BufferCommandArguments | recorder.py:172-187 | FFmpeg reads `-segment_wrap` as the ring size and `-segment_time` as 10 (their decimal strings parse back to those numbers), and the last argument is the segment pattern |
| Recorder.FulltimeCommandArguments | recorder.py:95-106 | the fulltime command captures the desktop (`gdigrab`, `-i desktop`) at 30 frames per second and ends with `-y` and the output path, the path `StopFulltime` returns |
| Recorder.FileNamesDistinct | recorder.py:89-92 | a recording name (`recording_<timestamp>.mp4`) never equals a replay name (`replay_<timestamp>.mp4`, recorder.py:236), and each name determines its timestamp |
| Recorder.ConcatCommandArguments | recorder.py:247-255 | the concat step uses the concat demuxer, reads the manifest file, and writes the replay file |
| Decimal.IntToStringRoundTrip | recorder.py:182-183 | `int(str(n)) == n` for every integer |
| Recorder.SegmentFilesMatch | recorder.py:225 | every segment file FFmpeg writes from `buffer_%04d.mp4` is found by the save's `buffer_*.mp4` glob |
| Recorder.SavedNamesSurviveCleanup | recorder.py:54-73 | the replay and manifest file names match none of the three clean-up patterns |
| Recorder.SavedPathsAreNotJunk | recorder.py:54-73 | a buffer clean-up never deletes the replay file or the manifest |
| Recorder.SaveLeavesReplayOnly | recorder.py:257-274 | after a save no unlocked buffer junk and no unlocked manifest remain; the replay survives whenever the concat step wrote it; every other file keeps its time |
| Recorder.ScreenRecorder.constructor | recorder.py:19-31 | a new recorder is idle with no output file, no start time and no registrations |
| Recorder.ScreenRecorder.CleanupBuffer | recorder.py:54-73 | the buffer directory (`BufferDir`: `.buffer` joined to the app-data directory, recorder.py:38-43) loses exactly its unlocked `buffer_*.mp4`, `*.m3u8` and `*.ts` files; failures are skipped |
| Recorder.ScreenRecorder.IsRecording | recorder.py:301-303 | true exactly when a process is held |
| Recorder.ScreenRecorder.GetMode | recorder.py:305-307 | no mode exactly when no process is held; fulltime mode always has an output file |
| Recorder.ScreenRecorder.StartFulltime | recorder.py:75-120 | refused with no change while any mode is active; otherwise the buffer is cleaned and the output path is chosen as `recording_<timestamp>.mp4` in the settings' output directory (`OutputDir`, recorder.py:33-36); the mode becomes fulltime, recording to that path, exactly when FFmpeg starts; the result says whether it started |
| Recorder.ScreenRecorder.StopFulltime | recorder.py:122-153 | no change and None outside fulltime mode; otherwise returns the path chosen at start, the one FFmpeg was told to write, even if the file is missing, leaves mode, process and output file unset, and registers the file only if it exists |
| Recorder.ScreenRecorder.StartBuffer | recorder.py:155-202 | refused with no change while any mode is active; otherwise the buffer is cleaned; on a successful start the mode is buffer, the process runs the segmented command with the computed ring size, and the start time is the clock; a failed start leaves the recorder idle |
| Recorder.ScreenRecorder.SaveBuffer | recorder.py:204-240 | no change and None outside buffer mode; otherwise always ends idle; with no segments it returns None with no concat run and no file change; with segments the manifest order is chronological (ties by path) and holds every globbed segment and nothing else, and the corrected manifest of that order goes to the concat step |
| Recorder.ScreenRecorder.ConcatSegments | recorder.py:241-283 | one concat run on the corrected manifest of the ordered segments; clean-up and manifest removal happen whether or not the step raised; the replay path (`replay_<timestamp>.mp4` in the output directory, with the manifest `concat.txt` in the buffer directory) is returned unless the step raised, whatever the exit code; it is registered only if its file exists |
| Recorder.ScreenRecorder.CancelBuffer | recorder.py:285-299 | no change outside buffer mode; otherwise idle, the buffer cleaned, no concat and no registration |
| Files.AfterCleanup | recorder.py:54-73 | after a clean-up no unlocked junk remains, every other file keeps its time, and no file appears |
| Files.SweepsMakeCleanup | recorder.py:56-71 | the three glob-and-delete sweeps in a row delete exactly the unlocked junk of the directory |
| Files.FileSystem.Remove | recorder.py:58-61 | `os.remove` succeeds exactly on an existing unlocked file and then removes only that file |
| Files.FileSystem.RemoveMatching | recorder.py:57-61 | one sweep deletes every unlocked file its glob found and nothing else |
| Segments.SortByPath | recorder.py:225 | `sorted(glob(...))`: every found path exactly once, in increasing string order |
| Segments.SortByMtime | recorder.py:239 | the stable sort by modification time turns the path-ordered list into a permutation of itself that is oldest first, with ties kept in path order |
| Segments.SaveOrderUnique | recorder.py:225-239 | two chronological listings of the same segment files are the same sequence, so the save order is fully determined by the files and their times |
| Segments.ChronologicalUnique | recorder.py:225-239 | two chronological listings that are permutations of each other are equal |
| Manifest.LineAsWritten | recorder.py:244 | the line as written is the path plus 8 characters and ends in a newline |
| Manifest.WriteManifest | recorder.py:241-244 | the loop writes one line per segment, in list order |
| Manifest.ReadWrittenManifest | recorder.py:241-244 | FFmpeg reads the written manifest back as exactly the segment paths with forward slashes, one per line and in the same order, whatever apostrophes the paths hold |
| Manifest.LineAgreesWithoutApostrophe | recorder.py:244 | for a path without an apostrophe the corrected line is the line recorder.py writes |
| Manifest.AsWrittenLosesApostrophe | recorder.py:244 | a path `x'y` written as recorder.py writes it is read back by FFmpeg as `xy`, not as the path |
| Paths.ToForward | recorder.py:244 | `replace(os.sep, '/')`: the same length, no backslash left, and every other character unchanged |
| Paths.Join | recorder.py:41 | `os.path.join` keeps the directory as a prefix and the name as a suffix, with one separator between them unless the directory already ends in one or is a bare drive |
| Paths.JoinOrder | recorder.py:225 | within one directory, ordering full paths as strings orders them as their file names |
| Paths.JoinInjective | recorder.py:225 | two files of one directory have different path strings, so sorting them by path puts them in a strict order |
| Config.Defaults | settings.py:14-17 | the defaults are the output directory under the home directory and a 5-minute buffer |
| Config.WithDefaults | settings.py:40-43 | after default filling every default key is present, loaded keys keep their loaded values, and every other value comes from a default |
| Config.UnreadableGivesDefaults | settings.py:33-43 | an unreadable or invalid file yields exactly the defaults |
| Config.Clamp | settings.py:85 | the stored minutes lie in 1..30: an in-range value is kept, a smaller one becomes 1, a larger one 30 |
| Config.ClampIdempotent | settings.py:85 | clamping a stored value again changes nothing |
| Config.Settings.constructor | settings.py:19-29 | the app-data directory falls back to the home directory, and the map is the loaded file with the defaults filled in |
| Config.Settings.Load | settings.py:31-43 | the map becomes the file's map (empty when unreadable, the previous map when missing) with the missing defaults added, key by key |
| Config.Settings.Get | settings.py:56-58 | the stored value when the key is present, otherwise the caller's default |
| Config.Settings.Set | settings.py:60-63 | afterwards `get(key)` is the new value for every default, and every other key reads as before |
| Config.Settings.OutputDir | settings.py:65-68 | the stored output directory |
| Config.Settings.SetOutputDir | settings.py:70-75 | only the output directory changes, and reading it gives the new path |
| Config.Settings.BufferDurationMinutes | settings.py:77-80 | the stored value, unclamped, whatever the file held |
| Config.Settings.SetBufferDurationMinutes | settings.py:82-86 | only the buffer length changes; it is stored clamped to 1..30, so the seconds lie in 60..1800 |
| Config.Settings.BufferDurationSeconds | settings.py:88-91 | sixty times the stored minutes, and in 60..1800 for a setter-written value |
| App.Overlay.UpdateStatus | overlay.py:91-103 | idle when the mode is "idle" or nothing is active, otherwise REC or BUF for the named mode; any other mode name leaves the label unchanged |
| App.Overlay.Quit | overlay.py:113-117 | the overlay is closed |
| App.ScreenRecorderApp.constructor | main.py:20-34 | the application drives the given recorder and overlay, with no refreshes yet |
| App.ScreenRecorderApp.ToggleFulltime | main.py:54-63 | in fulltime mode it stops the recording, ends idle, shows idle and refreshes the video list; when idle it starts a recording to `recording_<timestamp>.mp4` in the output directory, running the fulltime command when the start succeeds, and shows REC only then; while buffering nothing changes; the buffer start time is never touched |
| App.ScreenRecorderApp.ToggleBuffer | main.py:65-74 | in buffer mode it saves (never cancels) with exactly the effects of `SaveBuffer` (order, concat run, files, registration; output file and start time kept), ends idle, shows idle and refreshes when a replay was produced; when idle it starts buffering and shows BUF only if the start succeeded; a successful start runs the segmented command with the ring size `MaxSegments` of the buffer length and records the clock as start time, a failed one keeps the start time; the output file is kept either way; during a fulltime recording nothing changes |
| App.ScreenRecorderApp.Quit | main.py:76-89 | the recorder ends idle whatever its mode: a fulltime recording is stopped and registered (if its file exists) and the output file cleared, buffering is cancelled without saving and the output file kept; the buffer start time is never touched; the overlay is closed |

## Left out

- FFmpeg process control is not modelled: writing `q`, waiting five seconds, killing. A start is a success-or-failure input; a stop always ends the process.
- `os.makedirs` for the buffer, output and app-data directories is not modelled; the model has no directories.
- The database is not modelled beyond the list of `add_video(path, mode)` calls; its failures are swallowed by the recorder.
- Tkinter, the main window, the overlay's window handling and the `keyboard` hotkey hooks are not modelled. The overlay is reduced to its status label and a closed flag; the main window to a refresh counter.
- JSON reading and writing and `Settings._save` are not modelled. A config file is missing, unreadable, or an already-parsed map of integers and strings; floats, booleans, null, lists and objects are not modelled. A float buffer length such as `2.5` passes `start_buffer` in Python and reaches FFmpeg as `-segment_wrap 17.0`; the model cannot express it.
- Recorder.ScreenRecorder.StartBuffer requires the stored buffer length to be a number, and App.ScreenRecorderApp.ToggleBuffer requires it when the recorder is idle: with another type `start_buffer` raises a `TypeError` at recorder.py:167, which is not modelled. Nothing else reads it.
- Recorder.ScreenRecorder.StartFulltime, SaveBuffer and ConcatSegments, and App.ScreenRecorderApp through its `Valid`, require `output_dir` to hold a string. Loading fails with a `TypeError` at settings.py:46 for any other value, and `SetOutputDir` stores strings; only `set("output_dir", <non-string>)` could break this, and the resulting `TypeError` at recorder.py:87 or 231 is not modelled.
- Recorder.ScreenRecorder.SaveBuffer and ConcatSegments record the corrected manifest (`Manifest.Text`) as the concat run's input, not the text of recorder.py:244; `Manifest.LineAsWritten` is the as-written line, and the two agree for paths without an apostrophe (`Manifest.LineAgreesWithoutApostrophe`).
- Config.Defaults builds the default output directory with the `ntpath` join; `pathlib` in settings.py:15 also turns `/` into `\` and collapses doubled separators, which is not modelled.
- The `get_settings()` and `get_database()` singletons are not modelled; the recorder is given its settings and file system.
- Glob matching is case-sensitive here, while Windows matches names case-insensitively; `glob` and `os.path.join` are the `ntpath` forms. The model matches the buffer and output directories literally, while Python's `glob` also treats a `*`, `?` or `[` in the directory itself as a pattern: with such a directory the save finds no segments and the clean-up deletes nothing, which the model does not capture.
- The `datetime` timestamp and `time.time()` are input values.
- Failing to write `concat.txt` is not modelled: an exception there would leave the recorder idle with the segments still on disk.
- The model of FFmpeg's concat reader skips the trailing-blank trim of `av_get_token`. Every directive other than `file` makes the model reader fail, where FFmpeg accepts some of them.
- The text mode of the manifest file turns `\n` into `\r\n` on Windows. The model reader treats `\r` as a line end too, so the written lines read back the same.
- Manifest.WriteManifest writes the corrected quoting (see Findings), not the line of recorder.py:244; `Manifest.LineAsWritten` is the line as written.

## Findings

| source | as written | input that shows it | evidently intended | confidence | as-written member | corrected member |
|---|---|---|---|---|---|---|
| recorder.py:244 | each manifest line is `file '<path>'` with the path's own apostrophes left unescaped | a buffer directory under `C:\Users\O'Neil\AppData\Roaming`: FFmpeg's concat reader ends the quote at the apostrophe and drops it, so it asks for a segment file that does not exist | FFmpeg reads back every segment path exactly, with `'` written as `'\''` inside the quotes | not executed | Manifest.AsWrittenLosesApostrophe | Manifest.ReadWrittenManifest |
