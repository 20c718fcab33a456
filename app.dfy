/**
 * The hotkey dispatch of the application: F9 and F10 toggle a recording mode
 * according to the recorder's current mode, quitting drives the recorder back
 * to idle, and the overlay shows which mode is running.
 */
module App {
  import opened Options
  import opened Paths
  import opened Files
  import opened Recorder
  import Segments

  /** What the overlay's status label shows. */
  datatype Status = Idle | Rec | Buf

  /** The always-on-top overlay, reduced to its status label and whether it has been closed. */
  class Overlay {
    var status: Status
    var closed: bool

    constructor ()
      ensures status == Idle && !closed
    {
      status := Idle;
      closed := false;
    }

    /**
     * `update_status(mode, is_active)`: idle when the mode is "idle" or
     * nothing is active, otherwise the label of the named mode; a mode name it
     * does not know leaves the label as it was.
     */
    method UpdateStatus(mode: string, active: bool)
      modifies this`status
      ensures mode == "idle" || !active ==> status == Idle
      ensures mode != "idle" && active && mode == "fulltime" ==> status == Rec
      ensures mode != "idle" && active && mode == "buffer" ==> status == Buf
      ensures mode != "idle" && active && mode != "fulltime" && mode != "buffer" ==> status == old(status)
    {
      if mode == "idle" || !active {
        status := Idle;
      } else if mode == "fulltime" {
        status := Rec;
      } else if mode == "buffer" {
        status := Buf;
      }
    }

    /** `quit`: the window is destroyed; a failure is swallowed by the caller. */
    method Quit()
      modifies this`closed
      ensures closed
    {
      closed := true;
    }
  }

  class ScreenRecorderApp {
    const recorder: ScreenRecorder
    const overlay: Overlay
    /** How often the main window's video list has been refreshed. */
    var refreshes: nat

    /**
     * The recorder keeps its invariant, and `output_dir` holds a string (loading
     * the settings fails otherwise, and the setter stores strings).
     */
    predicate Valid()
      reads this, recorder, recorder.settings
    {
      recorder.Valid() && recorder.settings.OutputDirIsStr()
    }

    constructor (recorder: ScreenRecorder, overlay: Overlay)
      requires recorder.Valid() && recorder.settings.OutputDirIsStr()
      ensures Valid()
      ensures this.recorder == recorder && this.overlay == overlay && refreshes == 0
    {
      this.recorder := recorder;
      this.overlay := overlay;
      refreshes := 0;
    }

    /**
     * `_toggle_fulltime` (F9): in fulltime mode the recording is stopped, the
     * overlay goes idle and the video list is refreshed; when idle a recording
     * is started and the overlay shows it only if the start succeeded; while
     * buffering nothing happens.
     */
    method ToggleFulltime(env: Env)
      requires Valid()
      modifies this, recorder, recorder.fs`files, overlay
      ensures Valid()
      ensures old(recorder.currentMode) == Some(Fulltime) ==>
        && recorder.currentMode.None? && recorder.process.None? && recorder.currentOutputFile.None?
        && overlay.status == Idle && refreshes == old(refreshes) + 1
        && recorder.fs.files == old(recorder.fs.files)
        && old(recorder.process) == Some(Process(FulltimeCommand(old(recorder.currentOutputFile).value.Str())))
        && recorder.registered == old(recorder.registered)
             + (if old(recorder.currentOutputFile).value in recorder.fs.files
                then [Registration(old(recorder.currentOutputFile).value.Str(), Fulltime)] else [])
      ensures old(recorder.currentMode).None? ==>
        && (recorder.currentMode == Some(Fulltime) <==> env.spawnOk)
        && (recorder.currentMode.None? <==> !env.spawnOk)
        && overlay.status == (if env.spawnOk then Rec else old(overlay.status))
        && recorder.fs.files == AfterCleanup(old(recorder.fs.files), recorder.fs.locked, recorder.BufferDir())
        && recorder.currentOutputFile == Some(FilePath(recorder.OutputDir(), RecordingName(env.timestamp)))
        && (env.spawnOk ==> recorder.process == Some(Process(FulltimeCommand(recorder.currentOutputFile.value.Str()))))
        && recorder.registered == old(recorder.registered)
        && refreshes == old(refreshes)
      ensures old(recorder.currentMode) == Some(Buffer) ==>
        && unchanged(recorder) && unchanged(overlay) && refreshes == old(refreshes)
        && recorder.fs.files == old(recorder.fs.files)
      ensures recorder.bufferStartTime == old(recorder.bufferStartTime)
      ensures recorder.concatRuns == old(recorder.concatRuns) && overlay.closed == old(overlay.closed)
    {
      match recorder.GetMode() {
        case Some(Fulltime) =>
          var output := recorder.StopFulltime();
          overlay.UpdateStatus("idle", false);
          if output.Some? {
            refreshes := refreshes + 1;
          }
        case None =>
          var started := recorder.StartFulltime(env);
          if started {
            overlay.UpdateStatus("fulltime", true);
          }
        case Some(Buffer) =>
      }
    }

    /**
     * `_toggle_buffer` (F10): in buffer mode the buffer is saved (not
     * cancelled), the overlay goes idle and the video list is refreshed when a
     * replay was produced; when idle buffering is started and the overlay
     * shows it only if the start succeeded; during a fulltime recording
     * nothing happens.
     */
    method ToggleBuffer(env: Env) returns (ghost order: seq<FilePath>)
      requires Valid()
      requires recorder.currentMode.None? ==> recorder.settings.MinutesIsInt()
      modifies this, recorder, recorder.fs`files, overlay
      ensures Valid()
      ensures old(recorder.currentMode) == Some(Buffer) ==>
        && recorder.currentMode.None? && recorder.process.None?
        && recorder.currentOutputFile == old(recorder.currentOutputFile)
        && recorder.bufferStartTime == old(recorder.bufferStartTime)
        && overlay.status == Idle
      ensures old(recorder.currentMode) == Some(Buffer) && GlobIn(old(recorder.fs.files), recorder.BufferDir(), SegmentFiles) == {} ==>
        && recorder.fs.files == old(recorder.fs.files) && refreshes == old(refreshes)
        && recorder.registered == old(recorder.registered) && recorder.concatRuns == old(recorder.concatRuns)
      ensures old(recorder.currentMode) == Some(Buffer) && GlobIn(old(recorder.fs.files), recorder.BufferDir(), SegmentFiles) != {} ==>
        && Segments.Chronological(order, old(recorder.fs.files))
        && (forall p :: p in order <==> p in GlobIn(old(recorder.fs.files), recorder.BufferDir(), SegmentFiles))
        && recorder.Saved(old(recorder.fs.files), old(recorder.registered), old(recorder.concatRuns), order, env,
             if env.concat.Raised? then None else Some(FilePath(recorder.OutputDir(), ReplayName(env.timestamp))))
        && refreshes == old(refreshes) + (if env.concat.Raised? then 0 else 1)
      ensures old(recorder.currentMode).None? ==>
        && (recorder.currentMode == Some(Buffer) <==> env.spawnOk)
        && (recorder.currentMode.None? <==> !env.spawnOk)
        && overlay.status == (if env.spawnOk then Buf else old(overlay.status))
        && recorder.fs.files == AfterCleanup(old(recorder.fs.files), recorder.fs.locked, recorder.BufferDir())
        && (env.spawnOk ==>
              && recorder.process == Some(Process(BufferCommand(
                   MaxSegments(recorder.settings.BufferDurationSeconds()), SegmentPattern(recorder.BufferDir()))))
              && recorder.bufferStartTime == Some(env.now))
        && (!env.spawnOk ==> recorder.bufferStartTime == old(recorder.bufferStartTime))
        && recorder.currentOutputFile == old(recorder.currentOutputFile)
        && recorder.registered == old(recorder.registered) && recorder.concatRuns == old(recorder.concatRuns)
        && refreshes == old(refreshes)
      ensures old(recorder.currentMode) == Some(Fulltime) ==>
        && unchanged(recorder) && unchanged(overlay) && refreshes == old(refreshes)
        && recorder.fs.files == old(recorder.fs.files)
      ensures overlay.closed == old(overlay.closed)
    {
      order := [];
      match recorder.GetMode() {
        case Some(Buffer) =>
          var output;
          output, order := recorder.SaveBuffer(env);
          overlay.UpdateStatus("idle", false);
          if output.Some? {
            refreshes := refreshes + 1;
          }
        case None =>
          var started := recorder.StartBuffer(env);
          if started {
            overlay.UpdateStatus("buffer", true);
          }
        case Some(Fulltime) =>
      }
    }

    /**
     * `_quit`: a fulltime recording is stopped (and registered), buffering is
     * cancelled without saving, and the overlay is closed; the recorder ends
     * idle whatever mode it was in.
     */
    method Quit()
      requires Valid()
      modifies recorder, recorder.fs`files, overlay
      ensures Valid()
      ensures recorder.currentMode.None? && recorder.process.None? && overlay.closed
      ensures overlay.status == old(overlay.status)
      ensures old(recorder.currentMode) == Some(Fulltime) ==>
        && recorder.fs.files == old(recorder.fs.files) && recorder.currentOutputFile.None?
        && recorder.registered == old(recorder.registered)
             + (if old(recorder.currentOutputFile).value in recorder.fs.files
                then [Registration(old(recorder.currentOutputFile).value.Str(), Fulltime)] else [])
      ensures old(recorder.currentMode) == Some(Buffer) ==>
        && recorder.fs.files == AfterCleanup(old(recorder.fs.files), recorder.fs.locked, recorder.BufferDir())
        && recorder.currentOutputFile == old(recorder.currentOutputFile)
        && recorder.registered == old(recorder.registered)
      ensures old(recorder.currentMode).None? ==> unchanged(recorder) && recorder.fs.files == old(recorder.fs.files)
      ensures recorder.bufferStartTime == old(recorder.bufferStartTime)
      ensures recorder.concatRuns == old(recorder.concatRuns)
    {
      match recorder.GetMode() {
        case Some(Fulltime) =>
          var _ := recorder.StopFulltime();
        case Some(Buffer) =>
          recorder.CancelBuffer();
        case None =>
      }
      overlay.Quit();
    }
  }
}
