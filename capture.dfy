/**
 * The capture service: it grabs one frame from the camera into a
 * timestamped JPEG and reports the outcome over HTTP. The ffmpeg run, the
 * filesystem and the clock are inputs here.
 */
module Capture {
  import opened Wrappers
  import Clock
  import Paths

  /** Where frames go when the request names no directory. */
  const DefaultOutputDir := "/images"

  /** The value image_capture returns: Python's True, False or None. */
  datatype PyResult = PyTrue | PyFalse | PyNone

  /** How the ffmpeg pipeline ends: it completes, or raises ffmpeg.Error. */
  datatype Ffmpeg = FfmpegOk | FfmpegError

  /** One call of image_capture: the path ffmpeg was asked to write (if it ran) and the returned value. */
  datatype CaptureRun = CaptureRun(target: Option<string>, result: PyResult)

  /** The JSON body and status code capture_now answers with. */
  datatype Response = Response(status: string, message: string, code: int)

  /**
   * Start-up guard on CAMERA_URL: the module raises unless the variable
   * holds a non-empty string; otherwise the service uses that URL.
   */
  function CameraUrl(env: Option<string>): (url: Option<string>)
    ensures url.None? <==> env.None? || env.value == ""
    ensures url.Some? ==> url == env
  {
    if env.None? || env.value == "" then None else env
  }

  /** `tr_<stamp>.jpg`, stamped with the capture time. */
  function FileName(now: Clock.DateTime): (name: string)
    requires Clock.Valid(now)
    ensures |name| == 22 && name[..3] == "tr_" && name[18..] == ".jpg"
    ensures name[3..18] == Clock.FileStamp(now)
    ensures '/' !in name
  {
    var stamp := Clock.FileStamp(now);
    assert forall i :: 0 <= i < |stamp| ==> stamp[i] == '_' || Clock.IsDigit(stamp[i]);
    "tr_" + stamp + ".jpg"
  }

  /** Recovers the capture time from a file name the service wrote. */
  function ParseFileName(name: string): Option<Clock.DateTime> {
    if |name| == 22 && name[..3] == "tr_" && name[18..] == ".jpg" then Clock.ParseFileStamp(name[3..18])
    else None
  }

  function OutputPath(outputDir: string, now: Clock.DateTime): string
    requires Clock.Valid(now)
  {
    Paths.Join(outputDir, FileName(now))
  }

  /**
   * The frame lands in the requested directory and its name records when it
   * was taken: the directory is a prefix of the path and the capture time
   * can be read back from the path's last component.
   */
  lemma OutputPathRecordsTime(outputDir: string, now: Clock.DateTime)
    requires Clock.Valid(now)
    ensures outputDir <= OutputPath(outputDir, now)
    ensures ParseFileName(Paths.Basename(OutputPath(outputDir, now))) == Some(now)
  {
    Paths.BasenameOfJoin(outputDir, FileName(now));
    Clock.FileStampRoundTrip(now);
  }

  /**
   * image_capture(output_dir): a missing, empty or non-existent directory
   * returns None before anything runs; otherwise ffmpeg writes the
   * timestamped path and the result is True exactly when it completes.
   */
  function ImageCapture(outputDir: Option<string>, existing: set<string>, now: Clock.DateTime, ffmpeg: Ffmpeg): (run: CaptureRun)
    requires Clock.Valid(now)
    ensures run.target.None? <==> outputDir.None? || outputDir.value == "" || outputDir.value !in existing
    ensures run.result == PyNone <==> run.target.None?
    ensures run.target.Some? ==> run.target.value == OutputPath(outputDir.value, now)
    ensures run.result == PyTrue <==> run.target.Some? && ffmpeg == FfmpegOk
  {
    if outputDir.None? || outputDir.value == "" || outputDir.value !in existing then
      CaptureRun(None, PyNone)
    else
      var outputPath := OutputPath(outputDir.value, now);
      match ffmpeg
      case FfmpegOk => CaptureRun(Some(outputPath), PyTrue)
      case FfmpegError => CaptureRun(Some(outputPath), PyFalse)
  }

  /**
   * GET /capture-now: the `output_dir` query parameter, defaulting to
   * /images, is handed to image_capture; a truthy result answers success
   * with 200, anything falsy (False, or None from the directory guard)
   * answers error with 500.
   */
  function CaptureNow(outputDirParam: Option<string>, existing: set<string>, now: Clock.DateTime, ffmpeg: Ffmpeg): (resp: Response)
    requires Clock.Valid(now)
    ensures resp.code == 200 || resp.code == 500
    ensures resp.status == (if resp.code == 200 then "success" else "error")
    ensures var dir := if outputDirParam.Some? then outputDirParam.value else DefaultOutputDir;
            resp.code == 200 <==> dir != "" && dir in existing && ffmpeg == FfmpegOk
  {
    var outputDir := if outputDirParam.Some? then outputDirParam.value else DefaultOutputDir;
    var success := ImageCapture(Some(outputDir), existing, now, ffmpeg).result;
    if success == PyTrue then Response("success", "Image saved to output directory", 200)
    else Response("error", "Failed to capture image", 500)
  }
}
