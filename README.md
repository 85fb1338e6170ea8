# turtle-ai: scheduler and capture logic

This project models the deterministic decision logic of the turtle-habitat
monitor. A scheduler loop asks a capture service for a camera frame, picks the
newest file in the shared image directory, has a vision model describe it,
parses the answer as JSON and sends an SMS when the turtles are reported
`"distressed"`, then sleeps `INTERVAL` minutes. The capture service names each
frame `tr_YYYYmmdd_HHMMSS.jpg`, guards against a missing output directory, and
answers HTTP 200 or 500.

Each outside call is replaced by the outcome it had: the capture request, the
directory listing as `(name, ctime)` pairs, the model call, the JSON repair and
parse, the SMS send, the ffmpeg run and the clock. The loop is specified by the
function `Scheduler.Cycle` (one iteration) and `Scheduler.Trace` (iterations
until the first uncaught exception). It is implemented by the methods
`RunCycle` and `ScheduleLoop`, which build a trace of actions: `Capture`,
`Analyze(path)`, `Notify(message)`, `Sleep(seconds)` and `Crash(why)`.
`Notify(message)` is the call to `send_twilio_notification` with that body;
when the Twilio client raises, it is followed by `Crash(SmsFailed)`.

Modules:
- `Clock` (clock.dfy): the two strftime layouts, `%Y%m%d_%H%M%S` and `%Y-%m-%d %H:%M:%S`.
- `Paths` (paths.dfy): `posixpath.join` and `basename`.
- `Capture` (capture.dfy): capture/capture_image.py.
- `Alert` (alert.dfy): the distress guard and the SMS body.
- `Scheduler` (scheduler.dfy): `schedule_loop` and `run_capture`, plus a phase automaton that every trace follows.
- `Wrappers` (wrappers.dfy): `Option`.

## Model

| member | source | states |
|---|---|---|
| Clock.Padded | capture/capture_image.py:26 | A field of the stamp is exactly `width` decimal digits whose value is the number (strftime zero padding). |
| Clock.FileStamp | capture/capture_image.py:26 | `%Y%m%d_%H%M%S` is 15 characters: 8 digits, `_`, then 6 digits. |
| Clock.FileStampRoundTrip | capture/capture_image.py:26 | The capture time can be read back from the stamp: parse(stamp(t)) = t. |
| Clock.FileStampInjective | capture/capture_image.py:26-27 | Two different capture times never produce the same file name stamp. |
| Clock.AlertStamp | scheduler/scheduler.py:158 | `%Y-%m-%d %H:%M:%S` is 19 characters: digit fields of 4, 2, 2, 2, 2 and 2 separated by `-`, `-`, space, `:`, `:`, and so no line break. |
| Clock.AlertStampRoundTrip | scheduler/scheduler.py:158 | The alert header's time reads back as the reading it was made from: parse(stamp(t)) = t. |
| Paths.Join | scheduler/scheduler.py:140 | `os.path.join(dir, f)` ends with `f`. Unless `f` is absolute, it keeps `dir` as a prefix and adds at most one separator. |
| Paths.BasenameOfJoin | capture/capture_image.py:27 | A file name without `/` is the basename of any path it is joined onto. |
| Capture.CameraUrl | capture/capture_image.py:14-17 | The service refuses to start exactly when CAMERA_URL is unset or empty. |
| Capture.FileName | capture/capture_image.py:26-27 | The frame is named `tr_` + the 15-character stamp + `.jpg` (22 characters, no `/`). |
| Capture.OutputPathRecordsTime | capture/capture_image.py:26-27 | The output path lies in the requested directory, and its last component decodes back to the capture time. |
| Capture.ImageCapture | capture/capture_image.py:19-53 | A missing, empty or non-existent directory returns None and runs nothing. Otherwise ffmpeg writes the timestamped path, and the result is True exactly when the run completes and False on ffmpeg.Error. |
| Capture.CaptureNow | capture/capture_image.py:55-62 | `output_dir` defaults to `/images`. The answer is 200/"success" exactly when the directory is non-empty and exists and ffmpeg completes; otherwise it is 500/"error", including the None from the guard. |
| Alert.ShouldAlert | scheduler/scheduler.py:155 | The alert is sent exactly when the result has `turtle_well_being` and its value is the string `distressed`. A missing key reads as None and never matches. |
| Alert.SplitUnLines | scheduler/scheduler.py:158-165 | Text built from lines that each end in `\n` splits back into exactly those lines. |
| Alert.AlertMessage | scheduler/scheduler.py:158-165 | The message is built exactly when the well-being and notes values are strings or absent. Any other value makes the concatenation raise TypeError. |
| Alert.AlertLayout | scheduler/scheduler.py:158-165 | An alert body is the header with the time, then exactly seven lines in the order Turtle Well Being, Carapace Up, Entrapment, Unusual Inactivity, Aggressive Interactions, Eggs Present, Additional Notes. Each line is `label: value` and every line ends in `\n`. |
| Alert.AlertFieldDefaults | scheduler/scheduler.py:159-165 | Under the guard the well-being line reads `distressed`. A missing indicator shows `False` and a present boolean shows `True`/`False`. Missing notes show `No additional notes`. |
| Scheduler.RunCapture | scheduler/scheduler.py:97-104 | run_capture logs an error when the request raises and when `raise_for_status` raises, i.e. on a 4xx client error or a 5xx server error. Any other status is not an error. |
| Scheduler.CaptureErrorLogged | scheduler/scheduler.py:97-104 | When the capture service answers as capture_now does, run_capture logs an error exactly when the capture did not succeed (a 500 reply raises in raise_for_status and is swallowed). |
| Scheduler.LatestIndex | scheduler/scheduler.py:139-142 | `max(..., key=getctime)` picks an entry whose ctime no other entry exceeds. Every earlier entry is strictly older, so the first of equal maxima wins. |
| Scheduler.LatestImage | scheduler/scheduler.py:139-142 | The analysed path is one of the listed entries, joined onto the image directory, with the greatest ctime. |
| Scheduler.NewestEntrySelected | scheduler/scheduler.py:139-142 | Every entry is eligible whatever its name: a strictly newest entry is always the one selected. |
| Scheduler.TextFileSelected | scheduler/scheduler.py:135-142 | With `a.png`, `b.jpg` and a newer `c.txt`, the text file is analysed, because no extension filter is applied. |
| Scheduler.SleepFor | scheduler/scheduler.py:169 | `time.sleep` sleeps exactly when the length is between 0 and 9 223 372 036 seconds. A length whose nanosecond count does not fit a signed 64-bit integer raises OverflowError; any other negative length raises ValueError. |
| Scheduler.Finish | scheduler/scheduler.py:167-169 | The cycle's actions gain one final action, which is `time.sleep`'s outcome for INTERVAL * 60 (`SleepFor`). The loop goes on exactly when that action is a sleep of INTERVAL * 60 seconds, and otherwise it ends on an exception. |
| Scheduler.Respond | scheduler/scheduler.py:154-169 | The analysed prefix is kept. An SMS is attempted right after it exactly when the guard holds and the message could be built. The cycle ends on an exception or on a sleep of INTERVAL * 60 seconds. |
| Scheduler.Cycle | scheduler/scheduler.py:132-169 | Every iteration starts with a capture. It ends the loop exactly when its last action is an exception. It goes on without sleeping only when the listing was empty, and then it is a lone capture. |
| Scheduler.EarlyException | scheduler/scheduler.py:133-155 | Each failure before the distress guard ends the loop with its own exception, straight after the action that made the call. A listing error gives `[Capture, Crash(ListFailed)]`. A failed analysis call, a JSON decode error and a parsed value that is not a dict give `Crash(AnalysisFailed)`, `Crash(JsonDecodeFailed)` and `Crash(NoGetMethod)` right after the `Analyze`. |
| Scheduler.LateException | scheduler/scheduler.py:154-169 | From the guard on, a message that cannot be built ends the loop with `Crash(MessageTypeError)` after the `Analyze`. A Twilio error ends it with `Crash(SmsFailed)` after the `Notify`. A cycle that gets to `time.sleep` ends with `SleepFor(INTERVAL * 60)`, and goes on exactly when that length is accepted. |
| Scheduler.CycleStops | scheduler/scheduler.py:131-169 | A cycle ends the loop exactly when one of its calls raised or `time.sleep` refused the interval. Nothing in the loop catches an exception, and nothing else stops it. |
| Scheduler.Trace | scheduler/scheduler.py:131-169 | The loop does something exactly when it has outcomes to consume, and its first action is a capture. |
| Scheduler.RunCycle | scheduler/scheduler.py:132-169 | One iteration of the loop body produces exactly the actions and continuation that `Cycle` specifies. |
| Scheduler.ScheduleLoop | scheduler/scheduler.py:125-169 | The loop's trace is `Trace`: cycle after cycle, up to and including the first uncaught exception. |
| Scheduler.CycleNotifiesOnDistress | scheduler/scheduler.py:146-165 | A cycle calls `send_twilio_notification` at most once. It calls it exactly when a file was analysed, the answer parsed to a dict, `turtle_well_being` is the string `distressed` and the message was built, and the call carries that alert message. Whether Twilio then delivers is a separate outcome: a failed send is the `Notify` followed by `Crash(SmsFailed)`. |
| Scheduler.TraceConforms | scheduler/scheduler.py:131-169 | Every trace follows the phase automaton Capture → (Capture again on an empty directory \| Analyze → [Notify] → Sleep) with an exception only where that step can raise. |
| Scheduler.TraceOrder | scheduler/scheduler.py:131-169 | An exception is the last action. Every sleep lasts exactly INTERVAL * 60 seconds, a length that fits time.sleep's clock. Each analysis directly follows a capture and each SMS directly follows an analysis. |
| Scheduler.LoopOnlyStopsOnException | scheduler/scheduler.py:131-169 | When no exception is raised, every cycle goes on to the next; the loop has no other exit. |
| Scheduler.EmptyListingRecaptures | scheduler/scheduler.py:135-138 | An empty listing makes the cycle a lone capture, with no analysis, SMS or sleep, and the next capture follows at once. |
| Scheduler.CaptureOutcomeIgnored | scheduler/scheduler.py:133-135 | Whatever the capture request returned or raised, the loop's trace is the same: run_capture swallows the error and the directory is listed regardless. |
| Scheduler.OversizedIntervalNeverSleeps | scheduler/scheduler.py:169 | With INTERVAL above 153 722 867 minutes the loop never sleeps. |
| Scheduler.SleepOverflowCycle | scheduler/scheduler.py:154-169 | A cycle ends with OverflowError exactly when it gets to `time.sleep` and INTERVAL * 60 lies outside ±9 223 372 036 seconds. Getting there means no alert was due, or the SMS call returned. |
| Scheduler.DefaultSleepIsTenMinutes | scheduler/scheduler.py:27 | With INTERVAL at its default of 10, every sleep is 600 seconds. |

## Behaviour as written

The model follows the code in these places, where a more defensive design
might be expected:
- There is no extension filter. Every directory entry, including text files, can be analysed.
- A failed capture request does not skip the cycle. The directory is listed anyway, and there is no pause between capture and listing.
- No exception is caught inside the loop. Each of the following ends the scheduler thread: a listing error, an analysis call that raises, a JSON decode error, a parsed value that is not a dict, non-string notes, an SMS failure, a negative INTERVAL (ValueError) and an INTERVAL whose length in seconds overflows time.sleep's 64-bit nanosecond clock (OverflowError, above 153 722 867 minutes). `Scheduler.CycleStops` states that these are exactly the ways a cycle ends the loop.
- A response that does not parse does not become a default "unknown" record. It raises.
- No outside call has a bounded timeout. The capture request, the model call and the SMS send can each block the loop indefinitely; see "Left out".
- Nothing guards against starting a second loop, and there is no check for partially set messaging credentials.

## Left out

- Flask routes and the app servers of both services (`/image-analysis`, `/start-scheduler`, `/`): HTTP plumbing.
- Threading: `start_scheduler` starting a new daemon thread on every call is concurrency and is not modelled.
- The HTTP request to the capture service, the Ollama call with its base64 image and prompt, and the Twilio client: these network calls appear only as outcomes (`CaptureCall`, `analysisOk`, `smsOk`).
- `repair_json` and `json.loads`: library code, modelled as their result (`Parsed`).
- The ffmpeg pipeline: an external tool, modelled as `Ffmpeg` (completes or raises ffmpeg.Error).
- Exceptions other than ffmpeg.Error escaping image_capture are not modelled. Examples are a FileNotFoundError when the ffmpeg binary is missing, and a UnicodeDecodeError from the strict `e.stderr.decode()`. In both cases Flask answers a bare 500 without `{"status": "error"}`, so `CaptureNow` does not cover that reply.
- Calls that never return are not modelled: `requests.get` to the capture service, the Ollama client and the Twilio client are all made without a timeout. Each `Step` outcome is a call that returned or raised, so a cycle blocked forever in one of these calls cannot be expressed. The code sets no bounded timeout on any of them.
- `os.listdir`, `os.path.exists`, `os.path.getctime`, `datetime.now`, `time.strftime`'s clock and `time.sleep`: these become parameters and trace actions. `getctime` raising for a file removed after listing is not modelled. Creation times are integers rather than floats.
- Scheduler.ScheduleLoop: the source loops forever; the model runs over a finite sequence of cycle outcomes and stops when they run out.
- Alert.AlertLayout: the split into eight lines is stated for results whose seven displayed values contain no line break. A multi-line displayed value, such as a note, adds lines of its own. Keys the message does not show may hold anything.
- Clock.Valid: years before 1000 are excluded, because how `%Y` pads them depends on the platform.
- JSON numbers, arrays and nested objects are carried with the text `str()` gives them (`JOther`). Python's repr of these values is not computed.
- Logging is modelled only as whether run_capture logs an error (`RunCapture`); the log messages and the other log calls are not modelled.
- Reading environment variables, an unset HOST_IMAGE_DIR and a non-integer INTERVAL (which fails at import) are not modelled. Configuration values are parameters (`Config`).
- scheduler/prompts.py and the prompt text are constants that take no part in any decision.
