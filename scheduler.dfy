/**
 * The scheduler's capture/analyse/alert loop. Every call the loop makes to
 * the outside world (the capture service, the directory listing, the model,
 * the JSON parser, the SMS provider, the clock) is replaced by the outcome
 * it had, one Step per cycle; the loop records what it does as a trace of
 * Actions.
 */
module Scheduler {
  import opened Wrappers
  import Clock
  import Paths
  import CaptureService = Capture
  import opened Alert

  /** Minutes between cycles when INTERVAL is not set. */
  const DefaultInterval := 10

  /** HOST_IMAGE_DIR and INTERVAL, read once at start-up. */
  datatype Config = Config(imageDir: string, interval: int)

  /** A directory entry and the creation time of the joined path. */
  datatype Entry = Entry(name: string, ctime: int)

  /** os.listdir: the entries in listing order, or the OSError it raised. */
  datatype Listing = ListError | Listed(entries: seq<Entry>)

  /** repair_json followed by json.loads: a decode error, a non-dict value, or a dict. */
  datatype Parsed = DecodeError | NotAnObject | Object(fields: JsonObject)

  /** What the GET to the capture service ended with. */
  datatype CaptureCall = Replied(code: int) | RequestFailed

  /** The outcomes of the outside calls one cycle makes, in the order it makes them. */
  datatype Step = Step(capture: CaptureCall, listing: Listing, analysisOk: bool,
                       parsed: Parsed, now: Clock.DateTime, smsOk: bool)

  /** The uncaught exception that ends the loop. */
  datatype Failure =
    | ListFailed        // os.listdir raised
    | AnalysisFailed    // opening the image or the model call raised
    | JsonDecodeFailed  // json.loads raised
    | NoGetMethod       // the parsed value has no .get (AttributeError)
    | MessageTypeError  // a non-string value in the message concatenation
    | SmsFailed         // the Twilio client raised
    | NegativeSleep     // time.sleep rejected a negative length (ValueError)
    | SleepOverflow     // the length does not fit time.sleep's nanosecond clock (OverflowError)

  /**
   * What the loop does, in order. Notify(message) is the call to
   * send_twilio_notification with that body; when the Twilio client raises,
   * it is followed by Crash(SmsFailed) and no SMS went out.
   */
  datatype Action = Capture | Analyze(path: string) | Notify(message: string) | Sleep(seconds: int) | Crash(why: Failure)

  /** The actions of one cycle and whether the loop goes on to another one. */
  datatype CycleResult = CycleResult(actions: seq<Action>, goesOn: bool)

  predicate ValidSteps(steps: seq<Step>) {
    forall i :: 0 <= i < |steps| ==> Clock.Valid(steps[i].now)
  }

  /**
   * run_capture: a RequestException (no answer, or raise_for_status on a
   * 4xx/5xx reply) is logged as an error and swallowed; either way the
   * function returns None. The result says whether an error was logged.
   */
  function RunCapture(call: CaptureCall): (errorLogged: bool)
    ensures call.RequestFailed? ==> errorLogged
    ensures call.Replied? && 400 <= call.code < 500 ==> errorLogged   // client error
    ensures call.Replied? && 500 <= call.code < 600 ==> errorLogged   // server error
    ensures call.Replied? && (call.code < 400 || call.code >= 600) ==> !errorLogged
  {
    call.RequestFailed? || 400 <= call.code < 600
  }

  /** A capture the service answers as capture_now does is logged as an error exactly when it failed. */
  lemma CaptureErrorLogged(outputDir: string, existing: set<string>, now: Clock.DateTime, ffmpeg: CaptureService.Ffmpeg)
    requires Clock.Valid(now)
    ensures var resp := CaptureService.CaptureNow(Some(outputDir), existing, now, ffmpeg);
            RunCapture(Replied(resp.code)) <==> CaptureService.ImageCapture(Some(outputDir), existing, now, ffmpeg).result != CaptureService.PyTrue
  {
  }

  /**
   * max(entries, key=getctime): the first entry whose creation time no
   * other entry exceeds. Python's max keeps the earliest of equal keys.
   */
  function LatestIndex(entries: seq<Entry>): (k: nat)
    requires entries != []
    ensures k < |entries|
    ensures forall j :: 0 <= j < |entries| ==> entries[j].ctime <= entries[k].ctime
    ensures forall j :: 0 <= j < k ==> entries[j].ctime < entries[k].ctime
  {
    if |entries| == 1 then 0
    else
      var k := LatestIndex(entries[..|entries| - 1]);
      if entries[|entries| - 1].ctime > entries[k].ctime then |entries| - 1 else k
  }

  /** The path of the newest entry, joined onto the image directory; no entry is filtered out. */
  function LatestImage(imageDir: string, entries: seq<Entry>): (path: string)
    requires entries != []
    ensures exists k :: 0 <= k < |entries| && path == Paths.Join(imageDir, entries[k].name) &&
                        forall j :: 0 <= j < |entries| ==> entries[j].ctime <= entries[k].ctime
  {
    var k := LatestIndex(entries);
    Paths.Join(imageDir, entries[k].name)
  }

  /**
   * The longest length time.sleep accepts: CPython first converts the
   * length to a signed 64-bit count of nanoseconds, so |seconds| may not
   * exceed (2^63 - 1) / 10^9, rounded toward zero.
   */
  const MaxSleepSeconds := 9_223_372_036

  /**
   * time.sleep(seconds): OverflowError when the length does not fit the
   * nanosecond clock, then ValueError when it is negative, else a sleep.
   */
  function SleepFor(seconds: int): (a: Action)
    ensures a.Sleep? <==> 0 <= seconds <= MaxSleepSeconds
    ensures a.Sleep? ==> a.seconds == seconds
    ensures a.Crash? <==> !a.Sleep?
    ensures -MaxSleepSeconds <= seconds < 0 ==> a == Crash(NegativeSleep)
    ensures a == Crash(SleepOverflow) <==> seconds * 1_000_000_000 < -0x8000_0000_0000_0000 || seconds * 1_000_000_000 > 0x7fff_ffff_ffff_ffff
  {
    if seconds < -MaxSleepSeconds || seconds > MaxSleepSeconds then Crash(SleepOverflow)
    else if seconds < 0 then Crash(NegativeSleep)
    else Sleep(seconds)
  }

  /** Sleep for the interval; the loop goes on exactly when time.sleep did not raise. */
  function Finish(cfg: Config, actions: seq<Action>): (r: CycleResult)
    ensures |r.actions| == |actions| + 1 && r.actions[..|actions|] == actions
    ensures r.goesOn <==> r.actions[|actions|] == Sleep(cfg.interval * 60)
    ensures r.goesOn <==> 0 <= cfg.interval * 60 <= MaxSleepSeconds
    ensures !r.goesOn ==> r.actions[|actions|].Crash?
    ensures r.actions[|actions|] == SleepFor(cfg.interval * 60)
  {
    var a := SleepFor(cfg.interval * 60);
    CycleResult(actions + [a], a.Sleep?)
  }

  /** One iteration of the `while True` body. */
  function Cycle(cfg: Config, s: Step): (r: CycleResult)
    requires Clock.Valid(s.now)
    ensures EndsByException(r) && r.actions[0] == Capture
    ensures r.goesOn && !r.actions[|r.actions| - 1].Sleep? ==> s.listing == Listed([]) && r.actions == [Capture]
  {
    match s.listing
    case ListError => CycleResult([Capture, Crash(ListFailed)], false)
    case Listed(entries) =>
      if entries == [] then CycleResult([Capture], true)
      else
        var analyzed := [Capture, Analyze(LatestImage(cfg.imageDir, entries))];
        if !s.analysisOk then CycleResult(analyzed + [Crash(AnalysisFailed)], false)
        else
          match s.parsed
          case DecodeError => CycleResult(analyzed + [Crash(JsonDecodeFailed)], false)
          case NotAnObject => CycleResult(analyzed + [Crash(NoGetMethod)], false)
          case Object(m) => Respond(cfg, s, m, analyzed)
  }

  /** The rest of a cycle once the analysis parsed to a dictionary: the distress guard, the SMS, the sleep. */
  function Respond(cfg: Config, s: Step, m: JsonObject, analyzed: seq<Action>): (r: CycleResult)
    requires Clock.Valid(s.now)
    ensures |r.actions| > |analyzed| && r.actions[..|analyzed|] == analyzed
    ensures EndsByException(r)
    ensures r.goesOn ==> r.actions[|r.actions| - 1] == Sleep(cfg.interval * 60)
    ensures r.actions[|analyzed|].Notify? <==> ShouldAlert(m) && AlertMessage(s.now, m).Some?
  {
    if !ShouldAlert(m) then Finish(cfg, analyzed)
    else
      match AlertMessage(s.now, m)
      case None => CycleResult(analyzed + [Crash(MessageTypeError)], false)
      case Some(msg) =>
        if !s.smsOk then CycleResult(analyzed + [Notify(msg)] + [Crash(SmsFailed)], false)
        else Finish(cfg, analyzed + [Notify(msg)])
  }

  /** Each cycle's result, from its own outcomes. */
  function Cycles(cfg: Config, steps: seq<Step>): (results: seq<CycleResult>)
    requires ValidSteps(steps)
    ensures |results| == |steps|
    ensures forall i :: 0 <= i < |steps| ==> results[i] == Cycle(cfg, steps[i])
  {
    seq(|steps|, i requires 0 <= i < |steps| => Cycle(cfg, steps[i]))
  }

  /** Cycle after cycle, up to and including the first that does not go on. */
  function Chain(results: seq<CycleResult>): seq<Action> {
    if results == [] then []
    else if results[0].goesOn then results[0].actions + Chain(results[1..])
    else results[0].actions
  }

  /** The actions of the loop over a run of cycle outcomes, up to the first uncaught exception. */
  function Trace(cfg: Config, steps: seq<Step>): (t: seq<Action>)
    requires ValidSteps(steps)
    ensures steps == [] <==> t == []
    ensures steps != [] ==> t[0] == Capture
  {
    Chain(Cycles(cfg, steps))
  }

  /**
   * One pass through the `while True` body, as the Python writes it: the
   * empty-directory branch returns to the top of the loop without sleeping,
   * an exception ends the loop (goesOn is false).
   */
  method RunCycle(cfg: Config, step: Step) returns (actions: seq<Action>, goesOn: bool)
    requires Clock.Valid(step.now)
    ensures CycleResult(actions, goesOn) == Cycle(cfg, step)
  {
    actions := [Capture];
    var _ := RunCapture(step.capture);
    if step.listing.ListError? {
      return actions + [Crash(ListFailed)], false;
    }
    var imageFiles := step.listing.entries;
    if imageFiles == [] {
      return actions, true;
    }
    var latestImage := LatestImage(cfg.imageDir, imageFiles);
    actions := [Capture, Analyze(latestImage)];
    if !step.analysisOk {
      return actions + [Crash(AnalysisFailed)], false;
    }
    if step.parsed.DecodeError? {
      return actions + [Crash(JsonDecodeFailed)], false;
    } else if step.parsed.NotAnObject? {
      return actions + [Crash(NoGetMethod)], false;
    }
    var imageAnalysisResult := step.parsed.fields;
    assert Cycle(cfg, step) == Respond(cfg, step, imageAnalysisResult, actions);
    if ShouldAlert(imageAnalysisResult) {
      var message := AlertMessage(step.now, imageAnalysisResult);
      if message.None? {
        return actions + [Crash(MessageTypeError)], false;
      }
      actions := actions + [Notify(message.value)];
      if !step.smsOk {
        return actions + [Crash(SmsFailed)], false;
      }
    }
    assert Cycle(cfg, step) == Finish(cfg, actions);
    var seconds := cfg.interval * 60;
    if seconds < -MaxSleepSeconds || seconds > MaxSleepSeconds {
      return actions + [Crash(SleepOverflow)], false;
    }
    if seconds < 0 {
      return actions + [Crash(NegativeSleep)], false;
    }
    actions := actions + [Sleep(seconds)];
    goesOn := true;
  }

  /** One more cycle of a chain already walked up to position i. */
  lemma ChainAt(results: seq<CycleResult>, i: nat, done: seq<Action>)
    requires i < |results| && done + Chain(results[i..]) == Chain(results)
    ensures results[i].goesOn ==> (done + results[i].actions) + Chain(results[i + 1..]) == Chain(results)
    ensures !results[i].goesOn ==> done + results[i].actions == Chain(results)
  {
    var r := results[i..];
    assert r[0] == results[i];
    assert r[1..] == results[i + 1..];
    if results[i].goesOn {
      assert Chain(r) == results[i].actions + Chain(results[i + 1..]);
      assert done + (results[i].actions + Chain(results[i + 1..])) ==
             (done + results[i].actions) + Chain(results[i + 1..]);
    } else {
      assert Chain(r) == results[i].actions;
    }
  }

  /**
   * schedule_loop, driven by one Step per iteration: capture, list the
   * directory, go straight back to capture when it is empty, otherwise
   * analyse the newest file, parse, alert on distress and sleep. It stops
   * at the first exception, or when the outcomes run out.
   */
  method ScheduleLoop(cfg: Config, steps: seq<Step>) returns (trace: seq<Action>)
    requires ValidSteps(steps)
    ensures trace == Trace(cfg, steps)
  {
    trace := [];
    ghost var results := Cycles(cfg, steps);
    var i := 0;
    while i < |steps|
      invariant 0 <= i <= |steps|
      invariant trace + Chain(results[i..]) == Chain(results)
    {
      ChainAt(results, i, trace);
      var actions, goesOn := RunCycle(cfg, steps[i]);
      assert CycleResult(actions, goesOn) == results[i];
      trace := trace + actions;
      if !goesOn {
        return;
      }
      i := i + 1;
    }
  }

  // ---------------------------------------------------------------------
  // What one cycle does

  /** The bodies handed to send_twilio_notification, in order. */
  function Notices(t: seq<Action>): seq<string> {
    if t == [] then []
    else (if t[0].Notify? then [t[0].message] else []) + Notices(t[1..])
  }

  lemma {:induction false} NoticesAppend(a: seq<Action>, b: seq<Action>)
    ensures Notices(a + b) == Notices(a) + Notices(b)
  {
    if a == [] {
      assert a + b == b;
    } else {
      assert (a + b)[0] == a[0];
      assert (a + b)[1..] == a[1..] + b;
      NoticesAppend(a[1..], b);
    }
  }

  /** The cycle got as far as the distress guard: a file was found, analysed and parsed to a dictionary. */
  predicate Decides(s: Step) {
    s.listing.Listed? && s.listing.entries != [] && s.analysisOk && s.parsed.Object?
  }

  lemma QuietNotices(prefix: seq<Action>, a: Action)
    requires Notices(prefix) == [] && !a.Notify?
    ensures Notices(prefix + [a]) == []
  {
    NoticesAppend(prefix, [a]);
    assert [a][1..] == [];
  }

  /** From the distress guard on, the only SMS is the alert message, sent when the guard holds. */
  lemma RespondNotices(cfg: Config, s: Step, m: JsonObject, analyzed: seq<Action>)
    requires Clock.Valid(s.now) && Notices(analyzed) == []
    ensures Notices(Respond(cfg, s, m, analyzed).actions) ==
            if ShouldAlert(m) && AlertMessage(s.now, m).Some? then [AlertMessage(s.now, m).value] else []
  {
    var last := SleepFor(cfg.interval * 60);
    if !ShouldAlert(m) {
      assert Respond(cfg, s, m, analyzed).actions == analyzed + [last];
      QuietNotices(analyzed, last);
    } else if AlertMessage(s.now, m).None? {
      QuietNotices(analyzed, Crash(MessageTypeError));
    } else {
      var msg := AlertMessage(s.now, m).value;
      var sent := analyzed + [Notify(msg)];
      NoticesAppend(analyzed, [Notify(msg)]);
      assert [Notify(msg)][1..] == [];
      assert Notices(sent) == [msg];
      var next := if !s.smsOk then Crash(SmsFailed) else last;
      assert Respond(cfg, s, m, analyzed).actions == sent + [next];
      NoticesAppend(sent, [next]);
      assert [next][1..] == [];
    }
  }

  /**
   * A cycle calls send_twilio_notification at most once, and calls it
   * exactly when it reached the guard with a result whose
   * "turtle_well_being" is the string "distressed" and the message could be
   * built; the body is the alert message for the result. (Whether Twilio
   * delivers it is the step's smsOk.)
   */
  lemma CycleNotifiesOnDistress(cfg: Config, s: Step)
    requires Clock.Valid(s.now)
    ensures Notices(Cycle(cfg, s).actions) ==
            if Decides(s) && ShouldAlert(s.parsed.fields) && AlertMessage(s.now, s.parsed.fields).Some?
            then [AlertMessage(s.now, s.parsed.fields).value] else []
  {
    var c := Cycle(cfg, s);
    assert Notices([Capture]) == [] by {
      assert [Capture][1..] == [];
    }
    match s.listing
    case ListError =>
      assert c.actions == [Capture] + [Crash(ListFailed)];
      QuietNotices([Capture], Crash(ListFailed));
    case Listed(entries) =>
      if entries != [] {
        var path := LatestImage(cfg.imageDir, entries);
        var analyzed := [Capture, Analyze(path)];
        assert analyzed == [Capture] + [Analyze(path)];
        QuietNotices([Capture], Analyze(path));
        if !s.analysisOk {
          QuietNotices(analyzed, Crash(AnalysisFailed));
        } else {
          match s.parsed
          case DecodeError =>
            QuietNotices(analyzed, Crash(JsonDecodeFailed));
          case NotAnObject =>
            QuietNotices(analyzed, Crash(NoGetMethod));
          case Object(m) =>
            assert c == Respond(cfg, s, m, analyzed);
            RespondNotices(cfg, s, m, analyzed);
        }
      }
  }

  // ---------------------------------------------------------------------
  // The order of actions: a phase automaton every trace follows

  /** Where the loop stands between two actions. */
  datatype Phase = Ready | Captured | Analyzed | Notified | Stopped

  /** The exception each phase can end with. */
  predicate CrashAllowed(q: Phase, why: Failure) {
    match why
    case ListFailed => q == Captured
    case AnalysisFailed | JsonDecodeFailed | NoGetMethod | MessageTypeError => q == Analyzed
    case SmsFailed => q == Notified
    case NegativeSleep | SleepOverflow => q == Analyzed || q == Notified
  }

  /**
   * The allowed moves: capture from the top of the loop (or again right
   * after an empty listing), analyse after a capture, notify only after
   * an analysis, sleep exactly the interval after an analysis or a
   * notification, and nothing after an exception.
   */
  function Next(interval: int, q: Phase, a: Action): Option<Phase> {
    match a
    case Capture => if q == Ready || q == Captured then Some(Captured) else None
    case Analyze(_) => if q == Captured then Some(Analyzed) else None
    case Notify(_) => if q == Analyzed then Some(Notified) else None
    case Sleep(seconds) =>
      if (q == Analyzed || q == Notified) && seconds == interval * 60 && 0 <= seconds <= MaxSleepSeconds
      then Some(Ready) else None
    case Crash(why) => if CrashAllowed(q, why) then Some(Stopped) else None
  }

  function Walk(interval: int, q: Phase, t: seq<Action>): Option<Phase>
    decreases |t|
  {
    if t == [] then Some(q)
    else
      match Next(interval, q, t[0])
      case None => None
      case Some(q') => Walk(interval, q', t[1..])
  }

  /** A trace the automaton accepts: it ends at the top of the loop, after a capture, or stopped. */
  predicate Conforms(interval: int, t: seq<Action>) {
    var end := Walk(interval, Ready, t);
    end == Some(Ready) || end == Some(Captured) || end == Some(Stopped)
  }

  lemma {:induction false} WalkAppend(interval: int, q: Phase, a: seq<Action>, b: seq<Action>)
    ensures Walk(interval, q, a + b) ==
            if Walk(interval, q, a).None? then None else Walk(interval, Walk(interval, q, a).value, b)
    decreases |a|
  {
    if a == [] {
      assert a + b == b;
    } else {
      assert (a + b)[0] == a[0];
      assert (a + b)[1..] == a[1..] + b;
      if Next(interval, q, a[0]).Some? {
        WalkAppend(interval, Next(interval, q, a[0]).value, a[1..], b);
      }
    }
  }

  /** A cycle started at the top of the loop ends back there, after a capture, or stopped. */
  predicate CycleConforms(interval: int, c: CycleResult) {
    forall q :: q == Ready || q == Captured ==>
      var end := Walk(interval, q, c.actions);
      if c.goesOn then end == Some(Ready) || end == Some(Captured) else end == Some(Stopped)
  }

  /** The last part of a cycle, from the analysed phase on, ends as the cycle says. */
  lemma RespondWalk(cfg: Config, s: Step, m: JsonObject, analyzed: seq<Action>, q: Phase)
    requires Clock.Valid(s.now)
    requires Walk(cfg.interval, q, analyzed) == Some(Analyzed)
    ensures var c := Respond(cfg, s, m, analyzed);
            Walk(cfg.interval, q, c.actions) == Some(if c.goesOn then Ready else Stopped)
  {
    if ShouldAlert(m) && AlertMessage(s.now, m).Some? {
      NotifiedWalk(cfg, s, m, analyzed, q);
    } else {
      UnnotifiedWalk(cfg, s, m, analyzed, q);
    }
  }

  /** After an analysis or a notification, time.sleep either sleeps or raises. */
  lemma SleepStep(n: int)
    ensures var last := SleepFor(n * 60);
            Next(n, Analyzed, last) == Next(n, Notified, last) == Some(if last.Sleep? then Ready else Stopped)
  {
  }

  lemma UnnotifiedWalk(cfg: Config, s: Step, m: JsonObject, analyzed: seq<Action>, q: Phase)
    requires Clock.Valid(s.now) && !(ShouldAlert(m) && AlertMessage(s.now, m).Some?)
    requires Walk(cfg.interval, q, analyzed) == Some(Analyzed)
    ensures var c := Respond(cfg, s, m, analyzed);
            Walk(cfg.interval, q, c.actions) == Some(if c.goesOn then Ready else Stopped)
  {
    var n := cfg.interval;
    if !ShouldAlert(m) {
      SleepStep(n);
      StepWalk(n, q, analyzed, Analyzed, SleepFor(n * 60));
    } else {
      StepWalk(n, q, analyzed, Analyzed, Crash(MessageTypeError));
    }
  }

  lemma RespondSends(cfg: Config, s: Step, m: JsonObject, analyzed: seq<Action>)
    requires Clock.Valid(s.now) && ShouldAlert(m) && AlertMessage(s.now, m).Some?
    ensures var next := if s.smsOk then SleepFor(cfg.interval * 60) else Crash(SmsFailed);
            Respond(cfg, s, m, analyzed) ==
            CycleResult(analyzed + [Notify(AlertMessage(s.now, m).value)] + [next], next.Sleep?)
  {
  }

  lemma NotifiedWalk(cfg: Config, s: Step, m: JsonObject, analyzed: seq<Action>, q: Phase)
    requires Clock.Valid(s.now) && ShouldAlert(m) && AlertMessage(s.now, m).Some?
    requires Walk(cfg.interval, q, analyzed) == Some(Analyzed)
    ensures var c := Respond(cfg, s, m, analyzed);
            Walk(cfg.interval, q, c.actions) == Some(if c.goesOn then Ready else Stopped)
  {
    var n := cfg.interval;
    var msg := AlertMessage(s.now, m).value;
    var next := if s.smsOk then SleepFor(n * 60) else Crash(SmsFailed);
    RespondSends(cfg, s, m, analyzed);
    assert Respond(cfg, s, m, analyzed) == CycleResult(analyzed + [Notify(msg)] + [next], next.Sleep?);
    SleepStep(n);
    StepWalk(n, q, analyzed, Analyzed, Notify(msg));
    StepWalk(n, q, analyzed + [Notify(msg)], Notified, next);
  }

  lemma StepWalk(n: int, q: Phase, prefix: seq<Action>, p: Phase, a: Action)
    requires Walk(n, q, prefix) == Some(p) && Next(n, p, a).Some?
    ensures Walk(n, q, prefix + [a]) == Next(n, p, a)
  {
    WalkAppend(n, q, prefix, [a]);
    assert [a][1..] == [];
  }

  lemma AnalyzedWalk(n: int, q: Phase, path: string)
    requires q == Ready || q == Captured
    ensures Walk(n, q, [Capture, Analyze(path)]) == Some(Analyzed)
  {
    var t := [Capture, Analyze(path)];
    assert t[1..] == [Analyze(path)];
    assert [Analyze(path)][1..] == [];
    assert Walk(n, Captured, [Analyze(path)]) == Walk(n, Analyzed, []);
    assert Walk(n, q, t) == Walk(n, Captured, t[1..]);
  }

  lemma CycleWalk(cfg: Config, s: Step, q: Phase)
    requires Clock.Valid(s.now) && (q == Ready || q == Captured)
    ensures var c := Cycle(cfg, s); var end := Walk(cfg.interval, q, c.actions);
            if c.goesOn then end == Some(Ready) || end == Some(Captured) else end == Some(Stopped)
  {
    var n := cfg.interval;
    var c := Cycle(cfg, s);
    match s.listing
    case ListError =>
      assert c.actions == [Capture] + [Crash(ListFailed)];
      assert Walk(n, q, [Capture]) == Some(Captured) by {
        assert [Capture][1..] == [];
      }
      StepWalk(n, q, [Capture], Captured, Crash(ListFailed));
    case Listed(entries) =>
      if entries == [] {
        assert [Capture][1..] == [];
      } else {
        var analyzed := [Capture, Analyze(LatestImage(cfg.imageDir, entries))];
        AnalyzedWalk(n, q, LatestImage(cfg.imageDir, entries));
        if !s.analysisOk {
          assert c.actions == analyzed + [Crash(AnalysisFailed)];
          StepWalk(n, q, analyzed, Analyzed, Crash(AnalysisFailed));
        } else {
          match s.parsed
          case DecodeError =>
            assert c.actions == analyzed + [Crash(JsonDecodeFailed)];
            StepWalk(n, q, analyzed, Analyzed, Crash(JsonDecodeFailed));
          case NotAnObject =>
            assert c.actions == analyzed + [Crash(NoGetMethod)];
            StepWalk(n, q, analyzed, Analyzed, Crash(NoGetMethod));
          case Object(m) =>
            assert c == Respond(cfg, s, m, analyzed);
            RespondWalk(cfg, s, m, analyzed, q);
        }
      }
  }

  lemma CycleFollowsPhases(cfg: Config, s: Step)
    requires Clock.Valid(s.now)
    ensures CycleConforms(cfg.interval, Cycle(cfg, s))
  {
    forall q | q == Ready || q == Captured
      ensures var end := Walk(cfg.interval, q, Cycle(cfg, s).actions);
              if Cycle(cfg, s).goesOn then end == Some(Ready) || end == Some(Captured) else end == Some(Stopped)
    {
      CycleWalk(cfg, s, q);
    }
  }

  lemma {:induction false} ChainFollowsPhases(interval: int, q: Phase, results: seq<CycleResult>)
    requires q == Ready || q == Captured
    requires forall i :: 0 <= i < |results| ==> CycleConforms(interval, results[i])
    ensures var end := Walk(interval, q, Chain(results));
            end == Some(Ready) || end == Some(Captured) || end == Some(Stopped)
    decreases |results|
  {
    if results != [] {
      var c := results[0];
      assert CycleConforms(interval, c);
      if c.goesOn {
        WalkAppend(interval, q, c.actions, Chain(results[1..]));
        ChainFollowsPhases(interval, Walk(interval, q, c.actions).value, results[1..]);
      }
    }
  }

  /** Every trace of the loop follows the phase automaton. */
  lemma TraceConforms(cfg: Config, steps: seq<Step>)
    requires ValidSteps(steps)
    ensures Conforms(cfg.interval, Trace(cfg, steps))
  {
    var results := Cycles(cfg, steps);
    forall i | 0 <= i < |results| ensures CycleConforms(cfg.interval, results[i]) {
      CycleFollowsPhases(cfg, steps[i]);
    }
    ChainFollowsPhases(cfg.interval, Ready, results);
  }

  lemma StoppedIsFinal(interval: int, t: seq<Action>)
    requires Walk(interval, Stopped, t).Some?
    ensures t == []
  {
  }

  /**
   * What the automaton guarantees of any sequence it runs through: an
   * exception is the last action, every sleep lasts INTERVAL * 60 seconds
   * and fits time.sleep's clock,
   * every analysis directly follows a capture and every SMS directly
   * follows an analysis (so at most one SMS per analysed image).
   */
  lemma {:induction false} WalkGuarantees(interval: int, q: Phase, t: seq<Action>)
    requires Walk(interval, q, t).Some?
    ensures forall j :: 0 <= j < |t| && t[j].Crash? ==> j == |t| - 1
    ensures forall j :: 0 <= j < |t| && t[j].Sleep? ==> t[j].seconds == interval * 60 && 0 <= t[j].seconds <= MaxSleepSeconds
    ensures forall j :: 1 <= j < |t| && t[j].Analyze? ==> t[j - 1].Capture?
    ensures forall j :: 1 <= j < |t| && t[j].Notify? ==> t[j - 1].Analyze?
    ensures |t| > 0 && t[0].Analyze? ==> q == Captured
    ensures |t| > 0 && t[0].Notify? ==> q == Analyzed
    decreases |t|
  {
    if t != [] {
      var q' := Next(interval, q, t[0]).value;
      WalkGuarantees(interval, q', t[1..]);
      if t[0].Crash? {
        assert q' == Stopped;
        StoppedIsFinal(interval, t[1..]);
      }
      forall j | 1 <= j < |t| && t[j].Analyze? ensures t[j - 1].Capture? {
        assert t[1..][j - 1] == t[j];
      }
      forall j | 1 <= j < |t| && t[j].Notify? ensures t[j - 1].Analyze? {
        assert t[1..][j - 1] == t[j];
      }
      forall j | 0 <= j < |t| && t[j].Crash? ensures j == |t| - 1 {
        if j > 0 { assert t[1..][j - 1] == t[j]; }
      }
      forall j | 0 <= j < |t| && t[j].Sleep? ensures t[j].seconds == interval * 60 && 0 <= t[j].seconds <= MaxSleepSeconds {
        if j > 0 { assert t[1..][j - 1] == t[j]; }
      }
    }
  }

  /**
   * The order the loop keeps: the trace of the loop ends at its only
   * exception, if any; it sleeps exactly INTERVAL * 60 seconds each time,
   * a length time.sleep accepts;
   * an analysis always comes straight after a capture, and an SMS straight
   * after an analysis.
   */
  lemma TraceOrder(cfg: Config, steps: seq<Step>)
    requires ValidSteps(steps)
    ensures var t := Trace(cfg, steps);
            (forall j :: 0 <= j < |t| && t[j].Crash? ==> j == |t| - 1) &&
            (forall j :: 0 <= j < |t| && t[j].Sleep? ==> 0 <= t[j].seconds == cfg.interval * 60 <= MaxSleepSeconds) &&
            (forall j :: 0 <= j < |t| && t[j].Analyze? ==> j > 0 && t[j - 1].Capture?) &&
            (forall j :: 0 <= j < |t| && t[j].Notify? ==> j > 0 && t[j - 1].Analyze?)
  {
    TraceConforms(cfg, steps);
    WalkGuarantees(cfg.interval, Ready, Trace(cfg, steps));
  }

  /**
   * An INTERVAL whose length in seconds does not fit time.sleep's clock
   * never lets the loop sleep: the first cycle that reaches the sleep ends
   * the loop with OverflowError.
   */
  lemma OversizedIntervalNeverSleeps(cfg: Config, steps: seq<Step>)
    requires ValidSteps(steps) && cfg.interval * 60 > MaxSleepSeconds
    ensures var t := Trace(cfg, steps);
            forall j :: 0 <= j < |t| ==> !t[j].Sleep?
  {
    TraceOrder(cfg, steps);
  }

  /** The cycle got past the guard to time.sleep: no alert was due, or the SMS call returned. */
  predicate ReachesSleep(s: Step)
    requires Clock.Valid(s.now)
  {
    Decides(s) && (!ShouldAlert(s.parsed.fields) || (AlertMessage(s.now, s.parsed.fields).Some? && s.smsOk))
  }

  /**
   * Which exception ends a cycle that fails before the distress guard: each
   * failing outside call ends the loop with its own exception, straight after
   * the action that made the call.
   */
  lemma EarlyException(cfg: Config, s: Step)
    requires Clock.Valid(s.now)
    ensures s.listing.ListError? ==> Cycle(cfg, s) == CycleResult([Capture, Crash(ListFailed)], false)
    ensures var c := Cycle(cfg, s);
            s.listing.Listed? && s.listing.entries != [] && !s.analysisOk ==>
            !c.goesOn && |c.actions| == 3 && c.actions[2] == Crash(AnalysisFailed)
    ensures var c := Cycle(cfg, s);
            s.listing.Listed? && s.listing.entries != [] && s.analysisOk && s.parsed.DecodeError? ==>
            !c.goesOn && |c.actions| == 3 && c.actions[2] == Crash(JsonDecodeFailed)
    ensures var c := Cycle(cfg, s);
            s.listing.Listed? && s.listing.entries != [] && s.analysisOk && s.parsed.NotAnObject? ==>
            !c.goesOn && |c.actions| == 3 && c.actions[2] == Crash(NoGetMethod)
  {
    if s.listing.Listed? && s.listing.entries != [] {
      var analyzed := [Capture, Analyze(LatestImage(cfg.imageDir, s.listing.entries))];
      var c := Cycle(cfg, s);
      if !s.analysisOk {
        assert c == CycleResult(analyzed + [Crash(AnalysisFailed)], false);
      } else if s.parsed.DecodeError? {
        assert c == CycleResult(analyzed + [Crash(JsonDecodeFailed)], false);
      } else if s.parsed.NotAnObject? {
        assert c == CycleResult(analyzed + [Crash(NoGetMethod)], false);
      }
    }
  }

  /** From the distress guard on: which exception ends the cycle, or what time.sleep did. */
  lemma RespondException(cfg: Config, s: Step, m: JsonObject, analyzed: seq<Action>)
    requires Clock.Valid(s.now)
    ensures var c := Respond(cfg, s, m, analyzed);
            ShouldAlert(m) && AlertMessage(s.now, m).None? ==>
            !c.goesOn && |c.actions| == |analyzed| + 1 && c.actions[|analyzed|] == Crash(MessageTypeError)
    ensures var c := Respond(cfg, s, m, analyzed);
            ShouldAlert(m) && AlertMessage(s.now, m).Some? && !s.smsOk ==>
            !c.goesOn && |c.actions| == |analyzed| + 2 && c.actions[|analyzed| + 1] == Crash(SmsFailed)
    ensures var c := Respond(cfg, s, m, analyzed);
            !ShouldAlert(m) || (AlertMessage(s.now, m).Some? && s.smsOk) ==>
            c.actions[|c.actions| - 1] == SleepFor(cfg.interval * 60) &&
            (c.goesOn <==> 0 <= cfg.interval * 60 <= MaxSleepSeconds)
  {
    if !ShouldAlert(m) {
      assert Respond(cfg, s, m, analyzed) == Finish(cfg, analyzed);
    } else if AlertMessage(s.now, m).Some? {
      RespondSends(cfg, s, m, analyzed);
    }
  }

  /**
   * Which exception ends a cycle that reached the distress guard: TypeError
   * for a message that cannot be built, the Twilio error after the SMS call,
   * or time.sleep's own exception.
   */
  lemma LateException(cfg: Config, s: Step)
    requires Clock.Valid(s.now) && Decides(s)
    ensures var c := Cycle(cfg, s); var m := s.parsed.fields;
            ShouldAlert(m) && AlertMessage(s.now, m).None? ==>
            !c.goesOn && |c.actions| == 3 && c.actions[2] == Crash(MessageTypeError)
    ensures var c := Cycle(cfg, s); var m := s.parsed.fields;
            ShouldAlert(m) && AlertMessage(s.now, m).Some? && !s.smsOk ==>
            !c.goesOn && |c.actions| == 4 && c.actions[3] == Crash(SmsFailed)
    ensures var c := Cycle(cfg, s);
            ReachesSleep(s) ==>
            c.actions[|c.actions| - 1] == SleepFor(cfg.interval * 60) &&
            (c.goesOn <==> 0 <= cfg.interval * 60 <= MaxSleepSeconds)
  {
    var analyzed := [Capture, Analyze(LatestImage(cfg.imageDir, s.listing.entries))];
    CycleResponds(cfg, s);
    RespondException(cfg, s, s.parsed.fields, analyzed);
    assert |analyzed| == 2;
  }

  /** A cycle that reached the distress guard continues as Respond after the capture and the analysis. */
  lemma CycleResponds(cfg: Config, s: Step)
    requires Clock.Valid(s.now) && Decides(s)
    ensures Cycle(cfg, s) ==
            Respond(cfg, s, s.parsed.fields, [Capture, Analyze(LatestImage(cfg.imageDir, s.listing.entries))])
  {
  }

  /** Some outside call of the cycle raised, or time.sleep refused the interval. */
  predicate Raises(cfg: Config, s: Step)
    requires Clock.Valid(s.now)
  {
    s.listing.ListError? ||
    (s.listing.entries != [] &&
     (!s.analysisOk || !s.parsed.Object? ||
      (ShouldAlert(s.parsed.fields) && (AlertMessage(s.now, s.parsed.fields).None? || !s.smsOk)) ||
      !(0 <= cfg.interval * 60 <= MaxSleepSeconds)))
  }

  /**
   * A cycle ends the loop exactly when one of its calls raised: nothing in
   * the loop catches an exception, and nothing else stops it.
   */
  lemma CycleStops(cfg: Config, s: Step)
    requires Clock.Valid(s.now)
    ensures !Cycle(cfg, s).goesOn <==> Raises(cfg, s)
  {
    EarlyException(cfg, s);
    if Decides(s) {
      LateException(cfg, s);
    }
  }

  /**
   * A cycle ends with OverflowError exactly when it reaches time.sleep with
   * an INTERVAL whose length does not fit the nanosecond clock.
   */
  lemma SleepOverflowCycle(cfg: Config, s: Step)
    requires Clock.Valid(s.now)
    ensures var c := Cycle(cfg, s);
            c.actions[|c.actions| - 1] == Crash(SleepOverflow) <==>
            ReachesSleep(s) && (cfg.interval * 60 < -MaxSleepSeconds || cfg.interval * 60 > MaxSleepSeconds)
  {
    EarlyException(cfg, s);
    if Decides(s) {
      LateException(cfg, s);
    }
  }

  /** A cycle ends the loop exactly when its last action is an exception. */
  predicate EndsByException(c: CycleResult) {
    |c.actions| > 0 && (c.goesOn <==> !c.actions[|c.actions| - 1].Crash?)
  }

  predicate NoException(t: seq<Action>) {
    forall j :: 0 <= j < |t| ==> !t[j].Crash?
  }

  lemma {:induction false} ChainRunsUntilException(results: seq<CycleResult>)
    requires forall i :: 0 <= i < |results| ==> EndsByException(results[i])
    ensures NoException(Chain(results)) ==> forall i :: 0 <= i < |results| ==> results[i].goesOn
  {
    if results != [] {
      var c := results[0];
      var t := Chain(results);
      assert EndsByException(c);
      if c.goesOn {
        var rest := Chain(results[1..]);
        assert t == c.actions + rest;
        ChainRunsUntilException(results[1..]);
        if NoException(t) {
          forall j | 0 <= j < |rest| ensures !rest[j].Crash? {
            assert rest[j] == t[|c.actions| + j];
          }
          forall i | 0 <= i < |results| ensures results[i].goesOn {
            if i > 0 { assert results[i] == results[1..][i - 1]; }
          }
        }
      } else {
        assert t == c.actions;
        assert t[|c.actions| - 1].Crash?;
      }
    }
  }

  /**
   * The loop never leaves on its own: when no exception is raised, every
   * cycle's outcomes are consumed and every cycle goes on to the next.
   */
  lemma LoopOnlyStopsOnException(cfg: Config, steps: seq<Step>)
    requires ValidSteps(steps)
    ensures NoException(Trace(cfg, steps)) ==> forall i :: 0 <= i < |steps| ==> Cycle(cfg, steps[i]).goesOn
  {
    var results := Cycles(cfg, steps);
    assert forall i :: 0 <= i < |results| ==> EndsByException(results[i]);
    ChainRunsUntilException(results);
  }

  // ---------------------------------------------------------------------
  // Properties of the whole run

  lemma CyclesTail(cfg: Config, steps: seq<Step>)
    requires ValidSteps(steps) && steps != []
    ensures Cycles(cfg, steps)[1..] == Cycles(cfg, steps[1..])
  {
  }

  /**
   * An empty directory sends the loop straight back to capture: the cycle
   * is a lone capture, with no analysis, SMS or sleep, and the next cycle
   * follows at once.
   */
  lemma EmptyListingRecaptures(cfg: Config, steps: seq<Step>)
    requires ValidSteps(steps) && steps != [] && steps[0].listing == Listed([])
    ensures Trace(cfg, steps) == [Capture] + Trace(cfg, steps[1..])
  {
    CyclesTail(cfg, steps);
  }

  lemma CycleIgnoresCapture(cfg: Config, s: Step, call: CaptureCall)
    requires Clock.Valid(s.now)
    ensures Cycle(cfg, s.(capture := call)) == Cycle(cfg, s)
  {
  }

  /**
   * The capture call's outcome never changes what the loop does next:
   * run_capture swallows its errors and the loop lists the directory
   * either way.
   */
  lemma CaptureOutcomeIgnored(cfg: Config, steps: seq<Step>, calls: seq<CaptureCall>)
    requires ValidSteps(steps) && |calls| == |steps|
    ensures var other := seq(|steps|, i requires 0 <= i < |steps| => steps[i].(capture := calls[i]));
            ValidSteps(other) && Trace(cfg, other) == Trace(cfg, steps)
  {
    var other := seq(|steps|, i requires 0 <= i < |steps| => steps[i].(capture := calls[i]));
    forall i | 0 <= i < |steps| ensures Cycle(cfg, other[i]) == Cycle(cfg, steps[i]) {
      CycleIgnoresCapture(cfg, steps[i], calls[i]);
    }
    assert Cycles(cfg, other) == Cycles(cfg, steps);
  }

  // ---------------------------------------------------------------------
  // Image selection

  /** Every entry is a candidate, whatever its name: a strictly newest entry is the one analysed. */
  lemma NewestEntrySelected(imageDir: string, entries: seq<Entry>, k: nat)
    requires k < |entries|
    requires forall j :: 0 <= j < |entries| && j != k ==> entries[j].ctime < entries[k].ctime
    ensures LatestImage(imageDir, entries) == Paths.Join(imageDir, entries[k].name)
  {
    var l := LatestIndex(entries);
    assert entries[k].ctime <= entries[l].ctime;
  }

  /** No extension filter: a newer text file wins over older images. */
  lemma TextFileSelected()
    ensures LatestImage("/images", [Entry("a.png", 1), Entry("b.jpg", 2), Entry("c.txt", 3)]) == "/images/c.txt"
  {
    NewestOfThree();
    TextFilePath();
  }

  lemma NewestOfThree()
    ensures LatestImage("/images", [Entry("a.png", 1), Entry("b.jpg", 2), Entry("c.txt", 3)]) == Paths.Join("/images", "c.txt")
  {
    var entries := [Entry("a.png", 1), Entry("b.jpg", 2), Entry("c.txt", 3)];
    NewestEntrySelected("/images", entries, 2);
  }

  lemma TextFilePath()
    ensures Paths.Join("/images", "c.txt") == "/images/c.txt"
  {
  }

  /** With INTERVAL unset each full cycle sleeps ten minutes. */
  lemma DefaultSleepIsTenMinutes(imageDir: string, steps: seq<Step>)
    requires ValidSteps(steps)
    ensures var t := Trace(Config(imageDir, DefaultInterval), steps);
            forall j :: 0 <= j < |t| && t[j].Sleep? ==> t[j].seconds == 600
  {
    TraceOrder(Config(imageDir, DefaultInterval), steps);
  }
}
