/**
 * The alert decision and the SMS body the scheduler builds from one parsed
 * analysis result. The result is the dictionary json.loads produced from
 * the repaired model output.
 */
module Alert {
  import opened Wrappers
  import Clock

  /**
   * A JSON value as far as the alert path inspects it. Numbers, arrays and
   * nested objects are only ever passed to str(), so they are carried with
   * the text str() gives them.
   */
  datatype JsonValue = JNull | JBool(b: bool) | JStr(s: string) | JOther(text: string)

  type JsonObject = map<string, JsonValue>

  const WellBeingKey := "turtle_well_being"
  const NotesKey := "additional_notes"
  const Distressed := "distressed"
  const DefaultNotes := "No additional notes"
  const Header := "A turtle event has been detected at: "

  /** The seven lines of an alert body, in order: label and dictionary key. */
  const Labels := ["Turtle Well Being", "Carapace Up", "Entrapment", "Unusual Inactivity",
                   "Aggressive Interactions", "Eggs Present", "Additional Notes"]
  const Keys := [WellBeingKey, "carapace_up", "entrapment", "unusual_inactivity",
                 "aggressive_interactions", "eggs_present", NotesKey]

  /** dict.get(key, default). */
  function Get(m: JsonObject, key: string, default: JsonValue): JsonValue {
    if key in m then m[key] else default
  }

  /** Python's str() of a value. */
  function PyStr(v: JsonValue): string {
    match v
    case JNull => "None"
    case JBool(b) => if b then "True" else "False"
    case JStr(s) => s
    case JOther(text) => text
  }

  /** A value that `'...' + value` accepts: only a str; anything else raises TypeError. */
  function Concatenable(v: JsonValue): Option<string> {
    if v.JStr? then Some(v.s) else None
  }

  /**
   * The distress guard: `result.get("turtle_well_being") == "distressed"`.
   * A missing key reads as None, and only the string itself compares equal.
   */
  predicate ShouldAlert(m: JsonObject): (alert: bool)
    ensures alert <==> WellBeingKey in m && m[WellBeingKey].JStr? && m[WellBeingKey].s == Distressed
  {
    Get(m, WellBeingKey, JNull) == JStr(Distressed)
  }

  /** Each line followed by a newline, concatenated. */
  function UnLines(lines: seq<string>): string {
    if lines == [] then [] else lines[0] + "\n" + UnLines(lines[1..])
  }

  /**
   * The SMS body, or None when the concatenation raises TypeError because
   * the well-being or notes value present in the result is not a string.
   */
  function AlertMessage(now: Clock.DateTime, m: JsonObject): (msg: Option<string>)
    requires Clock.Valid(now)
    ensures msg.Some? <==> (WellBeingKey !in m || m[WellBeingKey].JStr?) && (NotesKey !in m || m[NotesKey].JStr?)
  {
    var wellBeing := Concatenable(Get(m, WellBeingKey, JStr(Distressed)));
    var notes := Concatenable(Get(m, NotesKey, JStr(DefaultNotes)));
    if wellBeing.None? || notes.None? then None
    else Some(UnLines(AlertLines(now, m)))
  }

  /** Index of the first newline in s, or |s| when there is none. */
  function FirstNewline(s: string): (i: nat)
    ensures i <= |s|
    ensures forall j :: 0 <= j < i ==> s[j] != '\n'
    ensures i < |s| ==> s[i] == '\n'
  {
    if s == [] || s[0] == '\n' then 0 else 1 + FirstNewline(s[1..])
  }

  /** The lines of a text, each without its terminating newline (str.splitlines for '\n'). */
  function SplitLines(s: string): seq<string>
    decreases |s|
  {
    if s == [] then []
    else
      var i := FirstNewline(s);
      if i == |s| then [s] else [s[..i]] + SplitLines(s[i + 1..])
  }

  lemma SplitLinesCons(line: string, rest: string)
    requires '\n' !in line
    ensures SplitLines(line + "\n" + rest) == [line] + SplitLines(rest)
  {
    var s := line + "\n" + rest;
    assert forall j :: 0 <= j < |line| ==> s[j] == line[j];
    assert s[|line|] == '\n';
    assert s[..|line|] == line;
    assert s[|line| + 1..] == rest;
  }

  /** Text built from single-line lines splits back into exactly those lines. */
  lemma {:induction false} SplitUnLines(lines: seq<string>)
    requires forall i :: 0 <= i < |lines| ==> '\n' !in lines[i]
    ensures SplitLines(UnLines(lines)) == lines
  {
    if lines != [] {
      SplitLinesCons(lines[0], UnLines(lines[1..]));
      SplitUnLines(lines[1..]);
    }
  }

  /** Text built by UnLines ends in a newline unless it is empty. */
  lemma {:induction false} UnLinesEndsInNewline(lines: seq<string>)
    requires lines != []
    ensures var s := UnLines(lines); |s| > 0 && s[|s| - 1] == '\n'
  {
    if |lines| > 1 {
      UnLinesEndsInNewline(lines[1..]);
    }
  }

  /** What the i-th labelled line shows for a result, with the per-field default. */
  function FieldText(m: JsonObject, i: nat): string
    requires i < 7
  {
    if i == 0 then PyStr(Get(m, WellBeingKey, JStr(Distressed)))
    else if i == 6 then PyStr(Get(m, NotesKey, JStr(DefaultNotes)))
    else PyStr(Get(m, Keys[i], JBool(false)))
  }

  /** None of the seven values the alert shows renders with a line break; other keys may. */
  predicate RenderedSingleLine(m: JsonObject) {
    forall i :: 0 <= i < |Keys| && Keys[i] in m ==> '\n' !in PyStr(m[Keys[i]])
  }

  lemma NoNewlineInConcat(a: string, b: string)
    requires '\n' !in a && '\n' !in b
    ensures '\n' !in a + b
  {
    forall j | 0 <= j < |a + b| ensures (a + b)[j] != '\n' {
      if j >= |a| { assert (a + b)[j] == b[j - |a|]; }
    }
  }

  lemma FieldTextSingleLine(m: JsonObject, i: nat)
    requires i < 7 && RenderedSingleLine(m)
    requires ShouldAlert(m) && (NotesKey !in m || m[NotesKey].JStr?)
    ensures '\n' !in Labels[i] + ": " + FieldText(m, i)
  {
    if Keys[i] in m { assert '\n' !in PyStr(m[Keys[i]]); }
    assert i == 0 ==> Keys[i] == WellBeingKey;
    assert i == 6 ==> Keys[i] == NotesKey;
    NoNewlineInConcat(Labels[i] + ": ", FieldText(m, i));
  }

  lemma FieldTextsSingleLine(m: JsonObject)
    requires RenderedSingleLine(m)
    requires ShouldAlert(m) && (NotesKey !in m || m[NotesKey].JStr?)
    ensures forall i :: 0 <= i < 7 ==> '\n' !in Labels[i] + ": " + FieldText(m, i)
  {
    forall i | 0 <= i < 7 ensures '\n' !in Labels[i] + ": " + FieldText(m, i) {
      FieldTextSingleLine(m, i);
    }
  }

  /** The seven labelled lines of an alert body, `label: value`, in the order of the label table. */
  function FieldLines(m: JsonObject): (f: seq<string>)
    ensures |f| == 7
    ensures forall i :: 0 <= i < 7 ==> f[i] == Labels[i] + ": " + FieldText(m, i)
  {
    seq(7, i requires 0 <= i < 7 => Labels[i] + ": " + FieldText(m, i))
  }

  /**
   * The eight lines of an alert body: the header with the time, then the
   * labelled lines. Where the well-being and notes values are strings (the
   * only case in which the message is built), their str() is the value itself.
   */
  function AlertLines(now: Clock.DateTime, m: JsonObject): seq<string>
    requires Clock.Valid(now)
  {
    [Header + Clock.AlertStamp(now)] + FieldLines(m)
  }

  lemma HeaderSingleLine(now: Clock.DateTime)
    requires Clock.Valid(now)
    ensures '\n' !in Header + Clock.AlertStamp(now)
  {
    NoNewlineInConcat(Header, Clock.AlertStamp(now));
  }

  lemma FieldLinesSingle(m: JsonObject)
    requires RenderedSingleLine(m)
    requires ShouldAlert(m) && (NotesKey !in m || m[NotesKey].JStr?)
    ensures forall i :: 0 <= i < |FieldLines(m)| ==> '\n' !in FieldLines(m)[i]
  {
    FieldTextsSingleLine(m);
  }

  lemma AlertLinesSingle(now: Clock.DateTime, m: JsonObject)
    requires Clock.Valid(now)
    requires ShouldAlert(m) && (NotesKey !in m || m[NotesKey].JStr?)
    requires RenderedSingleLine(m)
    ensures forall i :: 0 <= i < |AlertLines(now, m)| ==> '\n' !in AlertLines(now, m)[i]
  {
    var head := Header + Clock.AlertStamp(now);
    var f := FieldLines(m);
    var lines := [head] + f;
    assert lines == AlertLines(now, m);
    HeaderSingleLine(now);
    FieldLinesSingle(m);
    forall i | 0 <= i < |lines| ensures '\n' !in lines[i] {
      if i > 0 {
        assert lines[i] == f[i - 1];
      }
    }
  }

  /**
   * Layout of an alert body: the header with the time, then exactly seven
   * labelled lines in the fixed order, and a newline after every line.
   */
  lemma AlertLayout(now: Clock.DateTime, m: JsonObject)
    requires Clock.Valid(now)
    requires ShouldAlert(m) && (NotesKey !in m || m[NotesKey].JStr?)
    requires RenderedSingleLine(m)
    ensures AlertMessage(now, m).Some?
    ensures var msg := AlertMessage(now, m).value; msg[|msg| - 1] == '\n'
    ensures var lines := SplitLines(AlertMessage(now, m).value);
            |lines| == 8 && lines[0] == Header + Clock.AlertStamp(now) &&
            forall i :: 1 <= i < 8 ==> lines[i] == Labels[i - 1] + ": " + FieldText(m, i - 1)
  {
    var lines := AlertLines(now, m);
    var f := FieldLines(m);
    assert Get(m, WellBeingKey, JStr(Distressed)) == JStr(Distressed);
    assert AlertMessage(now, m) == Some(UnLines(lines));
    AlertLinesSingle(now, m);
    SplitUnLines(lines);
    UnLinesEndsInNewline(lines);
    forall i | 1 <= i < 8 ensures lines[i] == Labels[i - 1] + ": " + FieldText(m, i - 1) {
      assert lines[i] == f[i - 1];
    }
  }

  /**
   * What the labelled lines say: the well-being line always reads
   * "distressed" (the guard admits nothing else), a present boolean renders
   * as True/False, a missing indicator as False and missing notes as
   * "No additional notes".
   */
  lemma AlertFieldDefaults(m: JsonObject)
    requires ShouldAlert(m)
    ensures FieldText(m, 0) == Distressed
    ensures forall i :: 1 <= i <= 5 && Keys[i] !in m ==> FieldText(m, i) == "False"
    ensures forall i :: 1 <= i <= 5 && Keys[i] in m && m[Keys[i]].JBool? ==>
              FieldText(m, i) == (if m[Keys[i]].b then "True" else "False")
    ensures NotesKey !in m ==> FieldText(m, 6) == DefaultNotes
    ensures NotesKey in m && m[NotesKey].JStr? ==> FieldText(m, 6) == m[NotesKey].s
  {
  }
}
