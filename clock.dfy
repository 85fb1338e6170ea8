/**
 * Wall-clock timestamps and the two strftime layouts the services use:
 * `%Y%m%d_%H%M%S` for capture file names and `%Y-%m-%d %H:%M:%S` for the
 * alert header. The clock itself is not modelled: a reading is passed in
 * as a broken-down DateTime.
 */
module Clock {
  import opened Wrappers

  datatype DateTime = DateTime(year: int, month: int, day: int, hour: int, minute: int, second: int)

  /** The readings datetime.now() and time.localtime() produce (four-digit years). */
  predicate Valid(t: DateTime) {
    1000 <= t.year <= 9999 && 1 <= t.month <= 12 && 1 <= t.day <= 31 &&
    0 <= t.hour <= 23 && 0 <= t.minute <= 59 && 0 <= t.second <= 61
  }

  predicate IsDigit(c: char) {
    '0' <= c <= '9'
  }

  predicate AllDigits(s: string) {
    forall i :: 0 <= i < |s| ==> IsDigit(s[i])
  }

  function Pow10(n: nat): (p: nat)
    ensures p >= 1
  {
    if n == 0 then 1 else 10 * Pow10(n - 1)
  }

  function DigitChar(d: nat): (c: char)
    requires d <= 9
    ensures IsDigit(c) && c as int - '0' as int == d
  {
    ('0' as int + d) as char
  }

  /** The number a string of decimal digits spells, most significant digit first. */
  function DecimalValue(s: string): nat
    requires AllDigits(s)
  {
    if s == [] then 0
    else 10 * DecimalValue(s[..|s| - 1]) + (s[|s| - 1] as int - '0' as int)
  }

  /** n written in exactly `width` digits, zero-padded on the left (strftime's %m, %d, ...). */
  function Padded(n: nat, width: nat): (s: string)
    requires n < Pow10(width)
    ensures |s| == width && AllDigits(s) && DecimalValue(s) == n
  {
    if width == 0 then []
    else
      var s := Padded(n / 10, width - 1) + [DigitChar(n % 10)];
      assert s[..|s| - 1] == Padded(n / 10, width - 1);
      s
  }

  /** `%Y%m%d_%H%M%S`: eight digits, an underscore, six digits. */
  function FileStamp(t: DateTime): (s: string)
    requires Valid(t)
    ensures |s| == 15 && s[8] == '_'
    ensures AllDigits(s[..8]) && AllDigits(s[9..])
  {
    Padded(t.year, 4) + Padded(t.month, 2) + Padded(t.day, 2) + "_" +
    Padded(t.hour, 2) + Padded(t.minute, 2) + Padded(t.second, 2)
  }

  /** Reads a `%Y%m%d_%H%M%S` stamp back; None when the text does not have that shape. */
  function ParseFileStamp(s: string): Option<DateTime> {
    if |s| == 15 && s[8] == '_' && AllDigits(s[..8]) && AllDigits(s[9..]) then
      assert AllDigits(s[0..4]) && AllDigits(s[4..6]) && AllDigits(s[6..8]);
      assert AllDigits(s[9..11]) && AllDigits(s[11..13]) && AllDigits(s[13..15]);
      Some(DateTime(DecimalValue(s[0..4]), DecimalValue(s[4..6]), DecimalValue(s[6..8]),
                    DecimalValue(s[9..11]), DecimalValue(s[11..13]), DecimalValue(s[13..15])))
    else None
  }

  /** The file-name stamp is unambiguous: the reading it was made from can be recovered from it. */
  lemma FileStampRoundTrip(t: DateTime)
    requires Valid(t)
    ensures ParseFileStamp(FileStamp(t)) == Some(t)
  {
    var s := FileStamp(t);
    assert s[0..4] == Padded(t.year, 4);
    assert s[4..6] == Padded(t.month, 2);
    assert s[6..8] == Padded(t.day, 2);
    assert s[9..11] == Padded(t.hour, 2);
    assert s[11..13] == Padded(t.minute, 2);
    assert s[13..15] == Padded(t.second, 2);
  }

  /** Distinct readings give distinct file-name stamps. */
  lemma FileStampInjective(t: DateTime, u: DateTime)
    requires Valid(t) && Valid(u) && FileStamp(t) == FileStamp(u)
    ensures t == u
  {
    FileStampRoundTrip(t);
    FileStampRoundTrip(u);
  }

  /** The `%Y-%m-%d %H:%M:%S` layout: digit fields of 4, 2, 2, 2, 2 and 2 between `-`, `-`, ` `, `:`, `:`. */
  predicate AlertStampShape(s: string) {
    |s| == 19 && s[4] == '-' && s[7] == '-' && s[10] == ' ' && s[13] == ':' && s[16] == ':' &&
    AllDigits(s[0..4]) && AllDigits(s[5..7]) && AllDigits(s[8..10]) &&
    AllDigits(s[11..13]) && AllDigits(s[14..16]) && AllDigits(s[17..19])
  }

  /** `%Y-%m-%d %H:%M:%S`: a single line of digits and separators. */
  function AlertStamp(t: DateTime): (s: string)
    requires Valid(t)
    ensures AlertStampShape(s)
    ensures forall i :: 0 <= i < |s| ==> IsDigit(s[i]) || s[i] in "- :"
  {
    Padded(t.year, 4) + "-" + Padded(t.month, 2) + "-" + Padded(t.day, 2) + " " +
    Padded(t.hour, 2) + ":" + Padded(t.minute, 2) + ":" + Padded(t.second, 2)
  }

  /** Reads a `%Y-%m-%d %H:%M:%S` stamp back; None when the text does not have that shape. */
  function ParseAlertStamp(s: string): Option<DateTime> {
    if AlertStampShape(s) then
      Some(DateTime(DecimalValue(s[0..4]), DecimalValue(s[5..7]), DecimalValue(s[8..10]),
                    DecimalValue(s[11..13]), DecimalValue(s[14..16]), DecimalValue(s[17..19])))
    else None
  }

  /** The alert header's time is the reading it was made from. */
  lemma AlertStampRoundTrip(t: DateTime)
    requires Valid(t)
    ensures ParseAlertStamp(AlertStamp(t)) == Some(t)
  {
    var s := AlertStamp(t);
    assert s[0..4] == Padded(t.year, 4);
    assert s[5..7] == Padded(t.month, 2);
    assert s[8..10] == Padded(t.day, 2);
    assert s[11..13] == Padded(t.hour, 2);
    assert s[14..16] == Padded(t.minute, 2);
    assert s[17..19] == Padded(t.second, 2);
  }
}
