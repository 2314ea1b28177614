/**
 * The clock values the launcher reads: a calendar date (`QDate`), only ever
 * compared for equality, and a time of day (`QTime`) with the
 * `toString('HH:mm:ss')` / `QTime.fromString(text, 'HH:mm:ss')` pair the
 * config file uses to store the scheduled launch time.
 */
module QtTime {
  import opened Wrappers
  import PyText

  datatype Date = Date(year: int, month: nat, day: nat)

  /** A valid time of day, to the second (milliseconds are not modelled). */
  datatype Time = Time(hour: nat, minute: nat, second: nat)

  type ValidTime = t: Time | t.hour < 24 && t.minute < 60 && t.second < 60 witness Time(0, 0, 0)

  /** A number below 100 as exactly two decimal digits, zero-padded. */
  function TwoDigits(n: nat): string
    requires n < 100
  {
    [PyText.DigitChar(n / 10), PyText.DigitChar(n % 10)]
  }

  /** `t.toString('HH:mm:ss')` */
  function FormatTime(t: ValidTime): string {
    TwoDigits(t.hour) + ":" + TwoDigits(t.minute) + ":" + TwoDigits(t.second)
  }

  /** The number written by the two characters of `s` at `k` and `k + 1`, if both are digits. */
  function TwoDigitsAt(s: string, k: nat): Option<nat>
    requires k + 1 < |s|
  {
    if PyText.IsDigit(s[k]) && PyText.IsDigit(s[k + 1])
    then Some(PyText.DigitValue(s[k]) * 10 + PyText.DigitValue(s[k + 1]))
    else None
  }

  /**
   * `QTime.fromString(s, 'HH:mm:ss')`: `None` stands for the invalid `QTime`
   * it returns when `s` is not two-digit hour, minute and second fields in
   * range, separated by colons.
   */
  function ParseTime(s: string): Option<ValidTime> {
    if |s| != 8 || s[2] != ':' || s[5] != ':' then None
    else
      match (TwoDigitsAt(s, 0), TwoDigitsAt(s, 3), TwoDigitsAt(s, 6))
      case (Some(h), Some(m), Some(sec)) =>
        if h < 24 && m < 60 && sec < 60 then Some(Time(h, m, sec)) else None
      case _ => None
  }

  /** Reading back the text a time was written as gives that time. */
  lemma ParseFormatTime(t: ValidTime)
    ensures ParseTime(FormatTime(t)) == Some(t)
  {
    var s := FormatTime(t);
    assert s[0..2] == TwoDigits(t.hour);
    assert TwoDigitsAt(s, 0) == Some(t.hour);
    assert TwoDigitsAt(s, 3) == Some(t.minute);
    assert TwoDigitsAt(s, 6) == Some(t.second);
  }

  /** Two digits that read as `v` are the two digits `v` is written as. */
  lemma TwoDigitsAtWritten(s: string, k: nat, v: nat)
    requires k + 1 < |s| && TwoDigitsAt(s, k) == Some(v)
    ensures v < 100 && TwoDigits(v) == s[k..k + 2]
  {
    var hi := PyText.DigitValue(s[k]);
    var lo := PyText.DigitValue(s[k + 1]);
    assert v == hi * 10 + lo && hi < 10 && lo < 10;
    assert v / 10 == hi && v % 10 == lo;
    assert PyText.DigitChar(hi) == s[k] && PyText.DigitChar(lo) == s[k + 1];
  }

  /** Every text that reads as a time is the text that time is written as. */
  lemma FormatParseTime(s: string, t: ValidTime)
    requires ParseTime(s) == Some(t)
    ensures FormatTime(t) == s
  {
    TwoDigitsAtWritten(s, 0, t.hour);
    TwoDigitsAtWritten(s, 3, t.minute);
    TwoDigitsAtWritten(s, 6, t.second);
    assert s == s[0..2] + ":" + s[3..5] + ":" + s[6..8];
  }
}
