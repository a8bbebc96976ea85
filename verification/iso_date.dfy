/** Python's `datetime` as far as a chart spec stores it: the fields of a
    naive timestamp, `isoformat()` and `datetime.fromisoformat()` on the
    forms `isoformat()` writes. */
module IsoDate {
  import opened Common
  import opened Strings

  predicate IsLeap(year: nat)
  {
    year % 4 == 0 && (year % 100 != 0 || year % 400 == 0)
  }

  function DaysInMonth(year: nat, month: nat): nat
    requires 1 <= month <= 12
  {
    if month == 2 then (if IsLeap(year) then 29 else 28)
    else if month == 4 || month == 6 || month == 9 || month == 11 then 30
    else 31
  }

  /** The fields of a timestamp, not yet range-checked. */
  datatype Stamp = Stamp(year: nat, month: nat, day: nat, hour: nat, minute: nat, second: nat, microsecond: nat)

  /** Why the `datetime` constructor rejects these fields, if it does; the
      fields are checked in constructor order. */
  function RangeProblem(t: Stamp): (r: Option<string>)
  {
    if !(1 <= t.year <= 9999) then Some("year " + NatToString(t.year) + " is out of range")
    else if !(1 <= t.month <= 12) then Some("month must be in 1..12")
    else if !(1 <= t.day <= DaysInMonth(t.year, t.month)) then Some("day is out of range for month")
    else if t.hour >= 24 then Some("hour must be in 0..23")
    else if t.minute >= 60 then Some("minute must be in 0..59")
    else if t.second >= 60 then Some("second must be in 0..59")
    else if t.microsecond >= 1000000 then Some("microsecond must be in 0..999999")
    else None
  }

  predicate Valid(t: Stamp)
  {
    RangeProblem(t).None?
  }

  /** A `datetime` object: fields the constructor accepted. */
  type DateTime = t: Stamp | Valid(t) witness Stamp(1, 1, 1, 0, 0, 0, 0)

  lemma ValidBounds(t: DateTime)
    ensures t.year < Pow10(4) && t.month < Pow10(2) && t.day < Pow10(2)
    ensures t.hour < Pow10(2) && t.minute < Pow10(2) && t.second < Pow10(2)
    ensures t.microsecond < Pow10(6)
  {
    assert Pow10(2) == 100;
    assert Pow10(4) == 10000;
    assert Pow10(6) == 1000000;
  }

  /** "YYYY-MM-DD". */
  function DatePart(t: DateTime): (r: string)
    ensures |r| == 10 && r[4] == '-' && r[7] == '-'
  {
    ValidBounds(t);
    PadDigits(t.year, 4) + "-" + PadDigits(t.month, 2) + "-" + PadDigits(t.day, 2)
  }

  /** "HH:MM:SS". */
  function TimePart(t: DateTime): (r: string)
    ensures |r| == 8 && r[2] == ':' && r[5] == ':'
  {
    ValidBounds(t);
    PadDigits(t.hour, 2) + ":" + PadDigits(t.minute, 2) + ":" + PadDigits(t.second, 2)
  }

  /** ".ffffff" when there is a fractional second, nothing otherwise. */
  function FractionPart(t: DateTime): (r: string)
    ensures t.microsecond == 0 <==> r == ""
    ensures t.microsecond != 0 ==> |r| == 7 && r[0] == '.'
  {
    ValidBounds(t);
    if t.microsecond == 0 then "" else "." + PadDigits(t.microsecond, 6)
  }

  /** `t.isoformat()`: "YYYY-MM-DDTHH:MM:SS", followed by ".ffffff" only
      when the microsecond is not zero. */
  function Isoformat(t: DateTime): (r: string)
    ensures |r| == 19 || |r| == 26
    ensures |r| == 26 <==> t.microsecond != 0
    ensures r[10] == 'T'
  {
    DatePart(t) + "T" + TimePart(t) + FractionPart(t)
  }

  /** The number written by `width` digits at `lo`, if they are all digits. */
  function Digits(s: string, lo: nat, width: nat): (r: Option<nat>)
    requires lo + width <= |s|
    ensures r.Some? <==> AllDigits(s[lo..lo + width])
  {
    var field := s[lo..lo + width];
    if AllDigits(field) then Some(DigitsValue(field)) else None
  }

  /** "YYYY-MM-DD" read as (year, month, day). */
  function ParseDate(s: string): (r: Option<(nat, nat, nat)>)
    requires |s| == 10
  {
    var year, month, day := Digits(s, 0, 4), Digits(s, 5, 2), Digits(s, 8, 2);
    if s[4] == '-' && s[7] == '-' && year.Some? && month.Some? && day.Some?
    then Some((year.value, month.value, day.value))
    else None
  }

  /** "HH:MM:SS" or "HH:MM:SS.ffffff" read as (hour, minute, second, microsecond). */
  function ParseTime(s: string): (r: Option<(nat, nat, nat, nat)>)
    requires |s| == 8 || |s| == 15
  {
    var hour, minute, second := Digits(s, 0, 2), Digits(s, 3, 2), Digits(s, 6, 2);
    var fraction := if |s| == 8 then Some(0) else if s[8] == '.' then Digits(s, 9, 6) else None;
    if s[2] == ':' && s[5] == ':' && hour.Some? && minute.Some? && second.Some? && fraction.Some?
    then Some((hour.value, minute.value, second.value, fraction.value))
    else None
  }

  function InvalidFormat(s: string): Failure
  {
    ValueError("Invalid isoformat string: '" + s + "'")
  }

  /** `datetime.fromisoformat(s)` on "YYYY-MM-DD", or a date, any one separator
      character and "HH:MM:SS" with an optional ".ffffff".  A string of another
      shape raises `ValueError`, and so do fields out of range. */
  function FromIsoformat(s: string): (r: Result<DateTime>)
    ensures |s| != 10 && |s| != 19 && |s| != 26 ==> r == Err(InvalidFormat(s))
    ensures r.Ok? && |s| == 10 ==> r.value.hour == r.value.minute == r.value.second == r.value.microsecond == 0
  {
    if |s| != 10 && |s| != 19 && |s| != 26 then Err(InvalidFormat(s))
    else
      var date := ParseDate(s[..10]);
      var time := if |s| == 10 then Some((0, 0, 0, 0)) else ParseTime(s[11..]);
      if date.None? || time.None? then Err(InvalidFormat(s))
      else
        var (year, month, day) := date.value;
        var (hour, minute, second, micro) := time.value;
        var t := Stamp(year, month, day, hour, minute, second, micro);
        var problem := RangeProblem(t);
        if problem.Some? then Err(ValueError(problem.value))
        else var d: DateTime := t; Ok(d)
  }

  lemma ParseDateRoundTrip(t: DateTime)
    ensures ParseDate(DatePart(t)) == Some((t.year, t.month, t.day))
  {
    ValidBounds(t);
    var s := DatePart(t);
    assert s[0..4] == PadDigits(t.year, 4);
    assert s[5..7] == PadDigits(t.month, 2);
    assert s[8..10] == PadDigits(t.day, 2);
    PadDigitsRoundTrip(t.year, 4);
    PadDigitsRoundTrip(t.month, 2);
    PadDigitsRoundTrip(t.day, 2);
  }

  lemma ParseTimeRoundTrip(t: DateTime)
    ensures ParseTime(TimePart(t) + FractionPart(t)) == Some((t.hour, t.minute, t.second, t.microsecond))
  {
    ValidBounds(t);
    var s := TimePart(t) + FractionPart(t);
    assert s[0..2] == PadDigits(t.hour, 2);
    assert s[3..5] == PadDigits(t.minute, 2);
    assert s[6..8] == PadDigits(t.second, 2);
    PadDigitsRoundTrip(t.hour, 2);
    PadDigitsRoundTrip(t.minute, 2);
    PadDigitsRoundTrip(t.second, 2);
    if t.microsecond != 0 {
      assert s[9..15] == PadDigits(t.microsecond, 6);
      PadDigitsRoundTrip(t.microsecond, 6);
    }
  }

  /** `datetime.fromisoformat(t.isoformat()) == t`. */
  lemma FromIsoformatRoundTrip(t: DateTime)
    ensures FromIsoformat(Isoformat(t)) == Ok(t)
  {
    var s := Isoformat(t);
    assert s[..10] == DatePart(t);
    assert s[11..] == TimePart(t) + FractionPart(t);
    ParseDateRoundTrip(t);
    ParseTimeRoundTrip(t);
  }

  lemma ParseDateText(s: string)
    requires |s| == 10 && ParseDate(s).Some?
    ensures var (y, m, d) := ParseDate(s).value;
      y < Pow10(4) && m < Pow10(2) && d < Pow10(2)
      && s == PadDigits(y, 4) + "-" + PadDigits(m, 2) + "-" + PadDigits(d, 2)
  {
    DigitsPadRoundTrip(s[0..4]);
    DigitsPadRoundTrip(s[5..7]);
    DigitsPadRoundTrip(s[8..10]);
    assert s == s[0..4] + "-" + s[5..7] + "-" + s[8..10];
  }

  lemma ParseTimeText(s: string)
    requires (|s| == 8 || |s| == 15) && ParseTime(s).Some?
    ensures var (h, m, sec, _) := ParseTime(s).value;
      h < Pow10(2) && m < Pow10(2) && sec < Pow10(2)
      && s[..8] == PadDigits(h, 2) + ":" + PadDigits(m, 2) + ":" + PadDigits(sec, 2)
  {
    DigitsPadRoundTrip(s[0..2]);
    DigitsPadRoundTrip(s[3..5]);
    DigitsPadRoundTrip(s[6..8]);
    assert s[..8] == s[0..2] + ":" + s[3..5] + ":" + s[6..8];
  }

  lemma FromIsoformatFields(s: string)
    requires FromIsoformat(s).Ok?
    ensures var t := FromIsoformat(s).value;
      ParseDate(s[..10]) == Some((t.year, t.month, t.day))
      && (|s| > 10 ==> ParseTime(s[11..]).Some? && ParseTime(s[11..]).value.0 == t.hour
                       && ParseTime(s[11..]).value.1 == t.minute && ParseTime(s[11..]).value.2 == t.second)
  {
  }

  /** Reading a timestamp and writing it back reproduces the date and the
      time of day as they were written; only the separator and a zero
      fraction may be normalised. */
  lemma FromIsoformatText(s: string)
    requires FromIsoformat(s).Ok?
    ensures DatePart(FromIsoformat(s).value) == s[..10]
    ensures |s| > 10 ==> TimePart(FromIsoformat(s).value) == s[11..19]
  {
    FromIsoformatFields(s);
    ParseDateText(s[..10]);
    if |s| > 10 {
      ParseTimeText(s[11..]);
      assert s[11..][..8] == s[11..19];
    }
  }

  /** Two timestamps with the same text are the same timestamp. */
  lemma IsoformatInjective(a: DateTime, b: DateTime)
    requires Isoformat(a) == Isoformat(b)
    ensures a == b
  {
    FromIsoformatRoundTrip(a);
    FromIsoformatRoundTrip(b);
  }
}
