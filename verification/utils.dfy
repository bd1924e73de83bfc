/** The time-formatting helpers of utils.js: `padZero`, which prefixes a "0"
    to numbers below ten, and `formatTime`, which renders a date as a
    12-hour `h:mm AM` / `h:mm PM` string.

    JavaScript's `String(n)` on an integer is modelled by `IntToString`; the
    reader `ParseTime` is the partner of `FormatTime`, and the round trip
    between them shows that the rendered text keeps the whole 24-hour time.
 */
module Utils {
  import opened Dates

  predicate IsDigit(c: char)
  {
    '0' <= c <= '9'
  }

  predicate AllDigits(s: string)
  {
    forall i :: 0 <= i < |s| ==> IsDigit(s[i])
  }

  function DigitValue(c: char): (d: int)
    requires IsDigit(c)
    ensures 0 <= d < 10
  {
    c as int - '0' as int
  }

  function DigitChar(d: int): (c: char)
    requires 0 <= d < 10
    ensures IsDigit(c) && DigitValue(c) == d
  {
    (d + '0' as int) as char
  }

  /** The decimal text of a non-negative integer, most significant digit
      first and without leading zeros, as `String(n)` prints it. */
  function NatToString(n: nat): (s: string)
    ensures 1 <= |s|
    ensures AllDigits(s)
    ensures |s| == 1 <==> n < 10
    ensures s[0] == '0' ==> n == 0
    decreases n
  {
    if n < 10 then [DigitChar(n)] else NatToString(n / 10) + [DigitChar(n % 10)]
  }

  /** `String(n)` for any integer: a minus sign before the digits of a
      negative number. */
  function IntToString(n: int): (s: string)
    ensures 1 <= |s|
    ensures s[0] == '-' <==> n < 0
    ensures n >= 0 ==> AllDigits(s) && ParseNat(s) == n
    ensures n < 0 ==> AllDigits(s[1..]) && ParseNat(s[1..]) == -n
    ensures s[0] == '0' ==> s == "0"
    ensures n < 0 ==> |s| >= 2 && s[1] != '0'
  {
    if n < 0 then
      ParseNatToString(-n);
      assert ("-" + NatToString(-n))[1..] == NatToString(-n);
      "-" + NatToString(-n)
    else
      ParseNatToString(n);
      NatToString(n)
  }

  /** The value of a string of decimal digits; leading zeros are allowed and
      the empty string reads as 0. */
  function ParseNat(s: string): (n: nat)
    requires AllDigits(s)
    decreases |s|
  {
    if |s| == 0 then 0 else 10 * ParseNat(s[..|s| - 1]) + DigitValue(s[|s| - 1])
  }

  /** Reading back the decimal text of a number gives the number. */
  lemma {:induction false} ParseNatToString(n: nat)
    ensures ParseNat(NatToString(n)) == n
    decreases n
  {
    if n >= 10 {
      var s := NatToString(n);
      assert s[..|s| - 1] == NatToString(n / 10);
      ParseNatToString(n / 10);
    }
  }

  /** A leading zero does not change the value that is read. */
  lemma {:induction false} ParseNatLeadingZero(s: string)
    requires AllDigits(s)
    ensures AllDigits("0" + s)
    ensures ParseNat("0" + s) == ParseNat(s)
    decreases |s|
  {
    var t := "0" + s;
    assert AllDigits(t) by {
      forall i | 0 <= i < |t|
        ensures IsDigit(t[i])
      {
        if i > 0 {
          assert t[i] == s[i - 1];
        }
      }
    }
    if |s| > 0 {
      assert t[..|t| - 1] == "0" + s[..|s| - 1];
      ParseNatLeadingZero(s[..|s| - 1]);
    }
  }

  /** `padZero(num)`: "0" followed by the number's text when it is below ten,
      otherwise the number's text alone. */
  function PadZero(num: int): (r: string)
    ensures 0 <= num <= 9 ==> r == ['0', DigitChar(num)]
    ensures 10 <= num ==> r == NatToString(num)
    ensures 0 <= num <= 99 ==> |r| == 2 && AllDigits(r)
    ensures num < 0 ==>
      && |r| >= 3 && r[..2] == "0-"
      && AllDigits(r[2..]) && ParseNat(r[2..]) == -num
      && r[2] != '0'
  {
    if num < 0 then
      var digits := IntToString(num);
      assert ("0" + digits)[2..] == digits[1..];
      "0" + digits
    else if num < 10 then "0" + IntToString(num)
    else IntToString(num)
  }

  /** The padded text of a non-negative number still reads back as that
      number: the added zero is only a leading zero. */
  lemma PadZeroRoundTrip(num: nat)
    ensures AllDigits(PadZero(num))
    ensures ParseNat(PadZero(num)) == num
  {
    ParseNatToString(num);
    if num < 10 {
      ParseNatLeadingZero(NatToString(num));
    }
  }

  /** The hour shown on a 12-hour face: the hour modulo 12, with 0 shown as
      12 (so midnight and noon both show 12, and 13 shows 1). */
  function DisplayHour(h: Hour): (dh: int)
    ensures 1 <= dh <= 12
    ensures dh % 12 == h % 12
  {
    if h % 12 == 0 then 12 else h % 12
  }

  /** The AM/PM marker. */
  function Meridiem(h: Hour): (marker: string)
    ensures marker == "AM" || marker == "PM"
    ensures marker == "AM" <==> h < 12
  {
    if h >= 12 then "PM" else "AM"
  }

  /** The 24-hour hour named by a 12-hour face reading and its marker. */
  function HourOf(dh: int, pm: bool): (h: int)
    ensures 1 <= dh <= 12 ==> 0 <= h < 24 && (h >= 12 <==> pm)
  {
    if pm then (if dh == 12 then 12 else dh + 12)
    else (if dh == 12 then 0 else dh)
  }

  /** The displayed hour and the marker together identify the hour. */
  lemma DisplayDeterminesHour(h: Hour)
    ensures HourOf(DisplayHour(h), Meridiem(h) == "PM") == h
  {
  }

  /** Two hours with the same face reading and marker are the same hour. */
  lemma DisplayInjective(h1: Hour, h2: Hour)
    requires DisplayHour(h1) == DisplayHour(h2)
    requires Meridiem(h1) == Meridiem(h2)
    ensures h1 == h2
  {
    DisplayDeterminesHour(h1);
    DisplayDeterminesHour(h2);
  }

  /** `formatTime(date)`: the empty string for a missing or invalid date,
      otherwise `h:mm AM` or `h:mm PM` with a one- or two-digit hour, two-digit
      minutes, a space and the marker. */
  function FormatTime(date: Option<DateValue>): (r: string)
    ensures (date.None? || date.value.InvalidDate?) <==> r == ""
    ensures date.Some? && date.value.ValidDate? ==>
      && 7 <= |r| <= 8
      && r[|r| - 6] == ':'
      && r[|r| - 3] == ' '
      && r[|r| - 2..] == Meridiem(date.value.moment.hours)
      && AllDigits(r[..|r| - 6]) && r[0] != '0'
      && AllDigits(r[|r| - 5..|r| - 3])
      && (|r| == 7 <==> DisplayHour(date.value.moment.hours) < 10)
  {
    match date
    case None => ""
    case Some(InvalidDate) => ""
    case Some(ValidDate(m)) =>
      var hourText := IntToString(DisplayHour(m.hours));
      assert |hourText| <= 2;
      hourText + ":" + PadZero(m.minutes) + " " + Meridiem(m.hours)
  }

  /** Reads a string of the shape `h:mm AM` / `h:mm PM` back into a 24-hour
      (hour, minute) pair; anything else gives None. */
  function ParseTime(s: string): (r: Option<(int, int)>)
    ensures r.Some? ==> 0 <= r.value.0 < 24 && 0 <= r.value.1
  {
    if |s| < 7 then None
    else
      var n := |s|;
      var hourText := s[..n - 6];
      var minuteText := s[n - 5..n - 3];
      var marker := s[n - 2..];
      if s[n - 6] == ':' && s[n - 3] == ' ' && (marker == "AM" || marker == "PM")
         && AllDigits(hourText) && AllDigits(minuteText)
      then
        var dh := ParseNat(hourText);
        if 1 <= dh <= 12 then Some((HourOf(dh, marker == "PM"), ParseNat(minuteText))) else None
      else None
  }

  /** The formatted time loses nothing: reading it back gives the date's
      24-hour hour and its minute. */
  lemma FormatTimeRoundTrip(m: Moment)
    ensures ParseTime(FormatTime(Some(ValidDate(m)))) == Some((m.hours, m.minutes))
  {
    var dh := DisplayHour(m.hours);
    var hourText := NatToString(dh);
    var minuteText := PadZero(m.minutes);
    var marker := Meridiem(m.hours);
    var r := FormatTime(Some(ValidDate(m)));
    assert r == hourText + ":" + minuteText + " " + marker;
    var n := |r|;
    assert r[..n - 6] == hourText;
    assert r[n - 5..n - 3] == minuteText;
    assert r[n - 2..] == marker;
    ParseNatToString(dh);
    PadZeroRoundTrip(m.minutes);
    DisplayDeterminesHour(m.hours);
  }

  /** Different times of day never render to the same text. */
  lemma FormatTimeInjective(m1: Moment, m2: Moment)
    requires FormatTime(Some(ValidDate(m1))) == FormatTime(Some(ValidDate(m2)))
    ensures m1.hours == m2.hours && m1.minutes == m2.minutes
  {
    FormatTimeRoundTrip(m1);
    FormatTimeRoundTrip(m2);
  }
}
