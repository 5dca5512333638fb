/**
 * The digital clock widget: the time string it shows in 12- or 24-hour
 * mode and the checkbox that switches between them. The two copies of the
 * widget in the repository share this logic line for line.
 */
module Clock {
  import opened Common
  import opened Strings

  /** The hour shown in 12-hour mode: `hours % 12`, with 0 shown as 12. */
  function Hour12(hours: nat): (h: nat)
    requires hours < 24
    ensures 1 <= h <= 12
    ensures hours == 0 || hours == 12 <==> h == 12
  {
    if hours % 12 == 0 then 12 else hours % 12
  }

  /** The suffix shown in 12-hour mode. */
  function Meridiem(hours: nat): string
  {
    if hours >= 12 then "PM" else "AM"
  }

  /**
   * The time string `updateTime` computes from the hour (0 to 23), minute and
   * second of the current date: `HH:MM:SS` in 24-hour mode, `H:MM:SS AM` or
   * `H:MM:SS PM` otherwise, with minutes and seconds always two digits.
   */
  function FormatTime(hours: nat, minutes: nat, seconds: nat, format24h: bool): (t: string)
    requires hours < 24 && minutes < 60 && seconds < 60
    ensures format24h ==> |t| == 8 && t[2] == ':' && t[5] == ':'
    ensures !format24h ==> 10 <= |t| <= 11
    ensures !format24h ==> (EndsWith(t, " AM") <==> hours < 12) && (EndsWith(t, " PM") <==> hours >= 12)
  {
    var mm := PadStart2(minutes);
    var ss := PadStart2(seconds);
    if format24h then
      PadStart2(hours) + ":" + mm + ":" + ss
    else
      var t := NatToString(Hour12(hours)) + ":" + mm + ":" + ss + " " + Meridiem(hours);
      assert t[|t| - 3..] == " " + Meridiem(hours);
      assert " AM"[1] != " PM"[1];
      t
  }

  /** Reads `H:MM:SS` (one or more hour digits, two minute and two second digits) back into numbers. */
  function ParseClockDigits(b: string): Option<(nat, nat, nat)>
  {
    var n := |b|;
    if n >= 7 && b[n - 6] == ':' && b[n - 3] == ':'
       && AllDigits(b[..n - 6]) && AllDigits(b[n - 5..n - 3]) && AllDigits(b[n - 2..]) then
      Some((DigitsValue(b[..n - 6]), DigitsValue(b[n - 5..n - 3]), DigitsValue(b[n - 2..])))
    else
      None
  }

  /** Reads an `HH:MM:SS` string back into hour, minute and second. */
  function ParseTime24(t: string): Option<(nat, nat, nat)>
  {
    if |t| == 8 then ParseClockDigits(t) else None
  }

  /** Reads an `H:MM:SS AM` / `H:MM:SS PM` string back into a 0 to 23 hour, minute and second. */
  function ParseTime12(t: string): Option<(nat, nat, nat)>
  {
    var n := |t|;
    if n >= 3 && t[n - 3] == ' ' && (t[n - 2..] == "AM" || t[n - 2..] == "PM") then
      match ParseClockDigits(t[..n - 3])
      case Some((h, m, s)) => Some((h % 12 + (if t[n - 2..] == "PM" then 12 else 0), m, s))
      case None => None
    else
      None
  }

  /** The three numbers of a clock string are found again where `ParseClockDigits` reads them. */
  lemma ClockDigitsPieces(hh: string, mm: string, ss: string)
    requires 1 <= |hh| && AllDigits(hh) && |mm| == 2 && AllDigits(mm) && |ss| == 2 && AllDigits(ss)
    ensures ParseClockDigits(hh + ":" + mm + ":" + ss) == Some((DigitsValue(hh), DigitsValue(mm), DigitsValue(ss)))
  {
    var b := hh + ":" + mm + ":" + ss;
    var n := |b|;
    assert n == |hh| + 6;
    assert b[n - 6] == ':' && b[n - 3] == ':';
    assert b[..n - 6] == hh;
    assert b[n - 5..n - 3] == mm;
    assert b[n - 2..] == ss;
    assert AllDigits(b[..n - 6]) && AllDigits(b[n - 5..n - 3]) && AllDigits(b[n - 2..]);
  }

  /** The 24-hour string shows two-digit hour, minute and second that read back as the time. */
  lemma Format24RoundTrip(hours: nat, minutes: nat, seconds: nat)
    requires hours < 24 && minutes < 60 && seconds < 60
    ensures ParseTime24(FormatTime(hours, minutes, seconds, true)) == Some((hours, minutes, seconds))
  {
    ClockDigitsPieces(PadStart2(hours), PadStart2(minutes), PadStart2(seconds));
  }

  /** A clock string followed by ` AM` or ` PM` reads back with the suffix applied to the hour. */
  lemma SuffixPieces(clock: string, suffix: string)
    requires suffix == "AM" || suffix == "PM"
    ensures ParseTime12(clock + " " + suffix) ==
      match ParseClockDigits(clock)
      case Some((h, m, s)) => Some((h % 12 + (if suffix == "PM" then 12 else 0), m, s))
      case None => None
  {
    var t := clock + " " + suffix;
    var n := |t|;
    assert t[n - 3] == ' ';
    assert t[..n - 3] == clock;
    assert t[n - 2..] == suffix;
  }

  /** The 12-hour string reads back as the time: hour, suffix, minute and second lose nothing. */
  lemma Format12RoundTrip(hours: nat, minutes: nat, seconds: nat)
    requires hours < 24 && minutes < 60 && seconds < 60
    ensures ParseTime12(FormatTime(hours, minutes, seconds, false)) == Some((hours, minutes, seconds))
  {
    var clock := Format12Shape(hours, minutes, seconds);
    SuffixPieces(clock, Meridiem(hours));
    Hour12Meridiem(hours);
  }

  /** The 12-hour string is a clock string that reads back as the 12-hour time, then its suffix. */
  lemma Format12Shape(hours: nat, minutes: nat, seconds: nat) returns (clock: string)
    requires hours < 24 && minutes < 60 && seconds < 60
    ensures FormatTime(hours, minutes, seconds, false) == clock + " " + Meridiem(hours)
    ensures ParseClockDigits(clock) == Some((Hour12(hours), minutes, seconds))
  {
    var h := Hour12(hours);
    clock := NatToString(h) + ":" + PadStart2(minutes) + ":" + PadStart2(seconds);
    NatToStringRoundTrip(h);
    ClockDigitsPieces(NatToString(h), PadStart2(minutes), PadStart2(seconds));
  }

  /** The 12-hour hour and its suffix give back the hour of the day. */
  lemma Hour12Meridiem(hours: nat)
    requires hours < 24
    ensures Hour12(hours) % 12 + (if Meridiem(hours) == "PM" then 12 else 0) == hours
  {
  }

  /** The 12-hour hour and its suffix together determine the hour of the day. */
  lemma Hour12Determines(a: nat, b: nat)
    requires a < 24 && b < 24
    requires Hour12(a) == Hour12(b) && Meridiem(a) == Meridiem(b)
    ensures a == b
  {
    assert Meridiem(a) == "PM" <==> a >= 12;
    assert Meridiem(b) == "PM" <==> b >= 12;
  }

  /** In either mode, different times show as different strings. */
  lemma FormatTimeInjective(h1: nat, m1: nat, s1: nat, h2: nat, m2: nat, s2: nat, format24h: bool)
    requires h1 < 24 && m1 < 60 && s1 < 60 && h2 < 24 && m2 < 60 && s2 < 60
    requires FormatTime(h1, m1, s1, format24h) == FormatTime(h2, m2, s2, format24h)
    ensures h1 == h2 && m1 == m2 && s1 == s2
  {
    if format24h {
      Format24RoundTrip(h1, m1, s1);
      Format24RoundTrip(h2, m2, s2);
    } else {
      Format12RoundTrip(h1, m1, s1);
      Format12RoundTrip(h2, m2, s2);
    }
  }

  /**
   * The clock widget's state: the shown time and date strings and the display
   * mode. The date string is the locale's long date for the same instant,
   * which the model receives as it is.
   */
  class ClockWidget {
    var currentTime: string
    var currentDate: string
    var format24h: bool

    /** A new clock shows nothing yet and is in 12-hour mode. */
    constructor ()
      ensures currentTime == "" && currentDate == "" && !format24h
    {
      currentTime := "";
      currentDate := "";
      format24h := false;
    }

    /** `updateTime`, given the hour, minute, second and long date the clock reads now. */
    method UpdateTime(hours: nat, minutes: nat, seconds: nat, date: string)
      requires hours < 24 && minutes < 60 && seconds < 60
      modifies this`currentTime, this`currentDate
      ensures currentTime == FormatTime(hours, minutes, seconds, format24h)
      ensures currentDate == date
    {
      currentTime := FormatTime(hours, minutes, seconds, format24h);
      currentDate := date;
    }

    /** `_toggleFormat`: take the checkbox's value as the mode and show the time again. */
    method ToggleFormat(checked: bool, hours: nat, minutes: nat, seconds: nat, date: string)
      requires hours < 24 && minutes < 60 && seconds < 60
      modifies this
      ensures format24h == checked
      ensures currentTime == FormatTime(hours, minutes, seconds, checked)
      ensures currentDate == date
    {
      format24h := checked;
      UpdateTime(hours, minutes, seconds, date);
    }
  }
}
