/**
 * Worked cases of the time normaliser: the argument examples of the
 * add_medicine docstring ("8 am, 20:30", "08:00, 14:00"), the two ends of
 * the 12-hour clock, the bare hours on both sides of the range, and texts
 * that none of the formats accepts.
 */
module Samples {

  import opened Wrappers
  import opened Strings
  import opened TimeText

  lemma TwentyFourHourText(t: string)
    requires t == "20:30"
    ensures Normalize(t) == Ok("20:30")
  {
    var hs, ms := "20", "30";
    assert Value(hs) == 20 && Value(ms) == 30;
    assert t == "" + hs + ":" + ms + "";
    NormalizeForm24("", hs, ms, "");
    DigitsOfTime(20, 30);
    assert Canonical(Time(20, 30)) == "20:30";
  }

  lemma PaddedTwentyFourHourText(t: string)
    requires t == " 14:00"
    ensures Normalize(t) == Ok("14:00")
  {
    var hs, ms := "14", "00";
    assert Value(hs) == 14 && Value(ms) == 0;
    assert t == " " + hs + ":" + ms + "";
    NormalizeForm24(" ", hs, ms, "");
    DigitsOfTime(14, 0);
    assert Canonical(Time(14, 0)) == "14:00";
  }

  lemma TwelveHourWithMinutes(t: string)
    requires t == "8:30 PM"
    ensures Normalize(t) == Ok("20:30")
  {
    var hs, ms, p := "8", "30", "PM";
    assert t == "" + hs + ":" + ms + " " + p + "";
    assert LowerStr(p) == "pm";
    assert Value(hs) == 8 && Value(ms) == 30;
    assert Hour24(8, true) == 20;
    NormalizeForm12WithMinutes("", hs, ms, " ", p, "");
    DigitsOfTime(20, 30);
    assert Canonical(Time(20, 30)) == "20:30";
  }

  lemma TwelveHour(t: string)
    requires t == " 8 am"
    ensures Normalize(t) == Ok("08:00")
  {
    assert t == " " + "8" + " " + "am" + "";
    assert LowerStr("am") == "am";
    NormalizeForm12(" ", "8", " ", "am", "");
    DigitsOfTime(8, 0);
    assert Canonical(Time(8, 0)) == "08:00";
  }

  lemma TwelveNoon(t: string)
    requires t == "12 pm"
    ensures Normalize(t) == Ok("12:00")
  {
    assert t == "" + "12" + " " + "pm" + "";
    assert LowerStr("pm") == "pm";
    NormalizeForm12("", "12", " ", "pm", "");
    DigitsOfTime(12, 0);
    assert Canonical(Time(12, 0)) == "12:00";
  }

  lemma TwelveMidnight(t: string)
    requires t == "12 AM"
    ensures Normalize(t) == Ok("00:00")
  {
    assert t == "" + "12" + " " + "AM" + "";
    assert LowerStr("AM") == "am";
    NormalizeForm12("", "12", " ", "AM", "");
    DigitsOfTime(0, 0);
    assert Canonical(Time(0, 0)) == "00:00";
  }

  lemma BareHour(t: string)
    requires t == "8"
    ensures Normalize(t) == Ok("08:00")
  {
    var d := "8";
    assert t == "" + d + "";
    assert AllDigits(d) && Value(d) == 8;
    NormalizeBareHour("", d, "");
    DigitsOfTime(8, 0);
    assert Canonical(Time(8, 0)) == "08:00";
  }

  lemma BareHourOutOfRange(t: string)
    requires t == " 24 "
    ensures Normalize(t) == Err("24")
  {
    assert t == " " + "24" + " ";
    NormalizeBareHour(" ", "24", " ");
  }

  /** A period word needs the blank before it. */
  lemma PeriodWithoutGap(t: string)
    requires t == "8pm"
    ensures Normalize(t) == Err("8pm")
  {
    var hs, ap := "8", "pm";
    assert t == hs + ap;
    assert ':' !in t && NoUpper(t) && t[1] == 'p';
    PlainText(t);
    ReadClockNoColon(t, 0, 23);
    SplitPeriodWithoutGap(hs, ap);
    Rejected(t);
  }

  /** An hour above 23 is refused by the 24-hour format. */
  lemma HourOutOfRange(t: string)
    requires t == "25:00"
    ensures Normalize(t) == Err("25:00")
  {
    var hs, ms := "25", "00";
    assert t == hs + ":" + ms;
    assert Value(hs) == 25 && AllDigits(ms);
    ClockRejected(hs, ms);
  }

  /** The 12-hour clock has no hour 0. */
  lemma ZeroTwelveHour(t: string)
    requires t == "0 am"
    ensures Normalize(t) == Err("0 am")
  {
    var hs, gap, ap := "0", " ", "am";
    assert t == hs + gap + ap;
    assert ':' !in t && NoUpper(t) && t[1] == ' ';
    PlainText(t);
    ReadClockNoColon(t, 0, 23);
    SplitPeriodOf(hs, gap, ap);
    ReadClockNoColon(hs, 1, 12);
    assert Value(hs) == 0;
    Rejected(t);
  }

  /** The minutes form, too, needs the blank before the period word. */
  lemma MinutesWithoutGap(t: string)
    requires t == "12:30pm"
    ensures Normalize(t) == Err("12:30pm")
  {
    var hs, ms, ap := "12", "30", "pm";
    assert t == hs + ":" + ms + ap;
    ClockPeriodRejected(hs, ms, ap);
  }

  /** "hh:mm" followed directly by a period word. */
  lemma ClockPeriodRejected(hs: string, ms: string, ap: string)
    requires AllDigits(hs) && AllDigits(ms) && IsPeriod(ap)
    ensures Normalize(hs + ":" + ms + ap) == Err(hs + ":" + ms + ap)
  {
    ClockPeriodPlain(hs, ms, ap);
    ClockPeriodUnread(hs, ms, ap);
    Rejected(hs + ":" + ms + ap);
  }

  lemma ClockPeriodPlain(hs: string, ms: string, ap: string)
    requires AllDigits(hs) && AllDigits(ms) && IsPeriod(ap)
    ensures var t := hs + ":" + ms + ap; LowerStr(Trim(t)) == t
  {
    var clock := hs + ":" + ms;
    var t := clock + ap;
    ClockTextPlain(hs, ms);
    assert NoUpper(t) by {
      forall i | 0 <= i < |t| ensures !IsUpper(t[i]) {
        if i >= |clock| { assert t[i] == ap[i - |clock|]; }
      }
    }
    assert t[|t| - 1] == ap[1];
    PlainText(t);
  }

  lemma ClockPeriodUnread(hs: string, ms: string, ap: string)
    requires AllDigits(hs) && AllDigits(ms) && IsPeriod(ap)
    ensures var t := hs + ":" + ms + ap;
      Read24(t) == None && Read12WithMinutes(t) == None && Read12(t) == None && !AllDigits(t)
  {
    var clock := hs + ":" + ms;
    var t := clock + ap;
    DigitsPlain(hs);
    assert !AllDigits(ms + ap) by { assert (ms + ap)[|ms|] == ap[0]; }
    ClockFollowedRejected(hs, ms + ap);
    SplitPeriodWithoutGap(clock, ap);
    assert t[|hs|] == ':';
  }

  /** "hh:mm" with an hour out of range and digits after the colon. */
  lemma ClockRejected(hs: string, ms: string)
    requires AllDigits(hs) && AllDigits(ms) && Value(hs) > 23
    ensures Normalize(hs + ":" + ms) == Err(hs + ":" + ms)
  {
    var t := hs + ":" + ms;
    assert LowerStr(Trim(t)) == t by {
      ClockTextPlain(hs, ms);
      PlainText(t);
    }
    ClockUnread(hs, ms);
    Rejected(t);
  }

  lemma ClockUnread(hs: string, ms: string)
    requires AllDigits(hs) && AllDigits(ms) && Value(hs) > 23
    ensures var t := hs + ":" + ms;
      Read24(t) == None && Read12WithMinutes(t) == None && Read12(t) == None && !AllDigits(t)
  {
    var t := hs + ":" + ms;
    DigitsPlain(hs);
    IndexOfAt(t, ':', |hs|);
    assert t[..|hs|] == hs;
    assert t[|t| - 1] == ms[|ms| - 1];
    assert t[|hs|] == ':';
  }

  /** The 24-hour format refuses "hh:..." when what follows the colon
      is not all digits. */
  lemma ClockFollowedRejected(hs: string, rest: string)
    requires AllDigits(hs) && !AllDigits(rest)
    ensures Read24(hs + ":" + rest) == None
  {
    var t := hs + ":" + rest;
    DigitsPlain(hs);
    IndexOfAt(t, ':', |hs|);
    assert t[|hs| + 1..] == rest;
  }

  /** A period word that follows a non-blank directly is not one. */
  lemma SplitPeriodWithoutGap(body: string, ap: string)
    requires |body| > 0 && !IsSpace(body[|body| - 1]) && |ap| == 2
    ensures SplitPeriod(body + ap) == None
  {
    var u := body + ap;
    assert u[..|u| - 2] == body;
  }

  /** A text that no format reads is an error carrying the text. */
  lemma Rejected(t: string)
    requires LowerStr(Trim(t)) == t
    requires Read24(t) == None && Read12WithMinutes(t) == None && Read12(t) == None
    requires !AllDigits(t)
    ensures Normalize(t) == Err(t)
  {
    NormalizeThrough(t, t);
  }

  /** A stored time padded with a blank reads back: int() skips it. */
  lemma PaddedStoredTime(hs: string, ms: string)
    requires hs == " 8" && ms == "30"
    ensures ParseStored(hs + ":" + ms) == Some(Time(8, 30))
  {
    PaddedEight(hs);
    Thirty(ms);
    assert ':' !in hs && ':' !in ms;
    StoredTimeOf(hs + ":" + ms, hs, ms, 8, 30);
  }

  lemma Thirty(ms: string)
    requires ms == "30"
    ensures PyInt(ms) == Some(30)
  {
    assert ms[..1] == "3" && Value("3") == 3;
    assert Value(ms) == 30;
  }

  lemma PaddedEight(hs: string)
    requires hs == " 8"
    ensures PyInt(hs) == Some(8)
  {
    var d := "8";
    assert hs[1..] == d;
    assert IsCSpace(hs[0]) && !IsCSpace(d[0]);
    assert CTrimLeft(hs) == CTrimLeft(d) == d;
    assert CTrimRight(d) == d;
    assert CTrim(hs) == d;
    assert AllDigits(d) && Value(d) == 8;
  }

  lemma StoredTimeOf(t: string, hs: string, ms: string, h: nat, m: nat)
    requires t == hs + ":" + ms && ':' !in hs && ':' !in ms
    requires PyInt(hs) == Some(h as int) && PyInt(ms) == Some(m as int)
    requires h <= 23 && m <= 59
    ensures ParseStored(t) == Some(Time(h, m))
  {
    StoredParts(t, hs, ms);
  }

  /** A stored time behind the separator 0x1C is skipped: str.strip would
      drop it, but int() does not. */
  lemma SeparatorBeforeStoredTime(t: string)
    requires t == "\U{1C}8:30"
    ensures ParseStored(t) == None
  {
    var hs, ms := "\U{1C}8", "30";
    StoredParts(t, hs, ms);
    CTrimNoPadding(hs);
    assert !IsDigit(hs[0]) && hs[0] != '+' && hs[0] != '-';
  }

  lemma StoredParts(t: string, hs: string, ms: string)
    requires t == hs + ":" + ms && ':' !in hs && ':' !in ms
    ensures Split(t, ':') == [hs, ms]
  {
    assert Join([hs, ms], [':']) == t;
    SplitJoin([hs, ms], ':');
  }

  /** A text without upper-case letters and without blanks at its ends is
      its own stripped, lower-cased form. */
  lemma PlainText(t: string)
    requires |t| > 0 && !IsSpace(t[0]) && !IsSpace(t[|t| - 1]) && NoUpper(t)
    ensures LowerStr(Trim(t)) == t
  {
    TrimNoPadding(t);
    LowerFixed(t);
  }

  /** The zero-padded text of a time, digit by digit. */
  lemma DigitsOfTime(h: nat, m: nat)
    requires h <= 23 && m <= 59
    ensures Canonical(Time(h, m)) == [Digit(h / 10), Digit(h % 10), ':', Digit(m / 10), Digit(m % 10)]
  {
  }
}
