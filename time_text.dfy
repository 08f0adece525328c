/**
 * Time texts of the medicine checklist (tools.py): the normaliser that
 * turns what a user says ("8 pm", "20:30", "8") into a zero-padded
 * 24-hour "HH:MM", and the "hh:mm" reading that the next-due search
 * applies to every stored time.
 *
 * The three strptime formats are modelled over this grammar, after the
 * input has been stripped and lower-cased:
 *   "%H:%M"     hour ":" minute           hour 0..23, minute 0..59
 *   "%I:%M %p"  hour ":" minute blanks ap hour 1..12, minute 0..59
 *   "%I %p"     hour blanks ap            hour 1..12
 * where every number field is one or two ASCII digits, "blanks" is one
 * or more whitespace characters and ap is "am" or "pm".
 */
module TimeText {

  import opened Wrappers
  import opened Strings

  /** A time of day as hour and minute. */
  datatype Time = Time(hour: nat, minute: nat)

  predicate InRange(t: Time) {
    t.hour <= 23 && t.minute <= 59
  }

  /** A canonical time text: two digits, a colon, two digits, 00:00..23:59. */
  predicate IsCanonical(s: string) {
    && |s| == 5
    && s[2] == ':'
    && AllDigits(s[..2]) && AllDigits(s[3..])
    && Value(s[..2]) <= 23 && Value(s[3..]) <= 59
  }

  /** strftime("%H:%M"). */
  function Canonical(t: Time): (s: string)
    requires InRange(t)
    ensures IsCanonical(s)
    ensures Value(s[..2]) == t.hour && Value(s[3..]) == t.minute
  {
    var s := TwoDigits(t.hour) + ":" + TwoDigits(t.minute);
    assert s[..2] == TwoDigits(t.hour) && s[3..] == TwoDigits(t.minute);
    s
  }

  /** Distinct in-range times have distinct canonical texts. */
  lemma CanonicalInjective(a: Time, b: Time)
    requires InRange(a) && InRange(b)
    requires Canonical(a) == Canonical(b)
    ensures a == b
  {
  }

  /** One strptime number field: one or two digits with a value in lo..hi. */
  predicate Field(s: string, lo: nat, hi: nat) {
    1 <= |s| <= 2 && AllDigits(s) && lo <= Value(s) <= hi
  }

  /** hour ":" minute, with the hour field in lo..hi. */
  function ReadClock(u: string, lo: nat, hi: nat): (r: Option<Time>)
    ensures r.Some? ==> lo <= r.value.hour <= hi && r.value.minute <= 59
  {
    match IndexOf(u, ':')
    case None => None
    case Some(i) =>
      if Field(u[..i], lo, hi) && Field(u[i + 1..], 0, 59)
      then Some(Time(Value(u[..i]), Value(u[i + 1..])))
      else None
  }

  /** The "blanks ap" tail of the 12-hour formats: what comes before the
      blanks, and whether ap is "pm". */
  function SplitPeriod(u: string): (r: Option<(string, bool)>)
    ensures r.Some? ==> |r.value.0| + 3 <= |u|
  {
    if |u| >= 2 && (u[|u| - 2..] == "am" || u[|u| - 2..] == "pm") then
      var rest := u[..|u| - 2];
      var body := TrimRight(rest);
      if |body| < |rest| then Some((body, u[|u| - 2..] == "pm")) else None
    else None
  }

  /** The 24-hour hour of a 12-hour clock reading: 12 am is 0, 12 pm is 12. */
  function Hour24(h: nat, pm: bool): (r: nat)
    requires 1 <= h <= 12
    ensures r <= 23
    ensures pm <==> r >= 12
    ensures r % 12 == h % 12
  {
    if pm then (if h == 12 then 12 else h + 12)
    else (if h == 12 then 0 else h)
  }

  /** strptime(u, "%H:%M"). */
  function Read24(u: string): (r: Option<Time>)
    ensures r.Some? ==> InRange(r.value)
  {
    ReadClock(u, 0, 23)
  }

  /** strptime(u, "%I:%M %p"). */
  function Read12WithMinutes(u: string): (r: Option<Time>)
    ensures r.Some? ==> InRange(r.value)
  {
    match SplitPeriod(u)
    case None => None
    case Some((body, pm)) =>
      match ReadClock(body, 1, 12)
      case None => None
      case Some(t) => Some(Time(Hour24(t.hour, pm), t.minute))
  }

  /** strptime(u, "%I %p"). */
  function Read12(u: string): (r: Option<Time>)
    ensures r.Some? ==> InRange(r.value)
  {
    match SplitPeriod(u)
    case None => None
    case Some((body, pm)) =>
      if Field(body, 1, 12) then Some(Time(Hour24(Value(body), pm), 0)) else None
  }

  /** u.isdigit() and 0 <= int(u) <= 23. */
  function ReadBareHour(u: string): (r: Option<Time>)
    ensures r.Some? ==> InRange(r.value)
    ensures r.Some? ==> AllDigits(u) && r.value.minute == 0 && r.value.hour == Value(u)
  {
    if AllDigits(u) && Value(u) <= 23 then Some(Time(Value(u), 0)) else None
  }

  /**
   * _normalize_time_str: strip and lower-case the text, try the formats in
   * order, then a bare hour; the error carries the stripped, lower-cased text.
   */
  function Normalize(t: string): (r: Result<string>)
    ensures r.Ok? ==> IsCanonical(r.value)
    ensures r.Err? ==> r.text == LowerStr(Trim(t))
  {
    Interpret(LowerStr(Trim(t)))
  }

  /** The formats tried in order on the stripped, lower-cased text u. */
  function Interpret(u: string): (r: Result<string>)
    ensures r.Ok? ==> IsCanonical(r.value)
    ensures r.Err? ==> r.text == u
  {
    var a := Read24(u);
    if a.Some? then Ok(Canonical(a.value))
    else
      var b := Read12WithMinutes(u);
      if b.Some? then Ok(Canonical(b.value))
      else
        var c := Read12(u);
        if c.Some? then Ok(Canonical(c.value))
        else
          var d := ReadBareHour(u);
          if d.Some? then Ok(Canonical(d.value))
          else Err(u)
  }

  // ---------------------------------------------------------------
  // What the normaliser accepts
  // ---------------------------------------------------------------

  lemma DigitsPlain(s: string)
    requires AllDigits(s)
    ensures ':' !in s && NoUpper(s) && !IsSpace(s[0]) && !IsSpace(s[|s| - 1])
  {
  }

  lemma ReadClockOf(hs: string, ms: string, lo: nat, hi: nat)
    requires Field(hs, lo, hi) && Field(ms, 0, 59)
    ensures ReadClock(hs + ":" + ms, lo, hi) == Some(Time(Value(hs), Value(ms)))
  {
    var u := hs + ":" + ms;
    IndexOfAt(u, ':', |hs|);
    assert u[..|hs|] == hs && u[|hs| + 1..] == ms;
  }

  lemma ReadClockNoColon(u: string, lo: nat, hi: nat)
    requires ':' !in u
    ensures ReadClock(u, lo, hi) == None
  {
  }

  lemma SplitPeriodOf(body: string, gap: string, ap: string)
    requires |body| > 0 && !IsSpace(body[|body| - 1])
    requires |gap| > 0 && AllSpace(gap)
    requires ap == "am" || ap == "pm"
    ensures SplitPeriod(body + gap + ap) == Some((body, ap == "pm"))
  {
    var u := body + gap + ap;
    assert u[|u| - 2..] == ap;
    assert u[..|u| - 2] == body + gap;
    TrimRightPadded(body, gap);
  }

  lemma SplitPeriodDigits(d: string)
    requires AllDigits(d)
    ensures SplitPeriod(d) == None
  {
    if |d| >= 2 { assert d[|d| - 2..][0] == d[|d| - 2]; }
  }

  /** A period word spoken in any letter case: "PM", "Am", ... */
  predicate IsPeriodWord(p: string) {
    LowerStr(p) == "am" || LowerStr(p) == "pm"
  }

  lemma PeriodWordPlain(p: string)
    requires IsPeriodWord(p)
    ensures |p| == 2 && ':' !in p && !IsSpace(p[1])
  {
    assert Lower(p[0]) == LowerStr(p)[0] && Lower(p[1]) == LowerStr(p)[1];
  }

  /** Every "%H:%M" text, blanks around it allowed, normalises to the
      zero-padded time it denotes. */
  lemma NormalizeForm24(pre: string, hs: string, ms: string, post: string)
    requires AllSpace(pre) && AllSpace(post)
    requires Field(hs, 0, 23) && Field(ms, 0, 59)
    ensures Normalize(pre + hs + ":" + ms + post) == Ok(Canonical(Time(Value(hs), Value(ms))))
  {
    var core := hs + ":" + ms;
    ClockTextPlain(hs, ms);
    assert pre + hs + ":" + ms + post == pre + core + post;
    TrimPadded(pre, core, post);
    LowerFixed(core);
    ReadClockOf(hs, ms, 0, 23);
    InterpretRead24(core);
  }

  lemma ClockTextPlain(hs: string, ms: string)
    requires AllDigits(hs) && AllDigits(ms)
    ensures var core := hs + ":" + ms;
      |core| > 0 && !IsSpace(core[0]) && !IsSpace(core[|core| - 1]) && NoUpper(core)
  {
  }

  lemma InterpretRead24(u: string)
    requires Read24(u).Some?
    ensures Interpret(u) == Ok(Canonical(Read24(u).value))
  {
  }

  /** Every "%I:%M %p" text, in any letter case, normalises to the 24-hour
      time it denotes. */
  lemma NormalizeForm12WithMinutes(pre: string, hs: string, ms: string, gap: string, p: string, post: string)
    requires AllSpace(pre) && AllSpace(post)
    requires Field(hs, 1, 12) && Field(ms, 0, 59)
    requires |gap| > 0 && AllSpace(gap)
    requires IsPeriodWord(p)
    ensures Normalize(pre + hs + ":" + ms + gap + p + post)
         == Ok(Canonical(Time(Hour24(Value(hs), LowerStr(p) == "pm"), Value(ms))))
  {
    var t := pre + hs + ":" + ms + gap + p + post;
    var u := hs + ":" + ms + gap + LowerStr(p);
    Lowered12WithMinutes(pre, hs, ms, gap, p, post);
    Read12WithMinutesOf(hs, ms, gap, LowerStr(p));
    InterpretRead12WithMinutes(u);
    NormalizeThrough(t, u);
  }

  lemma NormalizeThrough(t: string, u: string)
    requires LowerStr(Trim(t)) == u
    ensures Normalize(t) == Interpret(u)
  {
  }

  lemma Lowered12WithMinutes(pre: string, hs: string, ms: string, gap: string, p: string, post: string)
    requires AllSpace(pre) && AllSpace(post) && AllSpace(gap)
    requires AllDigits(hs) && AllDigits(ms)
    requires IsPeriodWord(p)
    ensures LowerStr(Trim(pre + hs + ":" + ms + gap + p + post)) == hs + ":" + ms + gap + LowerStr(p)
  {
    var clock := hs + ":" + ms;
    ClockTextPlain(hs, ms);
    assert pre + hs + ":" + ms + gap + p + post == pre + clock + gap + p + post;
    LoweredPeriodText(pre, clock, gap, p, post);
  }

  /** Stripping and lower-casing "body blanks ap" padded with blanks. */
  lemma LoweredPeriodText(pre: string, body: string, gap: string, p: string, post: string)
    requires AllSpace(pre) && AllSpace(post) && AllSpace(gap)
    requires |body| > 0 && !IsSpace(body[0]) && NoUpper(body)
    requires IsPeriodWord(p)
    ensures LowerStr(Trim(pre + body + gap + p + post)) == body + gap + LowerStr(p)
  {
    var core := body + gap + p;
    PeriodWordPlain(p);
    assert pre + body + gap + p + post == pre + core + post;
    TrimPadded(pre, core, post);
    LowerConcat(body + gap, p);
    LowerConcat(body, gap);
    LowerFixed(body);
    LowerFixed(gap);
  }

  lemma Read12WithMinutesOf(hs: string, ms: string, gap: string, ap: string)
    requires Field(hs, 1, 12) && Field(ms, 0, 59)
    requires |gap| > 0 && AllSpace(gap)
    requires ap == "am" || ap == "pm"
    ensures var u := hs + ":" + ms + gap + ap;
      Read24(u) == None && Read12WithMinutes(u) == Some(Time(Hour24(Value(hs), ap == "pm"), Value(ms)))
  {
    var clock := hs + ":" + ms;
    Read24Rejects12(hs, ms, gap, ap);
    DigitsPlain(ms);
    SplitPeriodOf(clock, gap, ap);
    ReadClockOf(hs, ms, 1, 12);
  }

  lemma Read24Rejects12(hs: string, ms: string, gap: string, ap: string)
    requires AllDigits(hs) && |ap| > 0 && !IsDigit(ap[|ap| - 1])
    ensures Read24(hs + ":" + ms + gap + ap) == None
  {
    var u := hs + ":" + ms + gap + ap;
    DigitsPlain(hs);
    IndexOfAt(u, ':', |hs|);
    var tail := u[|hs| + 1..];
    assert tail == ms + gap + ap;
    assert tail[|tail| - 1] == ap[|ap| - 1];
  }

  lemma InterpretRead12WithMinutes(u: string)
    requires Read24(u).None? && Read12WithMinutes(u).Some?
    ensures Interpret(u) == Ok(Canonical(Read12WithMinutes(u).value))
  {
  }

  lemma InterpretRead12(u: string)
    requires Read24(u).None? && Read12WithMinutes(u).None? && Read12(u).Some?
    ensures Interpret(u) == Ok(Canonical(Read12(u).value))
  {
  }

  /** Every "%I %p" text, in any letter case, normalises to the full hour it
      denotes. */
  lemma NormalizeForm12(pre: string, hs: string, gap: string, p: string, post: string)
    requires AllSpace(pre) && AllSpace(post)
    requires Field(hs, 1, 12)
    requires |gap| > 0 && AllSpace(gap)
    requires IsPeriodWord(p)
    ensures Normalize(pre + hs + gap + p + post)
         == Ok(Canonical(Time(Hour24(Value(hs), LowerStr(p) == "pm"), 0)))
  {
    var t := pre + hs + gap + p + post;
    var u := hs + gap + LowerStr(p);
    DigitsPlain(hs);
    LoweredPeriodText(pre, hs, gap, p, post);
    Read12Of(hs, gap, LowerStr(p));
    InterpretRead12(u);
    NormalizeThrough(t, u);
  }

  lemma Read12Of(hs: string, gap: string, ap: string)
    requires Field(hs, 1, 12)
    requires |gap| > 0 && AllSpace(gap)
    requires ap == "am" || ap == "pm"
    ensures var u := hs + gap + ap;
      && Read24(u) == None && Read12WithMinutes(u) == None
      && Read12(u) == Some(Time(Hour24(Value(hs), ap == "pm"), 0))
  {
    var u := hs + gap + ap;
    DigitsPlain(hs);
    assert ':' !in u by {
      forall i | 0 <= i < |u| ensures u[i] != ':' {
        if i < |hs| { assert u[i] == hs[i]; }
        else if i < |hs| + |gap| { assert u[i] == gap[i - |hs|]; }
        else { assert u[i] == ap[i - |hs| - |gap|]; }
      }
    }
    ReadClockNoColon(u, 0, 23);
    SplitPeriodOf(hs, gap, ap);
    ReadClockNoColon(hs, 1, 12);
  }

  /** A bare digit string is read as an hour: it gives "hh:00" exactly when
      its value is at most 23, and otherwise an error carrying the text. */
  lemma NormalizeBareHour(pre: string, d: string, post: string)
    requires AllSpace(pre) && AllSpace(post)
    requires AllDigits(d)
    ensures Value(d) <= 23 ==> Normalize(pre + d + post) == Ok(Canonical(Time(Value(d), 0)))
    ensures Value(d) > 23 ==> Normalize(pre + d + post) == Err(d)
  {
    DigitsPlain(d);
    TrimPadded(pre, d, post);
    LowerFixed(d);
    ReadClockNoColon(d, 0, 23);
    SplitPeriodDigits(d);
    assert Normalize(pre + d + post) == Interpret(d);
  }

  // ---------------------------------------------------------------
  // ... and nothing else is accepted
  // ---------------------------------------------------------------

  /** A period word after lower-casing. */
  predicate IsPeriod(ap: string) {
    ap == "am" || ap == "pm"
  }

  /** The shapes of a stripped, lower-cased text that the normaliser
      accepts, one per format. */
  ghost predicate Form24(u: string) {
    exists hs, ms :: Field(hs, 0, 23) && Field(ms, 0, 59) && u == hs + ":" + ms
  }

  ghost predicate Form12WithMinutes(u: string) {
    exists hs, ms, gap, ap ::
      && Field(hs, 1, 12) && Field(ms, 0, 59) && |gap| > 0 && AllSpace(gap) && IsPeriod(ap)
      && u == hs + ":" + ms + gap + ap
  }

  ghost predicate Form12(u: string) {
    exists hs, gap, ap ::
      && Field(hs, 1, 12) && |gap| > 0 && AllSpace(gap) && IsPeriod(ap)
      && u == hs + gap + ap
  }

  predicate FormBareHour(u: string) {
    AllDigits(u) && Value(u) <= 23
  }

  lemma ReadClockForm(u: string, lo: nat, hi: nat) returns (hs: string, ms: string)
    requires ReadClock(u, lo, hi).Some?
    ensures Field(hs, lo, hi) && Field(ms, 0, 59) && u == hs + ":" + ms
  {
    var i := IndexOf(u, ':').value;
    hs, ms := u[..i], u[i + 1..];
    assert u == u[..i] + [u[i]] + u[i + 1..];
  }

  lemma SplitPeriodForm(u: string) returns (gap: string, ap: string)
    requires SplitPeriod(u).Some?
    ensures |gap| > 0 && AllSpace(gap) && IsPeriod(ap)
    ensures u == SplitPeriod(u).value.0 + gap + ap
  {
    var rest := u[..|u| - 2];
    var body := TrimRight(rest);
    gap, ap := rest[|body|..], u[|u| - 2..];
    assert rest == body + gap;
    assert u == rest + ap;
  }

  /** What the formats accept, read backwards: a text any of them accepts
      has one of the four shapes. */
  lemma InterpretAccepts(u: string)
    requires Interpret(u).Ok?
    ensures Form24(u) || Form12WithMinutes(u) || Form12(u) || FormBareHour(u)
  {
    if Read24(u).Some? {
      var hs, ms := ReadClockForm(u, 0, 23);
      assert Form24(u);
    } else if Read12WithMinutes(u).Some? {
      var body := SplitPeriod(u).value.0;
      var gap, ap := SplitPeriodForm(u);
      var hs, ms := ReadClockForm(body, 1, 12);
      assert u == hs + ":" + ms + gap + ap;
      assert Form12WithMinutes(u);
    } else if Read12(u).Some? {
      var hs := SplitPeriod(u).value.0;
      var gap, ap := SplitPeriodForm(u);
      assert Field(hs, 1, 12);
      assert Form12(u);
    } else {
      assert ReadBareHour(u).Some?;
    }
  }

  /** The normaliser accepts a text only when, stripped and lower-cased, it
      has one of the four shapes; "8pm", "25:00", "0 am" and "12:30pm" are
      errors. Together with the form lemmas above this characterises the
      accepted texts. */
  lemma NormalizeAccepts(t: string)
    requires Normalize(t).Ok?
    ensures var u := LowerStr(Trim(t));
      Form24(u) || Form12WithMinutes(u) || Form12(u) || FormBareHour(u)
  {
    InterpretAccepts(LowerStr(Trim(t)));
  }

  /** Normalising a canonical text returns it unchanged. */
  lemma NormalizeCanonical(s: string)
    requires IsCanonical(s)
    ensures Normalize(s) == Ok(s)
  {
    var hs, ms := s[..2], s[3..];
    TwoDigitsOfValue(hs);
    TwoDigitsOfValue(ms);
    assert s == hs + ":" + ms;
    var canon := Canonical(Time(Value(hs), Value(ms)));
    assert canon == TwoDigits(Value(hs)) + ":" + TwoDigits(Value(ms));
    assert canon == s;
    assert s == "" + hs + ":" + ms + "";
    NormalizeForm24("", hs, ms, "");
  }

  /** Normalising is idempotent. */
  lemma NormalizeIdempotent(t: string)
    requires Normalize(t).Ok?
    ensures Normalize(Normalize(t).value) == Normalize(t)
  {
    NormalizeCanonical(Normalize(t).value);
  }

  // ---------------------------------------------------------------
  // Reading a stored time back: map(int, t.split(":"))
  // ---------------------------------------------------------------

  /** int(s): drop the C-locale blanks at both ends, then read a decimal. */
  function PyInt(s: string): (r: Option<int>)
    ensures AllDigits(s) ==> r == Some(Value(s) as int)
    ensures r == ReadDecimal(CTrim(s))
  {
    var u := CTrim(s);
    if AllDigits(s) then
      CTrimNoPadding(s);
      ReadDecimal(u)
    else ReadDecimal(u)
  }

  /** int() on a stripped text: digits, or a sign directly followed by
      digits; anything else (the empty text, "- 7", "7a", ...) raises. */
  function ReadDecimal(u: string): (r: Option<int>)
    ensures AllDigits(u) ==> r == Some(Value(u) as int)
    ensures |u| > 0 && u[0] == '+' && AllDigits(u[1..]) ==> r == Some(Value(u[1..]) as int)
    ensures |u| > 0 && u[0] == '-' && AllDigits(u[1..]) ==> r == Some(-(Value(u[1..]) as int))
    ensures r.Some? ==> AllDigits(u) || (|u| > 0 && (u[0] == '+' || u[0] == '-') && AllDigits(u[1..]))
  {
    if |u| > 0 && (u[0] == '+' || u[0] == '-') then
      var digits := u[1..];
      if AllDigits(digits) then Some(if u[0] == '-' then -(Value(digits) as int) else Value(digits))
      else None
    else if AllDigits(u) then Some(Value(u))
    else None
  }

  /**
   * The reading next_medicine_due applies to a stored time: exactly two
   * ':'-separated integers, hour 0..23 and minute 0..59 (anything else
   * raises and the entry is skipped).
   */
  function ParseStored(t: string): (r: Option<Time>)
    ensures r.Some? ==> InRange(r.value)
    ensures r.Some? <==>
      && |Split(t, ':')| == 2
      && PyInt(Split(t, ':')[0]).Some? && 0 <= PyInt(Split(t, ':')[0]).value <= 23
      && PyInt(Split(t, ':')[1]).Some? && 0 <= PyInt(Split(t, ':')[1]).value <= 59
    ensures r.Some? ==>
      && PyInt(Split(t, ':')[0]) == Some(r.value.hour as int)
      && PyInt(Split(t, ':')[1]) == Some(r.value.minute as int)
  {
    var parts := Split(t, ':');
    if |parts| != 2 then None
    else
      match (PyInt(parts[0]), PyInt(parts[1]))
      case (Some(h), Some(m)) =>
        if 0 <= h <= 23 && 0 <= m <= 59 then Some(Time(h as nat, m as nat)) else None
      case _ => None
  }

  /** Every time the normaliser produces is read back as the same time. */
  lemma ParseStoredCanonical(t: Time)
    requires InRange(t)
    ensures ParseStored(Canonical(t)) == Some(t)
  {
    var hs, ms := TwoDigits(t.hour), TwoDigits(t.minute);
    DigitsPlain(hs);
    DigitsPlain(ms);
    assert Join([hs, ms], [':']) == hs + ":" + ms;
    SplitJoin([hs, ms], ':');
  }
}
