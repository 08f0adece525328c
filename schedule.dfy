/**
 * The next-due search of next_medicine_due (tools.py). Every stored time
 * that reads back as hh:mm gives a candidate (record name, time); the
 * answer is the earliest candidate still ahead today, and only when there
 * is none, the earliest candidate tomorrow. Ties go to the candidate seen
 * first in store order.
 *
 * The clock is a parameter: the time of day of datetime.now() in
 * microseconds, since a candidate instant has zero seconds and zero
 * microseconds and is compared against the full clock reading.
 */
module Schedule {

  import opened Wrappers
  import opened Strings
  import opened TimeText
  import opened Store

  const MicrosPerMinute: nat := 60_000_000
  const MicrosPerDay: nat := 1440 * MicrosPerMinute

  /** A clock reading: microseconds since midnight. */
  type Micros = us: nat | us < MicrosPerDay

  /** The hour and minute of a clock reading: what strftime("%H:%M") and
      the candidates' own minute-of-day see of it. */
  function ClockTime(now: Micros): (t: Time)
    ensures InRange(t)
    ensures t.hour * 60 + t.minute == now / MicrosPerMinute
  {
    var q := now / MicrosPerMinute;
    Time(q / 60, q % 60)
  }

  /** datetime.now().strftime("%H:%M"): canonical text that next_medicine_due
      reads back as the clock's own hour and minute. */
  function ClockText(now: Micros): (s: string)
    ensures IsCanonical(s)
    ensures ParseStored(s) == Some(ClockTime(now))
  {
    ParseStoredCanonical(ClockTime(now));
    Canonical(ClockTime(now))
  }

  /** A usable (record, time) pair. */
  datatype Slot = Slot(name: string, at: Time)

  /** The answer: a slot today (day offset 0) or tomorrow (1), or nothing. */
  datatype NextDue = Due(slot: Slot, dayOffset: nat) | NothingDue

  function MinuteOfDay(s: Slot): nat {
    s.at.hour * 60 + s.at.minute
  }

  /** datetime.combine(today, 00:00).replace(hour=hh, minute=mm), as
      microseconds since midnight: a whole minute, with zero seconds and
      microseconds, that the clock reads as the slot's own time. */
  function TodayInstant(s: Slot): (r: nat)
    ensures r % MicrosPerMinute == 0 && r / MicrosPerMinute == MinuteOfDay(s)
    ensures InRange(s.at) ==> r < MicrosPerDay && ClockTime(r) == s.at
  {
    MinuteOfDay(s) * MicrosPerMinute
  }

  /** The usable times of one record, in list order; unreadable ones are
      skipped. */
  function SlotsOf(name: string, times: seq<string>): (r: seq<Slot>)
    ensures forall x :: x in r ==> x.name == name && InRange(x.at)
    decreases |times|
  {
    if times == [] then []
    else SlotsOf(name, times[..|times| - 1]) + SlotOf(name, times[|times| - 1])
  }

  /** The slot of one stored time: none when it does not read back. */
  function SlotOf(name: string, t: string): (r: seq<Slot>)
    ensures forall x :: x in r ==> x.name == name && InRange(x.at)
  {
    match ParseStored(t)
    case Some(at) => [Slot(name, at)]
    case None => []
  }

  /** All candidates, record by record in store order. */
  function Candidates(meds: seq<Medicine>): (r: seq<Slot>)
    ensures forall i :: 0 <= i < |r| ==> InRange(r[i].at)
    decreases |meds|
  {
    if meds == [] then []
    else
      var last := meds[|meds| - 1];
      Candidates(meds[..|meds| - 1]) + SlotsOf(last.name, last.times)
  }

  /** The candidates at or after the clock today, in order. */
  function Upcoming(c: seq<Slot>, now: nat): (r: seq<Slot>)
    ensures |r| <= |c|
    ensures forall i :: 0 <= i < |r| ==> TodayInstant(r[i]) >= now
    decreases |c|
  {
    if c == [] then []
    else
      var last := c[|c| - 1];
      Upcoming(c[..|c| - 1], now) + (if TodayInstant(last) >= now then [last] else [])
  }

  /**
   * The position of the earliest slot, the first one among equals: what a
   * stable sort by time puts first, and what a scan that replaces its
   * choice only on a strictly earlier time keeps.
   */
  function FirstEarliest(c: seq<Slot>): (k: nat)
    requires c != []
    ensures k < |c|
    ensures forall j :: 0 <= j < |c| ==> MinuteOfDay(c[k]) <= MinuteOfDay(c[j])
    ensures forall j :: 0 <= j < k ==> MinuteOfDay(c[j]) > MinuteOfDay(c[k])
    decreases |c|
  {
    if |c| == 1 then 0
    else
      var k := FirstEarliest(c[..|c| - 1]);
      if MinuteOfDay(c[|c| - 1]) < MinuteOfDay(c[k]) then |c| - 1 else k
  }

  /** A scan that keeps its choice unless a strictly earlier slot comes
      along ends on the first earliest slot. */
  lemma FirstEarliestStep(c: seq<Slot>, x: Slot)
    ensures var e := (c + [x])[FirstEarliest(c + [x])];
      e == if c == [] then x
           else if MinuteOfDay(x) < MinuteOfDay(c[FirstEarliest(c)]) then x
           else c[FirstEarliest(c)]
  {
    assert (c + [x])[..|c|] == c;
  }

  /** What the second loop of next_medicine_due keeps: its choice is
      replaced only by a strictly earlier slot. */
  function Earliest(c: seq<Slot>): (r: Option<Slot>)
    ensures r.None? <==> c == []
    ensures r.Some? ==> r.value in c
    decreases |c|
  {
    if c == [] then None
    else
      var e := Earliest(c[..|c| - 1]);
      var last := c[|c| - 1];
      if e.None? || MinuteOfDay(last) < MinuteOfDay(e.value) then Some(last) else e
  }

  /** The scan's choice is the first earliest slot. */
  lemma {:induction false} EarliestIsFirstEarliest(c: seq<Slot>)
    ensures Earliest(c) == if c == [] then None else Some(c[FirstEarliest(c)])
    decreases |c|
  {
    if c != [] {
      var init := c[..|c| - 1];
      EarliestIsFirstEarliest(init);
      FirstEarliestStep(init, c[|c| - 1]);
      assert init + [c[|c| - 1]] == c;
    }
  }

  lemma EarliestLast(c: seq<Slot>, x: Slot)
    ensures var e := Earliest(c);
      Earliest(c + [x]) == if e.None? || MinuteOfDay(x) < MinuteOfDay(e.value) then Some(x) else e
  {
    assert (c + [x])[..|c|] == c;
  }

  /** next_medicine_due: today first, tomorrow only when nothing is left today. */
  function NextDueOf(meds: seq<Medicine>, now: nat): (r: NextDue)
    ensures r.NothingDue? <==> Candidates(meds) == []
    ensures r.Due? ==> r.dayOffset <= 1 && InRange(r.slot.at)
    ensures r.Due? && r.dayOffset == 0 ==> TodayInstant(r.slot) >= now
  {
    var c := Candidates(meds);
    var up := Upcoming(c, now);
    if up != [] then
      var x := up[FirstEarliest(up)];
      UpcomingMembers(c, now, x);
      Due(x, 0)
    else if c != [] then Due(c[FirstEarliest(c)], 1)
    else NothingDue
  }

  // ---------------------------------------------------------------
  // Properties
  // ---------------------------------------------------------------

  /** The upcoming list holds exactly the candidates at or after the clock. */
  lemma {:induction false} UpcomingMembers(c: seq<Slot>, now: nat, x: Slot)
    ensures x in Upcoming(c, now) <==> x in c && TodayInstant(x) >= now
    decreases |c|
  {
    if c != [] {
      UpcomingMembers(c[..|c| - 1], now, x);
      assert c == c[..|c| - 1] + [c[|c| - 1]];
    }
  }

  lemma UpcomingOne(x: Slot, now: nat)
    ensures Upcoming([x], now) == if TodayInstant(x) >= now then [x] else []
  {
    assert [x][..0] == [];
  }

  /** The upcoming list keeps store order. */
  lemma {:induction false} UpcomingConcat(a: seq<Slot>, b: seq<Slot>, now: nat)
    ensures Upcoming(a + b, now) == Upcoming(a, now) + Upcoming(b, now)
    decreases |b|
  {
    if b == [] {
      assert a + b == a;
    } else {
      assert (a + b)[..|a + b| - 1] == a + b[..|b| - 1];
      UpcomingConcat(a, b[..|b| - 1], now);
    }
  }

  lemma {:induction false} SlotsOfSound(name: string, times: seq<string>, x: Slot)
    requires x in SlotsOf(name, times)
    ensures x.name == name
    ensures exists j :: 0 <= j < |times| && ParseStored(times[j]) == Some(x.at)
    decreases |times|
  {
    var init := times[..|times| - 1];
    if x in SlotsOf(name, init) {
      SlotsOfSound(name, init, x);
      var j :| 0 <= j < |init| && ParseStored(init[j]) == Some(x.at);
      assert times[j] == init[j];
    } else {
      assert x in SlotOf(name, times[|times| - 1]);
      assert ParseStored(times[|times| - 1]) == Some(x.at);
    }
  }

  lemma SlotOfReadable(name: string, t: string, at: Time)
    requires ParseStored(t) == Some(at)
    ensures SlotOf(name, t) == [Slot(name, at)]
  {
  }

  lemma SlotsOfLast(name: string, times: seq<string>)
    requires times != []
    ensures SlotsOf(name, times) == SlotsOf(name, times[..|times| - 1]) + SlotOf(name, times[|times| - 1])
  {
  }

  lemma {:induction false} SlotsOfComplete(name: string, times: seq<string>, j: nat, at: Time)
    requires j < |times| && ParseStored(times[j]) == Some(at)
    ensures Slot(name, at) in SlotsOf(name, times)
    decreases |times|
  {
    SlotsOfLast(name, times);
    if j < |times| - 1 {
      assert times[..|times| - 1][j] == times[j];
      SlotsOfComplete(name, times[..|times| - 1], j, at);
    } else {
      SlotOfReadable(name, times[|times| - 1], at);
    }
  }

  /** Every candidate is a record's name with one of its times that reads back. */
  lemma {:induction false} CandidatesSound(meds: seq<Medicine>, x: Slot)
    requires x in Candidates(meds)
    ensures exists i, j ::
      && 0 <= i < |meds| && 0 <= j < |meds[i].times|
      && x.name == meds[i].name && ParseStored(meds[i].times[j]) == Some(x.at)
    decreases |meds|
  {
    var init := meds[..|meds| - 1];
    var last := meds[|meds| - 1];
    if x in Candidates(init) {
      CandidatesSound(init, x);
      var i, j :| 0 <= i < |init| && 0 <= j < |init[i].times|
        && x.name == init[i].name && ParseStored(init[i].times[j]) == Some(x.at);
      assert meds[i] == init[i];
    } else {
      SlotsOfSound(last.name, last.times, x);
      var j :| 0 <= j < |last.times| && ParseStored(last.times[j]) == Some(x.at);
      assert meds[|meds| - 1] == last;
    }
  }

  lemma CandidatesLast(meds: seq<Medicine>)
    requires meds != []
    ensures Candidates(meds)
      == Candidates(meds[..|meds| - 1]) + SlotsOf(meds[|meds| - 1].name, meds[|meds| - 1].times)
  {
  }

  /** One more record scanned: its usable times follow the earlier ones. */
  lemma CandidatesStep(meds: seq<Medicine>, i: nat)
    requires i < |meds|
    ensures Candidates(meds[..i + 1]) == Candidates(meds[..i]) + SlotsOf(meds[i].name, meds[i].times)
  {
    assert meds[..i + 1][..i] == meds[..i];
    CandidatesLast(meds[..i + 1]);
  }

  /** One more stored time scanned. */
  lemma SlotsOfStep(name: string, times: seq<string>, j: nat)
    requires j < |times|
    ensures SlotsOf(name, times[..j + 1]) == SlotsOf(name, times[..j]) + SlotOf(name, times[j])
  {
    assert times[..j + 1][..j] == times[..j];
    SlotsOfLast(name, times[..j + 1]);
  }

  /** Every stored time that reads back gives a candidate. */
  lemma {:induction false} CandidatesComplete(meds: seq<Medicine>, i: nat, j: nat, at: Time)
    requires i < |meds| && j < |meds[i].times|
    requires ParseStored(meds[i].times[j]) == Some(at)
    ensures Slot(meds[i].name, at) in Candidates(meds)
    decreases |meds|
  {
    CandidatesLast(meds);
    if i < |meds| - 1 {
      assert meds[..|meds| - 1][i] == meds[i];
      CandidatesComplete(meds[..|meds| - 1], i, j, at);
    } else {
      SlotsOfComplete(meds[i].name, meds[i].times, j, at);
    }
  }

  /** In a well-formed store every stored time is usable: nothing is skipped. */
  lemma WellFormedTimesUsable(meds: seq<Medicine>, i: nat, j: nat)
    requires WellFormed(meds)
    requires i < |meds| && j < |meds[i].times|
    ensures ParseStored(meds[i].times[j]).Some?
    ensures Slot(meds[i].name, ParseStored(meds[i].times[j]).value) in Candidates(meds)
  {
    var s := meds[i].times[j];
    var t := Time(Value(s[..2]), Value(s[3..]));
    TwoDigitsOfValue(s[..2]);
    TwoDigitsOfValue(s[3..]);
    assert Canonical(t) == s;
    ParseStoredCanonical(t);
    CandidatesComplete(meds, i, j, t);
  }

  /**
   * While some candidate is still ahead today, the answer is for today: a
   * candidate at or after the clock, no later than any other such, and the
   * first of them in store order among equal times.
   */
  lemma NextDueToday(meds: seq<Medicine>, now: nat, y: Slot)
    requires y in Candidates(meds) && TodayInstant(y) >= now
    ensures var r := NextDueOf(meds, now);
      && r.Due? && r.dayOffset == 0
      && r.slot in Candidates(meds) && TodayInstant(r.slot) >= now
      && (forall x :: x in Candidates(meds) && TodayInstant(x) >= now ==> MinuteOfDay(r.slot) <= MinuteOfDay(x))
  {
    var c := Candidates(meds);
    var up := Upcoming(c, now);
    UpcomingMembers(c, now, y);
    var s := up[FirstEarliest(up)];
    UpcomingMembers(c, now, s);
    forall x | x in c && TodayInstant(x) >= now ensures MinuteOfDay(s) <= MinuteOfDay(x) {
      UpcomingMembers(c, now, x);
    }
  }

  /** The tie rule of the first phase: among upcoming slots of equal time,
      the one listed first wins. */
  lemma NextDueTodayFirstOfEqual(meds: seq<Medicine>, now: nat)
    requires Upcoming(Candidates(meds), now) != []
    ensures var up := Upcoming(Candidates(meds), now);
      exists k :: 0 <= k < |up| && NextDueOf(meds, now) == Due(up[k], 0)
        && forall j :: 0 <= j < k ==> MinuteOfDay(up[j]) > MinuteOfDay(up[k])
  {
    var up := Upcoming(Candidates(meds), now);
    var k := FirstEarliest(up);
    assert NextDueOf(meds, now) == Due(up[k], 0);
  }

  /**
   * When every candidate is already past today, the answer is tomorrow's
   * earliest candidate, the first one in store order among equal times.
   */
  lemma NextDueTomorrow(meds: seq<Medicine>, now: nat)
    requires Candidates(meds) != []
    requires forall x :: x in Candidates(meds) ==> TodayInstant(x) < now
    ensures var c := Candidates(meds);
      exists k :: 0 <= k < |c| && NextDueOf(meds, now) == Due(c[k], 1)
        && (forall j :: 0 <= j < |c| ==> MinuteOfDay(c[k]) <= MinuteOfDay(c[j]))
        && (forall j :: 0 <= j < k ==> MinuteOfDay(c[j]) > MinuteOfDay(c[k]))
  {
    var c := Candidates(meds);
    var up := Upcoming(c, now);
    if up != [] {
      UpcomingMembers(c, now, up[0]);
    }
    var k := FirstEarliest(c);
    assert NextDueOf(meds, now) == Due(c[k], 1);
  }

  /**
   * A dose in the current minute counts as still ahead only when the clock
   * reads zero seconds and zero microseconds.
   */
  lemma CurrentMinute(s: Slot, now: Micros)
    requires MinuteOfDay(s) == now / MicrosPerMinute
    ensures TodayInstant(s) >= now <==> now % MicrosPerMinute == 0
  {
  }
}
