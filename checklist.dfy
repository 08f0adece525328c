/**
 * The medicine-checklist tools of tools.py as one object whose state is
 * the "medicines" list of the backing file. Each tool loads the list,
 * works on it and saves it back; here the list is the field meds, and a
 * save is an assignment to it. The clock (today's date and the time of
 * day) is passed in by the caller.
 */
module Checklist {

  import opened Wrappers
  import opened Strings
  import opened TimeText
  import opened Store
  import opened Schedule

  /** What a tool answers, without the wording of its message. */
  datatype Reply =
    | Saved(name: string, times: seq<string>)  // "Added/updated medicine '...' at ..."
    | NoValidTimes                             // "No valid times provided."
    | InvalidTime(text: string)                // "Invalid time format: ..."
    | NotFound(name: string)                   // "Medicine '...' not found."
    | Removed(name: string)                    // "Removed medicine '...'."
    | Marked(name: string, at: string)         // "Marked '...' as taken at ... today."

  // ---------------------------------------------------------------
  // The times argument of add_medicine
  // ---------------------------------------------------------------

  /** What the loop does with one fragment: skip it when it strips to
      nothing, which is exactly when it is all blanks, otherwise the
      normaliser's answer. */
  function Outcome(f: string): (r: Option<Result<string>>)
    ensures r.None? <==> AllSpace(f)
    ensures r.Some? ==> r.value == Normalize(f)
  {
    TrimEmpty(f);
    if Trim(f) == "" then None else Some(Normalize(f))
  }

  function Outcomes(frags: seq<string>): (outs: seq<Option<Result<string>>>)
    ensures |outs| == |frags| && forall i :: 0 <= i < |frags| ==> outs[i] == Outcome(frags[i])
  {
    seq(|frags|, i requires 0 <= i < |frags| => Outcome(frags[i]))
  }

  predicate Failed(o: Option<Result<string>>) {
    o.Some? && o.value.Err?
  }

  /**
   * The loop over the outcomes in order: skipped fragments add nothing, a
   * normalised one adds its time, and the first error ends the loop. It
   * succeeds exactly when no outcome is an error.
   */
  function Collect(outs: seq<Option<Result<string>>>): (r: Result<seq<string>>)
    ensures r.Ok? <==> forall i :: 0 <= i < |outs| ==> !Failed(outs[i])
    ensures r.Ok? ==> |r.value| <= |outs|
    decreases |outs|
  {
    if outs == [] then Ok([])
    else
      assert forall i :: 0 <= i < |outs| - 1 ==> outs[..|outs| - 1][i] == outs[i];
      match Collect(outs[..|outs| - 1])
      case Err(e) => Err(e)
      case Ok(ts) =>
        match outs[|outs| - 1]
        case None => Ok(ts)
        case Some(Err(e)) => Err(e)
        case Some(Ok(t)) => Ok(ts + [t])
  }

  /** The loop over times.split(','): at most one time per fragment, and
      it succeeds exactly when every non-blank fragment normalises. */
  function ParsedTimes(frags: seq<string>): (r: Result<seq<string>>)
    ensures r.Ok? <==> forall i :: 0 <= i < |frags| && !AllSpace(frags[i]) ==> Normalize(frags[i]).Ok?
    ensures r.Ok? ==> |r.value| <= |frags|
  {
    Collect(Outcomes(frags))
  }

  lemma CollectLast(outs: seq<Option<Result<string>>>)
    requires outs != []
    ensures Collect(outs) == match Collect(outs[..|outs| - 1])
      case Err(e) => Err(e)
      case Ok(ts) =>
        match outs[|outs| - 1]
        case None => Ok(ts)
        case Some(Err(e)) => Err(e)
        case Some(Ok(t)) => Ok(ts + [t])
  {
  }

  /** A successful collection holds exactly the normalised times. */
  lemma {:induction false} CollectValues(outs: seq<Option<Result<string>>>, t: string)
    requires Collect(outs).Ok?
    ensures t in Collect(outs).value <==> exists i :: 0 <= i < |outs| && outs[i] == Some(Ok(t))
    decreases |outs|
  {
    if outs != [] {
      var n := |outs| - 1;
      CollectLast(outs);
      CollectValues(outs[..n], t);
      assert forall i :: 0 <= i < n ==> outs[..n][i] == outs[i];
    }
  }

  /** A failed collection carries the first error. */
  lemma {:induction false} CollectFirstError(outs: seq<Option<Result<string>>>)
    requires Collect(outs).Err?
    ensures exists i ::
      && 0 <= i < |outs| && outs[i] == Some(Err(Collect(outs).text))
      && forall j :: 0 <= j < i ==> !Failed(outs[j])
    decreases |outs|
  {
    var n := |outs| - 1;
    CollectLast(outs);
    assert forall i :: 0 <= i < n ==> outs[..n][i] == outs[i];
    if Collect(outs[..n]).Err? {
      CollectFirstError(outs[..n]);
    }
  }

  /** Once the loop has failed, the later fragments do not change the answer. */
  lemma {:induction false} CollectErrPersists(outs: seq<Option<Result<string>>>, n: nat, e: string)
    requires n <= |outs| && Collect(outs[..n]) == Err(e)
    ensures Collect(outs) == Err(e)
    decreases |outs| - n
  {
    if n < |outs| {
      CollectLast(outs[..n + 1]);
      assert outs[..n + 1][..n] == outs[..n];
      CollectErrPersists(outs, n + 1, e);
    } else {
      assert outs[..n] == outs;
    }
  }

  /** The parsed times are the normal forms of the non-blank fragments. */
  lemma ParsedTimesValues(frags: seq<string>, t: string)
    requires ParsedTimes(frags).Ok?
    ensures t in ParsedTimes(frags).value <==>
      exists i :: 0 <= i < |frags| && !AllSpace(frags[i]) && Normalize(frags[i]) == Ok(t)
  {
    var outs := Outcomes(frags);
    CollectValues(outs, t);
    if t in ParsedTimes(frags).value {
      var i :| 0 <= i < |outs| && outs[i] == Some(Ok(t));
      assert !AllSpace(frags[i]) && Normalize(frags[i]) == Ok(t);
    }
    if exists i :: 0 <= i < |frags| && !AllSpace(frags[i]) && Normalize(frags[i]) == Ok(t) {
      var i :| 0 <= i < |frags| && !AllSpace(frags[i]) && Normalize(frags[i]) == Ok(t);
      assert outs[i] == Some(Ok(t));
    }
  }

  /** A failed parse reports the first non-blank fragment that does not
      normalise, with that fragment's error text. */
  lemma ParsedTimesFirstError(frags: seq<string>)
    requires ParsedTimes(frags).Err?
    ensures exists i ::
      && 0 <= i < |frags| && !AllSpace(frags[i])
      && Normalize(frags[i]) == Err(ParsedTimes(frags).text)
      && forall j :: 0 <= j < i ==> AllSpace(frags[j]) || Normalize(frags[j]).Ok?
  {
    var outs := Outcomes(frags);
    CollectFirstError(outs);
    var i :| 0 <= i < |outs| && outs[i] == Some(Err(Collect(outs).text))
      && forall j :: 0 <= j < i ==> !Failed(outs[j]);
    assert !AllSpace(frags[i]) && Normalize(frags[i]) == Err(ParsedTimes(frags).text);
    assert forall j :: 0 <= j < i ==> AllSpace(frags[j]) || Normalize(frags[j]).Ok? by {
      forall j | 0 <= j < i ensures AllSpace(frags[j]) || Normalize(frags[j]).Ok? {
        assert !Failed(outs[j]);
      }
    }
  }

  /** Every parsed time is canonical hh:mm. */
  lemma ParsedTimesCanonical(frags: seq<string>, t: string)
    requires ParsedTimes(frags).Ok? && t in ParsedTimes(frags).value
    ensures IsCanonical(t)
  {
    ParsedTimesValues(frags, t);
    var i :| 0 <= i < |frags| && !AllSpace(frags[i]) && Normalize(frags[i]) == Ok(t);
  }

  /**
   * The first phase of add_medicine: split on commas, skip blank fragments,
   * normalise the others; an error stops the loop.
   */
  method ParseTimes(times: string) returns (r: Result<seq<string>>)
    ensures r == ParsedTimes(Split(times, ','))
  {
    var frags := Split(times, ',');
    ghost var outs := Outcomes(frags);
    var parsed: seq<string> := [];
    var i := 0;
    while i < |frags|
      invariant 0 <= i <= |frags|
      invariant Collect(outs[..i]) == Ok(parsed)
    {
      var f := frags[i];
      CollectLast(outs[..i + 1]);
      assert outs[..i + 1][..i] == outs[..i];
      if Trim(f) != "" {
        var n := Normalize(f);
        if n.Err? {
          CollectErrPersists(outs, i + 1, n.text);
          return Err(n.text);
        }
        parsed := parsed + [n.value];
      }
      i := i + 1;
    }
    assert outs[..|frags|] == outs;
    return Ok(parsed);
  }

  /**
   * The times add_medicine saves: strictly ascending (sorted and without
   * repeats), every one canonical hh:mm, and exactly the normal forms of the
   * non-blank fragments.
   */
  lemma SavedTimes(times: string, t: string)
    requires ParsedTimes(Split(times, ',')).Ok?
    ensures var frags := Split(times, ',');
      var saved := SortedUnique(ParsedTimes(frags).value);
      && TimesValid(saved)
      && (t in saved <==> exists i :: 0 <= i < |frags| && !AllSpace(frags[i]) && Normalize(frags[i]) == Ok(t))
  {
    var frags := Split(times, ',');
    var ts := ParsedTimes(frags).value;
    var saved := SortedUnique(ts);
    ParsedTimesValues(frags, t);
    forall i | 0 <= i < |saved| ensures IsCanonical(saved[i]) {
      ParsedTimesCanonical(frags, saved[i]);
    }
  }

  // ---------------------------------------------------------------
  // The checklist
  // ---------------------------------------------------------------

  class MedicineChecklist {

    /** The "medicines" list of the backing file. */
    var meds: seq<Medicine>

    /** _load_db: the records of the file, or none when it is missing or
        unreadable. */
    constructor (file: Option<Document>)
      ensures meds == Load(file)
    {
      meds := Load(file);
    }

    /** What every tool of the checklist keeps: unique names up to case, and
        canonical, strictly ascending times. */
    predicate Valid()
      reads this
    {
      WellFormed(meds)
    }

    /**
     * add_medicine: with no usable times, or a time that does not normalise,
     * nothing is saved. Otherwise the first record with the same name up to
     * case gets the new times, dosage and notes, or a new record is appended.
     */
    method AddMedicine(name: string, times: string, dosage: string, notes: string) returns (reply: Reply)
      modifies this
      ensures var p := ParsedTimes(Split(times, ','));
        && (p.Err? ==> reply == InvalidTime(p.text) && meds == old(meds))
        && (p.Ok? && p.value == [] ==> reply == NoValidTimes && meds == old(meds))
        && (p.Ok? && p.value != [] ==>
              var saved := SortedUnique(p.value);
              reply == Saved(name, saved) && meds == Upsert(old(meds), name, saved, dosage, notes))
      ensures old(Valid()) ==> Valid()
    {
      var p := ParseTimes(times);
      if p.Err? {
        return InvalidTime(p.text);
      }
      var saved := SortedUnique(p.value);
      if saved == [] {
        return NoValidTimes;
      }
      assert p.value != [];
      SavedTimes(times, "");
      if Valid() {
        UpsertWellFormed(meds, name, saved, dosage, notes);
      }
      var existing := FirstMatch(meds, name);
      if existing.Some? {
        var k := existing.value;
        meds := meds[k := meds[k].(times := saved, dosage := dosage, notes := notes)];
      } else {
        meds := meds + [Medicine(name, saved, dosage, notes, map[])];
      }
      reply := Saved(name, saved);
    }

    /** list_medicines: one line per record in store order, joined with
        newlines, or the "none" text for an empty store. */
    method ListMedicines() returns (text: string)
      ensures text == Listing(meds)
    {
      if |meds| == 0 {
        return NoMedicines;
      }
      var lines: seq<string> := [];
      for i := 0 to |meds|
        invariant |lines| == i
        invariant forall k :: 0 <= k < i ==> lines[k] == Line(meds[k])
      {
        var m := meds[i];
        var line := "- " + m.name + ": times " + Join(m.times, ", ");
        if m.dosage != "" {
          line := line + ", dosage " + m.dosage;
        }
        if m.notes != "" {
          line := line + ", notes " + m.notes;
        }
        assert line == Line(m);
        lines := lines + [line];
      }
      assert lines == Lines(meds);
      text := Join(lines, "\n");
    }

    /** remove_medicine: drop every record with the name up to case; when
        there is none, nothing is saved. */
    method RemoveMedicine(name: string) returns (reply: Reply)
      modifies this
      ensures FirstMatch(old(meds), name).None? ==> reply == NotFound(name) && meds == old(meds)
      ensures FirstMatch(old(meds), name).Some? ==> reply == Removed(name) && meds == Without(old(meds), name)
      ensures old(Valid()) ==> Valid()
    {
      var kept := Without(meds, name);
      if |kept| == |meds| {
        return NotFound(name);
      }
      if Valid() {
        WithoutWellFormed(meds, name);
      }
      meds := kept;
      reply := Removed(name);
    }

    /** mark_medicine_taken: the clock's hh:mm is appended to today's entry of
        the first record with the name up to case. */
    method MarkMedicineTaken(name: string, today: string, now: Micros) returns (reply: Reply)
      modifies this
      ensures FirstMatch(old(meds), name).None? ==> reply == NotFound(name) && meds == old(meds)
      ensures FirstMatch(old(meds), name).Some? ==>
        && reply == Marked(name, ClockText(now))
        && meds == RecordIntake(old(meds), name, today, ClockText(now))
      ensures old(Valid()) ==> Valid()
    {
      var found := FirstMatch(meds, name);
      if found.None? {
        return NotFound(name);
      }
      var at := ClockText(now);
      if Valid() {
        RecordIntakeWellFormed(meds, name, today, at);
      }
      var k := found.value;
      meds := meds[k := LogIntake(meds[k], today, at)];
      reply := Marked(name, at);
    }

    /**
     * next_medicine_due: the earliest of today's candidates at or after the
     * clock; with none, tomorrow's earliest candidate; with no usable time
     * at all, nothing.
     */
    method NextMedicineDue(now: Micros) returns (r: NextDue)
      ensures r == NextDueOf(meds, now)
    {
      var upcoming := ScanToday(now);
      if upcoming != [] {
        return Due(upcoming[FirstEarliest(upcoming)], 0);
      }
      var earliest := ScanTomorrow();
      if earliest.Some? {
        r := Due(earliest.value, 1);
      } else {
        r := NothingDue;
      }
    }

    /** The first loop of next_medicine_due: every usable time of every
        record, in store order, whose instant today is at or after the clock. */
    method ScanToday(now: Micros) returns (upcoming: seq<Slot>)
      ensures upcoming == Upcoming(Candidates(meds), now)
    {
      upcoming := [];
      var i := 0;
      while i < |meds|
        invariant 0 <= i <= |meds|
        invariant upcoming == Upcoming(Candidates(meds[..i]), now)
      {
        var m := meds[i];
        ghost var before := Candidates(meds[..i]);
        var j := 0;
        NoSlotsYet(before, m.name, m.times);
        while j < |m.times|
          invariant 0 <= j <= |m.times|
          invariant upcoming == Upcoming(before + SlotsOf(m.name, m.times[..j]), now)
        {
          TodayStep(before, m.name, m.times, j, now);
          var p := ParseStored(m.times[j]);
          if p.Some? {
            var s := Slot(m.name, p.value);
            if TodayInstant(s) >= now {
              upcoming := upcoming + [s];
            }
          }
          j := j + 1;
        }
        assert m.times[..j] == m.times;
        CandidatesStep(meds, i);
        i := i + 1;
      }
      assert meds[..i] == meds;
    }

    /** The second loop of next_medicine_due: the earliest usable time,
        replaced only by a strictly earlier one. */
    method ScanTomorrow() returns (earliest: Option<Slot>)
      ensures var c := Candidates(meds);
        earliest == if c == [] then None else Some(c[FirstEarliest(c)])
    {
      earliest := None;
      ghost var seen: seq<Slot> := [];
      var i := 0;
      while i < |meds|
        invariant 0 <= i <= |meds|
        invariant seen == Candidates(meds[..i])
        invariant earliest == Earliest(seen)
      {
        var m := meds[i];
        ghost var before := Candidates(meds[..i]);
        var j := 0;
        NoSlotsYet(before, m.name, m.times);
        while j < |m.times|
          invariant 0 <= j <= |m.times|
          invariant seen == before + SlotsOf(m.name, m.times[..j])
          invariant earliest == Earliest(seen)
        {
          TomorrowStep(before, m.name, m.times, j);
          var p := ParseStored(m.times[j]);
          if p.Some? {
            var s := Slot(m.name, p.value);
            EarliestLast(seen, s);
            if earliest.None? || MinuteOfDay(s) < MinuteOfDay(earliest.value) {
              earliest := Some(s);
            }
            seen := seen + [s];
          }
          j := j + 1;
        }
        assert m.times[..j] == m.times;
        CandidatesStep(meds, i);
        i := i + 1;
      }
      assert meds[..i] == meds;
      EarliestIsFirstEarliest(seen);
    }
  }

  /** Before a record's first stored time, the scan has seen what it saw
      before that record. */
  lemma NoSlotsYet(before: seq<Slot>, name: string, times: seq<string>)
    ensures before + SlotsOf(name, times[..0]) == before
  {
    assert times[..0] == [];
  }

  /** The stored time scanned in one step of the first loop: kept when it
      reads back and its instant today is at or after the clock. */
  lemma TodayStep(before: seq<Slot>, name: string, times: seq<string>, j: nat, now: nat)
    requires j < |times|
    ensures var p := ParseStored(times[j]);
      Upcoming(before + SlotsOf(name, times[..j + 1]), now)
      == Upcoming(before + SlotsOf(name, times[..j]), now)
         + (if p.Some? && TodayInstant(Slot(name, p.value)) >= now then [Slot(name, p.value)] else [])
  {
    ScanStep(before, name, times, j, now);
    var p := ParseStored(times[j]);
    if p.Some? {
      SlotOfReadable(name, times[j], p.value);
      UpcomingOne(Slot(name, p.value), now);
    }
  }

  /** The stored time scanned in one step of the second loop: seen when it
      reads back. */
  lemma TomorrowStep(before: seq<Slot>, name: string, times: seq<string>, j: nat)
    requires j < |times|
    ensures var p := ParseStored(times[j]);
      before + SlotsOf(name, times[..j + 1])
      == before + SlotsOf(name, times[..j]) + (if p.Some? then [Slot(name, p.value)] else [])
  {
    SlotsOfStep(name, times, j);
    var p := ParseStored(times[j]);
    if p.Some? {
      SlotOfReadable(name, times[j], p.value);
    }
  }

  /** One stored time scanned in the first phase. */
  lemma ScanStep(seen: seq<Slot>, name: string, times: seq<string>, j: nat, now: nat)
    requires j < |times|
    ensures Upcoming(seen + SlotsOf(name, times[..j + 1]), now)
      == Upcoming(seen + SlotsOf(name, times[..j]), now) + Upcoming(SlotOf(name, times[j]), now)
  {
    SlotsOfStep(name, times, j);
    assert seen + SlotsOf(name, times[..j + 1]) == (seen + SlotsOf(name, times[..j])) + SlotOf(name, times[j]);
    UpcomingConcat(seen + SlotsOf(name, times[..j]), SlotOf(name, times[j]), now);
  }
}
