/**
 * The medicine store of tools.py: the records, the case-insensitive
 * lookup by name, and the pure transformations that add_medicine,
 * remove_medicine, mark_medicine_taken and list_medicines apply to the
 * list of records between loading and saving it.
 */
module Store {

  import opened Wrappers
  import opened Strings
  import opened TimeText

  /** One entry of the "medicines" list. */
  datatype Medicine = Medicine(
    name: string,
    times: seq<string>,
    dosage: string,
    notes: string,
    takenLog: map<string, seq<string>>)

  /** The decoded backing file: its "medicines" entry, when it has one. */
  datatype Document = Document(medicines: Option<seq<Medicine>>)

  /**
   * _load_db followed by db.get("medicines", []): a missing or unreadable
   * file (None) and a document without the entry give the empty store.
   */
  function Load(file: Option<Document>): (meds: seq<Medicine>)
    ensures file.None? || file.value.medicines.None? ==> meds == []
    ensures file.Some? && file.value.medicines.Some? ==> meds == file.value.medicines.value
  {
    match file
    case None => []
    case Some(doc) =>
      match doc.medicines
      case None => []
      case Some(ms) => ms
  }

  // ---------------------------------------------------------------
  // The store invariant
  // ---------------------------------------------------------------

  /** The times of one record: canonical and strictly ascending. */
  predicate TimesValid(ts: seq<string>) {
    StrictlyAscending(ts) && forall i :: 0 <= i < |ts| ==> IsCanonical(ts[i])
  }

  /** No two records share a name up to letter case. */
  predicate UniqueNames(meds: seq<Medicine>) {
    forall i, j :: 0 <= i < j < |meds| ==> !SameName(meds[i].name, meds[j].name)
  }

  predicate WellFormed(meds: seq<Medicine>) {
    UniqueNames(meds) && forall i :: 0 <= i < |meds| ==> TimesValid(meds[i].times)
  }

  // ---------------------------------------------------------------
  // Lookup: the first record whose name equals the given one up to letter
  // case, or none
  // ---------------------------------------------------------------

  function FirstMatch(meds: seq<Medicine>, name: string): (r: Option<nat>)
    ensures r.Some? ==> r.value < |meds| && SameName(meds[r.value].name, name)
    ensures r.Some? ==> forall j :: 0 <= j < r.value ==> !SameName(meds[j].name, name)
    ensures r.None? <==> forall j :: 0 <= j < |meds| ==> !SameName(meds[j].name, name)
    decreases |meds|
  {
    if meds == [] then None
    else if SameName(meds[0].name, name) then Some(0)
    else match FirstMatch(meds[1..], name)
      case Some(k) => Some(k + 1)
      case None => None
  }

  /** The lookup only looks at names. */
  lemma FirstMatchByNames(a: seq<Medicine>, b: seq<Medicine>, name: string)
    requires |a| == |b|
    requires forall j :: 0 <= j < |a| ==> a[j].name == b[j].name
    ensures FirstMatch(a, name) == FirstMatch(b, name)
  {
  }

  // ---------------------------------------------------------------
  // add_medicine: update the first match in place or append
  // ---------------------------------------------------------------

  /**
   * A record found by name gets the new times, dosage and notes and keeps
   * its stored name, its intake log and its position; every other record
   * is unchanged. Without a match one new record, with an empty log, is
   * appended at the end.
   */
  function Upsert(meds: seq<Medicine>, name: string, ts: seq<string>, dosage: string, notes: string)
    : (r: seq<Medicine>)
    ensures FirstMatch(meds, name).Some? ==>
      var k := FirstMatch(meds, name).value;
      && |r| == |meds|
      && r[k].name == meds[k].name && r[k].takenLog == meds[k].takenLog
      && r[k].times == ts && r[k].dosage == dosage && r[k].notes == notes
      && forall j :: 0 <= j < |r| && j != k ==> r[j] == meds[j]
    ensures FirstMatch(meds, name).None? ==>
      && |r| == |meds| + 1
      && r[..|meds|] == meds
      && r[|meds|] == Medicine(name, ts, dosage, notes, map[])
  {
    match FirstMatch(meds, name)
    case Some(k) => meds[k := meds[k].(times := ts, dosage := dosage, notes := notes)]
    case None => meds + [Medicine(name, ts, dosage, notes, map[])]
  }

  /** After an add, looking the name up finds a record holding exactly the
      new times, dosage and notes. */
  lemma UpsertThenFind(meds: seq<Medicine>, name: string, ts: seq<string>, dosage: string, notes: string)
    ensures var r := Upsert(meds, name, ts, dosage, notes);
      && FirstMatch(r, name).Some?
      && r[FirstMatch(r, name).value].times == ts
      && r[FirstMatch(r, name).value].dosage == dosage
      && r[FirstMatch(r, name).value].notes == notes
  {
    var r := Upsert(meds, name, ts, dosage, notes);
    match FirstMatch(meds, name)
    case Some(k) =>
      FirstMatchByNames(meds, r, name);
    case None =>
      assert SameName(r[|meds|].name, name);
  }

  /** An add never creates a second record for a name that differs only in
      letter case: the store holds the same number of records. */
  lemma UpsertExistingKeepsSize(meds: seq<Medicine>, name: string, other: string, ts: seq<string>, dosage: string, notes: string)
    requires exists j :: 0 <= j < |meds| && meds[j].name == other
    requires SameName(other, name)
    ensures |Upsert(meds, name, ts, dosage, notes)| == |meds|
  {
    var j :| 0 <= j < |meds| && meds[j].name == other;
    assert SameName(meds[j].name, name);
  }

  /** Adding keeps the store invariant when the new times are valid. */
  lemma UpsertWellFormed(meds: seq<Medicine>, name: string, ts: seq<string>, dosage: string, notes: string)
    requires WellFormed(meds) && TimesValid(ts)
    ensures WellFormed(Upsert(meds, name, ts, dosage, notes))
  {
    var r := Upsert(meds, name, ts, dosage, notes);
    match FirstMatch(meds, name)
    case Some(k) =>
      assert forall j :: 0 <= j < |r| ==> r[j].name == meds[j].name;
    case None =>
      forall i, j | 0 <= i < j < |r| ensures !SameName(r[i].name, r[j].name) {
        if j == |meds| {
          assert r[i] == meds[i];
        } else {
          assert r[i] == meds[i] && r[j] == meds[j];
        }
      }
      forall i | 0 <= i < |r| ensures TimesValid(r[i].times) {
        if i < |meds| { assert r[i] == meds[i]; }
      }
  }

  // ---------------------------------------------------------------
  // remove_medicine: keep, in order, every record whose name differs from
  // the given one up to letter case
  // ---------------------------------------------------------------

  function Without(meds: seq<Medicine>, name: string): (r: seq<Medicine>)
    ensures |r| <= |meds|
    ensures forall i :: 0 <= i < |r| ==> !SameName(r[i].name, name)
    ensures forall m :: m in r ==> m in meds
    ensures forall m :: m in meds && !SameName(m.name, name) ==> m in r
    ensures |r| == |meds| <==> FirstMatch(meds, name).None?
    decreases |meds|
  {
    if meds == [] then []
    else
      var rest := Without(meds[1..], name);
      assert forall m :: m in meds <==> m == meds[0] || m in meds[1..] by {
        assert meds == [meds[0]] + meds[1..];
      }
      if SameName(meds[0].name, name) then rest else [meds[0]] + rest
  }

  /** Removal works record by record, so the kept records stay in their
      relative order. */
  lemma {:induction false} WithoutConcat(a: seq<Medicine>, b: seq<Medicine>, name: string)
    ensures Without(a + b, name) == Without(a, name) + Without(b, name)
    decreases |a|
  {
    if a != [] {
      assert (a + b)[1..] == a[1..] + b;
      WithoutConcat(a[1..], b, name);
    } else {
      assert a + b == b;
    }
  }

  /** On a single record, removal drops it exactly when its name matches. */
  lemma WithoutOne(m: Medicine, name: string)
    ensures Without([m], name) == if SameName(m.name, name) then [] else [m]
  {
    assert [m][1..] == [];
  }

  /** Removal keeps the store invariant. */
  lemma {:induction false} WithoutWellFormed(meds: seq<Medicine>, name: string)
    requires WellFormed(meds)
    ensures WellFormed(Without(meds, name))
    decreases |meds|
  {
    if meds != [] {
      var tail := meds[1..];
      TailWellFormed(meds);
      WithoutWellFormed(tail, name);
      if !SameName(meds[0].name, name) {
        var rest := Without(tail, name);
        forall x | x in rest ensures !SameName(meds[0].name, x.name) {
          var i :| 0 <= i < |tail| && tail[i] == x;
          assert meds[i + 1] == x;
        }
        ConsWellFormed(meds[0], rest);
      }
    }
  }

  lemma TailWellFormed(meds: seq<Medicine>)
    requires WellFormed(meds) && meds != []
    ensures WellFormed(meds[1..])
  {
    var tail := meds[1..];
    forall i, j | 0 <= i < j < |tail| ensures !SameName(tail[i].name, tail[j].name) {
      assert tail[i] == meds[i + 1] && tail[j] == meds[j + 1];
    }
  }

  lemma ConsWellFormed(m: Medicine, rest: seq<Medicine>)
    requires WellFormed(rest) && TimesValid(m.times)
    requires forall x :: x in rest ==> !SameName(m.name, x.name)
    ensures WellFormed([m] + rest)
  {
    var r := [m] + rest;
    forall i, j | 0 <= i < j < |r| ensures !SameName(r[i].name, r[j].name) {
      assert r[j] == rest[j - 1];
      if i > 0 { assert r[i] == rest[i - 1]; }
    }
    forall i | 0 <= i < |r| ensures TimesValid(r[i].times) {
      if i > 0 { assert r[i] == rest[i - 1]; }
    }
  }

  // ---------------------------------------------------------------
  // mark_medicine_taken: append the clock time to taken_log[today]
  // ---------------------------------------------------------------

  function LogIntake(m: Medicine, day: string, at: string): (r: Medicine)
    ensures r.name == m.name && r.times == m.times && r.dosage == m.dosage && r.notes == m.notes
    ensures r.takenLog.Keys == m.takenLog.Keys + {day}
    ensures r.takenLog[day] == (if day in m.takenLog then m.takenLog[day] else []) + [at]
    ensures forall d :: d in m.takenLog && d != day ==> r.takenLog[d] == m.takenLog[d]
  {
    var today := if day in m.takenLog then m.takenLog[day] else [];
    m.(takenLog := m.takenLog[day := today + [at]])
  }

  /** Two marks on one day leave two entries, in order, under that day. */
  lemma LogIntakeTwice(m: Medicine, day: string, a: string, b: string)
    ensures var r := LogIntake(LogIntake(m, day, a), day, b);
      r.takenLog[day] == (if day in m.takenLog then m.takenLog[day] else []) + [a, b]
  {
    var before := if day in m.takenLog then m.takenLog[day] else [];
    assert before + [a] + [b] == before + [a, b];
  }

  /**
   * The first record found by name gets the intake; an unknown name leaves
   * the store as it is.
   */
  function RecordIntake(meds: seq<Medicine>, name: string, day: string, at: string): (r: seq<Medicine>)
    ensures FirstMatch(meds, name).None? ==> r == meds
    ensures FirstMatch(meds, name).Some? ==>
      var k := FirstMatch(meds, name).value;
      && |r| == |meds|
      && r[k] == LogIntake(meds[k], day, at)
      && forall j :: 0 <= j < |r| && j != k ==> r[j] == meds[j]
  {
    match FirstMatch(meds, name)
    case None => meds
    case Some(k) => meds[k := LogIntake(meds[k], day, at)]
  }

  /** Marking keeps the store invariant: names and times are untouched. */
  lemma RecordIntakeWellFormed(meds: seq<Medicine>, name: string, day: string, at: string)
    requires WellFormed(meds)
    ensures WellFormed(RecordIntake(meds, name, day, at))
  {
    var r := RecordIntake(meds, name, day, at);
    assert forall j :: 0 <= j < |r| ==> r[j].name == meds[j].name && r[j].times == meds[j].times;
  }

  // ---------------------------------------------------------------
  // list_medicines
  // ---------------------------------------------------------------

  const NoMedicines := "No medicines found."

  /** One listing line: a dash, the name, the times joined by comma and
      blank, then the dosage and the notes, each only when non-empty. */
  function Line(m: Medicine): (r: string)
    ensures |r| >= 10 + |m.name| && r[..10 + |m.name|] == "- " + m.name + ": times "
    ensures var head := "- " + m.name + ": times " + Join(m.times, ", ");
      && (m.dosage == "" && m.notes == "" ==> r == head)
      && (m.dosage != "" && m.notes == "" ==> r == head + ", dosage " + m.dosage)
      && (m.dosage == "" && m.notes != "" ==> r == head + ", notes " + m.notes)
      && (m.dosage != "" && m.notes != "" ==> r == head + ", dosage " + m.dosage + ", notes " + m.notes)
  {
    "- " + m.name + ": times " + Join(m.times, ", ")
      + (if m.dosage != "" then ", dosage " + m.dosage else "")
      + (if m.notes != "" then ", notes " + m.notes else "")
  }

  function Lines(meds: seq<Medicine>): (ls: seq<string>)
    ensures |ls| == |meds| && forall i :: 0 <= i < |meds| ==> ls[i] == Line(meds[i])
  {
    seq(|meds|, i requires 0 <= i < |meds| => Line(meds[i]))
  }

  /** The listing is the explicit "empty" text exactly when there are no
      records; otherwise it starts with the first record's line. */
  function Listing(meds: seq<Medicine>): (r: string)
    ensures r == NoMedicines <==> meds == []
    ensures meds != [] ==> |r| >= |Line(meds[0])| && r[..|Line(meds[0])|] == Line(meds[0])
  {
    if meds == [] then NoMedicines
    else
      var r := Join(Lines(meds), "\n");
      assert r[0] == Line(meds[0])[0] == '-';
      r
  }

  predicate NoNewline(m: Medicine) {
    && '\n' !in m.name && '\n' !in m.dosage && '\n' !in m.notes
    && forall i :: 0 <= i < |m.times| ==> '\n' !in m.times[i]
  }

  lemma LineNoNewline(m: Medicine)
    requires NoNewline(m)
    ensures '\n' !in Line(m)
  {
    JoinAvoids(m.times, ", ", '\n');
  }

  /** A non-empty listing has one line per record, in store order. */
  lemma ListingLines(meds: seq<Medicine>)
    requires meds != []
    requires forall i :: 0 <= i < |meds| ==> NoNewline(meds[i])
    ensures Split(Listing(meds), '\n') == Lines(meds)
  {
    forall i | 0 <= i < |meds| ensures '\n' !in Lines(meds)[i] {
      LineNoNewline(meds[i]);
    }
    SplitJoin(Lines(meds), '\n');
  }
}
