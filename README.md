# Medicine checklist, modelled in Dafny

This project models the medicine checklist of a voice assistant's tool
module (`tools.py`). The checklist keeps a list of medicine records in a
JSON file. Each record has a name, daily times, dosage, notes and a log of
intakes per date. Every tool loads the list, changes or reads it, and saves
it back:

- `add_medicine` parses a comma-separated list of free-text times into
  canonical `HH:MM` texts, sorted and without repeats. It then updates the
  first record with the same name up to letter case, or appends a new one.
- `list_medicines` renders one line per record.
- `remove_medicine` drops every record with the name.
- `mark_medicine_taken` appends the clock's `HH:MM` to today's entry of the
  first matching record.
- `next_medicine_due` finds the earliest stored time still ahead today. When
  there is none, it finds the earliest time tomorrow.

The modules follow that structure:

- `Wrappers` holds `Option` and `Result`.
- `Strings` holds the Python string operations the tools use, over ASCII:
  `strip`, `lower`, `split`, `join`, `<` on strings and `sorted(set(...))`.
- `TimeText` holds `_normalize_time_str` and the `int:int` reading of stored
  times.
- `Store` holds the records, the case-insensitive lookup and the pure
  transformations of the list.
- `Schedule` holds the next-due search as functions over the list.
- `Checklist` holds the class `MedicineChecklist`. Its field `meds` is the
  saved list, and one method models each tool. The loops of the source are
  loops here, each proved against a function of `Checklist`, `Store` or
  `Schedule`.
- `Samples` holds worked cases of the normaliser.

The clock is a parameter. Today's date is a string (the ISO text the log is
keyed by). The time of day is a number of microseconds since midnight,
because the source compares a candidate instant with no seconds against the
full reading of `datetime.now()`. "Tomorrow" is a day offset of 1.

The error for an unparsable time reports the text after stripping and
lower-casing (`tools.py:67`, `:79`), not the caller's original input, and
so does the model.

## Model

| member | source | states |
|---|---|---|
| Strings.Trim | tools.py:67 | `strip` gives a text no longer than its input that is empty or starts and ends with a non-blank character |
| Strings.TrimPadded | tools.py:67 | a text that starts and ends with a non-blank character, padded with blanks on either side, strips back to itself |
| Strings.LowerStr | tools.py:67 | `lower` keeps the length and lower-cases every character in place |
| Strings.TrimEmpty | tools.py:102 | a fragment strips to nothing exactly when it is all whitespace, so `if t.strip()` skips exactly the blank fragments |
| Strings.Split | tools.py:101 | `split` on one character gives at least one part, and no part contains the separator |
| Strings.JoinSplit | tools.py:101 | joining the parts of a split with the separator gives the original text back |
| Strings.SplitJoin | tools.py:151 | splitting a join of parts that avoid the separator gives the parts back |
| Strings.Join | tools.py:145-151 | a join starts with its first piece; JoinSplit and SplitJoin relate it to Split |
| Strings.Below | tools.py:104 | Python's `<` on strings never holds between equal strings; BelowTransitive and BelowTotal make it a strict total order |
| Strings.BelowTotal | tools.py:104 | Python's string order is total: of two different strings one is below the other |
| Strings.BelowTransitive | tools.py:104 | the string order is transitive |
| Strings.SortedUnique | tools.py:104 | `sorted(set(s))` is strictly ascending and holds exactly the elements of s |
| Strings.AscendingUnique | tools.py:104 | two strictly ascending lists with the same elements are equal, so `sorted(set(s))` is determined by those two properties |
| Strings.TwoDigits | tools.py:78 | `f"{h:02d}"` for an hour below 100 is two digits whose value is the hour |
| Strings.TwoDigitsOfValue | tools.py:72 | the zero-padded two-digit text of the value of a two-digit text is that text |
| TimeText.Canonical | tools.py:72 | `strftime("%H:%M")` of an in-range time is canonical `HH:MM` and denotes that hour and minute |
| TimeText.CanonicalInjective | tools.py:72 | distinct in-range times have distinct canonical texts |
| TimeText.Hour24 | tools.py:68 | the `%I`/`%p` hour is at most 23, is 12 or more exactly after noon, and agrees with the 12-hour hour modulo 12 (so 12 am is 0 and 12 pm is 12) |
| TimeText.Normalize | tools.py:66-79 | every accepted text gives canonical `HH:MM` with hour at most 23 and minute at most 59; every error carries the stripped, lower-cased text |
| TimeText.Interpret | tools.py:68-79 | on a stripped, lower-cased text, each success is canonical `HH:MM` and each error carries the text |
| TimeText.SplitPeriod | tools.py:68 | the text before the blanks and the period word is at least three characters shorter; SplitPeriodOf and SplitPeriodForm give its exact readings both ways |
| TimeText.Read24 | tools.py:68-72 | a time read by `strptime(t, "%H:%M")` is in range; NormalizeForm24 and InterpretAccepts say which texts are read |
| TimeText.Read12WithMinutes | tools.py:68-72 | a time read by `strptime(t, "%I:%M %p")` is in range; NormalizeForm12WithMinutes and InterpretAccepts say which texts are read |
| TimeText.Read12 | tools.py:68-72 | a time read by `strptime(t, "%I %p")` is in range; NormalizeForm12 and InterpretAccepts say which texts are read |
| TimeText.ReadBareHour | tools.py:75-78 | a bare hour that is read is all digits, in range, on the full hour, with the digits' value as its hour; NormalizeBareHour says which texts are read |
| TimeText.NormalizeForm24 | tools.py:67-72 | any `%H:%M` text, with blanks around it, gives the zero-padded time it denotes |
| TimeText.NormalizeForm12WithMinutes | tools.py:67-72 | any `%I:%M %p` text, in any letter case, gives the 24-hour time it denotes |
| TimeText.NormalizeForm12 | tools.py:67-72 | any `%I %p` text, in any letter case, gives the full 24-hour hour it denotes |
| TimeText.NormalizeBareHour | tools.py:75-79 | a bare digit string h gives `hh:00` when h is at most 23, and otherwise an error carrying the digits |
| TimeText.InterpretAccepts | tools.py:68-79 | a text any format accepts is `hh:mm`, `hh:mm` blanks `am`/`pm`, `hh` blanks `am`/`pm` (each field 1-2 digits in range) or digits of value at most 23 |
| TimeText.NormalizeAccepts | tools.py:66-79 | the converse of the four form lemmas: the normaliser accepts a text only when, stripped and lower-cased, it has one of the four shapes; every other text is an error |
| TimeText.NormalizeCanonical | tools.py:66-72 | normalising a canonical text returns it unchanged |
| TimeText.NormalizeIdempotent | tools.py:66-79 | normalising twice gives what normalising once gives |
| TimeText.PyInt | tools.py:208 | `int()` drops only tab to carriage return and the space at both ends (not 0x1C-0x1F, which `strip` removes) and then reads a decimal; on digits alone it gives their value |
| Strings.CTrim | tools.py:208 | the blanks `int()` skips are gone from both ends and the text is no longer than its input |
| Strings.CTrimNoPadding | tools.py:208 | a text with no such blank at either end is read by `int()` as it stands |
| TimeText.ReadDecimal | tools.py:208 | digits give their value, `+` or `-` directly followed by digits gives the signed value, and nothing else is read (the empty text, `- 7`, `7a`) |
| TimeText.ParseStored | tools.py:208-213 | a stored time reads back exactly when it splits at `:` into two parts whose `int()` values are 0..23 and 0..59, and then as those values; any other text is skipped |
| TimeText.ParseStoredCanonical | tools.py:208-209 | every canonical time the normaliser saves reads back as the same hour and minute |
| Store.Load | tools.py:52-59 | a missing or unreadable file, or one without the "medicines" entry, gives the empty list; otherwise the file's list |
| Store.FirstMatch | tools.py:110 | the first record whose lower-cased name equals the lower-cased key, and none exactly when no record matches |
| Store.Upsert | tools.py:110-123 | a match gets the new times, dosage and notes and keeps its stored name, log and position, with every other record unchanged; without a match, one record with an empty log is appended and the list grows by one |
| Store.UpsertThenFind | tools.py:110-123 | after an add, looking the name up finds a record with exactly the new times, dosage and notes |
| Store.UpsertExistingKeepsSize | tools.py:110-114 | adding under a name that differs only in letter case from a stored one creates no new record |
| Store.UpsertWellFormed | tools.py:110-123 | an add with canonical ascending times keeps names unique up to case and all times canonical and ascending |
| Store.Without | tools.py:163-164 | the filter leaves no match, keeps every non-matching record, adds none, and keeps the length exactly when nothing matches |
| Store.WithoutConcat | tools.py:163 | the filter keeps relative order: filtering a concatenation is concatenating the filtered parts |
| Store.WithoutOne | tools.py:163 | a single record is dropped exactly when it matches |
| Store.WithoutWellFormed | tools.py:163-167 | removing keeps the store invariant |
| Store.LogIntake | tools.py:185-189 | the intake is appended to the day's list (created when absent); every other field and every other day is unchanged |
| Store.LogIntakeTwice | tools.py:185-189 | two marks on one day leave both entries, in order |
| Store.RecordIntake | tools.py:180-190 | only the first match gets the intake; an unknown name leaves the list unchanged |
| Store.RecordIntakeWellFormed | tools.py:180-190 | marking keeps the store invariant |
| Store.Line | tools.py:145-149 | a record's line is `- `, its name, `: times ` and its times joined by comma and blank, followed by `, dosage` and the dosage only when that is non-empty, then by `, notes` and the notes only when those are non-empty |
| Store.Listing | tools.py:139-151 | the listing is "No medicines found." exactly when the store is empty, and otherwise starts with the first record's line |
| Store.LineNoNewline | tools.py:145-149 | a record without newlines in its fields renders as one line |
| Store.ListingLines | tools.py:143-151 | splitting a non-empty listing at newlines gives back one line per record, in store order |
| Schedule.ClockTime | tools.py:202 | the hour and minute of a clock reading are in range and give its minute of the day |
| Schedule.TodayInstant | tools.py:209-210 | a stored hour and minute placed on a day is a whole minute, with zero seconds and microseconds, at that minute of the day; for an in-range time it falls inside the day and the clock reads it as that time |
| Schedule.ClockText | tools.py:184 | the clock's `%H:%M` text is canonical and reads back as the clock's hour and minute |
| Schedule.SlotOf | tools.py:207-213 | a stored time gives a slot for the record's name with an in-range time, or none; SlotOfReadable says which |
| Schedule.Candidates | tools.py:205-213 | every candidate has an in-range time; CandidatesSound and CandidatesComplete say exactly which slots are candidates |
| Schedule.Upcoming | tools.py:204-211 | the upcoming slots are no more than the candidates and each is at or after the clock; UpcomingMembers gives the converse |
| Schedule.Earliest | tools.py:216-225 | the scan's choice is none exactly when there is no slot, and otherwise one of the slots; EarliestIsFirstEarliest says which |
| Schedule.NextDueOf | tools.py:204-233 | there is no answer exactly when there is no candidate; an answer is for today or tomorrow with an in-range time, and today's is at or after the clock; NextDueToday, NextDueTomorrow and NextDueTodayFirstOfEqual say which slot |
| Schedule.SlotsOf | tools.py:206-213 | every usable time of a record is for that record's name and in range |
| Schedule.FirstEarliest | tools.py:222-231 | the chosen slot is no later than any other, and every earlier-listed slot is strictly later: the first of the earliest |
| Schedule.FirstEarliestStep | tools.py:222-223 | a scan that replaces its choice only on a strictly earlier time keeps the first earliest slot |
| Schedule.EarliestIsFirstEarliest | tools.py:216-225 | the choice of a scan that replaces it only on a strictly earlier time is the first earliest slot, and none for no slots |
| Schedule.UpcomingMembers | tools.py:210-211 | the upcoming slots are exactly the candidates whose instant today is at or after the clock |
| Schedule.UpcomingConcat | tools.py:205-211 | the upcoming slots keep store order |
| Schedule.SlotsOfSound | tools.py:206-213 | every slot of a record comes from one of its stored times that reads back |
| Schedule.SlotsOfComplete | tools.py:206-213 | every stored time of a record that reads back gives a slot |
| Schedule.CandidatesSound | tools.py:205-213 | every candidate is a record's name with one of its stored times that reads back |
| Schedule.CandidatesComplete | tools.py:205-213 | every stored time that reads back, in any record, is a candidate |
| Schedule.WellFormedTimesUsable | tools.py:205-213 | in a store whose times are canonical no stored time is skipped |
| Schedule.NextDueToday | tools.py:204-233 | while some candidate is at or after the clock, the answer is for today, at or after the clock, and no later than any such candidate |
| Schedule.NextDueTodayFirstOfEqual | tools.py:230-231 | among upcoming slots with equal times the earliest-listed one wins, as the stable sort gives |
| Schedule.NextDueTomorrow | tools.py:214-228 | when every candidate is past, the answer is tomorrow's earliest candidate, the first listed among equal times |
| Schedule.CurrentMinute | tools.py:202-210 | a dose in the current minute counts as still ahead only when the clock's seconds and microseconds are zero |
| Checklist.Outcome | tools.py:102-103 | a fragment is skipped, by `if t.strip()`, exactly when it is all blanks, and otherwise gives the normaliser's answer |
| Checklist.Collect | tools.py:101-103 | the loop over fragment outcomes succeeds exactly when none is an error, and then keeps at most one time per fragment; CollectValues, CollectFirstError and CollectErrPersists give the rest of its result |
| Checklist.ParsedTimes | tools.py:100-103 | the times parse exactly when every non-blank fragment normalises, and then there is at most one time per fragment; ParsedTimesValues, ParsedTimesFirstError and ParsedTimesCanonical give the rest of its result |
| Checklist.CollectValues | tools.py:101-103 | a successful loop holds exactly the normalised times |
| Checklist.CollectFirstError | tools.py:101-127 | a failed loop reports the first error, with no earlier error |
| Checklist.CollectErrPersists | tools.py:101-103 | once the loop has failed, later fragments do not change the answer |
| Checklist.ParsedTimesValues | tools.py:100-103 | the parsed times are exactly the normal forms of the non-blank fragments |
| Checklist.ParsedTimesFirstError | tools.py:100-127 | a failed parse reports the first non-blank fragment that does not normalise, with its error text |
| Checklist.ParsedTimesCanonical | tools.py:100-103 | every parsed time is canonical `HH:MM` |
| Checklist.ParseTimes | tools.py:100-103 | the loop computes the parse of the comma fragments |
| Checklist.SavedTimes | tools.py:100-104 | the saved times are strictly ascending, canonical, and exactly the normal forms of the non-blank fragments |
| Checklist.MedicineChecklist.constructor | tools.py:52-59 | the checklist starts from the loaded list |
| Checklist.MedicineChecklist.AddMedicine | tools.py:99-127 | an invalid time gives its error and an empty result gives "no valid times", both without saving; otherwise the reply carries the saved times, the list becomes the upsert of the sorted, unique times, and the store invariant is kept |
| Checklist.MedicineChecklist.ListMedicines | tools.py:139-151 | the loop renders the listing of the list |
| Checklist.MedicineChecklist.RemoveMedicine | tools.py:161-168 | with no match, not-found and nothing saved; otherwise the list becomes its filter, and the store invariant is kept |
| Checklist.MedicineChecklist.MarkMedicineTaken | tools.py:178-191 | with no match, not-found and nothing saved; otherwise the clock's `HH:MM` is recorded on today's entry of the first match, and the store invariant is kept |
| Checklist.MedicineChecklist.NextMedicineDue | tools.py:200-233 | the answer is the next-due choice over the list and the clock |
| Checklist.MedicineChecklist.ScanToday | tools.py:204-213 | the nested loops collect exactly the upcoming candidates, in store order |
| Checklist.MedicineChecklist.ScanTomorrow | tools.py:214-225 | the nested loops end on the first earliest candidate, or on none when there is no candidate |
| Checklist.TodayStep | tools.py:206-213 | one step of the first loop adds the scanned time exactly when it reads back and is at or after the clock |
| Checklist.TomorrowStep | tools.py:218-225 | one step of the second loop sees the scanned time exactly when it reads back |
| Samples.TwentyFourHourText | tools.py:66-72 | "20:30" normalises to "20:30" |
| Samples.PaddedTwentyFourHourText | tools.py:66-72 | " 14:00" normalises to "14:00" |
| Samples.TwelveHourWithMinutes | tools.py:66-72 | "8:30 PM" normalises to "20:30" |
| Samples.TwelveHour | tools.py:66-72 | " 8 am" normalises to "08:00" |
| Samples.TwelveNoon | tools.py:66-72 | "12 pm" normalises to "12:00" |
| Samples.TwelveMidnight | tools.py:66-72 | "12 AM" normalises to "00:00" |
| Samples.BareHour | tools.py:75-78 | "8" normalises to "08:00" |
| Samples.BareHourOutOfRange | tools.py:75-79 | " 24 " is an error carrying "24" |
| Samples.PeriodWithoutGap | tools.py:66-79 | "8pm" is an error: the period word needs a blank before it |
| Samples.HourOutOfRange | tools.py:66-79 | "25:00" is an error |
| Samples.ZeroTwelveHour | tools.py:66-79 | "0 am" is an error: the 12-hour clock has no hour 0 |
| Samples.MinutesWithoutGap | tools.py:66-79 | "12:30pm" is an error |
| Samples.PaddedStoredTime | tools.py:208-211 | the stored time " 8" + ":" + "30" reads back as 08:30, since `int()` skips the leading space |
| Samples.SeparatorBeforeStoredTime | tools.py:208-213 | a stored time led by the character 0x1C is not read back, since `int()` does not skip it, and the entry is skipped |

## Left out

- `get_weather` and `search_web` are network calls to outside services; they are not part of this model.
- `prompts.py` holds prompt text only and is not part of this model.
- Reading and writing the JSON file, creating the data directory and the file encoding are I/O. A missing or unreadable file is the `None` given to the constructor. A save is the assignment to `meds`.
- A file whose records lack keys or have other shapes is not modelled: records are typed.
- The clock is a parameter. The source reads the clock more than once per call (`date.today()` and `datetime.now()`), so a call across midnight could mix two days; the model uses one reading.
- Calendar arithmetic (`timedelta`) and the date part of the answer are left out: tomorrow is day offset 1.
- Reply texts: each reply is a constructor of `Reply` carrying its data, not the formatted message. The listing is the exception: its text is modelled exactly.
- TimeText.Normalize: models `strptime` only over 1–2 digit fields, `am`/`pm` and whitespace gaps. It leaves out the other `strptime` leniencies and locale behaviour.
- Strings.Lower: ASCII letters only. Python lower-cases every Unicode letter.
- Strings.IsSpace: ASCII whitespace only. Python's `strip` also removes other Unicode whitespace.
- Strings.IsCSpace: the blanks `int()` skips are tab to carriage return and the space; the Unicode whitespace it also skips is left out, as for `strip`.
- TimeText.PyInt: leaves out the underscores and non-ASCII digits that Python's `int()` accepts.
- TimeText.PyInt: leaves out the limit on the length of decimal text that newer Python versions impose (4300 digits by default, set by the interpreter's configuration); a stored time with a longer part is read back here, while such a Python skips it.
- TimeText.Normalize: leaves out the same digit limit on `int(t)` at `tools.py:76`: a bare hour of more than 4300 digits is accepted here, while such a Python raises, so `add_medicine` replies with that error and saves nothing.
- TimeText.NormalizeBareHour: states the bare-hour reading without that digit limit, so its Ok case also covers digit strings longer than 4300 characters.
- Checklist.MedicineChecklist.NextMedicineDue: the stable `sort` followed by taking the first element is modelled as the first earliest candidate, not as a sort.
- The catch-all "internal error" branch of `add_medicine` is not modelled, and neither are the asynchronous tool plumbing and concurrent callers.
