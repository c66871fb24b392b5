# Attendance reports from meeting participant lists

A model of `generate-attendance-reports.py`. The script reads every
`participants*.csv` file a video-meeting platform exported for a
directory. It folds all rows into one nested dictionary: a participant key
(the lower-cased address, or its alias from `emailMapping`), then a
meeting day, then the `[name, email, start, mins]` entry of that day. The
minutes of rows for the same key and day add up; the other fields come
from the first such row. From that dictionary the script writes:

- advisory notes for participants whose address is neither staff nor an
  official student address, with guessed matches by surname;
- `meeting-report.csv`, every non-staff entry by key and then by date, plus
  warnings for keys that attended on at most `warningThreshold` days;
- `meeting-report-by-date.csv`, a pivot of minutes by key and meeting day;
- `meeting-report-by-week.csv`, a pivot of minutes by key and ISO week.

Modules follow the script's stages:

- `Text` holds the string operations the script uses: `in` on strings,
  `str.lower()`, `split(' ')[-1]`, and string order.
- `Sorting` models `sorted()` on distinct keys and on distinct dates.
- `Identity` holds `StaffEmail`, `UniversityStudentEmail` and alias
  resolution.
- `Attendance` is the nested dictionary: a `Participant` is an
  insertion-ordered dictionary, held as its key sequence `dates` and its
  map `days`. Its update for one row is `AddSession`.
- `Aggregation` is the row loop. Row parsing is `ParseRow`, the whole run
  is `Aggregate` and the imperative loop is `Load`.
- `Tables` holds the cells and helpers the three reports share.
- `Chronological`, `DatePivot`, `WeekPivot` and `Suggestions` are the
  report stages. Each loop is a method proved against a function or
  predicate, and the lemmas beside it state what the output means.

A day is an integer day number. The minutes `int(row[4])` and the
timestamp `strptime` are parameters of type `Parsers`. Rejected text is
`None`, and the run stops with a `RowError` at the first such row. The ISO
week number (`isocalendar()[1]`) and the week's Monday
(`date_from_isoweek(year, week, 1)`) are parameters of type `Calendar`.

In several places the model follows what the code does, where the report
descriptions suggest something else:

- The date and week catalogues scan every key, staff included
  (lines 224 and 262), so a column can exist that only staff attended.
- The second column of each pivot row is the participant key, not the
  entry's own address (lines 247 and 289).
- A warning prints the name and address of the entry for the key's latest
  day. This is the loop variable `row` left over from the date loop
  (lines 210-216).
- In the surname matcher, `break` leaves only the date loop. So each pair
  of an unmatched key and a student key yields at most one suggestion, and
  every student key is still visited (lines 184-192).
- An unmatched participant has an empty surname when the name of its
  first-inserted entry is empty or ends in a space. The empty string occurs in every name, so every
  student key is suggested (`EmptySurnameMatchesEveryStudent`).
- Week columns are keyed and sorted by week number alone. January weeks
  of a new year come before the autumn weeks, and the same number in two
  years is one column (lines 265-277).
- Folding the same rows in any order (any order of files) gives the same
  keys, days and minutes per day (`FoldOrderIndependent`). The first-seen
  name, address and start, and the insertion order of days, can differ
  (`FoldEntry`, `FoldFirstDay`).

## Model

| member | source | states |
|---|---|---|
| Text.EndsWith | generate-attendance-reports.py:142 | definition: Python's `str.endswith`, the header test; its facts are in `ParseRowCases` and `HeaderRowIgnored` |
| Text.Contains | generate-attendance-reports.py:70-79 | Python's substring test: true exactly when `sub` occurs at some position of `s` |
| Text.NotContainsByAnchor | generate-attendance-reports.py:70-79 | if the first character of `sub` occurs in `s` only at `p`, and `sub` does not occur at `p`, then `sub` does not occur in `s` |
| Text.NotContainsByMissingChar | generate-attendance-reports.py:70-79 | a fragment with a character absent from `s` does not occur in `s` |
| Text.Lower | generate-attendance-reports.py:150 | `str.lower()` keeps the length and lower-cases each character in place |
| Text.LowerFromPointwise | generate-attendance-reports.py:150 | a string that agrees character by character with the lower-cased characters is the lower-casing |
| Text.LowerIdempotent | generate-attendance-reports.py:150 | lower-casing twice is lower-casing once |
| Text.LastToken | generate-attendance-reports.py:183 | `split(' ')[-1]` is a suffix with no space, preceded by a space unless it is the whole string |
| Text.StrLess | generate-attendance-reports.py:176 | definition: Python's `<` on strings, the order of every `sorted(emails)` (lines 176, 184, 203, 224, 238, 262, 280); its facts are in `StrLessIrreflexive`, `StrLessTransitive`, `StrLessTotal` and `StrLessAsymmetric` |
| Text.StrLessIrreflexive | generate-attendance-reports.py:176 | no key sorts before itself |
| Text.StrLessTransitive | generate-attendance-reports.py:176 | string order is transitive |
| Text.StrLessTotal | generate-attendance-reports.py:176 | any two distinct keys are ordered one way or the other |
| Text.StrLessAsymmetric | generate-attendance-reports.py:176 | two keys are never ordered both ways |
| Sorting.InsertKey | generate-attendance-reports.py:176 | inserting a new key into an ascending list keeps it ascending and adds exactly that key |
| Sorting.SortKeys | generate-attendance-reports.py:176 | `sorted()` of distinct keys is ascending, of the same length and has the same members |
| Sorting.InsertInt | generate-attendance-reports.py:210 | inserting a new date into an ascending list keeps it ascending and adds exactly that date |
| Sorting.SortInts | generate-attendance-reports.py:210 | `sorted()` of distinct dates is ascending, of the same length and has the same members |
| Sorting.KeysAscendingDistinct | generate-attendance-reports.py:176 | a strictly ascending key list has no duplicates |
| Sorting.KeysAscendingUnique | generate-attendance-reports.py:176 | two ascending key lists with the same members are equal, so the sorted order is unique |
| Identity.StaffEmail | generate-attendance-reports.py:61-74 | definition: some staff domain occurs in the address, or it is a listed demonstrator address; its facts are in `StaffEmailAsWritten`, `StaffDomainIsStaff` and `StudentAddressIsNotStaff` |
| Identity.UniversityStudentEmail | generate-attendance-reports.py:76-79 | definition: `@student.gla.ac.uk` occurs in the address; its facts are in `ClassificationExamples` and `StudentAddressIsNotStaff` |
| Identity.StaffEmailAsWritten | generate-attendance-reports.py:61-74 | an address is staff exactly when `@glasgow.ac.uk`, `@research.glasgow.ac.uk`, `@gla.ac.uk` or `@research.gla.ac.uk` occurs in it (the demonstrator list is empty) |
| Identity.ClassificationExamples | generate-attendance-reports.py:61-79 | `demo@glasgow.ac.uk` is staff and is not a student address |
| Identity.StaffDomainIsStaff | generate-attendance-reports.py:70-73 | any address that ends in one of the staff domains is staff |
| Identity.StudentAddressIsNotStaff | generate-attendance-reports.py:61-79 | an address with one `@` followed by `@student.gla.ac.uk` is a student address and not staff, though it ends in `gla.ac.uk` |
| Identity.ResolveKey | generate-attendance-reports.py:150-154 | the key is the alias of the lower-cased address when it has one, else the lower-cased address itself |
| Identity.ResolveKeyIgnoresCase | generate-attendance-reports.py:150-154 | two spellings that differ only in case resolve to the same key |
| Identity.ResolveKeyIsOneStep | generate-attendance-reports.py:151-152 | aliases are looked up once and not chased: with a→b and b→c, a resolves to b |
| Identity.ResolveKeyExample | generate-attendance-reports.py:150-154 | a mixed-case personal address mapped to a student address resolves to the student address |
| Attendance.EmptyRoster | generate-attendance-reports.py:126 | the dictionary starts empty and well-formed |
| Attendance.AddSession | generate-attendance-reports.py:159-170 | definition of the loop body on one parsed row; its facts are in `AddSessionValid`, `AddSessionOthers`, `AddSessionFuses`, `AddSessionCreates` and `AddSessionTotal` |
| Attendance.AddSessionValid | generate-attendance-reports.py:159-170 | folding a row keeps the dictionary well-formed, and appends the key to the key order exactly when it is new |
| Attendance.AddSessionOthers | generate-attendance-reports.py:159-170 | folding a row leaves every other key's record and presence unchanged |
| Attendance.AddSessionFuses | generate-attendance-reports.py:164-167 | a row for a known key and day adds its minutes to that day's entry, and changes nothing else of that participant |
| Attendance.AddSessionCreates | generate-attendance-reports.py:160-170 | a row for a new key or day appends the day in insertion order with the row's own entry |
| Attendance.AddSessionTotal | generate-attendance-reports.py:159-170 | folding a row adds exactly its minutes to the dictionary's total |
| Aggregation.ParseRow | generate-attendance-reports.py:141-158 | definition: one row read as the header, a data row or a malformed row, in the order the script raises; its facts are in `ParseRowCases` |
| Aggregation.ParseRowCases | generate-attendance-reports.py:141-158 | a row is the header exactly when its first field ends with `Name (Original Name)`; it is data exactly when it has at least five fields and the minutes and timestamp parse; data is keyed by the resolved address and carries name, lower-cased address, start and minutes; an empty row lacks field 0 |
| Aggregation.Step | generate-attendance-reports.py:141-170 | definition of one loop iteration: skip a header, stop at a malformed row, fold a data row; its facts are in `AggregateFails`, `FailurePersists` and `AggregateIsFold` |
| Aggregation.Aggregate | generate-attendance-reports.py:131-170 | a failed run reports the position of a row that exists |
| Aggregation.FailurePersists | generate-attendance-reports.py:142-157 | once a prefix of the rows has failed, the whole run fails with the same error |
| Aggregation.AddRow | generate-attendance-reports.py:159-170 | the in-place update of the nested dictionary for one data row is the fold step `AddSession` |
| Aggregation.Load | generate-attendance-reports.py:131-170 | the row loop returns exactly the run's result: the dictionary, or the first malformed row |
| Aggregation.Fold | generate-attendance-reports.py:159-170 | definition: the data rows folded into an empty dictionary in order; its facts are in `FoldValid`, `FoldDays`, `FoldKeys`, `FoldEntry`, `FoldMins`, `FoldFirstDay`, `FoldTotal` and `FoldOrderIndependent` |
| Aggregation.MinsOf | generate-attendance-reports.py:164-170 | definition: the sum of the minutes of the rows for one key and day; `MinsOfPermutation` shows it does not depend on their order |
| Aggregation.FoldValid | generate-attendance-reports.py:159-170 | folding any sequence of rows yields a well-formed dictionary |
| Aggregation.AggregateIsFold | generate-attendance-reports.py:141-170 | a successful run holds exactly the fold of its data rows |
| Aggregation.AggregateFails | generate-attendance-reports.py:142-157 | a run fails exactly when some row is malformed, and then reports the first malformed row and its fault |
| Aggregation.HeaderRowIgnored | generate-attendance-reports.py:142-146 | inserting a header row anywhere changes neither whether the run succeeds nor the dictionary it produces |
| Aggregation.FoldDays | generate-attendance-reports.py:159-170 | a participant has a day exactly when some row has that key and day |
| Aggregation.FoldKeys | generate-attendance-reports.py:160-162 | a key is present exactly when some row has that key |
| Aggregation.FoldEntry | generate-attendance-reports.py:164-170 | a day's entry carries name, address and start of its first row and the minutes of all its rows |
| Aggregation.FoldMins | generate-attendance-reports.py:164-170 | the minutes of a key's day are the sum of the minutes of all rows for that key and day |
| Aggregation.MinsOfPermutation | generate-attendance-reports.py:131-170 | the minutes of one key and day, and of all rows, are the same for any reordering of the rows (equal multisets) |
| Aggregation.FoldOrderIndependent | generate-attendance-reports.py:131-170 | folding a reordering of the rows gives the same keys, the same days per key, the same minutes on each day and the same total |
| Aggregation.FoldFirstDay | generate-attendance-reports.py:168-170 | a participant's first-inserted day is the day of its first row |
| Aggregation.FoldTotal | generate-attendance-reports.py:159-170 | the dictionary's total minutes are the sum of the rows' minutes |
| Aggregation.SessionsOf | generate-attendance-reports.py:141-158 | definition: the sessions of the rows that parse as data, headers skipped, in reading order; its facts are in `SessionsOfMembers` and `AggregateIsFold` |
| Aggregation.SessionsOfMembers | generate-attendance-reports.py:141-158 | the folded sessions are exactly those that rows parse to as data |
| Aggregation.AggregateKeys | generate-attendance-reports.py:150-154 | after a successful run, the keys are exactly the resolved addresses of the data rows |
| Aggregation.FusionExample | generate-attendance-reports.py:164-167 | rows of 10 and 15 minutes for one key and day fuse into one entry of 25 minutes with the first row's fields |
| Tables.SortedKeys | generate-attendance-reports.py:176 | `sorted(emails)` is ascending and lists each key of the dictionary once |
| Tables.Included | generate-attendance-reports.py:203-205 | definition: the keys in order with staff keys skipped; its facts are in `IncludedMembers` |
| Tables.IncludedMembers | generate-attendance-reports.py:204-205 | the keys kept by the staff filter are exactly the non-staff keys, in the same order |
| Tables.Entries | generate-attendance-reports.py:186-187 | a participant's entries in insertion order, one per day |
| Tables.FirstEntry | generate-attendance-reports.py:180 | definition: `next(iter(entry.values()))`, the entry of the first-inserted day; `FoldFirstDay` names that day |
| Tables.PivotHeader | generate-attendance-reports.py:233-235 | the header row is `Name`, `Email`, then one heading per column in order |
| Chronological.EntryCells | generate-attendance-reports.py:213 | definition: the line `csvwriter.writerow(row)` writes for an entry, its name, address, start and minutes; `ChronologicalReport` states which entries are written |
| Chronological.ChronoIndex | generate-attendance-reports.py:203-213 | definition: the (key, day) of each report line when the keys are visited in order; its facts are in `ChronoIndexMembers` and `ChronoIndexOrdered` |
| Chronological.Warnings | generate-attendance-reports.py:214-216 | definition: the warnings in key order; its facts are in `WarningsMembers` |
| Chronological.WarningFor | generate-attendance-reports.py:210-216 | the warning names the entry for the latest day and counts the participant's days |
| Chronological.ParticipantLines | generate-attendance-reports.py:210-213 | one key's report lines are its entries in ascending date order, and the warning is taken from the entry left in `row` |
| Chronological.ChronologicalReport | generate-attendance-reports.py:203-216 | the report lines are the entries of the chronological index, one line each, and the warnings are those for the ascending keys |
| Chronological.ChronoIndexMembers | generate-attendance-reports.py:203-213 | a (key, day) appears in the report exactly when the key is not staff and attended that day |
| Chronological.ChronoIndexOrdered | generate-attendance-reports.py:203-213 | report lines are ordered by key and, within a key, by date |
| Chronological.WarningsMembers | generate-attendance-reports.py:215-216 | a warning is issued exactly for the non-staff keys that attended on at most `warningThreshold` days |
| DatePivot.CatalogueDays | generate-attendance-reports.py:226-228 | one participant's days are added to the catalogue without duplicates |
| DatePivot.DateCatalogue | generate-attendance-reports.py:223-228 | the date catalogue holds each day on which anyone, staff included, attended, once |
| DatePivot.DateRow | generate-attendance-reports.py:242-254 | a pivot row is the first entry's name, the key, then per column the day's minutes or a blank |
| DatePivot.DateRows | generate-attendance-reports.py:238-254 | there is one pivot row per non-staff key, in ascending key order |
| DatePivot.DateTable | generate-attendance-reports.py:223-254 | the columns are the attended days in ascending order under a `Name`, `Email` header, with one row per non-staff key |
| DatePivot.DateRowConserves | generate-attendance-reports.py:248-253 | a pivot row shows exactly the participant's total minutes |
| DatePivot.RowMinutesTotal | generate-attendance-reports.py:248-253 | summing a participant's day minutes over columns that include all its days gives its total |
| DatePivot.RowMinutesEmpty | generate-attendance-reports.py:252-253 | columns on which the participant did not attend show no minutes |
| WeekPivot.ScanDates | generate-attendance-reports.py:262-264 | definition: the dates in the order the nested catalogue loops visit them; its facts are in `ScanDatesMembers` and `WeekCatalogue` |
| WeekPivot.ScanDatesMembers | generate-attendance-reports.py:262-264 | the week catalogue sees exactly the days on which some key attended |
| WeekPivot.CatalogueDates | generate-attendance-reports.py:264-270 | one key's days keep the catalogue invariant: each week number met once, mapped to the Monday of its first day met |
| WeekPivot.WeekCatalogue | generate-attendance-reports.py:261-270 | the week catalogue maps each week number met to the Monday of the first day met in it |
| WeekPivot.WeekSum | generate-attendance-reports.py:291-295 | definition: the minutes of the days with a given week number; its facts are in `WeekMinutes`, `WeekNumberOnly` and `WeekTotalsConserve` |
| WeekPivot.WeekMinutes | generate-attendance-reports.py:291-295 | a key's minutes in a week are the sum over its days with that week number |
| WeekPivot.WeekRow | generate-attendance-reports.py:284-300 | a week row is the first entry's name, the key, then per week the minutes when positive, else a blank |
| WeekPivot.WeekColumns | generate-attendance-reports.py:276-277 | the columns are the catalogued week numbers in ascending order, each with its recorded Monday |
| WeekPivot.WeekRows | generate-attendance-reports.py:280-300 | there is one week row per non-staff key, in ascending key order |
| WeekPivot.WeekTable | generate-attendance-reports.py:261-300 | ascending week columns headed by their Mondays under `Name`, `Email`, with one row per non-staff key |
| WeekPivot.WeekRowConserves | generate-attendance-reports.py:290-295 | the week sums of a key add up to its total minutes |
| WeekPivot.WeekNumberOnly | generate-attendance-reports.py:293-295 | two days with the same week number but different Mondays, as in two different years, are summed into one week |
| WeekPivot.WeekTotalsConserve | generate-attendance-reports.py:290-295 | over distinct week columns that cover every day, the week sums add up to the day sum |
| Suggestions.FirstMatch | generate-attendance-reports.py:186-192 | the first entry whose name contains the surname, or none exactly when no name contains it |
| Suggestions.SuggestionsFor | generate-attendance-reports.py:184-192 | definition: one suggestion per student key with a matching entry; its facts are in `SuggestionsForMembers`, `SuggestionsContainSurname` and `EmptySurnameMatchesEveryStudent` |
| Suggestions.Unmatchable | generate-attendance-reports.py:179 | definition: the key is neither a staff nor a student address; its facts are in `UnmatchedMembers` and `AdviseKey` |
| Suggestions.KeyAdvice | generate-attendance-reports.py:177-192 | definition: one key's note and suggestions; its facts are in `AdviseKey` and `UnmatchedMembers` |
| Suggestions.AllAdvice | generate-attendance-reports.py:176-192 | definition: the advice for the keys in order; its facts are in `SuggestMatches` and `UnmatchedMembers` |
| Suggestions.FindMatch | generate-attendance-reports.py:186-192 | the date loop with `break` finds exactly that first entry |
| Suggestions.SurnameSuggestions | generate-attendance-reports.py:184-192 | the loop over student keys builds exactly the suggestions for one unmatched participant |
| Suggestions.AdviseKey | generate-attendance-reports.py:177-192 | one key's advice: for an unmatched key its note followed by its suggestions, for any other key nothing |
| Suggestions.SuggestMatches | generate-attendance-reports.py:176-192 | the matcher prints exactly the notes and suggestions for every key, in ascending order |
| Suggestions.SuggestionsForMembers | generate-attendance-reports.py:184-192 | a suggestion is made exactly for each student key with a matching entry, naming its first match |
| Suggestions.SuggestionsContainSurname | generate-attendance-reports.py:189-191 | every suggestion maps the unmatched address to an entry of a student key whose name contains the surname |
| Suggestions.UnmatchedMembers | generate-attendance-reports.py:179-181 | a note is printed exactly for the keys that are neither staff nor student, naming each key's first-inserted entry |
| Suggestions.EmptySurnameMatchesEveryStudent | generate-attendance-reports.py:183-189 | with an empty surname every student key is suggested, with its first-inserted entry |

## Left out

- The command line (lines 95-115): `-m` parsing and the list of directories. The threshold is a parameter, and one call models one directory. A malformed row raises an exception that nothing catches, so the whole script ends and the directories still waiting in the loop at line 118 are never processed; the model's `Failure` describes one directory only.
- `glob`, opening files and `csv.reader` (lines 129-141): the rows of all files of a directory arrive as one sequence of fields, in reading order.
- The quick peek at each file's first two rows (lines 132-137). It only prints, but it raises an error on a file with fewer than two rows, and on a file whose second row has fewer than three fields, even when the row loop would skip that row as a header.
- Writing the output files (lines 201-202, 213, 231-236, 254, 273-278, 300), and the wording of every `print`. The model returns the report lines, the warnings and the advice, and not their text.
- `numpy` and `reverseEmailMapping` (lines 58 and 93), which are never used.
- `int()`, `strptime`, `isocalendar` and `date_from_isoweek` (lines 81-85, 156-158, 265-269): they are parameters, so which texts parse and which dates share a week are not modelled.
- `outputStudentAttendanceOnly` (line 199) is always true, so only that branch is modelled.
- Text.Lower: lower-cases ASCII letters only, while Python's `str.lower()` also maps non-ASCII letters.
- WeekPivot.WeekRowConserves: relates the week sums to a key's total, not the cells. A week whose minutes sum to zero or less shows a blank, so with negative minutes the cells can show less than the total.
