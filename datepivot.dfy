/** The date pivot `meeting-report-by-date.csv`: one column per date on
    which anyone attended, one row per non-staff key, and in each cell the
    minutes of that key on that date, or an empty cell. */
module DatePivot {
  import opened Sorting
  import opened Identity
  import opened Attendance
  import opened Tables

  /** Some participant, staff or not, attended on day `d`. */
  ghost predicate Attended(r: Roster, d: Date)
  {
    exists k :: k in r.people && d in r.people[k].days
  }

  /** The inner loop of the date catalogue: each date of one participant
      not yet listed is appended, in the participant's order. */
  method CatalogueDays(cat: seq<Date>, dates: seq<Date>) returns (cat': seq<Date>)
    requires Distinct(cat)
    ensures Distinct(cat')
    ensures forall d :: d in cat' <==> d in cat || d in dates
  {
    cat' := cat;
    var j := 0;
    while j < |dates|
      invariant 0 <= j <= |dates|
      invariant Distinct(cat')
      invariant forall d :: d in cat' <==> d in cat || d in dates[..j]
    {
      if dates[j] !in cat' {
        cat' := cat' + [dates[j]];
      }
      assert dates[..j + 1] == dates[..j] + [dates[j]];
      j := j + 1;
    }
    assert dates[..j] == dates;
  }

  /** Some of the first `i` keys of `ks` attended on day `d`. */
  ghost predicate AttendedAmong(r: Roster, ks: seq<Key>, i: int, d: Date)
  {
    exists m :: 0 <= m < i && m < |ks| && ks[m] in r.people && d in r.people[ks[m]].days
  }

  lemma AttendedAmongStep(r: Roster, ks: seq<Key>, i: nat, d: Date)
    requires i < |ks| && ks[i] in r.people
    ensures AttendedAmong(r, ks, i + 1, d) <==> AttendedAmong(r, ks, i, d) || d in r.people[ks[i]].days
  {
    if AttendedAmong(r, ks, i + 1, d) && !(d in r.people[ks[i]].days) {
      var m :| 0 <= m < i + 1 && m < |ks| && ks[m] in r.people && d in r.people[ks[m]].days;
      assert m < i;
    }
  }

  /** The date catalogue (lines 223-228): every date of every key, staff
      included, each once. */
  method DateCatalogue(r: Roster) returns (cat: seq<Date>)
    requires Valid(r)
    ensures Distinct(cat)
    ensures forall d :: d in cat <==> Attended(r, d)
  {
    var ks := SortedKeys(r);
    cat := [];
    var i := 0;
    while i < |ks|
      invariant 0 <= i <= |ks|
      invariant Distinct(cat)
      invariant forall d :: d in cat <==> AttendedAmong(r, ks, i, d)
    {
      var entry := r.people[ks[i]];
      assert ValidParticipant(entry);
      var cat' := CatalogueDays(cat, entry.dates);
      forall d ensures d in cat' <==> AttendedAmong(r, ks, i + 1, d) {
        AttendedAmongStep(r, ks, i, d);
      }
      cat, i := cat', i + 1;
    }
    forall d ensures d in cat <==> Attended(r, d) {
      if Attended(r, d) {
        var k :| k in r.people && d in r.people[k].days;
        var m :| 0 <= m < |ks| && ks[m] == k;
        assert AttendedAmong(r, ks, |ks|, d);
      }
    }
  }

  /** `row` is the pivot row of participant `p` under key `email` for the
      columns `cols`: the name of its first-inserted entry, the key, and
      per column the day's minutes if it attended that day, else blank. */
  ghost predicate IsDateRow(p: Participant, email: Key, cols: seq<Date>, row: seq<Cell>)
    requires ValidParticipant(p)
  {
    && |row| == 2 + |cols|
    && row[0] == Str(FirstEntry(p).name) && row[1] == Str(email)
    && forall j :: 0 <= j < |cols| ==>
         && (cols[j] in p.days ==> row[2 + j] == Num(p.days[cols[j]].mins))
         && (cols[j] !in p.days ==> row[2 + j] == Blank)
  }

  /** One row of the date pivot (lines 241-253). */
  method DateRow(p: Participant, email: Key, cols: seq<Date>) returns (row: seq<Cell>)
    requires ValidParticipant(p)
    ensures IsDateRow(p, email, cols, row)
  {
    var name := FirstEntry(p).name;
    row := [Str(name), Str(email)];
    var j := 0;
    while j < |cols|
      invariant 0 <= j <= |cols|
      invariant |row| == 2 + j && row[0] == Str(name) && row[1] == Str(email)
      invariant forall m :: 0 <= m < j ==>
        && (cols[m] in p.days ==> row[2 + m] == Num(p.days[cols[m]].mins))
        && (cols[m] !in p.days ==> row[2 + m] == Blank)
    {
      var date := cols[j];
      if date in p.days {
        row := row + [Num(p.days[date].mins)];
      } else {
        row := row + [Blank];
      }
      j := j + 1;
    }
  }

  /** `rows` are the date-pivot rows of the keys `inc`, in that order. */
  ghost predicate DateRowsAt(r: Roster, inc: seq<Key>, cols: seq<Date>, rows: seq<seq<Cell>>)
    requires Valid(r)
  {
    && |rows| == |inc|
    && forall i :: 0 <= i < |inc| ==> inc[i] in r.people && IsDateRow(r.people[inc[i]], inc[i], cols, rows[i])
  }

  /** One step of the row loop: a staff key adds no row, any other key
      adds its own. */
  lemma DateRowsStep(r: Roster, ks: seq<Key>, i: nat, cols: seq<Date>, rows: seq<seq<Cell>>, row: seq<Cell>)
    requires Valid(r) && i < |ks| && ks[i] in r.people
    requires DateRowsAt(r, Included(ks[..i]), cols, rows)
    requires !StaffEmail(ks[i]) ==> IsDateRow(r.people[ks[i]], ks[i], cols, row)
    ensures DateRowsAt(r, Included(ks[..i + 1]), cols, if StaffEmail(ks[i]) then rows else rows + [row])
  {
    IncludedStep(ks, i);
    if !StaffEmail(ks[i]) {
      DateRowsAppend(r, Included(ks[..i]), cols, rows, ks[i], row);
    }
  }

  lemma DateRowsAppend(r: Roster, inc: seq<Key>, cols: seq<Date>, rows: seq<seq<Cell>>, k: Key, row: seq<Cell>)
    requires Valid(r) && DateRowsAt(r, inc, cols, rows)
    requires k in r.people && IsDateRow(r.people[k], k, cols, row)
    ensures DateRowsAt(r, inc + [k], cols, rows + [row])
  {
    assert forall i :: 0 <= i < |inc| ==> (inc + [k])[i] == inc[i] && (rows + [row])[i] == rows[i];
  }

  /** The data rows of the date pivot (lines 238-254): one per non-staff
      key, in ascending key order. */
  method DateRows(r: Roster, cols: seq<Date>) returns (rows: seq<seq<Cell>>)
    requires Valid(r)
    ensures DateRowsAt(r, Included(SortedKeys(r)), cols, rows)
  {
    var ks := SortedKeys(r);
    rows := [];
    var i := 0;
    while i < |ks|
      invariant 0 <= i <= |ks|
      invariant DateRowsAt(r, Included(ks[..i]), cols, rows)
    {
      var email := ks[i];
      var row := [];
      if !StaffEmail(email) {
        row := DateRow(r.people[email], email, cols);
      }
      DateRowsStep(r, ks, i, cols, rows, row);
      if !StaffEmail(email) {
        rows := rows + [row];
      }
      i := i + 1;
    }
    assert ks[..i] == ks;
  }

  /** The whole date pivot (lines 223-254): the ascending columns, the
      header, and one row per non-staff key in ascending key order. */
  method DateTable(r: Roster) returns (cols: seq<Date>, header: seq<Cell>, rows: seq<seq<Cell>>)
    requires Valid(r)
    ensures IntsAscending(cols)
    ensures forall d :: d in cols <==> Attended(r, d)
    ensures |header| == 2 + |cols| && header[0] == Str("Name") && header[1] == Str("Email")
    ensures forall j :: 0 <= j < |cols| ==> header[2 + j] == Stamp(cols[j])
    ensures DateRowsAt(r, Included(SortedKeys(r)), cols, rows)
  {
    var cat := DateCatalogue(r);
    cols := SortInts(cat);
    header := PivotHeader(cols);
    rows := DateRows(r, cols);
  }

  /** The minutes one column contributes to a row. */
  function ColumnMinutes(p: Participant, d: Date): int
  {
    if d in p.days then p.days[d].mins else 0
  }

  function RowMinutes(p: Participant, cols: seq<Date>): int
  {
    if cols == [] then 0 else RowMinutes(p, cols[..|cols| - 1]) + ColumnMinutes(p, cols[|cols| - 1])
  }

  lemma {:induction false} RowMinutesOfCells(p: Participant, email: Key, cols: seq<Date>, row: seq<Cell>)
    requires ValidParticipant(p) && IsDateRow(p, email, cols, row)
    ensures CellMinutes(row[2..]) == RowMinutes(p, cols)
    decreases |cols|
  {
    if cols != [] {
      var n := |cols| - 1;
      var shorter := row[..|row| - 1];
      assert IsDateRow(p, email, cols[..n], shorter) by {
        forall j | 2 <= j < |shorter| ensures shorter[j] == row[j] { }
      }
      RowMinutesOfCells(p, email, cols[..n], shorter);
      assert row[2..][..|row[2..]| - 1] == shorter[2..];
    }
  }

  /** Removing day `d` from `p` lowers a row over distinct columns
      containing `d` by that day's minutes. */
  lemma {:induction false} RowMinutesRemove(p: Participant, q: Participant, cols: seq<Date>, d: Date)
    requires Distinct(cols) && d in cols && d in p.days && q.days == p.days - {d}
    ensures RowMinutes(p, cols) == RowMinutes(q, cols) + p.days[d].mins
    decreases |cols|
  {
    var init, last := cols[..|cols| - 1], cols[|cols| - 1];
    if last == d {
      assert d !in init;
      RowMinutesAbsent(p, q, init, d);
    } else {
      assert d in init;
      RowMinutesRemove(p, q, init, d);
    }
  }

  lemma {:induction false} RowMinutesAbsent(p: Participant, q: Participant, cols: seq<Date>, d: Date)
    requires q.days == p.days - {d} && d !in cols
    ensures RowMinutes(p, cols) == RowMinutes(q, cols)
    decreases |cols|
  {
    if cols != [] {
      RowMinutesAbsent(p, q, cols[..|cols| - 1], d);
    }
  }

  /** A day sum only looks at the listed days. */
  lemma {:induction false} DaySumRestrict(ds: seq<Date>, days: map<Date, Entry>, d: Date)
    requires Covers(ds, days) && d !in ds
    ensures Covers(ds, days - {d}) && DaySum(ds, days - {d}) == DaySum(ds, days)
    decreases |ds|
  {
    if ds != [] {
      assert ds[|ds| - 1] in ds;
      DaySumRestrict(ds[..|ds| - 1], days, d);
    }
  }

  /** Over distinct columns that include every day of `p`, the row adds up
      to the participant's total minutes. */
  lemma {:induction false} RowMinutesTotal(p: Participant, cols: seq<Date>)
    requires Covers(p.dates, p.days) && Distinct(p.dates) && Distinct(cols)
    requires forall d :: d in p.days ==> d in p.dates
    requires forall d :: d in p.dates ==> d in cols
    ensures RowMinutes(p, cols) == Minutes(p)
    decreases |p.dates|
  {
    if p.dates == [] {
      RowMinutesEmpty(p, cols);
    } else {
      var init, d := p.dates[..|p.dates| - 1], p.dates[|p.dates| - 1];
      var q := Participant(init, p.days - {d});
      assert d in p.dates;
      RowMinutesRemove(p, q, cols, d);
      DaySumRestrict(init, p.days, d);
      RowMinutesTotal(q, cols);
    }
  }

  lemma {:induction false} RowMinutesEmpty(p: Participant, cols: seq<Date>)
    requires forall d :: d in cols ==> d !in p.days
    ensures RowMinutes(p, cols) == 0
    decreases |cols|
  {
    if cols != [] {
      RowMinutesEmpty(p, cols[..|cols| - 1]);
    }
  }

  /** The minutes shown in a participant's row of the date pivot add up to
      all the minutes it attended: no day is lost or counted twice. */
  lemma DateRowConserves(r: Roster, cols: seq<Date>, k: Key, row: seq<Cell>)
    requires Valid(r) && k in r.people && IsDateRow(r.people[k], k, cols, row)
    requires IntsAscending(cols) && forall d :: d in cols <==> Attended(r, d)
    ensures CellMinutes(row[2..]) == Minutes(r.people[k])
  {
    var p := r.people[k];
    RowMinutesOfCells(p, k, cols, row);
    assert Distinct(cols);
    forall d | d in p.dates ensures d in cols {
      assert Attended(r, d);
    }
    RowMinutesTotal(p, cols);
  }
}
