/** The week pivot `meeting-report-by-week.csv`: one column per ISO week
    number in which anyone attended, headed by the Monday of that week, one
    row per non-staff key, and in each cell the key's minutes in that week
    or an empty cell. Weeks are told apart by their number alone, so the
    same week number in two different years is one column. */
module WeekPivot {
  import opened Sorting
  import opened Identity
  import opened Attendance
  import opened Tables

  /** The two calendar functions the table needs: the ISO 8601 week
      number of a date (`date.isocalendar()[1]`) and the Monday of the ISO
      week the date lies in (`date_from_isoweek(year, week, 1)`). */
  datatype Calendar = Calendar(week: Date -> int, monday: Date -> Date)

  /** The dates in the order the catalogue loop visits them: the keys in
      the order `ks` and, within a key, its days in insertion order. */
  function ScanDates(r: Roster, ks: seq<Key>): seq<Date>
    requires KnownKeys(r, ks)
  {
    if ks == [] then [] else ScanDates(r, ks[..|ks| - 1]) + r.people[ks[|ks| - 1]].dates
  }

  lemma ScanDatesStep(r: Roster, ks: seq<Key>, i: nat)
    requires KnownKeys(r, ks) && i < |ks|
    ensures KnownKeys(r, ks[..i]) && KnownKeys(r, ks[..i + 1])
    ensures ScanDates(r, ks[..i + 1]) == ScanDates(r, ks[..i]) + r.people[ks[i]].dates
  {
    assert ks[..i + 1][..i] == ks[..i];
  }

  lemma {:induction false} ScanDatesMembers(r: Roster, ks: seq<Key>, d: Date)
    requires Valid(r) && KnownKeys(r, ks)
    ensures d in ScanDates(r, ks) <==> exists k :: k in ks && d in r.people[k].days
  {
    if ks != [] {
      var init, last := ks[..|ks| - 1], ks[|ks| - 1];
      ScanDatesMembers(r, init, d);
      if exists k :: k in ks && d in r.people[k].days {
        var k :| k in ks && d in r.people[k].days;
        if k != last {
          assert k in init;
        }
      }
    }
  }

  /** `monday` is the Monday of the first date of `scan` whose week number
      is `w`. */
  ghost predicate FirstOfWeek(cal: Calendar, scan: seq<Date>, w: int, monday: Date)
  {
    exists i :: 0 <= i < |scan| && cal.week(scan[i]) == w && monday == cal.monday(scan[i])
      && forall j :: 0 <= j < i ==> cal.week(scan[j]) != w
  }

  /** Some date of `scan` lies in a week numbered `w`. */
  ghost predicate HasWeek(cal: Calendar, scan: seq<Date>, w: int)
  {
    exists i :: 0 <= i < |scan| && cal.week(scan[i]) == w
  }

  lemma FirstOfWeekExtend(cal: Calendar, scan: seq<Date>, d: Date, w: int, monday: Date)
    requires FirstOfWeek(cal, scan, w, monday)
    ensures FirstOfWeek(cal, scan + [d], w, monday)
  {
    var i :| 0 <= i < |scan| && cal.week(scan[i]) == w && monday == cal.monday(scan[i])
      && forall j :: 0 <= j < i ==> cal.week(scan[j]) != w;
    assert (scan + [d])[i] == scan[i];
  }

  lemma FirstOfWeekNew(cal: Calendar, scan: seq<Date>, d: Date)
    requires !HasWeek(cal, scan, cal.week(d))
    ensures FirstOfWeek(cal, scan + [d], cal.week(d), cal.monday(d))
  {
    assert (scan + [d])[|scan|] == d;
  }

  lemma HasWeekExtend(cal: Calendar, scan: seq<Date>, d: Date, w: int)
    ensures HasWeek(cal, scan + [d], w) <==> HasWeek(cal, scan, w) || cal.week(d) == w
  {
    if HasWeek(cal, scan, w) {
      var i :| 0 <= i < |scan| && cal.week(scan[i]) == w;
      assert (scan + [d])[i] == scan[i];
    }
    if cal.week(d) == w {
      assert (scan + [d])[|scan|] == d;
    }
    if HasWeek(cal, scan + [d], w) {
      var i :| 0 <= i < |scan| + 1 && cal.week((scan + [d])[i]) == w;
      if i < |scan| {
        assert (scan + [d])[i] == scan[i];
      }
    }
  }

  /** The catalogue invariant: `weeks` lists the keys of `starts` once
      each, these are the week numbers met in `scan`, and each maps to the
      Monday of the first date met in it. */
  ghost predicate Catalogued(cal: Calendar, scan: seq<Date>, weeks: seq<int>, starts: map<int, Date>)
  {
    && Distinct(weeks)
    && (forall w :: w in weeks <==> w in starts)
    && (forall w :: w in starts <==> HasWeek(cal, scan, w))
    && (forall w :: w in starts ==> FirstOfWeek(cal, scan, w, starts[w]))
  }

  lemma CataloguedStep(cal: Calendar, scan: seq<Date>, weeks: seq<int>, starts: map<int, Date>, d: Date)
    requires Catalogued(cal, scan, weeks, starts)
    ensures var w := cal.week(d);
      if w in starts then Catalogued(cal, scan + [d], weeks, starts)
      else Catalogued(cal, scan + [d], weeks + [w], starts[w := cal.monday(d)])
  {
    var w := cal.week(d);
    forall v ensures HasWeek(cal, scan + [d], v) <==> HasWeek(cal, scan, v) || w == v {
      HasWeekExtend(cal, scan, d, v);
    }
    if w in starts {
      forall v | v in starts ensures FirstOfWeek(cal, scan + [d], v, starts[v]) {
        FirstOfWeekExtend(cal, scan, d, v, starts[v]);
      }
    } else {
      var starts' := starts[w := cal.monday(d)];
      forall v | v in starts' ensures FirstOfWeek(cal, scan + [d], v, starts'[v]) {
        if v == w {
          FirstOfWeekNew(cal, scan, d);
        } else {
          FirstOfWeekExtend(cal, scan, d, v, starts[v]);
        }
      }
    }
  }

  /** The inner loop of the week catalogue (lines 265-270): records the
      week numbers of `dates`, having already scanned `scan`. */
  method CatalogueDates(cal: Calendar, dates: seq<Date>, ghost scan: seq<Date>, weeks: seq<int>, starts: map<int, Date>)
    returns (weeks': seq<int>, starts': map<int, Date>)
    requires Catalogued(cal, scan, weeks, starts)
    ensures Catalogued(cal, scan + dates, weeks', starts')
  {
    weeks', starts' := weeks, starts;
    var j := 0;
    assert scan + dates[..j] == scan;
    while j < |dates|
      invariant 0 <= j <= |dates|
      invariant Catalogued(cal, scan + dates[..j], weeks', starts')
    {
      var date := dates[j];
      var week := cal.week(date);
      CataloguedStep(cal, scan + dates[..j], weeks', starts', date);
      if week !in starts' {
        weeks' := weeks' + [week];
        starts' := starts'[week := cal.monday(date)];
      }
      assert scan + dates[..j + 1] == scan + dates[..j] + [date];
      j := j + 1;
    }
    assert dates[..j] == dates;
  }

  /** The week catalogue (lines 261-270): visiting every date of every key
      (staff included) in scan order, the first date met in a week number
      records that week's Monday. */
  method WeekCatalogue(r: Roster, cal: Calendar) returns (weeks: seq<int>, starts: map<int, Date>)
    requires Valid(r)
    ensures Catalogued(cal, ScanDates(r, SortedKeys(r)), weeks, starts)
  {
    var ks := SortedKeys(r);
    weeks, starts := [], map[];
    var i := 0;
    while i < |ks|
      invariant 0 <= i <= |ks|
      invariant Catalogued(cal, ScanDates(r, ks[..i]), weeks, starts)
    {
      ScanDatesStep(r, ks, i);
      weeks, starts := CatalogueDates(cal, r.people[ks[i]].dates, ScanDates(r, ks[..i]), weeks, starts);
      i := i + 1;
    }
    assert ks[..i] == ks;
  }

  /** A participant's minutes in the week numbered `w`, its days visited in
      insertion order. */
  function WeekSum(cal: Calendar, ds: seq<Date>, days: map<Date, Entry>, w: int): int
    requires Covers(ds, days)
  {
    if ds == [] then 0
    else
      var d := ds[|ds| - 1];
      assert d in ds;
      WeekSum(cal, ds[..|ds| - 1], days, w) + if cal.week(d) == w then days[d].mins else 0
  }

  /** The `attendanceSum` loop of lines 291-295. */
  method WeekMinutes(p: Participant, cal: Calendar, w: int) returns (sum: int)
    requires ValidParticipant(p)
    ensures Covers(p.dates, p.days) && sum == WeekSum(cal, p.dates, p.days, w)
  {
    assert Covers(p.dates, p.days);
    sum := 0;
    var j := 0;
    while j < |p.dates|
      invariant 0 <= j <= |p.dates|
      invariant Covers(p.dates[..j], p.days)
      invariant sum == WeekSum(cal, p.dates[..j], p.days, w)
    {
      var date := p.dates[j];
      assert p.dates[..j + 1][..j] == p.dates[..j];
      assert p.dates[..j + 1][j] == date;
      if cal.week(date) == w {
        sum := sum + p.days[date].mins;
      }
      j := j + 1;
    }
    assert p.dates[..j] == p.dates;
  }

  /** `row` is the week-pivot row of participant `p` under key `email` for
      the week columns `cols`: the name of its first-inserted entry, the
      key, and per column the week's minutes when positive, else blank. */
  ghost predicate IsWeekRow(p: Participant, email: Key, cal: Calendar, cols: seq<int>, row: seq<Cell>)
    requires ValidParticipant(p)
  {
    && |row| == 2 + |cols|
    && row[0] == Str(FirstEntry(p).name) && row[1] == Str(email)
    && forall j :: 0 <= j < |cols| ==>
         && (WeekSum(cal, p.dates, p.days, cols[j]) > 0 ==> row[2 + j] == Num(WeekSum(cal, p.dates, p.days, cols[j])))
         && (WeekSum(cal, p.dates, p.days, cols[j]) <= 0 ==> row[2 + j] == Blank)
  }

  /** One row of the week pivot (lines 283-300). */
  method WeekRow(p: Participant, email: Key, cal: Calendar, cols: seq<int>) returns (row: seq<Cell>)
    requires ValidParticipant(p)
    ensures IsWeekRow(p, email, cal, cols, row)
  {
    var name := FirstEntry(p).name;
    row := [Str(name), Str(email)];
    var j := 0;
    while j < |cols|
      invariant 0 <= j <= |cols|
      invariant |row| == 2 + j && row[0] == Str(name) && row[1] == Str(email)
      invariant forall m :: 0 <= m < j ==>
        && (WeekSum(cal, p.dates, p.days, cols[m]) > 0 ==> row[2 + m] == Num(WeekSum(cal, p.dates, p.days, cols[m])))
        && (WeekSum(cal, p.dates, p.days, cols[m]) <= 0 ==> row[2 + m] == Blank)
    {
      var attendanceSum := WeekMinutes(p, cal, cols[j]);
      if attendanceSum > 0 {
        row := row + [Num(attendanceSum)];
      } else {
        row := row + [Blank];
      }
      j := j + 1;
    }
  }

  /** `rows` are the week-pivot rows of the keys `inc`, in that order. */
  ghost predicate WeekRowsAt(r: Roster, inc: seq<Key>, cal: Calendar, cols: seq<int>, rows: seq<seq<Cell>>)
    requires Valid(r)
  {
    && |rows| == |inc|
    && forall i :: 0 <= i < |inc| ==> inc[i] in r.people && IsWeekRow(r.people[inc[i]], inc[i], cal, cols, rows[i])
  }

  /** One step of the row loop: a staff key adds no row, any other key
      adds its own. */
  lemma WeekRowsStep(r: Roster, ks: seq<Key>, i: nat, cal: Calendar, cols: seq<int>, rows: seq<seq<Cell>>, row: seq<Cell>)
    requires Valid(r) && i < |ks| && ks[i] in r.people
    requires WeekRowsAt(r, Included(ks[..i]), cal, cols, rows)
    requires !StaffEmail(ks[i]) ==> IsWeekRow(r.people[ks[i]], ks[i], cal, cols, row)
    ensures WeekRowsAt(r, Included(ks[..i + 1]), cal, cols, if StaffEmail(ks[i]) then rows else rows + [row])
  {
    IncludedStep(ks, i);
    if !StaffEmail(ks[i]) {
      WeekRowsAppend(r, Included(ks[..i]), cal, cols, rows, ks[i], row);
    }
  }

  lemma WeekRowsAppend(r: Roster, inc: seq<Key>, cal: Calendar, cols: seq<int>, rows: seq<seq<Cell>>, k: Key, row: seq<Cell>)
    requires Valid(r) && WeekRowsAt(r, inc, cal, cols, rows)
    requires k in r.people && IsWeekRow(r.people[k], k, cal, cols, row)
    ensures WeekRowsAt(r, inc + [k], cal, cols, rows + [row])
  {
    assert forall i :: 0 <= i < |inc| ==> (inc + [k])[i] == inc[i] && (rows + [row])[i] == rows[i];
  }

  /** The columns of the week pivot (lines 276-278): the catalogued week
      numbers in ascending order, each with its recorded Monday. */
  method WeekColumns(r: Roster, cal: Calendar) returns (cols: seq<int>, mondays: seq<Date>)
    requires Valid(r)
    ensures IntsAscending(cols) && |mondays| == |cols|
    ensures forall w :: w in cols <==> HasWeek(cal, ScanDates(r, SortedKeys(r)), w)
    ensures forall j :: 0 <= j < |cols| ==> FirstOfWeek(cal, ScanDates(r, SortedKeys(r)), cols[j], mondays[j])
  {
    var weeks, starts := WeekCatalogue(r, cal);
    cols := SortInts(weeks);
    assert forall j :: 0 <= j < |cols| ==> cols[j] in weeks;
    mondays := seq(|cols|, j requires 0 <= j < |cols| => starts[cols[j]]);
  }

  /** The data rows of the week pivot (lines 280-300): one per non-staff
      key, in ascending key order. */
  method WeekRows(r: Roster, cal: Calendar, cols: seq<int>) returns (rows: seq<seq<Cell>>)
    requires Valid(r)
    ensures WeekRowsAt(r, Included(SortedKeys(r)), cal, cols, rows)
  {
    var ks := SortedKeys(r);
    rows := [];
    var i := 0;
    while i < |ks|
      invariant 0 <= i <= |ks|
      invariant WeekRowsAt(r, Included(ks[..i]), cal, cols, rows)
    {
      var email := ks[i];
      var row := [];
      if !StaffEmail(email) {
        row := WeekRow(r.people[email], email, cal, cols);
      }
      WeekRowsStep(r, ks, i, cal, cols, rows, row);
      if !StaffEmail(email) {
        rows := rows + [row];
      }
      i := i + 1;
    }
    assert ks[..i] == ks;
  }

  /** The whole week pivot (lines 261-300): the week numbers in ascending
      order, the header of their Mondays, and one row per non-staff key in
      ascending key order. */
  method WeekTable(r: Roster, cal: Calendar) returns (cols: seq<int>, header: seq<Cell>, rows: seq<seq<Cell>>)
    requires Valid(r)
    ensures IntsAscending(cols)
    ensures forall w :: w in cols <==> HasWeek(cal, ScanDates(r, SortedKeys(r)), w)
    ensures |header| == 2 + |cols| && header[0] == Str("Name") && header[1] == Str("Email")
    ensures forall j :: 2 <= j < |header| ==>
      header[j].Stamp? && FirstOfWeek(cal, ScanDates(r, SortedKeys(r)), cols[j - 2], header[j].d)
    ensures WeekRowsAt(r, Included(SortedKeys(r)), cal, cols, rows)
  {
    var mondays;
    cols, mondays := WeekColumns(r, cal);
    header := PivotHeader(mondays);
    forall j | 2 <= j < |header|
      ensures header[j].Stamp? && FirstOfWeek(cal, ScanDates(r, SortedKeys(r)), cols[j - 2], header[j].d)
    {
      assert header[2 + (j - 2)] == Stamp(mondays[j - 2]);
    }
    rows := WeekRows(r, cal, cols);
  }

  /** A week in which the participant has no date gives a blank cell. */
  lemma {:induction false} WeekSumAbsent(cal: Calendar, ds: seq<Date>, days: map<Date, Entry>, w: int)
    requires Covers(ds, days) && forall i :: 0 <= i < |ds| ==> cal.week(ds[i]) != w
    ensures WeekSum(cal, ds, days, w) == 0
  {
    if ds != [] {
      WeekSumAbsent(cal, ds[..|ds| - 1], days, w);
    }
  }

  /** The sum of the week sums over the columns `cols`. */
  function WeekTotals(cal: Calendar, ds: seq<Date>, days: map<Date, Entry>, cols: seq<int>): int
    requires Covers(ds, days)
  {
    if cols == [] then 0 else WeekTotals(cal, ds, days, cols[..|cols| - 1]) + WeekSum(cal, ds, days, cols[|cols| - 1])
  }

  /** The minutes one date adds across the columns: `m` in its own week's
      column, nothing elsewhere. */
  function Indicator(cols: seq<int>, w: int, m: int): int
  {
    if cols == [] then 0 else Indicator(cols[..|cols| - 1], w, m) + if cols[|cols| - 1] == w then m else 0
  }

  lemma {:induction false} IndicatorOnce(cols: seq<int>, w: int, m: int)
    requires Distinct(cols)
    ensures Indicator(cols, w, m) == if w in cols then m else 0
  {
    if cols != [] {
      var init := cols[..|cols| - 1];
      IndicatorOnce(init, w, m);
      assert w in cols <==> w in init || cols[|cols| - 1] == w;
      assert cols[|cols| - 1] == w ==> w !in init;
    }
  }

  lemma {:induction false} WeekTotalsAppend(cal: Calendar, ds: seq<Date>, days: map<Date, Entry>, d: Date, cols: seq<int>)
    requires Covers(ds + [d], days)
    ensures Covers(ds, days)
    ensures WeekTotals(cal, ds + [d], days, cols) == WeekTotals(cal, ds, days, cols) + Indicator(cols, cal.week(d), days[d].mins)
  {
    assert d in ds + [d];
    assert Covers(ds, days) by {
      forall x | x in ds ensures x in days { assert x in ds + [d]; }
    }
    if cols != [] {
      WeekTotalsAppend(cal, ds, days, d, cols[..|cols| - 1]);
      assert (ds + [d])[..|ds|] == ds;
    }
  }

  /** Over distinct week columns that include the week of every date, the
      week cells' sums add up to all the minutes: no day is lost, and the
      days that share a week number are added into one column. */
  lemma {:induction false} WeekTotalsConserve(cal: Calendar, ds: seq<Date>, days: map<Date, Entry>, cols: seq<int>)
    requires Covers(ds, days) && Distinct(cols)
    requires forall i :: 0 <= i < |ds| ==> cal.week(ds[i]) in cols
    ensures WeekTotals(cal, ds, days, cols) == DaySum(ds, days)
  {
    if ds == [] {
      WeekTotalsEmpty(cal, days, cols);
    } else {
      var init, d := ds[..|ds| - 1], ds[|ds| - 1];
      assert init + [d] == ds;
      WeekTotalsAppend(cal, init, days, d, cols);
      IndicatorOnce(cols, cal.week(d), days[d].mins);
      WeekTotalsConserve(cal, init, days, cols);
    }
  }

  lemma {:induction false} WeekTotalsEmpty(cal: Calendar, days: map<Date, Entry>, cols: seq<int>)
    ensures WeekTotals(cal, [], days, cols) == 0
  {
    if cols != [] {
      WeekTotalsEmpty(cal, days, cols[..|cols| - 1]);
    }
  }

  /** Applied to a participant of the table: the week sums of its row add
      up to its total minutes. */
  lemma WeekRowConserves(r: Roster, cal: Calendar, cols: seq<int>, k: Key)
    requires Valid(r) && k in r.people
    requires IntsAscending(cols) && forall w :: w in cols <==> HasWeek(cal, ScanDates(r, SortedKeys(r)), w)
    ensures Covers(r.people[k].dates, r.people[k].days)
    ensures WeekTotals(cal, r.people[k].dates, r.people[k].days, cols) == Minutes(r.people[k])
  {
    var p := r.people[k];
    var ks := SortedKeys(r);
    var scan := ScanDates(r, ks);
    assert Distinct(cols);
    forall i | 0 <= i < |p.dates| ensures cal.week(p.dates[i]) in cols {
      var d := p.dates[i];
      ScanDatesMembers(r, ks, d);
      var m :| 0 <= m < |scan| && scan[m] == d;
      assert HasWeek(cal, scan, cal.week(d));
    }
    WeekTotalsConserve(cal, p.dates, p.days, cols);
  }

  /** Two dates with the same week number are added into the same column
      even when their weeks start on different Mondays, as the same week
      number of two years does. */
  lemma WeekNumberOnly(cal: Calendar, d1: Date, d2: Date, days: map<Date, Entry>)
    requires d1 in days && d2 in days && cal.week(d1) == cal.week(d2)
    requires cal.monday(d1) != cal.monday(d2)
    ensures WeekSum(cal, [d1, d2], days, cal.week(d1)) == days[d1].mins + days[d2].mins
  {
    var w := cal.week(d1);
    assert [d1, d2][..1] == [d1] && [d1][..0] == [];
    assert WeekSum(cal, [], days, w) == 0;
    assert WeekSum(cal, [d1], days, w) == days[d1].mins;
  }
}
