/** Loading a directory: every row of every participants file is either
    the header (skipped), a data row (parsed, its address resolved, and
    folded into the dictionary) or malformed (the directory's run aborts). */
module Aggregation {
  import opened Wrappers
  import opened Text
  import opened Identity
  import opened Attendance

  /** The library parsers the row loop calls: `int(row[4])`, and the day of
      `datetime.strptime(start, '%d/%m/%Y %H:%M:%S %p')`. Each yields None
      for text it rejects (Python raises ValueError). */
  datatype Parsers = Parsers(minutes: string -> Option<int>, day: string -> Option<Date>)

  /** Why a row aborts the run: a field it lacks (an IndexError) or a field
      that does not parse (a ValueError). */
  datatype Fault = MissingField(index: nat) | BadMinutes(text: string) | BadTimestamp(text: string)

  /** The fault and the position of the row (among all rows of the
      directory, in reading order) that caused it. */
  datatype RowError = RowError(row: nat, fault: Fault)

  datatype Parsed = Header | Data(session: Session) | Malformed(fault: Fault)

  /** The header row is recognised by the end of its first field; the
      platform puts an invisible character before it. */
  const HeaderMarker: string := "Name (Original Name)"

  /** One row of a participants file, read as the loop body reads it:
      `row[0]`, the header test, `row[1]` lower-cased and resolved,
      `row[2]`, `int(row[4])`, then the timestamp. */
  function ParseRow(mapping: map<string, string>, parsers: Parsers, row: seq<string>): Parsed
  {
    if |row| == 0 then Malformed(MissingField(0))
    else if EndsWith(row[0], HeaderMarker) then Header
    else if |row| < 2 then Malformed(MissingField(1))
    else
      var name := row[0];
      var email := Lower(row[1]);
      var key := ResolveKey(mapping, row[1]);
      if |row| < 3 then Malformed(MissingField(2))
      else
        var start := row[2];
        if |row| < 5 then Malformed(MissingField(4))
        else match parsers.minutes(row[4])
          case None => Malformed(BadMinutes(row[4]))
          case Some(mins) =>
            match parsers.day(start)
            case None => Malformed(BadTimestamp(start))
            case Some(date) => Data(Session(key, date, Entry(name, email, start, mins)))
  }

  /** How a row is read: a header exactly when its first field ends with
      the header marker; data exactly when it has at least five fields and both the
      minutes and the timestamp parse, and then keyed by the resolved
      address, dated by the timestamp, and carrying the first field, the
      lower-cased address, the start text and the minutes; an empty row is
      short of its first field. */
  lemma ParseRowCases(mapping: map<string, string>, parsers: Parsers, row: seq<string>)
    ensures var p := ParseRow(mapping, parsers, row);
      && (p.Header? <==> |row| > 0 && EndsWith(row[0], HeaderMarker))
      && (p.Data? <==>
           && |row| >= 5 && !EndsWith(row[0], HeaderMarker)
           && parsers.minutes(row[4]).Some? && parsers.day(row[2]).Some?)
      && (p.Data? ==>
           && p.session.key == ResolveKey(mapping, row[1])
           && p.session.date == parsers.day(row[2]).value
           && p.session.entry == Entry(row[0], Lower(row[1]), row[2], parsers.minutes(row[4]).value))
      && (p == Malformed(MissingField(0)) <==> |row| == 0)
  {
  }

  /** The effect of one parsed row on the dictionary `r`; `index` is the
      row's position, reported if it is malformed. */
  function Step(r: Roster, parsed: Parsed, index: nat): Result<Roster, RowError>
  {
    match parsed
    case Header => Success(r)
    case Malformed(f) => Failure(RowError(index, f))
    case Data(s) => Success(AddSession(r, s))
  }

  /** The dictionary after the rows `rows` (all files of a directory, in
      reading order), or the first malformed row. */
  function Aggregate(mapping: map<string, string>, parsers: Parsers, rows: seq<seq<string>>): (res: Result<Roster, RowError>)
    ensures res.Failure? ==> res.error.row < |rows|
    decreases |rows|
  {
    if rows == [] then Success(EmptyRoster())
    else
      match Aggregate(mapping, parsers, rows[..|rows| - 1])
      case Failure(e) => Failure(e)
      case Success(r) => Step(r, ParseRow(mapping, parsers, rows[|rows| - 1]), |rows| - 1)
  }

  lemma AggregateStep(mapping: map<string, string>, parsers: Parsers, rows: seq<seq<string>>, i: nat, r: Roster)
    requires i < |rows| && Aggregate(mapping, parsers, rows[..i]) == Success(r)
    ensures Aggregate(mapping, parsers, rows[..i + 1]) == Step(r, ParseRow(mapping, parsers, rows[i]), i)
  {
    assert rows[..i + 1][..i] == rows[..i];
  }

  /** Once a prefix of the rows has failed, the whole run fails with the
      same error. */
  lemma {:induction false} FailurePersists(mapping: map<string, string>, parsers: Parsers, rows: seq<seq<string>>, j: nat)
    requires j <= |rows| && Aggregate(mapping, parsers, rows[..j]).Failure?
    ensures Aggregate(mapping, parsers, rows) == Aggregate(mapping, parsers, rows[..j])
    decreases |rows|
  {
    if j < |rows| {
      var init := rows[..|rows| - 1];
      assert init[..j] == rows[..j];
      FailurePersists(mapping, parsers, init, j);
    } else {
      assert rows[..j] == rows;
    }
  }

  /** The body of the row loop for a data row (lines 159-170): the nested
      dictionary, held as its two parts, is updated in place. */
  method AddRow(keys: seq<Key>, people: map<Key, Participant>, s: Session) returns (keys': seq<Key>, people': map<Key, Participant>)
    ensures Roster(keys', people') == AddSession(Roster(keys, people), s)
  {
    keys', people' := keys, people;
    if s.key !in people' {
      keys' := keys' + [s.key];
      people' := people'[s.key := Participant([], map[])];
    }
    var p := people'[s.key];
    if s.date in p.days {
      var e := p.days[s.date];
      people' := people'[s.key := Participant(p.dates, p.days[s.date := e.(mins := e.mins + s.entry.mins)])];
    } else {
      people' := people'[s.key := Participant(p.dates + [s.date], p.days[s.date := s.entry])];
    }
  }

  /** The row loop: the nested dictionary is updated in place, row by row;
      a malformed row ends the run. */
  method Load(mapping: map<string, string>, parsers: Parsers, rows: seq<seq<string>>) returns (res: Result<Roster, RowError>)
    ensures res == Aggregate(mapping, parsers, rows)
  {
    var keys: seq<Key> := [];
    var people: map<Key, Participant> := map[];
    var i := 0;
    while i < |rows|
      invariant 0 <= i <= |rows|
      invariant Aggregate(mapping, parsers, rows[..i]) == Success(Roster(keys, people))
    {
      var parsed := ParseRow(mapping, parsers, rows[i]);
      AggregateStep(mapping, parsers, rows, i, Roster(keys, people));
      match parsed {
      case Header =>
      case Malformed(f) =>
        res := Failure(RowError(i, f));
        FailurePersists(mapping, parsers, rows, i + 1);
        return;
      case Data(s) =>
        keys, people := AddRow(keys, people, s);
      }
      i := i + 1;
    }
    assert rows[..|rows|] == rows;
    res := Success(Roster(keys, people));
  }

  // ---- what the dictionary holds, in terms of the parsed rows ----

  /** The parsed data rows, in reading order (headers dropped). */
  function SessionsOf(mapping: map<string, string>, parsers: Parsers, rows: seq<seq<string>>): seq<Session>
  {
    if rows == [] then []
    else
      SessionsOf(mapping, parsers, rows[..|rows| - 1])
      + match ParseRow(mapping, parsers, rows[|rows| - 1])
        case Data(s) => [s]
        case _ => []
  }

  /** The dictionary that folding `ss` into an empty one yields. */
  function Fold(ss: seq<Session>): Roster
  {
    if ss == [] then EmptyRoster() else AddSession(Fold(ss[..|ss| - 1]), ss[|ss| - 1])
  }

  /** The fold of any sessions is a well-formed dictionary. */
  lemma {:induction false} FoldValid(ss: seq<Session>)
    ensures Valid(Fold(ss))
  {
    if ss != [] {
      FoldValid(ss[..|ss| - 1]);
      AddSessionValid(Fold(ss[..|ss| - 1]), ss[|ss| - 1]);
    }
  }

  predicate Matches(s: Session, k: Key, d: Date)
  {
    s.key == k && s.date == d
  }

  /** The minutes of the sessions for key `k` on day `d`. */
  function MinsOf(ss: seq<Session>, k: Key, d: Date): int
  {
    if ss == [] then 0
    else MinsOf(ss[..|ss| - 1], k, d) + (if Matches(ss[|ss| - 1], k, d) then ss[|ss| - 1].entry.mins else 0)
  }

  /** The minutes of all sessions. */
  function SessionMinutes(ss: seq<Session>): int
  {
    if ss == [] then 0 else SessionMinutes(ss[..|ss| - 1]) + ss[|ss| - 1].entry.mins
  }

  /** A successful run holds exactly the fold of the parsed data rows. */
  lemma {:induction false} AggregateIsFold(mapping: map<string, string>, parsers: Parsers, rows: seq<seq<string>>)
    requires Aggregate(mapping, parsers, rows).Success?
    ensures Aggregate(mapping, parsers, rows).value == Fold(SessionsOf(mapping, parsers, rows))
    decreases |rows|
  {
    if rows != [] {
      var init := rows[..|rows| - 1];
      AggregateIsFold(mapping, parsers, init);
      var ss := SessionsOf(mapping, parsers, init);
      match ParseRow(mapping, parsers, rows[|rows| - 1])
      case Header =>
        assert SessionsOf(mapping, parsers, rows) == ss + [] == ss;
      case Malformed(_) =>
      case Data(s) =>
        assert SessionsOf(mapping, parsers, rows) == ss + [s];
        assert (ss + [s])[..|ss|] == ss;
    }
  }

  /** A run fails exactly when some row is malformed, and then with the
      first malformed row's position and fault. */
  lemma {:induction false} AggregateFails(mapping: map<string, string>, parsers: Parsers, rows: seq<seq<string>>)
    ensures Aggregate(mapping, parsers, rows).Failure? <==>
      exists i :: 0 <= i < |rows| && ParseRow(mapping, parsers, rows[i]).Malformed?
    ensures Aggregate(mapping, parsers, rows).Failure? ==>
      var e := Aggregate(mapping, parsers, rows).error;
      && e.row < |rows|
      && ParseRow(mapping, parsers, rows[e.row]) == Malformed(e.fault)
      && forall j :: 0 <= j < e.row ==> !ParseRow(mapping, parsers, rows[j]).Malformed?
    decreases |rows|
  {
    if rows != [] {
      var init := rows[..|rows| - 1];
      AggregateFails(mapping, parsers, init);
      assert forall j :: 0 <= j < |init| ==> init[j] == rows[j];
      if (exists i :: 0 <= i < |rows| && ParseRow(mapping, parsers, rows[i]).Malformed?)
        && !(exists i :: 0 <= i < |init| && ParseRow(mapping, parsers, init[i]).Malformed?) {
        assert ParseRow(mapping, parsers, rows[|rows| - 1]).Malformed?;
      }
    }
  }

  /** Header rows leave the dictionary as it was: inserting one anywhere
      changes neither whether the run succeeds nor what it holds. */
  lemma {:induction false} HeaderRowIgnored(mapping: map<string, string>, parsers: Parsers,
                                            a: seq<seq<string>>, h: seq<string>, b: seq<seq<string>>)
    requires ParseRow(mapping, parsers, h).Header?
    ensures Aggregate(mapping, parsers, a + [h] + b).Success? == Aggregate(mapping, parsers, a + b).Success?
    ensures Aggregate(mapping, parsers, a + [h] + b).Success? ==>
      Aggregate(mapping, parsers, a + [h] + b).value == Aggregate(mapping, parsers, a + b).value
    decreases |b|
  {
    if b == [] {
      assert a + [h] + b == a + [h] && (a + [h])[..|a|] == a && a + b == a;
    } else {
      var b' := b[..|b| - 1];
      var x := b[|b| - 1];
      HeaderRowIgnored(mapping, parsers, a, h, b');
      assert (a + [h] + b)[..|a + [h] + b| - 1] == a + [h] + b';
      assert (a + b)[..|a + b| - 1] == a + b';
      assert (a + [h] + b)[|a + [h] + b| - 1] == x && (a + b)[|a + b| - 1] == x;
    }
  }

  lemma {:induction false} MinsOfNone(ss: seq<Session>, k: Key, d: Date)
    requires forall j :: 0 <= j < |ss| ==> !Matches(ss[j], k, d)
    ensures MinsOf(ss, k, d) == 0
  {
    if ss != [] { MinsOfNone(ss[..|ss| - 1], k, d); }
  }

  /** Proof helper: `AddSessionOthers`, `AddSessionFuses` and
      `AddSessionCreates` seen from participant `k`, in one call for the
      fold lemmas below. */
  lemma AddSessionCases(r: Roster, s: Session, k: Key)
    ensures k != s.key ==> (k in AddSession(r, s).people <==> k in r.people)
    ensures k != s.key && k in r.people ==> AddSession(r, s).people[k] == r.people[k]
    ensures s.key in AddSession(r, s).people
    ensures s.key in r.people && s.date in r.people[s.key].days ==>
      var before := r.people[s.key];
      var after := AddSession(r, s).people[s.key];
      && after.dates == before.dates && after.days.Keys == before.days.Keys
      && after.days[s.date] == before.days[s.date].(mins := before.days[s.date].mins + s.entry.mins)
      && forall d :: d in before.days && d != s.date ==> after.days[d] == before.days[d]
    ensures !(s.key in r.people && s.date in r.people[s.key].days) ==>
      var before := if s.key in r.people then r.people[s.key] else Participant([], map[]);
      var after := AddSession(r, s).people[s.key];
      after.dates == before.dates + [s.date] && after.days == before.days[s.date := s.entry]
  {
    if k != s.key { AddSessionOthers(r, s, k); }
    if s.key in r.people && s.date in r.people[s.key].days {
      AddSessionFuses(r, s);
    } else {
      AddSessionCreates(r, s);
    }
  }

  /** A day of a participant exists exactly when some session has that key
      and day. */
  lemma {:induction false} FoldDays(ss: seq<Session>, k: Key, d: Date)
    ensures (k in Fold(ss).people && d in Fold(ss).people[k].days) <==>
      exists i :: 0 <= i < |ss| && Matches(ss[i], k, d)
  {
    if ss != [] {
      var init := ss[..|ss| - 1];
      FoldDays(init, k, d);
      AddSessionCases(Fold(init), ss[|ss| - 1], k);
      assert forall j :: 0 <= j < |init| ==> init[j] == ss[j];
      if !Matches(ss[|ss| - 1], k, d) && exists i :: 0 <= i < |ss| && Matches(ss[i], k, d) {
        var i :| 0 <= i < |ss| && Matches(ss[i], k, d);
        assert Matches(init[i], k, d);
      }
    }
  }

  /** A participant exists exactly when some session has that key: no key
      other than the resolved ones appears. */
  lemma {:induction false} FoldKeys(ss: seq<Session>, k: Key)
    ensures k in Fold(ss).people <==> exists i :: 0 <= i < |ss| && ss[i].key == k
  {
    if ss != [] {
      var init := ss[..|ss| - 1];
      FoldKeys(init, k);
      AddSessionCases(Fold(init), ss[|ss| - 1], k);
      assert forall j :: 0 <= j < |init| ==> init[j] == ss[j];
      if ss[|ss| - 1].key != k && exists i :: 0 <= i < |ss| && ss[i].key == k {
        var i :| 0 <= i < |ss| && ss[i].key == k;
        assert init[i].key == k;
      }
    }
  }

  /** First seen wins and minutes add up: the entry of key `k` on day `d`
      carries the name, address and start of the first session for them,
      and the minutes of all of them. */
  lemma {:induction false} FoldEntry(ss: seq<Session>, k: Key, d: Date, i: nat)
    requires i < |ss| && Matches(ss[i], k, d)
    requires forall j :: 0 <= j < i ==> !Matches(ss[j], k, d)
    ensures k in Fold(ss).people && d in Fold(ss).people[k].days
    ensures Fold(ss).people[k].days[d] == ss[i].entry.(mins := MinsOf(ss, k, d))
  {
    var init := ss[..|ss| - 1];
    var s := ss[|ss| - 1];
    assert forall j :: 0 <= j < |init| ==> init[j] == ss[j];
    AddSessionCases(Fold(init), s, k);
    if i == |ss| - 1 {
      FoldDays(init, k, d);
      MinsOfNone(init, k, d);
    } else {
      FoldEntry(init, k, d, i);
    }
  }

  /** Insertion order: a participant's first day (the entry Python's
      `next(iter(...values()))` picks) is the day of the first session
      with that key. */
  lemma {:induction false} FoldFirstDay(ss: seq<Session>, k: Key, i: nat)
    requires i < |ss| && ss[i].key == k
    requires forall j :: 0 <= j < i ==> ss[j].key != k
    ensures k in Fold(ss).people && |Fold(ss).people[k].dates| > 0
    ensures Fold(ss).people[k].dates[0] == ss[i].date
  {
    var init := ss[..|ss| - 1];
    assert forall j :: 0 <= j < |init| ==> init[j] == ss[j];
    AddSessionCases(Fold(init), ss[|ss| - 1], k);
    FoldValid(init);
    if i == |ss| - 1 {
      FoldKeys(init, k);
    } else {
      FoldFirstDay(init, k, i);
    }
  }

  /** The dictionary holds all the minutes of all data rows. */
  lemma {:induction false} FoldTotal(ss: seq<Session>)
    ensures Valid(Fold(ss)) && TotalMinutes(Fold(ss)) == SessionMinutes(ss)
  {
    FoldValid(ss);
    if ss != [] {
      FoldValid(ss[..|ss| - 1]);
      FoldTotal(ss[..|ss| - 1]);
      AddSessionTotal(Fold(ss[..|ss| - 1]), ss[|ss| - 1]);
    }
  }

  /** The minutes on key `k`'s day `d` are those of all sessions for them,
      whichever session came first. */
  lemma {:induction false} FoldMins(ss: seq<Session>, k: Key, d: Date)
    requires k in Fold(ss).people && d in Fold(ss).people[k].days
    ensures Fold(ss).people[k].days[d].mins == MinsOf(ss, k, d)
  {
    var init := ss[..|ss| - 1];
    var s := ss[|ss| - 1];
    AddSessionCases(Fold(init), s, k);
    if k in Fold(init).people && d in Fold(init).people[k].days {
      FoldMins(init, k, d);
    } else {
      FoldDays(init, k, d);
      MinsOfNone(init, k, d);
    }
  }

  lemma {:induction false} MinsOfConcat(a: seq<Session>, b: seq<Session>, k: Key, d: Date)
    ensures MinsOf(a + b, k, d) == MinsOf(a, k, d) + MinsOf(b, k, d)
    ensures SessionMinutes(a + b) == SessionMinutes(a) + SessionMinutes(b)
    decreases |b|
  {
    if b == [] {
      assert a + b == a;
    } else {
      MinsOfConcat(a, b[..|b| - 1], k, d);
      assert (a + b)[..|a + b| - 1] == a + b[..|b| - 1];
    }
  }

  /** Taking one session out of the middle takes its minutes out of the sums. */
  lemma MinsOfSplice(a: seq<Session>, x: Session, b: seq<Session>, k: Key, d: Date)
    ensures MinsOf(a + [x] + b, k, d) == MinsOf(a + b, k, d) + MinsOf([x], k, d)
    ensures SessionMinutes(a + [x] + b) == SessionMinutes(a + b) + SessionMinutes([x])
  {
    MinsOfConcat(a + [x], b, k, d);
    MinsOfConcat(a, [x], k, d);
    MinsOfConcat(a, b, k, d);
  }

  lemma MultisetRemove(init: seq<Session>, x: Session, ss: seq<Session>, p: nat)
    requires p < |ss| && ss[p] == x && multiset(init + [x]) == multiset(ss)
    ensures multiset(init) == multiset(ss[..p] + ss[p + 1..])
  {
    var a, b := ss[..p], ss[p + 1..];
    assert ss == a + [x] + b;
    calc {
      multiset(init) + multiset{x};
      multiset(init + [x]);
      multiset(a + [x] + b);
      multiset(a) + multiset{x} + multiset(b);
      multiset(a + b) + multiset{x};
    }
    assert multiset(init) == multiset(init) + multiset{x} - multiset{x};
    assert multiset(a + b) == multiset(a + b) + multiset{x} - multiset{x};
  }

  /** Sums over the sessions do not depend on their order. */
  lemma {:induction false} MinsOfPermutation(ss: seq<Session>, ss': seq<Session>, k: Key, d: Date)
    requires multiset(ss) == multiset(ss')
    ensures MinsOf(ss, k, d) == MinsOf(ss', k, d)
    ensures SessionMinutes(ss) == SessionMinutes(ss')
    decreases |ss|
  {
    if ss == [] {
      assert |ss'| == |multiset(ss')| == 0;
    } else {
      var init, x := ss[..|ss| - 1], ss[|ss| - 1];
      assert ss == init + [x];
      assert x in multiset(ss');
      var p :| 0 <= p < |ss'| && ss'[p] == x;
      var a, b := ss'[..p], ss'[p + 1..];
      assert ss' == a + [x] + b;
      MultisetRemove(init, x, ss', p);
      MinsOfPermutation(init, a + b, k, d);
      MinsOfConcat(init, [x], k, d);
      MinsOfSplice(a, x, b, k, d);
    }
  }

  /** Folding the same rows in another order (another order of files)
      gives the same keys, the same days and the same minutes on each
      day, and the same total. Only the first-seen name, address and start
      and the insertion order may differ. */
  lemma FoldOrderIndependent(ss: seq<Session>, ss': seq<Session>, k: Key, d: Date)
    requires multiset(ss) == multiset(ss')
    ensures k in Fold(ss).people <==> k in Fold(ss').people
    ensures k in Fold(ss).people && k in Fold(ss').people ==>
      (d in Fold(ss).people[k].days <==> d in Fold(ss').people[k].days)
    ensures k in Fold(ss).people && d in Fold(ss).people[k].days ==>
      k in Fold(ss').people && d in Fold(ss').people[k].days &&
      Fold(ss).people[k].days[d].mins == Fold(ss').people[k].days[d].mins
    ensures Valid(Fold(ss)) && Valid(Fold(ss')) && TotalMinutes(Fold(ss)) == TotalMinutes(Fold(ss'))
  {
    FoldKeys(ss, k);
    FoldKeys(ss', k);
    FoldDays(ss, k, d);
    FoldDays(ss', k, d);
    ShareKey(ss, ss', k);
    ShareKey(ss', ss, k);
    ShareDay(ss, ss', k, d);
    ShareDay(ss', ss, k, d);
    MinsOfPermutation(ss, ss', k, d);
    FoldTotal(ss);
    FoldTotal(ss');
    if k in Fold(ss).people && d in Fold(ss).people[k].days {
      FoldMins(ss, k, d);
      FoldMins(ss', k, d);
    }
  }

  lemma ShareKey(ss: seq<Session>, ss': seq<Session>, k: Key)
    requires multiset(ss) == multiset(ss')
    ensures (exists i :: 0 <= i < |ss| && ss[i].key == k) ==> exists i :: 0 <= i < |ss'| && ss'[i].key == k
  {
    if exists i :: 0 <= i < |ss| && ss[i].key == k {
      var i :| 0 <= i < |ss| && ss[i].key == k;
      assert ss[i] in multiset(ss');
    }
  }

  lemma ShareDay(ss: seq<Session>, ss': seq<Session>, k: Key, d: Date)
    requires multiset(ss) == multiset(ss')
    ensures (exists i :: 0 <= i < |ss| && Matches(ss[i], k, d)) ==> exists i :: 0 <= i < |ss'| && Matches(ss'[i], k, d)
  {
    if exists i :: 0 <= i < |ss| && Matches(ss[i], k, d) {
      var i :| 0 <= i < |ss| && Matches(ss[i], k, d);
      assert ss[i] in multiset(ss');
    }
  }

  /** The sessions of the data rows among `ps`. */
  function DataOf(ps: seq<Parsed>): seq<Session>
  {
    if ps == [] then [] else DataOf(ps[..|ps| - 1]) + if ps[|ps| - 1].Data? then [ps[|ps| - 1].session] else []
  }

  function ParsedRows(mapping: map<string, string>, parsers: Parsers, rows: seq<seq<string>>): (ps: seq<Parsed>)
    ensures |ps| == |rows|
  {
    if rows == [] then [] else ParsedRows(mapping, parsers, rows[..|rows| - 1]) + [ParseRow(mapping, parsers, rows[|rows| - 1])]
  }

  lemma {:induction false} DataOfMembers(ps: seq<Parsed>, s: Session)
    ensures s in DataOf(ps) <==> exists i :: 0 <= i < |ps| && ps[i] == Data(s)
  {
    if ps != [] {
      var init := ps[..|ps| - 1];
      DataOfMembers(init, s);
      assert forall i :: 0 <= i < |init| ==> init[i] == ps[i];
    }
  }

  lemma {:induction false} SessionsOfParsed(mapping: map<string, string>, parsers: Parsers, rows: seq<seq<string>>)
    ensures SessionsOf(mapping, parsers, rows) == DataOf(ParsedRows(mapping, parsers, rows))
  {
    if rows != [] {
      var init := rows[..|rows| - 1];
      SessionsOfParsed(mapping, parsers, init);
      var ps := ParsedRows(mapping, parsers, rows);
      assert ps[..|ps| - 1] == ParsedRows(mapping, parsers, init);
    }
  }

  lemma {:induction false} ParsedRowAt(mapping: map<string, string>, parsers: Parsers, rows: seq<seq<string>>, i: nat)
    requires i < |rows|
    ensures ParsedRows(mapping, parsers, rows)[i] == ParseRow(mapping, parsers, rows[i])
  {
    var init := rows[..|rows| - 1];
    if i < |init| {
      ParsedRowAt(mapping, parsers, init, i);
      assert init[i] == rows[i];
    }
  }

  /** The parsed data rows are exactly the sessions of the rows that parse
      as data. */
  lemma SessionsOfMembers(mapping: map<string, string>, parsers: Parsers, rows: seq<seq<string>>, s: Session)
    ensures s in SessionsOf(mapping, parsers, rows) <==>
      exists i :: 0 <= i < |rows| && ParseRow(mapping, parsers, rows[i]) == Data(s)
  {
    var ps := ParsedRows(mapping, parsers, rows);
    SessionsOfParsed(mapping, parsers, rows);
    DataOfMembers(ps, s);
    forall i | 0 <= i < |rows| ensures ps[i] == ParseRow(mapping, parsers, rows[i]) {
      ParsedRowAt(mapping, parsers, rows, i);
    }
  }

  /** Row `i` of `rows` is a data row whose address resolves to `k`. */
  ghost predicate KeyedRow(mapping: map<string, string>, parsers: Parsers, rows: seq<seq<string>>, i: int, k: Key)
  {
    0 <= i < |rows| && ParseRow(mapping, parsers, rows[i]).Data? && ResolveKey(mapping, rows[i][1]) == k
  }

  lemma DataRowKey(mapping: map<string, string>, parsers: Parsers, row: seq<string>, s: Session)
    requires ParseRow(mapping, parsers, row) == Data(s)
    ensures |row| >= 2 && s.key == ResolveKey(mapping, row[1])
  {
    ParseRowCases(mapping, parsers, row);
  }

  /** The keys among the folded sessions of the rows are the resolved
      addresses of the data rows. */
  lemma SessionKeys(mapping: map<string, string>, parsers: Parsers, rows: seq<seq<string>>, k: Key)
    ensures k in Fold(SessionsOf(mapping, parsers, rows)).people <==> exists i :: KeyedRow(mapping, parsers, rows, i, k)
  {
    var ss := SessionsOf(mapping, parsers, rows);
    FoldKeys(ss, k);
    if k in Fold(ss).people {
      var j :| 0 <= j < |ss| && ss[j].key == k;
      SessionsOfMembers(mapping, parsers, rows, ss[j]);
      var i :| 0 <= i < |rows| && ParseRow(mapping, parsers, rows[i]) == Data(ss[j]);
      DataRowKey(mapping, parsers, rows[i], ss[j]);
      assert KeyedRow(mapping, parsers, rows, i, k);
    }
    if exists i :: KeyedRow(mapping, parsers, rows, i, k) {
      var i :| KeyedRow(mapping, parsers, rows, i, k);
      var s := ParseRow(mapping, parsers, rows[i]).session;
      DataRowKey(mapping, parsers, rows[i], s);
      SessionsOfMembers(mapping, parsers, rows, s);
      var j :| 0 <= j < |ss| && ss[j] == s;
    }
  }

  /** Alias resolution is the only key transformation: after a successful
      run, the participant keys are exactly the resolved addresses
      (`emailMapping[lower(email)]`, or `lower(email)` when unmapped) of
      the data rows. */
  lemma AggregateKeys(mapping: map<string, string>, parsers: Parsers, rows: seq<seq<string>>, k: Key)
    requires Aggregate(mapping, parsers, rows).Success?
    ensures k in Aggregate(mapping, parsers, rows).value.people <==> exists i :: KeyedRow(mapping, parsers, rows, i, k)
  {
    AggregateIsFold(mapping, parsers, rows);
    SessionKeys(mapping, parsers, rows, k);
  }

  /** Two rows for the same key and day, of 10 and 15 minutes, fuse into
      one entry of 25 minutes that shows the first row's name and start. */
  lemma FusionExample(k: Key, d: Date, a: Entry, b: Entry)
    requires a.mins == 10 && b.mins == 15
    ensures Fold([Session(k, d, a), Session(k, d, b)]).people[k].days[d] == a.(mins := 25)
  {
    var ss := [Session(k, d, a), Session(k, d, b)];
    FoldEntry(ss, k, d, 0);
    assert ss[..1][..0] == [];
    assert MinsOf(ss, k, d) == MinsOf(ss[..1], k, d) + 15;
  }
}
