/** The chronological report `meeting-report.csv`: for every non-staff key
    in ascending order, that key's entries in ascending date order; and a
    warning for every non-staff key that attended on at most
    `warningThreshold` days. */
module Chronological {
  import opened Text
  import opened Sorting
  import opened Identity
  import opened Attendance
  import opened Tables

  /** The report line written for an entry: the entry itself. */
  function EntryCells(e: Entry): seq<Cell>
  {
    [Str(e.name), Str(e.email), Str(e.start), Num(e.mins)]
  }

  /** A low-attendance warning: the name and address it prints and the
      number of days attended. */
  datatype Warning = Warning(name: string, email: string, sessions: nat)

  /** The (key, date) of each line written for key `k`, visiting `ds`. */
  function DatePairs(k: Key, ds: seq<Date>): (ps: seq<(Key, Date)>)
  {
    seq(|ds|, j requires 0 <= j < |ds| => (k, ds[j]))
  }

  /** The (key, date) of each report line when the keys are visited in the
      order `ks`: the staff keys are skipped, the others contribute their
      dates in ascending order. */
  function ChronoIndex(r: Roster, ks: seq<Key>): seq<(Key, Date)>
    requires Valid(r) && KnownKeys(r, ks)
  {
    if ks == [] then []
    else
      var k := ks[|ks| - 1];
      ChronoIndex(r, ks[..|ks| - 1])
      + if StaffEmail(k) then [] else DatePairs(k, SortInts(r.people[k].dates))
  }

  /** `lines` are the entries named by `idx`, one line each. */
  predicate LinesAt(r: Roster, idx: seq<(Key, Date)>, lines: seq<seq<Cell>>)
  {
    && |lines| == |idx|
    && forall i :: 0 <= i < |idx| ==>
         && idx[i].0 in r.people && idx[i].1 in r.people[idx[i].0].days
         && lines[i] == EntryCells(r.people[idx[i].0].days[idx[i].1])
  }

  /** The warning for a participant: the name and address of the entry of
      its latest day (the loop variable `row` is left holding that entry
      after the date loop) and its number of days. */
  function WarningFor(p: Participant): (w: Warning)
    requires ValidParticipant(p)
    ensures exists d :: (d in p.days && w.name == p.days[d].name && w.email == p.days[d].email
      && forall d' :: d' in p.days ==> d' <= d)
    ensures w.sessions == |p.dates|
  {
    var ds := SortInts(p.dates);
    var d := ds[|ds| - 1];
    assert d in p.dates;
    forall d' | d' in p.days ensures d' <= d {
      assert d' in ds;
    }
    Warning(p.days[d].name, p.days[d].email, |p.dates|)
  }

  /** The warnings, in key order, when the keys are visited in the order `ks`. */
  function Warnings(r: Roster, ks: seq<Key>, threshold: int): seq<Warning>
    requires Valid(r) && KnownKeys(r, ks)
  {
    if ks == [] then []
    else
      var k := ks[|ks| - 1];
      Warnings(r, ks[..|ks| - 1], threshold)
      + if !StaffEmail(k) && |r.people[k].dates| <= threshold then [WarningFor(r.people[k])] else []
  }

  /** `out` holds the lines of participant `p`, in ascending date order. */
  ghost predicate KeyLines(p: Participant, out: seq<seq<Cell>>)
    requires ValidParticipant(p)
  {
    var ds := SortInts(p.dates);
    |out| == |ds| && forall j :: 0 <= j < |ds| ==> ds[j] in p.days && out[j] == EntryCells(p.days[ds[j]])
  }

  /** The lines of one participant, in ascending date order (the inner
      loop of lines 209-212), and the warning built from the entry left in
      `row` afterwards. */
  method ParticipantLines(p: Participant) returns (out: seq<seq<Cell>>, warning: Warning)
    requires ValidParticipant(p)
    ensures KeyLines(p, out)
    ensures warning == WarningFor(p)
  {
    var ds := SortInts(p.dates);
    var row := Entry("", "", "", 0);
    out := [];
    var j := 0;
    while j < |ds|
      invariant 0 <= j <= |ds|
      invariant |out| == j
      invariant forall m :: 0 <= m < j ==> ds[m] in p.days && out[m] == EntryCells(p.days[ds[m]])
      invariant j > 0 ==> ds[j - 1] in p.days && row == p.days[ds[j - 1]]
    {
      assert ds[j] in p.dates;
      row := p.days[ds[j]];
      out := out + [EntryCells(row)];
      j := j + 1;
    }
    warning := Warning(row.name, row.email, |p.dates|);
  }

  lemma LinesAtConcat(r: Roster, a: seq<(Key, Date)>, b: seq<(Key, Date)>, la: seq<seq<Cell>>, lb: seq<seq<Cell>>)
    requires LinesAt(r, a, la) && LinesAt(r, b, lb)
    ensures LinesAt(r, a + b, la + lb)
  {
    forall m | |a| <= m < |a + b|
      ensures (a + b)[m].0 in r.people && (a + b)[m].1 in r.people[(a + b)[m].0].days
      ensures (la + lb)[m] == EntryCells(r.people[(a + b)[m].0].days[(a + b)[m].1])
    {
      assert (a + b)[m] == b[m - |a|] && (la + lb)[m] == lb[m - |a|];
    }
  }

  lemma KeyLinesAt(r: Roster, k: Key, out: seq<seq<Cell>>)
    requires Valid(r) && k in r.people && KeyLines(r.people[k], out)
    ensures LinesAt(r, DatePairs(k, SortInts(r.people[k].dates)), out)
  {
  }

  /** One step of the key loop: the lines of key `ks[i]` extend the report. */
  lemma LinesStep(r: Roster, ks: seq<Key>, i: nat, lines: seq<seq<Cell>>, out: seq<seq<Cell>>)
    requires Valid(r) && KnownKeys(r, ks) && i < |ks| && !StaffEmail(ks[i])
    requires KnownKeys(r, ks[..i]) && LinesAt(r, ChronoIndex(r, ks[..i]), lines)
    requires KeyLines(r.people[ks[i]], out)
    ensures KnownKeys(r, ks[..i + 1]) && LinesAt(r, ChronoIndex(r, ks[..i + 1]), lines + out)
  {
    var k := ks[i];
    assert ks[..i + 1][..i] == ks[..i];
    KeyLinesAt(r, k, out);
    LinesAtConcat(r, ChronoIndex(r, ks[..i]), DatePairs(k, SortInts(r.people[k].dates)), lines, out);
  }

  /** One step of the key loop for a staff key: nothing is written. */
  lemma SkipStep(r: Roster, ks: seq<Key>, i: nat, threshold: int)
    requires Valid(r) && KnownKeys(r, ks) && i < |ks| && StaffEmail(ks[i])
    ensures KnownKeys(r, ks[..i]) && KnownKeys(r, ks[..i + 1])
    ensures ChronoIndex(r, ks[..i + 1]) == ChronoIndex(r, ks[..i])
    ensures Warnings(r, ks[..i + 1], threshold) == Warnings(r, ks[..i], threshold)
  {
    assert ks[..i + 1][..i] == ks[..i];
  }

  lemma WarningsStep(r: Roster, ks: seq<Key>, i: nat, threshold: int)
    requires Valid(r) && KnownKeys(r, ks) && i < |ks| && !StaffEmail(ks[i])
    ensures KnownKeys(r, ks[..i]) && KnownKeys(r, ks[..i + 1])
    ensures Warnings(r, ks[..i + 1], threshold) == Warnings(r, ks[..i], threshold)
      + if |r.people[ks[i]].dates| <= threshold then [WarningFor(r.people[ks[i]])] else []
  {
    assert ks[..i + 1][..i] == ks[..i];
  }

  /** Writes the chronological report and collects the warnings (lines
      203-216), visiting the keys in ascending order. */
  method ChronologicalReport(r: Roster, threshold: int) returns (lines: seq<seq<Cell>>, warnings: seq<Warning>)
    requires Valid(r)
    ensures LinesAt(r, ChronoIndex(r, SortedKeys(r)), lines)
    ensures warnings == Warnings(r, SortedKeys(r), threshold)
  {
    var ks := SortedKeys(r);
    lines, warnings := [], [];
    var i := 0;
    while i < |ks|
      invariant 0 <= i <= |ks|
      invariant LinesAt(r, ChronoIndex(r, ks[..i]), lines)
      invariant warnings == Warnings(r, ks[..i], threshold)
    {
      var email := ks[i];
      if StaffEmail(email) {
        SkipStep(r, ks, i, threshold);
        i := i + 1;
        continue;
      }
      var entry := r.people[email];
      var out, warning := ParticipantLines(entry);
      LinesStep(r, ks, i, lines, out);
      WarningsStep(r, ks, i, threshold);
      lines := lines + out;
      if |entry.dates| <= threshold {
        warnings := warnings + [warning];
      }
      i := i + 1;
    }
    assert ks[..i] == ks;
  }

  /** A report line exists for a (key, date) pair exactly when the key is
      not a staff address and attended on that date. */
  lemma {:induction false} ChronoIndexMembers(r: Roster, ks: seq<Key>, k: Key, d: Date)
    requires Valid(r) && KnownKeys(r, ks)
    ensures (k, d) in ChronoIndex(r, ks) <==> k in ks && !StaffEmail(k) && d in r.people[k].days
  {
    if ks != [] {
      var init, last := ks[..|ks| - 1], ks[|ks| - 1];
      ChronoIndexMembers(r, init, k, d);
      if k == last && !StaffEmail(k) {
        var ds := SortInts(r.people[k].dates);
        if d in r.people[k].days {
          assert d in ds;
          var j :| 0 <= j < |ds| && ds[j] == d;
          assert DatePairs(k, ds)[j] == (k, d);
        }
      }
      if k in ks && k !in init {
        assert k == last;
      }
    }
  }

  /** Lexicographic order on (key, date). */
  predicate PairLess(a: (Key, Date), b: (Key, Date))
  {
    StrLess(a.0, b.0) || (a.0 == b.0 && a.1 < b.1)
  }

  predicate PairsAscending(idx: seq<(Key, Date)>)
  {
    forall i, j :: 0 <= i < j < |idx| ==> PairLess(idx[i], idx[j])
  }

  lemma PairsAscendingConcat(a: seq<(Key, Date)>, b: seq<(Key, Date)>, k: Key)
    requires PairsAscending(a) && PairsAscending(b)
    requires forall i :: 0 <= i < |a| ==> StrLess(a[i].0, k)
    requires forall j :: 0 <= j < |b| ==> b[j].0 == k
    ensures PairsAscending(a + b)
  {
    forall i, j | 0 <= i < j < |a + b| ensures PairLess((a + b)[i], (a + b)[j]) {
      if j >= |a| && i < |a| {
        assert (a + b)[j] == b[j - |a|];
      } else if i >= |a| {
        assert (a + b)[i] == b[i - |a|] && (a + b)[j] == b[j - |a|];
      }
    }
  }

  /** The report lines are in strictly ascending (key, date) order, so no
      (key, date) pair is written twice. */
  lemma {:induction false} ChronoIndexOrdered(r: Roster, ks: seq<Key>)
    requires Valid(r) && KnownKeys(r, ks) && KeysAscending(ks)
    ensures PairsAscending(ChronoIndex(r, ks))
  {
    if ks != [] {
      var init, k := ks[..|ks| - 1], ks[|ks| - 1];
      assert KeysAscending(init);
      ChronoIndexOrdered(r, init);
      var a := ChronoIndex(r, init);
      var b := if StaffEmail(k) then [] else DatePairs(k, SortInts(r.people[k].dates));
      assert ChronoIndex(r, ks) == a + b;
      forall i | 0 <= i < |a| ensures StrLess(a[i].0, k) {
        ChronoIndexMembers(r, init, a[i].0, a[i].1);
        assert a[i] in a;
        var m :| 0 <= m < |init| && init[m] == a[i].0;
        assert ks[m] == a[i].0;
      }
      PairsAscendingConcat(a, b, k);
    }
  }

  /** Key `k` draws the warning `w`: it is not a staff address, it
      attended on at most `threshold` days, and `w` is its warning. */
  ghost predicate Warns(r: Roster, k: Key, threshold: int, w: Warning)
    requires Valid(r) && k in r.people
  {
    !StaffEmail(k) && |r.people[k].dates| <= threshold && w == WarningFor(r.people[k])
  }

  /** A warning is issued for a key exactly when it is not a staff address
      and attended on at most `threshold` days. */
  lemma {:induction false} WarningsMembers(r: Roster, ks: seq<Key>, threshold: int, w: Warning)
    requires Valid(r) && KnownKeys(r, ks)
    ensures w in Warnings(r, ks, threshold) <==> exists k :: k in ks && Warns(r, k, threshold, w)
  {
    if ks != [] {
      var init, last := ks[..|ks| - 1], ks[|ks| - 1];
      WarningsMembers(r, init, threshold, w);
      assert Warnings(r, ks, threshold) == Warnings(r, init, threshold)
        + if Warns(r, last, threshold, WarningFor(r.people[last])) then [WarningFor(r.people[last])] else [];
      if exists k :: k in ks && Warns(r, k, threshold, w) {
        var k :| k in ks && Warns(r, k, threshold, w);
        if k != last {
          assert k in init;
        }
      }
    }
  }
}
