/** What the three reports share: the cells of an output CSV row, the
    order in which they visit participant keys, and the keys they list. */
module Tables {
  import opened Text
  import opened Sorting
  import opened Identity
  import opened Attendance

  /** A cell of an output row: a string, a number of minutes, or a date
      (a column header of a pivot table). */
  datatype Cell = Str(s: string) | Num(n: int) | Stamp(d: Date)

  /** The empty cell a pivot table writes where a participant has nothing. */
  const Blank: Cell := Str("")

  /** `sorted(emails)`: the participant keys in ascending order. */
  function SortedKeys(r: Roster): (ks: seq<Key>)
    requires Valid(r)
    ensures KeysAscending(ks) && |ks| == |r.keys|
    ensures forall k :: k in ks <==> k in r.people
  {
    SortKeys(r.keys)
  }

  /** Every key of `ks` is a key of the dictionary. */
  predicate KnownKeys(r: Roster, ks: seq<Key>)
  {
    forall k :: k in ks ==> k in r.people
  }

  /** The keys of `ks` a report lists: every report skips staff
      addresses (`outputStudentAttendanceOnly` is always on). */
  function Included(ks: seq<Key>): seq<Key>
  {
    if ks == [] then [] else Included(ks[..|ks| - 1]) + if StaffEmail(ks[|ks| - 1]) then [] else [ks[|ks| - 1]]
  }

  /** The staff filter keeps exactly the non-staff keys, and keeps them in
      ascending order. */
  lemma {:induction false} IncludedMembers(ks: seq<Key>)
    ensures forall k :: k in Included(ks) <==> k in ks && !StaffEmail(k)
    ensures KeysAscending(ks) ==> KeysAscending(Included(ks))
  {
    if ks != [] {
      var init, k := ks[..|ks| - 1], ks[|ks| - 1];
      IncludedMembers(init);
      var rest := Included(init);
      assert forall x :: x in ks <==> x in init || x == k;
      if KeysAscending(ks) {
        assert KeysAscending(init);
        forall x | x in rest ensures StrLess(x, k) {
          var i :| 0 <= i < |init| && init[i] == x;
          assert ks[i] == x;
        }
      }
    }
  }

  lemma IncludedStep(ks: seq<Key>, i: nat)
    requires i < |ks|
    ensures Included(ks[..i + 1]) == Included(ks[..i]) + if StaffEmail(ks[i]) then [] else [ks[i]]
  {
    assert ks[..i + 1][..i] == ks[..i];
  }

  /** `studentRecord.values()`: a participant's entries in insertion
      order. */
  function Entries(p: Participant): (es: seq<Entry>)
    requires ValidParticipant(p)
    ensures |es| == |p.dates|
    ensures forall i :: 0 <= i < |p.dates| ==> p.dates[i] in p.days && es[i] == p.days[p.dates[i]]
  {
    forall i | 0 <= i < |p.dates| ensures p.dates[i] in p.days {
      var d := p.dates[i];
      assert d in p.dates;
    }
    seq(|p.dates|, i requires 0 <= i < |p.dates| && p.dates[i] in p.days => p.days[p.dates[i]])
  }

  /** `next(iter(studentRecord.values()))`: the entry of the day that was
      inserted first, which need not be the earliest day. */
  function FirstEntry(p: Participant): Entry
    requires ValidParticipant(p)
  {
    var d := p.dates[0];
    assert d in p.dates;
    assert d in p.days;
    p.days[d]
  }

  /** The header row of both pivot tables: `Name`, `Email`, then one
      column heading per date in `stamps`. */
  method PivotHeader(stamps: seq<Date>) returns (header: seq<Cell>)
    ensures |header| == 2 + |stamps|
    ensures header[0] == Str("Name") && header[1] == Str("Email")
    ensures forall j :: 0 <= j < |stamps| ==> header[2 + j] == Stamp(stamps[j])
  {
    header := [Str("Name"), Str("Email")];
    var j := 0;
    while j < |stamps|
      invariant 0 <= j <= |stamps|
      invariant |header| == 2 + j
      invariant header[0] == Str("Name") && header[1] == Str("Email")
      invariant forall m :: 0 <= m < j ==> header[2 + m] == Stamp(stamps[m])
    {
      header := header + [Stamp(stamps[j])];
      j := j + 1;
    }
  }

  /** The minutes shown in a row of cells: numbers count, strings and
      dates do not. */
  function CellMinutes(cells: seq<Cell>): int
  {
    if cells == [] then 0
    else CellMinutes(cells[..|cells| - 1]) + match cells[|cells| - 1] case Num(n) => n case _ => 0
  }
}
