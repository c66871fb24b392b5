/** The aggregated attendance data: for every participant key, the entries
    of the days they attended, in the order in which those days were first
    seen (Python dictionaries keep insertion order, and the reports depend
    on it). */
module Attendance {
  import opened Sorting

  /** The key a participant's rows are grouped under (a resolved address). */
  type Key = string

  /** A calendar date, as a day number: later days are larger. */
  type Date = int

  /** One day's aggregated attendance, `[name, email, start, mins]`: the
      name, address and start time of the first row seen for that key and
      day, and the minutes of all its rows. */
  datatype Entry = Entry(name: string, email: string, start: string, mins: int)

  /** A participant's dictionary from day to entry; `dates` lists its keys
      in insertion order. */
  datatype Participant = Participant(dates: seq<Date>, days: map<Date, Entry>)

  /** The dictionary from key to participant; `keys` lists its keys in
      insertion order. */
  datatype Roster = Roster(keys: seq<Key>, people: map<Key, Participant>)

  /** A parsed data row: the key it resolved to, its day and the entry it
      would create. */
  datatype Session = Session(key: Key, date: Date, entry: Entry)

  /** A participant always has at least one day (its dictionary is created
      together with its first entry), and `dates` enumerates the days once. */
  ghost predicate ValidParticipant(p: Participant)
  {
    && |p.dates| > 0
    && Distinct(p.dates)
    && (forall d :: d in p.days <==> d in p.dates)
  }

  ghost predicate Valid(r: Roster)
  {
    && Distinct(r.keys)
    && (forall k :: k in r.people <==> k in r.keys)
    && (forall k :: k in r.people ==> ValidParticipant(r.people[k]))
  }

  /** The dictionary a directory run starts from. */
  function EmptyRoster(): (r: Roster)
    ensures Valid(r) && r.people == map[] && r.keys == []
  {
    Roster([], map[])
  }

  /** Folds one data row into the dictionary (the body of the loop over
      rows): a participant is created for a new key; an existing day of
      that participant gets the row's minutes added and keeps its first
      name, address and start; a new day gets the row's entry. */
  function AddSession(r: Roster, s: Session): Roster
  {
    var r1 := if s.key in r.people then r
              else Roster(r.keys + [s.key], r.people[s.key := Participant([], map[])]);
    var p := r1.people[s.key];
    var p' := if s.date in p.days
              then Participant(p.dates, p.days[s.date := p.days[s.date].(mins := p.days[s.date].mins + s.entry.mins)])
              else Participant(p.dates + [s.date], p.days[s.date := s.entry]);
    Roster(r1.keys, r1.people[s.key := p'])
  }

  /** Folding a row keeps the dictionary well formed, and appends the key
      to the key order exactly when it is new. */
  lemma AddSessionValid(r: Roster, s: Session)
    requires Valid(r)
    ensures Valid(AddSession(r, s))
    ensures AddSession(r, s).keys == if s.key in r.people then r.keys else r.keys + [s.key]
  {
  }

  /** Folding a row leaves every other participant as it was. */
  lemma AddSessionOthers(r: Roster, s: Session, k: Key)
    requires k != s.key
    ensures k in AddSession(r, s).people <==> k in r.people
    ensures k in r.people ==> AddSession(r, s).people[k] == r.people[k]
  {
  }

  /** Fusion: a row for a key and day already present changes only that
      entry's minutes, by exactly the row's minutes; its name, address and
      start, the participant's day order and every other day stay. */
  lemma AddSessionFuses(r: Roster, s: Session)
    requires s.key in r.people && s.date in r.people[s.key].days
    ensures s.key in AddSession(r, s).people
    ensures
      var before := r.people[s.key];
      var after := AddSession(r, s).people[s.key];
      && after.dates == before.dates
      && after.days.Keys == before.days.Keys
      && after.days[s.date] == before.days[s.date].(mins := before.days[s.date].mins + s.entry.mins)
      && forall d :: d in before.days && d != s.date ==> after.days[d] == before.days[d]
  {
  }

  /** A row for a new key or day creates exactly that entry, equal to the
      row's, at the end of the participant's day order; nothing else of
      the participant changes. */
  lemma AddSessionCreates(r: Roster, s: Session)
    requires !(s.key in r.people && s.date in r.people[s.key].days)
    ensures s.key in AddSession(r, s).people
    ensures
      var before := if s.key in r.people then r.people[s.key] else Participant([], map[]);
      var after := AddSession(r, s).people[s.key];
      && after.dates == before.dates + [s.date]
      && after.days == before.days[s.date := s.entry]
  {
  }

  // ---- total minutes ----

  predicate Covers(ds: seq<Date>, days: map<Date, Entry>)
  {
    forall d :: d in ds ==> d in days
  }

  /** The minutes of the days `ds`. */
  function DaySum(ds: seq<Date>, days: map<Date, Entry>): int
    requires Covers(ds, days)
  {
    if ds == [] then 0
    else
      var d := ds[|ds| - 1];
      assert d in ds;
      DaySum(ds[..|ds| - 1], days) + days[d].mins
  }

  /** All the minutes a participant attended. */
  function Minutes(p: Participant): int
    requires Covers(p.dates, p.days)
  {
    DaySum(p.dates, p.days)
  }

  predicate AllCover(ks: seq<Key>, people: map<Key, Participant>)
  {
    forall k :: k in ks ==> k in people && Covers(people[k].dates, people[k].days)
  }

  /** The minutes of the participants `ks`. */
  function KeySum(ks: seq<Key>, people: map<Key, Participant>): int
    requires AllCover(ks, people)
  {
    if ks == [] then 0
    else
      var k := ks[|ks| - 1];
      assert k in ks;
      KeySum(ks[..|ks| - 1], people) + Minutes(people[k])
  }

  /** All the minutes in the dictionary. */
  function TotalMinutes(r: Roster): int
    requires Valid(r)
  {
    KeySum(r.keys, r.people)
  }

  lemma {:induction false} DaySumFrame(ds: seq<Date>, a: map<Date, Entry>, b: map<Date, Entry>)
    requires Covers(ds, a) && Covers(ds, b)
    requires forall d :: d in ds ==> a[d].mins == b[d].mins
    ensures DaySum(ds, a) == DaySum(ds, b)
  {
    if ds != [] {
      assert ds[|ds| - 1] in ds;
      DaySumFrame(ds[..|ds| - 1], a, b);
    }
  }

  /** Replacing the entry of one listed day changes the sum by the change
      of that day's minutes. */
  lemma {:induction false} DaySumReplace(ds: seq<Date>, days: map<Date, Entry>, d: Date, e: Entry)
    requires Covers(ds, days) && Distinct(ds) && d in ds
    ensures Covers(ds, days[d := e])
    ensures DaySum(ds, days[d := e]) == DaySum(ds, days) - days[d].mins + e.mins
  {
    var init := ds[..|ds| - 1];
    assert forall x :: x in init ==> x in ds;
    if ds[|ds| - 1] == d {
      assert d !in init;
      DaySumFrame(init, days, days[d := e]);
    } else {
      assert d in init;
      DaySumReplace(init, days, d, e);
    }
  }

  /** Adding a new day at the end adds its minutes. */
  lemma DaySumAppend(ds: seq<Date>, days: map<Date, Entry>, d: Date, e: Entry)
    requires Covers(ds, days) && d !in ds
    ensures Covers(ds + [d], days[d := e])
    ensures DaySum(ds + [d], days[d := e]) == DaySum(ds, days) + e.mins
  {
    assert (ds + [d])[..|ds|] == ds;
    DaySumFrame(ds, days, days[d := e]);
  }

  lemma {:induction false} KeySumFrame(ks: seq<Key>, a: map<Key, Participant>, b: map<Key, Participant>)
    requires AllCover(ks, a) && AllCover(ks, b)
    requires forall k :: k in ks ==> Minutes(a[k]) == Minutes(b[k])
    ensures KeySum(ks, a) == KeySum(ks, b)
  {
    if ks != [] {
      assert ks[|ks| - 1] in ks;
      KeySumFrame(ks[..|ks| - 1], a, b);
    }
  }

  lemma {:induction false} KeySumReplace(ks: seq<Key>, people: map<Key, Participant>, k: Key, p: Participant)
    requires AllCover(ks, people) && Distinct(ks) && k in ks && Covers(p.dates, p.days)
    ensures AllCover(ks, people[k := p])
    ensures KeySum(ks, people[k := p]) == KeySum(ks, people) - Minutes(people[k]) + Minutes(p)
  {
    var init := ks[..|ks| - 1];
    assert forall x :: x in init ==> x in ks;
    if ks[|ks| - 1] == k {
      assert k !in init;
      KeySumFrame(init, people, people[k := p]);
    } else {
      assert k in init;
      KeySumReplace(init, people, k, p);
    }
  }

  lemma KeySumAppend(ks: seq<Key>, people: map<Key, Participant>, k: Key, p: Participant)
    requires AllCover(ks, people) && k !in ks && Covers(p.dates, p.days)
    ensures AllCover(ks + [k], people[k := p])
    ensures KeySum(ks + [k], people[k := p]) == KeySum(ks, people) + Minutes(p)
  {
    assert (ks + [k])[..|ks|] == ks;
    KeySumFrame(ks, people, people[k := p]);
  }

  lemma TotalKnownKey(r: Roster, s: Session)
    requires Valid(r) && s.key in r.people
    ensures Valid(AddSession(r, s))
    ensures TotalMinutes(AddSession(r, s)) == TotalMinutes(r) + s.entry.mins
  {
    var r' := AddSession(r, s);
    AddSessionValid(r, s);
    var before := r.people[s.key];
    var after := r'.people[s.key];
    if s.date in before.days {
      AddSessionFuses(r, s);
      DaySumReplace(before.dates, before.days, s.date, after.days[s.date]);
    } else {
      AddSessionCreates(r, s);
      DaySumAppend(before.dates, before.days, s.date, s.entry);
    }
    assert r'.people == r.people[s.key := after];
    KeySumReplace(r.keys, r.people, s.key, after);
  }

  lemma TotalNewKey(r: Roster, s: Session)
    requires Valid(r) && s.key !in r.people
    ensures Valid(AddSession(r, s))
    ensures TotalMinutes(AddSession(r, s)) == TotalMinutes(r) + s.entry.mins
  {
    var r' := AddSession(r, s);
    AddSessionValid(r, s);
    AddSessionCreates(r, s);
    var after := r'.people[s.key];
    assert Minutes(after) == s.entry.mins by {
      assert after.dates == [s.date] && after.days[s.date] == s.entry;
      assert after.dates[..0] == [];
      assert DaySum(after.dates, after.days) == DaySum([], after.days) + s.entry.mins;
    }
    assert r'.people == r.people[s.key := after];
    KeySumAppend(r.keys, r.people, s.key, after);
  }

  /** Folding a row adds exactly its minutes to the dictionary's total. */
  lemma AddSessionTotal(r: Roster, s: Session)
    requires Valid(r)
    ensures TotalMinutes(AddSession(r, s)) == TotalMinutes(r) + s.entry.mins
  {
    AddSessionValid(r, s);
    if s.key in r.people {
      TotalKnownKey(r, s);
    } else {
      TotalNewKey(r, s);
    }
  }
}
