/** The advisory matcher of lines 176-192: for each key that is neither a
    staff nor a student address, a note naming it, then a suggested
    mapping to every student key one of whose entries has a name
    containing the unmatched participant's surname (the last
    space-separated token of its first-inserted name). */
module Suggestions {
  import opened Wrappers
  import opened Text
  import opened Identity
  import opened Attendance
  import opened Tables

  /** What the matcher prints: a note about an unmatched participant, or a
      suggestion to map its address `fromEmail` to the student entry
      (`toName`, `toEmail`). */
  datatype Advice =
    | Unmatched(name: string, email: string)
    | Suggest(fromEmail: string, toName: string, toEmail: string)

  /** The first of the entries `es` whose name contains `surname`. */
  function FirstMatch(es: seq<Entry>, surname: string): (m: Option<Entry>)
    ensures m.None? <==> forall i :: 0 <= i < |es| ==> !Contains(es[i].name, surname)
    ensures m.Some? ==> Contains(m.value.name, surname)
    ensures m.Some? ==> exists i :: 0 <= i < |es| && m.value == es[i] && forall j :: 0 <= j < i ==> !Contains(es[j].name, surname)
  {
    if es == [] then None
    else if Contains(es[0].name, surname) then Some(es[0])
    else
      var rest := FirstMatch(es[1..], surname);
      assert forall i :: 0 < i < |es| ==> es[i] == es[1..][i - 1];
      assert rest.Some? ==> exists i :: 0 <= i < |es| && rest.value == es[i] && forall j :: 0 <= j < i ==> !Contains(es[j].name, surname) by {
        if rest.Some? {
          var i :| 0 <= i < |es[1..]| && rest.value == es[1..][i] && forall j :: 0 <= j < i ==> !Contains(es[1..][j].name, surname);
          assert rest.value == es[i + 1];
        }
      }
      rest
  }

  /** The date loop of lines 186-192: the first entry of `p`, in insertion
      order, whose name contains `surname` (the loop stops there). */
  method FindMatch(p: Participant, surname: string) returns (found: Option<Entry>)
    requires ValidParticipant(p)
    ensures found == FirstMatch(Entries(p), surname)
  {
    ghost var es := Entries(p);
    found := None;
    var j := 0;
    while j < |p.dates|
      invariant 0 <= j <= |p.dates|
      invariant FirstMatch(es, surname) == FirstMatch(es[j..], surname)
    {
      var thisEntry := p.days[p.dates[j]];
      assert es[j..][0] == thisEntry;
      if Contains(thisEntry.name, surname) {
        found := Some(thisEntry);
        break;
      }
      assert es[j..][1..] == es[j + 1..];
      j := j + 1;
    }
  }

  /** The suggestions for one unmatched participant with address
      `fromEmail` and surname `surname`, visiting the candidate keys in the
      order `ks`: one per student key that has a matching entry. */
  function SuggestionsFor(r: Roster, ks: seq<Key>, surname: string, fromEmail: string): seq<Advice>
    requires Valid(r) && KnownKeys(r, ks)
  {
    if ks == [] then []
    else
      var k := ks[|ks| - 1];
      var m := FirstMatch(Entries(r.people[k]), surname);
      SuggestionsFor(r, ks[..|ks| - 1], surname, fromEmail)
      + if UniversityStudentEmail(k) && m.Some? then [Suggest(fromEmail, m.value.name, m.value.email)] else []
  }

  /** `k` is neither a staff nor a student address. */
  predicate Unmatchable(k: Key)
  {
    !StaffEmail(k) && !UniversityStudentEmail(k)
  }

  /** Everything printed for the keys `ks`, candidates drawn from `all`. */
  function AllAdvice(r: Roster, ks: seq<Key>, all: seq<Key>): seq<Advice>
    requires Valid(r) && KnownKeys(r, ks) && KnownKeys(r, all)
  {
    if ks == [] then []
    else
      var k := ks[|ks| - 1];
      AllAdvice(r, ks[..|ks| - 1], all) + KeyAdvice(r, k, all)
  }

  /** The middle loop of lines 184-192 over the student keys. */
  method SurnameSuggestions(r: Roster, ks: seq<Key>, surname: string, fromEmail: string) returns (out: seq<Advice>)
    requires Valid(r) && KnownKeys(r, ks)
    ensures out == SuggestionsFor(r, ks, surname, fromEmail)
  {
    out := [];
    var i := 0;
    while i < |ks|
      invariant 0 <= i <= |ks|
      invariant out == SuggestionsFor(r, ks[..i], surname, fromEmail)
    {
      var email2 := ks[i];
      assert ks[..i + 1][..i] == ks[..i];
      if UniversityStudentEmail(email2) {
        var found := FindMatch(r.people[email2], surname);
        if found.Some? {
          out := out + [Suggest(fromEmail, found.value.name, found.value.email)];
        }
      }
      i := i + 1;
    }
    assert ks[..i] == ks;
  }

  /** What the matcher prints for key `k`, candidates drawn from `all`. */
  function KeyAdvice(r: Roster, k: Key, all: seq<Key>): seq<Advice>
    requires Valid(r) && k in r.people && KnownKeys(r, all)
  {
    if Unmatchable(k) then
      var first := FirstEntry(r.people[k]);
      [Unmatched(first.name, first.email)] + SuggestionsFor(r, all, LastToken(first.name), first.email)
    else []
  }

  lemma AdviceStep(r: Roster, ks: seq<Key>, i: nat)
    requires Valid(r) && KnownKeys(r, ks) && i < |ks|
    ensures KnownKeys(r, ks[..i]) && KnownKeys(r, ks[..i + 1])
    ensures AllAdvice(r, ks[..i + 1], ks) == AllAdvice(r, ks[..i], ks) + KeyAdvice(r, ks[i], ks)
  {
    assert ks[..i + 1][..i] == ks[..i];
  }

  /** The body of the outer loop of lines 176-192 for key `email`. */
  method AdviseKey(r: Roster, email: Key, ks: seq<Key>) returns (out: seq<Advice>)
    requires Valid(r) && email in r.people && KnownKeys(r, ks)
    ensures out == KeyAdvice(r, email, ks)
  {
    out := [];
    if !StaffEmail(email) && !UniversityStudentEmail(email) {
      var firstEntry := FirstEntry(r.people[email]);
      var possibleSurname := LastToken(firstEntry.name);
      var more := SurnameSuggestions(r, ks, possibleSurname, firstEntry.email);
      out := [Unmatched(firstEntry.name, firstEntry.email)] + more;
    }
  }

  /** The whole matcher (lines 176-192), visiting the keys in ascending
      order both outside and inside. */
  method SuggestMatches(r: Roster) returns (advice: seq<Advice>)
    requires Valid(r)
    ensures advice == AllAdvice(r, SortedKeys(r), SortedKeys(r))
  {
    var ks := SortedKeys(r);
    advice := [];
    var i := 0;
    while i < |ks|
      invariant 0 <= i <= |ks|
      invariant KnownKeys(r, ks[..i])
      invariant advice == AllAdvice(r, ks[..i], ks)
    {
      AdviceStep(r, ks, i);
      var out := AdviseKey(r, ks[i], ks);
      advice := advice + out;
      i := i + 1;
    }
    assert ks[..i] == ks;
  }

  /** Student key `k` gets the suggestion `a`: its first entry whose name
      contains the surname. */
  ghost predicate Suggests(r: Roster, k: Key, surname: string, fromEmail: string, a: Advice)
    requires Valid(r) && k in r.people
  {
    var m := FirstMatch(Entries(r.people[k]), surname);
    UniversityStudentEmail(k) && m.Some? && a == Suggest(fromEmail, m.value.name, m.value.email)
  }

  /** A suggestion is made exactly for the student keys that have an entry
      whose name contains the surname, and it names the first such entry. */
  lemma {:induction false} SuggestionsForMembers(r: Roster, ks: seq<Key>, surname: string, fromEmail: string, a: Advice)
    requires Valid(r) && KnownKeys(r, ks)
    ensures a in SuggestionsFor(r, ks, surname, fromEmail) <==>
      exists k :: k in ks && Suggests(r, k, surname, fromEmail, a)
  {
    if ks != [] {
      var init, last := ks[..|ks| - 1], ks[|ks| - 1];
      SuggestionsForMembers(r, init, surname, fromEmail, a);
      if exists k :: k in ks && Suggests(r, k, surname, fromEmail, a) {
        var k :| k in ks && Suggests(r, k, surname, fromEmail, a);
        if k != last {
          assert k in init;
        }
      }
    }
  }

  /** A matching entry of a participant is one of its days' entries. */
  lemma FirstMatchIsEntry(p: Participant, surname: string) returns (d: Date)
    requires ValidParticipant(p) && FirstMatch(Entries(p), surname).Some?
    ensures d in p.days && p.days[d] == FirstMatch(Entries(p), surname).value
  {
    var es := Entries(p);
    var i :| 0 <= i < |es| && FirstMatch(es, surname).value == es[i];
    d := p.dates[i];
  }

  /** Every suggestion points at an entry of a student key whose name
      contains the surname. */
  lemma SuggestionsContainSurname(r: Roster, ks: seq<Key>, surname: string, fromEmail: string, a: Advice)
    requires Valid(r) && KnownKeys(r, ks) && a in SuggestionsFor(r, ks, surname, fromEmail)
    ensures a.Suggest? && a.fromEmail == fromEmail && Contains(a.toName, surname)
    ensures exists k, d :: (k in ks && UniversityStudentEmail(k) && d in r.people[k].days
      && a.toName == r.people[k].days[d].name && a.toEmail == r.people[k].days[d].email)
  {
    SuggestionsForMembers(r, ks, surname, fromEmail, a);
    var k :| k in ks && Suggests(r, k, surname, fromEmail, a);
    var d := FirstMatchIsEntry(r.people[k], surname);
  }

  /** Key `k` is unmatched and its first-inserted entry is (`name`,
      `email`). */
  ghost predicate Notes(r: Roster, k: Key, name: string, email: string)
    requires Valid(r) && k in r.people
  {
    Unmatchable(k) && FirstEntry(r.people[k]).name == name && FirstEntry(r.people[k]).email == email
  }

  /** Suggestions are never notes. */
  lemma {:induction false} SuggestionsAreNotNotes(r: Roster, ks: seq<Key>, surname: string, fromEmail: string, name: string, email: string)
    requires Valid(r) && KnownKeys(r, ks)
    ensures Unmatched(name, email) !in SuggestionsFor(r, ks, surname, fromEmail)
  {
    if ks != [] {
      SuggestionsAreNotNotes(r, ks[..|ks| - 1], surname, fromEmail, name, email);
    }
  }

  /** The only note among one key's advice is that key's own. */
  lemma KeyAdviceNotes(r: Roster, k: Key, all: seq<Key>, name: string, email: string)
    requires Valid(r) && k in r.people && KnownKeys(r, all)
    ensures Unmatched(name, email) in KeyAdvice(r, k, all) <==> Notes(r, k, name, email)
  {
    if Unmatchable(k) {
      var first := FirstEntry(r.people[k]);
      SuggestionsAreNotNotes(r, all, LastToken(first.name), first.email, name, email);
    }
  }

  /** The notes among the advice for `ks` are those for all keys but the
      last, and the last key's own note. */
  lemma NotesStep(r: Roster, ks: seq<Key>, all: seq<Key>, name: string, email: string)
    requires Valid(r) && KnownKeys(r, ks) && KnownKeys(r, all) && ks != []
    ensures KnownKeys(r, ks[..|ks| - 1])
    ensures Unmatched(name, email) in AllAdvice(r, ks, all) <==>
      Unmatched(name, email) in AllAdvice(r, ks[..|ks| - 1], all) || Notes(r, ks[|ks| - 1], name, email)
  {
    var init, last := ks[..|ks| - 1], ks[|ks| - 1];
    assert AllAdvice(r, ks, all) == AllAdvice(r, init, all) + KeyAdvice(r, last, all);
    KeyAdviceNotes(r, last, all, name, email);
  }

  /** A note is printed exactly for the keys that are neither staff nor
      student addresses, naming the first-inserted entry of each. */
  lemma {:induction false} UnmatchedMembers(r: Roster, ks: seq<Key>, all: seq<Key>, name: string, email: string)
    requires Valid(r) && KnownKeys(r, ks) && KnownKeys(r, all)
    ensures Unmatched(name, email) in AllAdvice(r, ks, all) <==> exists k :: k in ks && Notes(r, k, name, email)
  {
    if ks != [] {
      var init, last := ks[..|ks| - 1], ks[|ks| - 1];
      NotesStep(r, ks, all, name, email);
      UnmatchedMembers(r, init, all, name, email);
      if exists k :: k in ks && Notes(r, k, name, email) {
        var k :| k in ks && Notes(r, k, name, email);
        if k != last {
          assert k in init;
        }
      }
      if exists k :: k in init && Notes(r, k, name, email) {
        var k :| k in init && Notes(r, k, name, email);
        assert k in ks;
      }
    }
  }

  /** When the name of an unmatched participant's first-inserted entry is
      empty or ends in a space, its surname is empty, which every name
      contains: each student key is then suggested with its first-inserted
      entry. */
  lemma EmptySurnameMatchesEveryStudent(r: Roster, ks: seq<Key>, fromEmail: string, k: Key)
    requires Valid(r) && KnownKeys(r, ks) && k in ks && UniversityStudentEmail(k)
    ensures var e := FirstEntry(r.people[k]);
      Suggest(fromEmail, e.name, e.email) in SuggestionsFor(r, ks, "", fromEmail)
  {
    var es := Entries(r.people[k]);
    assert IsPrefix("", es[0].name[0..]);
    assert FirstMatch(es, "") == Some(es[0]);
    SuggestionsForMembers(r, ks, "", fromEmail, Suggest(fromEmail, es[0].name, es[0].email));
  }
}
