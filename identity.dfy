/** Identity classification and alias resolution: which addresses are
    staff (and so left out of every report), which are official student
    addresses, and which key a raw address is filed under. */
module Identity {
  import opened Text

  /** Domain fragments that mark a staff or demonstrator address. */
  const StaffDomains: seq<string> :=
    ["@glasgow.ac.uk", "@research.glasgow.ac.uk", "@gla.ac.uk", "@research.gla.ac.uk"]

  /** Manually curated demonstrator addresses (empty as shipped). */
  const KnownDemonstratorEmails: seq<string> := []

  /** Fragment that marks an official student address. */
  const StudentDomain: string := "@student.gla.ac.uk"

  /** StaffEmail: one of the staff fragments occurs in the address, or the
      address is a known demonstrator. */
  predicate StaffEmail(email: string)
  {
    (exists i :: 0 <= i < |StaffDomains| && Contains(email, StaffDomains[i])) || email in KnownDemonstratorEmails
  }

  /** UniversityStudentEmail: the student fragment occurs in the address. */
  predicate UniversityStudentEmail(email: string)
  {
    Contains(email, StudentDomain)
  }

  /** StaffEmail is the chain of four substring tests the script writes
      out (the demonstrator list being empty). */
  lemma StaffEmailAsWritten(email: string)
    ensures StaffEmail(email) <==>
      || Contains(email, "@glasgow.ac.uk")
      || Contains(email, "@research.glasgow.ac.uk")
      || Contains(email, "@gla.ac.uk")
      || Contains(email, "@research.gla.ac.uk")
  {
    if StaffEmail(email) {
      var i :| 0 <= i < |StaffDomains| && Contains(email, StaffDomains[i]);
      assert i == 0 || i == 1 || i == 2 || i == 3;
    }
    if Contains(email, "@glasgow.ac.uk") { assert Contains(email, StaffDomains[0]); }
    if Contains(email, "@research.glasgow.ac.uk") { assert Contains(email, StaffDomains[1]); }
    if Contains(email, "@gla.ac.uk") { assert Contains(email, StaffDomains[2]); }
    if Contains(email, "@research.gla.ac.uk") { assert Contains(email, StaffDomains[3]); }
  }

  /** A demonstrator address at a staff domain is staff and not a student. */
  lemma ClassificationExamples()
    ensures StaffEmail("demo@glasgow.ac.uk")
    ensures !UniversityStudentEmail("demo@glasgow.ac.uk")
  {
    assert IsPrefix(StaffDomains[0], "demo@glasgow.ac.uk"[4..]);
    NotContainsByMissingChar("demo@glasgow.ac.uk", StudentDomain, 't');
  }

  /** Every address whose domain part is a staff fragment is staff. */
  lemma StaffDomainIsStaff(local: string, i: nat)
    requires i < |StaffDomains|
    ensures StaffEmail(local + StaffDomains[i])
  {
    var e := local + StaffDomains[i];
    assert IsPrefix(StaffDomains[i], e[|local|..]);
  }

  /** Every student address (one '@', followed by the student domain) is a
      student's and, although it ends in the staff domain "gla.ac.uk", is
      not staff: no staff fragment occurs in it. */
  lemma StudentAddressIsNotStaff(local: string)
    requires '@' !in local
    ensures UniversityStudentEmail(local + StudentDomain)
    ensures !StaffEmail(local + StudentDomain)
  {
    var e := local + StudentDomain;
    var p := |local|;
    assert e[p..] == StudentDomain;
    assert IsPrefix(StudentDomain, e[p..]);
    assert forall i :: 0 <= i < |e| && e[i] == '@' ==> i == p;
    assert StudentDomain[1] == 's';
    NotContainsByAnchor(e, "@glasgow.ac.uk", p);
    NotContainsByAnchor(e, "@research.glasgow.ac.uk", p);
    NotContainsByAnchor(e, "@gla.ac.uk", p);
    NotContainsByAnchor(e, "@research.gla.ac.uk", p);
    StaffEmailAsWritten(e);
  }

  /** The key a raw address is filed under: the address is lower-cased and
      looked up in the alias mapping; a mapped address is replaced by its
      canonical address (one lookup, no chasing), an unmapped one is kept. */
  function ResolveKey(mapping: map<string, string>, email: string): (key: string)
    ensures Lower(email) in mapping ==> key == mapping[Lower(email)]
    ensures Lower(email) !in mapping ==> key == Lower(email) && Lower(key) == key
  {
    var e := Lower(email);
    LowerIdempotent(email);
    if e in mapping then mapping[e] else e
  }

  /** Case does not matter when resolving: differently-cased spellings of
      an address land under the same key. */
  lemma ResolveKeyIgnoresCase(mapping: map<string, string>, a: string, b: string)
    requires Lower(a) == Lower(b)
    ensures ResolveKey(mapping, a) == ResolveKey(mapping, b)
  {
  }

  /** Resolution is a single lookup: an alias of an alias is not followed. */
  lemma ResolveKeyIsOneStep()
    ensures ResolveKey(map["a@x.com" := "b@x.com", "b@x.com" := "c@x.com"], "a@x.com") == "b@x.com"
  {
    LowerFromPointwise("a@x.com", "a@x.com");
  }

  /** A personal address paired with a student address is filed under the
      student address, whatever its case. */
  lemma ResolveKeyExample()
    ensures ResolveKey(map["a@personal.com" := "1a@student.gla.ac.uk"], "A@Personal.com") == "1a@student.gla.ac.uk"
  {
    LowerFromPointwise("A@Personal.com", "a@personal.com");
  }
}
