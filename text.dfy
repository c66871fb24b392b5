/** The string operations the attendance script relies on: Python's `in`
    on strings, `str.endswith`, `str.lower`, `name.split(' ')[-1]` and the
    code-point order that `sorted` uses on strings. */
module Text {

  /** `p` is a prefix of `s`. */
  predicate IsPrefix(p: string, s: string)
  {
    |p| <= |s| && s[..|p|] == p
  }

  /** Python's `sub in s`: `sub` occurs in `s` at some offset. */
  function Contains(s: string, sub: string): (r: bool)
    ensures r <==> exists i :: 0 <= i <= |s| && IsPrefix(sub, s[i..])
    decreases |s|
  {
    if IsPrefix(sub, s) then
      assert s[0..] == s;
      true
    else if |s| <= |sub| then
      assert forall i :: 0 < i <= |s| ==> !IsPrefix(sub, s[i..]);
      assert s[0..] == s;
      false
    else
      var rest := Contains(s[1..], sub);
      assert forall i :: 0 <= i <= |s| - 1 ==> s[1..][i..] == s[i + 1..];
      assert s[0..] == s;
      assert rest ==> exists i :: 0 <= i <= |s| && IsPrefix(sub, s[i..]) by {
        if rest {
          var i :| 0 <= i <= |s[1..]| && IsPrefix(sub, s[1..][i..]);
          assert IsPrefix(sub, s[i + 1..]);
        }
      }
      assert (exists i :: 0 <= i <= |s| && IsPrefix(sub, s[i..])) ==> rest by {
        if exists i :: 0 <= i <= |s| && IsPrefix(sub, s[i..]) {
          var i :| 0 <= i <= |s| && IsPrefix(sub, s[i..]);
          assert i != 0;
          assert IsPrefix(sub, s[1..][i - 1..]);
        }
      }
      rest
  }

  /** `sub` does not occur in `s` when its first character occurs in `s`
      only at offset `p` and `sub` does not start there. */
  lemma NotContainsByAnchor(s: string, sub: string, p: nat)
    requires |sub| > 0
    requires forall i :: 0 <= i < |s| && s[i] == sub[0] ==> i == p
    requires p <= |s| && !IsPrefix(sub, s[p..])
    ensures !Contains(s, sub)
  {
    forall i | 0 <= i <= |s| && i != p ensures !IsPrefix(sub, s[i..]) {
      if i < |s| {
        assert s[i..][0] == s[i];
      }
    }
  }

  /** `sub` does not occur in `s` when one of its characters is absent
      from `s`. */
  lemma NotContainsByMissingChar(s: string, sub: string, c: char)
    requires c in sub && c !in s
    ensures !Contains(s, sub)
  {
  }

  /** Python's `s.endswith(suffix)`. */
  predicate EndsWith(s: string, suffix: string)
  {
    |suffix| <= |s| && s[|s| - |suffix|..] == suffix
  }

  /** Lower-casing of one character (ASCII letters only). */
  function LowerChar(c: char): char
  {
    if 'A' <= c <= 'Z' then (c as int + 32) as char else c
  }

  /** `str.lower()`, restricted to ASCII letters: every character is
      lower-cased in place and the length is kept. */
  function Lower(s: string): (r: string)
    ensures |r| == |s|
    ensures forall i :: 0 <= i < |s| ==> r[i] == LowerChar(s[i])
  {
    if s == [] then [] else [LowerChar(s[0])] + Lower(s[1..])
  }

  /** A string is the lower-casing of another when it agrees with it
      character by character. */
  lemma LowerFromPointwise(s: string, t: string)
    requires |s| == |t|
    requires forall i :: 0 <= i < |s| ==> LowerChar(s[i]) == t[i]
    ensures Lower(s) == t
  {
  }

  /** Lower-casing twice is lower-casing once. */
  lemma LowerIdempotent(s: string)
    ensures Lower(Lower(s)) == Lower(s)
  {
    assert forall i :: 0 <= i < |s| ==> LowerChar(LowerChar(s[i])) == LowerChar(s[i]);
  }

  /** `s.split(' ')[-1]`: the longest suffix of `s` without a space; the
      character before it, if any, is a space. */
  function LastToken(s: string): (r: string)
    ensures ' ' !in r
    ensures |r| <= |s| && r == s[|s| - |r|..]
    ensures |r| < |s| ==> s[|s| - |r| - 1] == ' '
  {
    if s == [] then []
    else if s[|s| - 1] == ' ' then []
    else
      var init := s[..|s| - 1];
      var t := LastToken(init);
      assert s[|s| - |t| - 1..] == init[|init| - |t|..] + [s[|s| - 1]];
      t + [s[|s| - 1]]
  }

  /** Python's `<` on strings: lexicographic by code point, a proper
      prefix first. */
  predicate StrLess(a: string, b: string)
    decreases |a|
  {
    if |a| == 0 then |b| > 0
    else |b| > 0 && (a[0] < b[0] || (a[0] == b[0] && StrLess(a[1..], b[1..])))
  }

  lemma {:induction false} StrLessIrreflexive(a: string)
    ensures !StrLess(a, a)
    decreases |a|
  {
    if |a| > 0 { StrLessIrreflexive(a[1..]); }
  }

  lemma {:induction false} StrLessTransitive(a: string, b: string, c: string)
    requires StrLess(a, b) && StrLess(b, c)
    ensures StrLess(a, c)
    decreases |a|
  {
    if |a| > 0 && a[0] == b[0] && b[0] == c[0] {
      StrLessTransitive(a[1..], b[1..], c[1..]);
    }
  }

  lemma {:induction false} StrLessTotal(a: string, b: string)
    ensures a == b || StrLess(a, b) || StrLess(b, a)
    decreases |a|
  {
    if |a| > 0 && |b| > 0 && a[0] == b[0] {
      StrLessTotal(a[1..], b[1..]);
      if a[1..] == b[1..] {
        assert a == [a[0]] + a[1..] && b == [b[0]] + b[1..];
      }
    }
  }

  lemma StrLessAsymmetric(a: string, b: string)
    requires StrLess(a, b)
    ensures !StrLess(b, a)
  {
    if StrLess(b, a) {
      StrLessTransitive(a, b, a);
      StrLessIrreflexive(a);
    }
  }
}
