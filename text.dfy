/** The two string operations the name search uses: lower-casing and substring search. */
module Text {

  /** ASCII lower-casing of one character; every other character is left as it is. */
  function LowerChar(c: char): char {
    if 'A' <= c <= 'Z' then (c as int + 32) as char else c
  }

  /** `toLowerCase`, restricted to the ASCII letters: no upper-case letter is left, and
      each character is either kept or replaced by the lower-case form of its letter. */
  function Lower(s: string): (r: string)
    ensures |r| == |s|
    ensures forall c :: c in r ==> !('A' <= c <= 'Z')
    ensures forall i :: 0 <= i < |s| ==> r[i] == s[i] || ('A' <= s[i] <= 'Z' && r[i] as int == s[i] as int + 32)
  {
    seq(|s|, i requires 0 <= i < |s| => LowerChar(s[i]))
  }

  predicate StartsWith(s: string, prefix: string) {
    |prefix| <= |s| && s[..|prefix|] == prefix
  }

  /** `s.includes(part)`: `part` occurs somewhere in `s` (the empty string occurs everywhere). */
  predicate Contains(s: string, part: string)
    decreases |s|
  {
    StartsWith(s, part) || (s != [] && Contains(s[1..], part))
  }

  /** `part` occurs in `s` starting at index `i`. */
  ghost predicate OccursAt(s: string, part: string, i: int) {
    0 <= i && i + |part| <= |s| && s[i..i + |part|] == part
  }

  /** The search agrees with the positional definition of an occurrence. */
  lemma {:induction false} ContainsIffOccurs(s: string, part: string)
    ensures Contains(s, part) <==> exists i :: OccursAt(s, part, i)
    decreases |s|
  {
    if StartsWith(s, part) {
      assert OccursAt(s, part, 0);
    } else if s != [] {
      ContainsIffOccurs(s[1..], part);
      if Contains(s[1..], part) {
        var i :| OccursAt(s[1..], part, i);
        assert s[1..][i..i + |part|] == s[i + 1..i + 1 + |part|];
        assert OccursAt(s, part, i + 1);
      }
      forall i | OccursAt(s, part, i) ensures OccursAt(s[1..], part, i - 1) {
        assert s[1..][i - 1..i - 1 + |part|] == s[i..i + |part|];
      }
    }
  }

  /** A text cannot contain a part whose first character it lacks. */
  lemma {:induction false} AbsentFirstChar(s: string, part: string)
    requires part != [] && part[0] !in s
    ensures !Contains(s, part)
    decreases |s|
  {
    if s != [] {
      assert part[0] !in s[1..] by {
        forall c | c in s[1..] ensures c in s { }
      }
      AbsentFirstChar(s[1..], part);
      if |part| <= |s| {
        assert s[..|part|][0] == s[0];
      }
    }
  }
}
