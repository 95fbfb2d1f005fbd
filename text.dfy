/** The string operations the doctor searches use: `toLowerCase` and
    `includes`, over the ASCII letters. */
module Text {

  function LowerChar(c: char): (l: char)
    ensures 'A' <= c <= 'Z' ==> l as int == c as int + 32
    ensures !('A' <= c <= 'Z') ==> l == c
  {
    if 'A' <= c <= 'Z' then (c as int + 32) as char else c
  }

  /** `s.toLowerCase()`: same length, every ASCII capital lowered. */
  function Lower(s: string): (r: string)
    ensures |r| == |s|
    ensures forall i :: 0 <= i < |s| ==> r[i] == LowerChar(s[i])
  {
    if s == [] then [] else [LowerChar(s[0])] + Lower(s[1..])
  }

  /** `s.includes(term)`: `term` is a prefix of some suffix of `s`. */
  predicate Includes(s: string, term: string)
    decreases |s|
  {
    term <= s || (s != [] && Includes(s[1..], term))
  }

  /** `term` stands in `s` at position `k`. */
  predicate OccursAt(s: string, term: string, k: nat)
  {
    k + |term| <= |s| && s[k..k + |term|] == term
  }

  /** `Includes` agrees with the positional definition of a substring. */
  lemma {:induction false} IncludesIffOccurs(s: string, term: string)
    ensures Includes(s, term) <==> exists k: nat :: k <= |s| && OccursAt(s, term, k)
    decreases |s|
  {
    if term <= s {
      assert OccursAt(s, term, 0);
    } else if s == [] {
      assert forall k: nat :: k <= |s| ==> !OccursAt(s, term, k);
    } else {
      IncludesIffOccurs(s[1..], term);
      if Includes(s[1..], term) {
        var k: nat :| k <= |s[1..]| && OccursAt(s[1..], term, k);
        assert s[k + 1..k + 1 + |term|] == s[1..][k..k + |term|];
        assert OccursAt(s, term, k + 1);
      } else {
        assert !OccursAt(s, term, 0);
        forall k: nat | 1 <= k <= |s|
          ensures !OccursAt(s, term, k)
        {
          if OccursAt(s, term, k) {
            assert s[1..][k - 1..k - 1 + |term|] == s[k..k + |term|];
            assert OccursAt(s[1..], term, k - 1);
          }
        }
      }
    }
  }

  /** Lowering leaves a string without capital letters as it is. */
  lemma LowerKeepsLowercase(s: string)
    requires forall i :: 0 <= i < |s| ==> !('A' <= s[i] <= 'Z')
    ensures Lower(s) == s
  {
    assert forall i :: 0 <= i < |s| ==> Lower(s)[i] == s[i];
  }

  /** Every string includes the empty string. */
  lemma IncludesEmpty(s: string)
    ensures Includes(s, "")
  {
  }

  /** Case-insensitive `includes`, as `a.toLowerCase().includes(b.toLowerCase())`. */
  predicate IncludesIgnoringCase(s: string, term: string)
  {
    Includes(Lower(s), Lower(term))
  }
}
