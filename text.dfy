/**
 * The two string operations the filter route uses: lower-casing
 * (`String.prototype.toLowerCase`) and substring search
 * (`String.prototype.includes`). Lower-casing is modelled over ASCII letters.
 */
module Text {

  /** Lower-cases one character: 'A'..'Z' become 'a'..'z', every other character is kept. */
  function LowerChar(c: char): (r: char)
    ensures !('A' <= r <= 'Z')
    ensures 'A' <= c <= 'Z' ==> r as int - c as int == 'a' as int - 'A' as int
    ensures !('A' <= c <= 'Z') ==> r == c
  {
    if 'A' <= c <= 'Z' then (c as int - 'A' as int + 'a' as int) as char else c
  }

  /** Lower-cases every character of `s`. */
  function Lower(s: string): string
  {
    seq(|s|, i requires 0 <= i < |s| => LowerChar(s[i]))
  }

  /** `q` occurs in `s` as the block of characters starting at position `k`. */
  ghost predicate OccursAt(s: string, q: string, k: int)
  {
    0 <= k <= |s| - |q| && s[k..k + |q|] == q
  }

  /** `q` occurs in `s` as a contiguous block of characters. */
  ghost predicate Contains(s: string, q: string)
  {
    exists k :: OccursAt(s, q, k)
  }

  /**
   * Substring search as `s.includes(q)` performs it: try every start
   * position from the left. The result agrees with the declarative
   * definition `Contains` in both directions.
   */
  function Includes(s: string, q: string): (b: bool)
    ensures b <==> Contains(s, q)
    decreases |s|
  {
    if q <= s then
      assert OccursAt(s, q, 0);
      true
    else if s == [] then
      false
    else
      var b := Includes(s[1..], q);
      if b then
        assert Contains(s, q) by {
          var k :| OccursAt(s[1..], q, k);
          assert s[k + 1..k + 1 + |q|] == s[1..][k..k + |q|];
          assert OccursAt(s, q, k + 1);
        }
        true
      else
        assert !Contains(s, q) by {
          forall k | OccursAt(s, q, k)
            ensures false
          {
            if k > 0 {
              assert s[k..k + |q|] == s[1..][k - 1..k - 1 + |q|];
              assert OccursAt(s[1..], q, k - 1);
            }
          }
        }
        false
  }

  /** Case-insensitive containment: both sides are lower-cased before the search. */
  function IncludesIgnoringCase(s: string, q: string): bool
  {
    Includes(Lower(s), Lower(q))
  }

  /** Lower-casing twice is lower-casing once. */
  lemma LowerIdempotent(s: string)
    ensures Lower(Lower(s)) == Lower(s)
  {
  }

  /**
   * The search ignores case on either side: a text and its lower-cased form
   * match the same queries, and so do a query and its lower-cased form.
   */
  lemma IncludesIgnoringCaseInvariant(s: string, q: string)
    ensures IncludesIgnoringCase(Lower(s), q) == IncludesIgnoringCase(s, q)
    ensures IncludesIgnoringCase(s, Lower(q)) == IncludesIgnoringCase(s, q)
  {
    LowerIdempotent(s);
    LowerIdempotent(q);
  }

  /** A query that is a lower-cased block of the text is always found. */
  lemma {:induction false} IncludesIgnoringCaseOfBlock(s: string, k: nat, n: nat)
    requires k + n <= |s|
    ensures IncludesIgnoringCase(s, s[k..k + n])
  {
    assert Lower(s)[k..k + n] == Lower(s[k..k + n]);
    assert OccursAt(Lower(s), Lower(s[k..k + n]), k);
  }

  /** A query holding a character the text lacks is not found in it. */
  lemma MissingCharNotIncluded(s: string, q: string, c: char)
    requires c in q && c !in s
    ensures !Includes(s, q)
  {
    var j :| 0 <= j < |q| && q[j] == c;
    forall k | 0 <= k <= |s| - |q|
      ensures !OccursAt(s, q, k)
    {
      assert s[k..k + |q|][j] == s[k + j] != c;
    }
  }
}
