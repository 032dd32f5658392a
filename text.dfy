/** The few operations on Python strings that the controller client relies on,
    over the ASCII range. */
module Text {

  /** `c.lower()` for one character: ASCII capitals become lower-case, all else stays. */
  function LowerChar(c: char): char
  {
    if 'A' <= c <= 'Z' then (c as int - 'A' as int + 'a' as int) as char else c
  }

  /** `s.lower()`: the string with every ASCII capital lowered. */
  function Lower(s: string): (r: string)
    ensures |r| == |s|
  {
    seq(|s|, k requires 0 <= k < |s| => LowerChar(s[k]))
  }

  /** `s.replace(a, b)` for one-character `a` and `b`: every `a` becomes `b`. */
  function Replace(s: string, a: char, b: char): (r: string)
    ensures |r| == |s|
  {
    seq(|s|, k requires 0 <= k < |s| => if s[k] == a then b else s[k])
  }

  /** `pat` occurs in `s` starting at index `k`. */
  predicate OccursAt(s: string, pat: string, k: int)
  {
    0 <= k && k + |pat| <= |s| && s[k..k + |pat|] == pat
  }

  /** `pat in s`, Python's substring test. */
  function Contains(s: string, pat: string): (b: bool)
    ensures b <==> exists k :: OccursAt(s, pat, k)
    decreases |s|
  {
    if |s| < |pat| then false
    else if s[..|pat|] == pat then (assert OccursAt(s, pat, 0); true)
    else
      assert forall k :: OccursAt(s, pat, k) ==> k > 0 && OccursAt(s[1..], pat, k - 1);
      assert forall k :: OccursAt(s[1..], pat, k) ==> OccursAt(s, pat, k + 1);
      Contains(s[1..], pat)
  }
}
