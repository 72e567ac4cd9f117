/** ASCII case folding as Rust's `str::eq_ignore_ascii_case` performs it.

Both the process table and the sampling-port table of the harness reject a
new entry whose name equals an existing one ignoring ASCII case, and
`create_sampling_port` looks configured ports up the same way.

Rust compares UTF-8 bytes, while the model compares characters. ASCII
lower-casing leaves every byte >= 0x80 untouched, and the model assumes,
without proving it here, that the two comparisons decide the same relation.
 */
module Ascii {

  /** `to_ascii_lowercase`: 'A'..'Z' map to 'a'..'z', everything else is kept. */
  function ToAsciiLower(c: char): char
  {
    if 'A' <= c <= 'Z' then (c as int + 32) as char else c
  }

  /** The whole string lower-cased, one character at a time. */
  function LowerAscii(s: string): (r: string)
    ensures |r| == |s|
    ensures forall i :: 0 <= i < |s| ==> r[i] == ToAsciiLower(s[i])
  {
    if s == [] then [] else [ToAsciiLower(s[0])] + LowerAscii(s[1..])
  }

  /** `a.eq_ignore_ascii_case(b)`: same length and pairwise equal after folding. */
  predicate EqIgnoreAsciiCase(a: string, b: string)
  {
    |a| == |b| && forall i :: 0 <= i < |a| ==> ToAsciiLower(a[i]) == ToAsciiLower(b[i])
  }

  /** The pairwise definition agrees with comparing the folded strings. */
  lemma EqIgnoreAsciiCaseIffLowerEqual(a: string, b: string)
    ensures EqIgnoreAsciiCase(a, b) <==> LowerAscii(a) == LowerAscii(b)
  {
    if LowerAscii(a) == LowerAscii(b) {
      assert |a| == |b|;
      forall i | 0 <= i < |a|
        ensures ToAsciiLower(a[i]) == ToAsciiLower(b[i])
      {
        assert LowerAscii(a)[i] == LowerAscii(b)[i];
      }
    }
  }

  /** The relation is an equivalence, so "no two entries are equal" is a
      meaningful table invariant. */
  lemma EqIgnoreAsciiCaseIsEquivalence(a: string, b: string, c: string)
    ensures EqIgnoreAsciiCase(a, a)
    ensures EqIgnoreAsciiCase(a, b) ==> EqIgnoreAsciiCase(b, a)
    ensures EqIgnoreAsciiCase(a, b) && EqIgnoreAsciiCase(b, c) ==> EqIgnoreAsciiCase(a, c)
  {
  }

  /** Folding only identifies letters that differ in case: two different
      characters that are not both letters stay different. */
  lemma ToAsciiLowerOnlyFoldsLetters(x: char, y: char)
    requires ToAsciiLower(x) == ToAsciiLower(y)
    requires x != y
    ensures ('A' <= x <= 'Z' && y == (x as int + 32) as char)
         || ('A' <= y <= 'Z' && x == (y as int + 32) as char)
  {
  }
}
