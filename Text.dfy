/** The few string operations of java.lang.String the core relies on. */
module Text {

  /** Java's `toUpperCase`, restricted to ASCII letters (locale rules are not modelled). */
  function UpperChar(c: char): char
  {
    if 'a' <= c <= 'z' then (c as int - 32) as char else c
  }

  function Upper(s: string): (r: string)
    ensures |r| == |s|
    ensures forall i :: 0 <= i < |s| ==> r[i] == UpperChar(s[i])
  {
    if s == [] then [] else [UpperChar(s[0])] + Upper(s[1..])
  }

  /** `s.startsWith(prefix)`: case-sensitive prefix test. */
  predicate StartsWith(s: string, prefix: string)
  {
    |prefix| <= |s| && s[..|prefix|] == prefix
  }

  /** `hay.contains(needle)`, searched from the left one position at a time. */
  predicate Contains(hay: string, needle: string)
    decreases |hay|
  {
    StartsWith(hay, needle) || (|hay| > 0 && Contains(hay[1..], needle))
  }

  /** `needle` occurs in `hay` starting at index `i`. */
  predicate OccursAt(hay: string, needle: string, i: int)
  {
    0 <= i <= |hay| - |needle| && hay[i..i + |needle|] == needle
  }

  /** The search above finds the needle exactly when it occurs at some index. */
  lemma {:induction false} ContainsIffOccurs(hay: string, needle: string)
    ensures Contains(hay, needle) <==> exists i :: OccursAt(hay, needle, i)
    decreases |hay|
  {
    if StartsWith(hay, needle) {
      assert OccursAt(hay, needle, 0);
    } else if |hay| > 0 {
      var tail := hay[1..];
      ContainsIffOccurs(tail, needle);
      if Contains(tail, needle) {
        var i :| OccursAt(tail, needle, i);
        assert hay[i + 1..i + 1 + |needle|] == tail[i..i + |needle|];
        assert OccursAt(hay, needle, i + 1);
      }
      if exists i :: OccursAt(hay, needle, i) {
        var i :| OccursAt(hay, needle, i);
        if i > 0 {
          assert tail[i - 1..i - 1 + |needle|] == hay[i..i + |needle|];
          assert OccursAt(tail, needle, i - 1);
        }
      }
    }
  }
}
