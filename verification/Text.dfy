/** Text comparison, and the name and value pairs every part of the program calls tags. */
module Text {
  datatype Tag = Tag(name: string, value: string)

  function Lower(c: char): char {
    if 'A' <= c <= 'Z' then (c as int + 32) as char else c
  }

  /** _wcsicmp(a, b) is 0, in the C locale. */
  predicate SameNoCase(a: string, b: string) {
    |a| == |b| && forall i :: 0 <= i < |a| ==> Lower(a[i]) == Lower(b[i])
  }

  /** c is the capital of the small letter d. */
  predicate CapitalOf(c: char, d: char) {
    'A' <= c <= 'Z' && 'a' <= d <= 'z' && c as int - 'A' as int == d as int - 'a' as int
  }

  /** Texts are the same ignoring case exactly if they differ at most in capitals of the same letters. */
  lemma SameNoCaseIff(a: string, b: string)
    ensures SameNoCase(a, b) <==>
      |a| == |b| && forall i :: 0 <= i < |a| ==> a[i] == b[i] || CapitalOf(a[i], b[i]) || CapitalOf(b[i], a[i])
  {
    forall c: char, d: char
      ensures Lower(c) == Lower(d) <==> c == d || CapitalOf(c, d) || CapitalOf(d, c)
    {
    }
  }
}
