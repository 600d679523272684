/** The two string tests the account store relies on: string.IsNullOrWhiteSpace
    and string.Equals(_, _, StringComparison.OrdinalIgnoreCase). */
module Text {
  import opened Wrappers

  /** char.IsWhiteSpace: the space, line and paragraph separators of Unicode
      together with U+0009..U+000D and U+0085. */
  predicate IsWhiteSpace(c: char) {
    c == ' ' || ('\t' <= c <= '\r') || c == '\U{85}' || c == '\U{A0}' || c == '\U{1680}'
    || ('\U{2000}' <= c <= '\U{200A}') || c == '\U{2028}' || c == '\U{2029}'
    || c == '\U{202F}' || c == '\U{205F}' || c == '\U{3000}'
  }

  function AllWhiteSpace(s: string): (b: bool)
    ensures b <==> forall i :: 0 <= i < |s| ==> IsWhiteSpace(s[i])
  {
    if s == [] then true else IsWhiteSpace(s[0]) && AllWhiteSpace(s[1..])
  }

  /** string.IsNullOrWhiteSpace; `None` is the null reference. The empty string
      counts as blank. */
  function IsNullOrWhiteSpace(s: Option<string>): (b: bool)
    ensures b <==> (s.None? || forall i :: 0 <= i < |s.value| ==> IsWhiteSpace(s.value[i]))
    ensures s == Some("") ==> b
  {
    match s
    case None => true
    case Some(v) => AllWhiteSpace(v)
  }

  /** Upper-casing of one character as ordinal case-insensitive comparison does
      it, restricted to ASCII letters. */
  function UpperAscii(c: char): (u: char)
    ensures 'a' <= c <= 'z' ==> 'A' <= u <= 'Z' && u as int == c as int - 32
    ensures !('a' <= c <= 'z') ==> u == c
  {
    if 'a' <= c <= 'z' then (c as int - 32) as char else c
  }

  /** The case-folded form of a string, character by character. */
  function FoldCase(s: string): (r: string)
    ensures |r| == |s|
    ensures forall i :: 0 <= i < |s| ==> r[i] == UpperAscii(s[i])
  {
    if s == [] then [] else [UpperAscii(s[0])] + FoldCase(s[1..])
  }

  /** Ordinal comparison ignoring case. */
  predicate EqualsIgnoreCase(a: string, b: string) {
    FoldCase(a) == FoldCase(b)
  }

  /** Two strings are equal ignoring case exactly when they have the same length
      and agree character by character after upper-casing. */
  lemma EqualsIgnoreCaseIff(a: string, b: string)
    ensures EqualsIgnoreCase(a, b) <==>
            |a| == |b| && forall i :: 0 <= i < |a| ==> UpperAscii(a[i]) == UpperAscii(b[i])
  {
    if |a| == |b| && forall i :: 0 <= i < |a| ==> UpperAscii(a[i]) == UpperAscii(b[i]) {
      assert forall i :: 0 <= i < |a| ==> FoldCase(a)[i] == FoldCase(b)[i];
    }
  }

  /** Strings equal ignoring case are blank together: case folding touches
      only letters, and no letter is white space. */
  lemma EqualsIgnoreCaseKeepsBlank(a: string, b: string)
    requires EqualsIgnoreCase(a, b)
    ensures AllWhiteSpace(a) <==> AllWhiteSpace(b)
  {
    EqualsIgnoreCaseIff(a, b);
    forall i | 0 <= i < |a|
      ensures IsWhiteSpace(a[i]) <==> IsWhiteSpace(b[i])
    {
      assert UpperAscii(a[i]) == UpperAscii(b[i]);
    }
  }
}
