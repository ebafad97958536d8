/** Letter case, for the ASCII letters only. */
module AsciiCase {
  function ToUpper(s: string): string {
    if s == "" then "" else [if 'a' <= s[0] <= 'z' then s[0] - 'a' + 'A' else s[0]] + ToUpper(s[1..])
  }

  function LowerOf(c: char): char {
    if 'A' <= c <= 'Z' then c - 'A' + 'a' else c
  }

  function ToLower(s: string): string {
    if s == "" then "" else [LowerOf(s[0])] + ToLower(s[1..])
  }

  lemma {:induction false} UpperLength(s: string)
    ensures |ToUpper(s)| == |s|
  {
    if s != "" {
      UpperLength(s[1..]);
    }
  }

  lemma {:induction false} LowerAt(s: string)
    ensures |ToLower(s)| == |s| && forall i :: 0 <= i < |s| ==> ToLower(s)[i] == LowerOf(s[i])
  {
    if s != "" {
      LowerAt(s[1..]);
    }
  }

  predicate Contains(s: string, sub: string) {
    sub <= s || (s != "" && Contains(s[1..], sub))
  }
}
