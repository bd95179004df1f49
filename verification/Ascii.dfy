// Letters without case.
module Ascii {

  function LowerChar(c: char): char {
    if 'A' <= c <= 'Z' then 'a' + (c - 'A') else c
  }

  function Lower(s: string): (r: string)
    ensures |r| == |s| && forall i :: 0 <= i < |s| ==> r[i] == LowerChar(s[i])
  {
    seq(|s|, i requires 0 <= i < |s| => LowerChar(s[i]))
  }

  lemma {:induction false} LowerCharAgain(c: char)
    ensures LowerChar(LowerChar(c)) == LowerChar(c) && (LowerChar(c) == '\\' <==> c == '\\')
  {
  }

  // The letters and their lower case.
  lemma {:induction false} Alphabet(c: char)
    ensures forall k :: 0 <= k < 26 ==> LowerChar("ABCDEFGHIJKLMNOPQRSTUVWXYZ"[k]) == "abcdefghijklmnopqrstuvwxyz"[k]
    ensures c !in "ABCDEFGHIJKLMNOPQRSTUVWXYZ" ==> LowerChar(c) == c
  {
    var upper, lower := "ABCDEFGHIJKLMNOPQRSTUVWXYZ", "abcdefghijklmnopqrstuvwxyz";
    forall k | 0 <= k < 26
      ensures upper[k] == 'A' + (k as char) && lower[k] == 'a' + (k as char)
    {
    }
    if 'A' <= c <= 'Z' { assert upper[(c - 'A') as int] == c; }
  }

  // Lower case depends on the characters one by one.
  lemma {:induction false} LowerSame(s: string, r: string)
    requires |r| == |s| && forall i :: 0 <= i < |s| ==> LowerChar(r[i]) == LowerChar(s[i])
    ensures Lower(r) == Lower(s)
  {
    hide LowerChar;
  }
}
