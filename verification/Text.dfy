/** Hex text and letter case. */
module Text {

  predicate IsHex(c: char)
  {
    '0' <= c <= '9' || 'a' <= c <= 'f' || 'A' <= c <= 'F'
  }

  function LowerChar(c: char): char
  {
    if 'A' <= c <= 'Z' then ((c as int) + 32) as char else c
  }

  function Lower(s: string): string
  {
    seq(|s|, i requires 0 <= i < |s| => LowerChar(s[i]))
  }

  /** Hex text is the digits and the first six letters, and lowering keeps every hex digit the same digit. */
  lemma HexTable(c: char)
    ensures IsHex(c) <==> c in "0123456789abcdefABCDEF"
    ensures c in "0123456789abcdef" ==> LowerChar(c) == c
    ensures forall k :: 0 <= k < 6 ==> LowerChar("ABCDEF"[k]) == "abcdef"[k]
  {
  }

  /** Lowering maps the capital letters to the small ones, in order, and leaves everything else. */
  lemma LowerTable(s: string, i: nat)
    requires i < |s|
    ensures |Lower(s)| == |s|
    ensures forall k :: 0 <= k < 26 && s[i] == "ABCDEFGHIJKLMNOPQRSTUVWXYZ"[k] ==>
              Lower(s)[i] == "abcdefghijklmnopqrstuvwxyz"[k]
    ensures s[i] !in "ABCDEFGHIJKLMNOPQRSTUVWXYZ" ==> Lower(s)[i] == s[i]
  {
    if 'A' <= s[i] <= 'Z' {
      var k := s[i] as int - 'A' as int;
      assert "ABCDEFGHIJKLMNOPQRSTUVWXYZ"[k] == s[i];
    }
  }

  lemma LowerIsLower(s: string)
    ensures Lower(Lower(s)) == Lower(s)
  {
  }
}
