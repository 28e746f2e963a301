/** The character classes of the regular expressions, written out. */
module Alphabets {
  import opened Common

  const DIGITS: set<char> := {'0', '1', '2', '3', '4', '5', '6', '7', '8', '9'}

  const HEX_DIGITS: set<char> := DIGITS + {'a', 'b', 'c', 'd', 'e', 'f'}

  const UPPER: set<char> := {
    'A', 'B', 'C', 'D', 'E', 'F', 'G', 'H', 'I', 'J', 'K', 'L', 'M', 'N', 'O', 'P', 'Q', 'R', 'S', 'T', 'U',
    'V', 'W', 'X', 'Y', 'Z'
  }

  const LOWER: set<char> := {
    'a', 'b', 'c', 'd', 'e', 'f', 'g', 'h', 'i', 'j', 'k', 'l', 'm', 'n', 'o', 'p', 'q', 'r', 's', 't', 'u',
    'v', 'w', 'x', 'y', 'z'
  }

  /** `[0-9a-f]{n}` */
  predicate HexOf(s: string, n: nat) {
    |s| == n && forall i :: 0 <= i < n ==> s[i] in HEX_DIGITS
  }

  lemma DigitIff(c: char)
    ensures c in DIGITS <==> '0' <= c <= '9'
  {
  }

  lemma UpperIff(c: char)
    ensures c in UPPER <==> 'A' <= c <= 'Z'
  {
  }

  lemma LowerIff(c: char)
    ensures c in LOWER <==> 'a' <= c <= 'z'
  {
  }

  lemma HexIff(c: char)
    ensures IsHex(c) <==> c in HEX_DIGITS
  {
  }

  lemma {:induction false} RevisionIff(s: string)
    ensures IsRevision(s) <==> HexOf(s, 40)
  {
    forall i | 0 <= i < |s| ensures IsHex(s[i]) <==> s[i] in HEX_DIGITS {
      HexIff(s[i]);
    }
  }
}
