/**
 * Letter case as a relation between bytes: what case-insensitive means,
 * whichever way the text is folded.
 */
module Ascii {
  const CAPITALS := "ABCDEFGHIJKLMNOPQRSTUVWXYZ"
  const SMALL := "abcdefghijklmnopqrstuvwxyz"

  /** The two forms of one letter. */
  ghost predicate Cases(a: char, b: char) {
    exists i :: 0 <= i < 26 && a == CAPITALS[i] && b == SMALL[i]
  }

  /** Equal up to letter case. */
  ghost predicate SameByte(a: char, b: char) {
    a == b || Cases(a, b) || Cases(b, a)
  }

  ghost predicate SameText(s: string, t: string) {
    |s| == |t| && forall i :: 0 <= i < |s| ==> SameByte(s[i], t[i])
  }

  lemma Alphabet(i: nat)
    requires i < 26
    ensures CAPITALS[i] == (65 + i) as char && SMALL[i] == (97 + i) as char
  {
  }

  /** Lower case and capital are 32 apart. */
  lemma CasesAre(a: char, b: char)
    ensures Cases(a, b) <==> 'A' <= a <= 'Z' && b as int == a as int + 32
  {
    if Cases(a, b) {
      var i :| 0 <= i < 26 && a == CAPITALS[i] && b == SMALL[i];
      Alphabet(i);
    }
    if 'A' <= a <= 'Z' && b as int == a as int + 32 {
      Alphabet(a as int - 65);
      assert a == CAPITALS[a as int - 65] && b == SMALL[a as int - 65];
    }
  }

  lemma SameByteAre(a: char, b: char)
    ensures SameByte(a, b) <==>
      a == b || ('A' <= a <= 'Z' && b as int == a as int + 32) || ('A' <= b <= 'Z' && a as int == b as int + 32)
  {
    CasesAre(a, b);
    CasesAre(b, a);
  }
}
