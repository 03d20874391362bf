/** Case of ASCII letters. */
module Ascii {

  function AsciiUpperCode(c: int): int {
    if 'a' as int <= c <= 'z' as int then c - 32 else c
  }

  function AsciiUpper(c: char): char {
    if 'a' <= c <= 'z' then AsciiUpperCode(c as int) as char else c
  }

  function AsciiLower(c: char): char {
    if 'A' <= c <= 'Z' then (c as int + 32) as char else c
  }

  const LARGE := "ABCDEFGHIJKLMNOPQRSTUVWXYZ"
  const SMALL := "abcdefghijklmnopqrstuvwxyz"

  /** The two cases of the letters, and nothing else is changed. */
  lemma CasesAre(i: nat, c: char)
    requires i < 26
    ensures AsciiUpper(SMALL[i]) == AsciiUpper(LARGE[i]) == LARGE[i]
    ensures AsciiLower(SMALL[i]) == AsciiLower(LARGE[i]) == SMALL[i]
    ensures c !in SMALL ==> AsciiUpper(c) == c
    ensures c !in LARGE ==> AsciiLower(c) == c
  {
    LettersAre(i);
    if 'a' <= c <= 'z' {
      LettersAre(c as int - 'a' as int);
      assert SMALL[c as int - 'a' as int] == c;
    } else if 'A' <= c <= 'Z' {
      LettersAre(c as int - 'A' as int);
      assert LARGE[c as int - 'A' as int] == c;
    }
  }

  lemma LettersAre(i: nat)
    requires i < 26
    ensures SMALL[i] as int == 'a' as int + i && LARGE[i] as int == 'A' as int + i
  {
    assert forall k :: 0 <= k < 26 ==> SMALL[k] as int == 97 + k;
    assert forall k :: 0 <= k < 26 ==> LARGE[k] as int == 65 + k;
  }
}
