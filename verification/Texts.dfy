/** Small facts about text: letter case, and what stands at an offset. */
module Texts {

  /** tolower, for one character. */
  function Lower(c: char): char {
    if 'A' <= c <= 'Z' then c + 32 as char else c
  }

  /** A capital letter and its small one, 32 places behind it. */
  predicate Cases(c: char, d: char) {
    'A' <= c <= 'Z' && d as int == c as int + 32
  }

  /** The same character, or the same letter in the other case. */
  predicate SameLetter(c: char, d: char) {
    c == d || Cases(c, d) || Cases(d, c)
  }

  lemma LowerExactly(c: char, d: char)
    ensures Lower(c) == Lower(d) <==> SameLetter(c, d)
  {
  }

  const LOWER_DIGITS := "0123456789abcdef"
  const UPPER_DIGITS := "0123456789ABCDEF"

  /** A hexadecimal digit, in either case, by its position. */
  predicate StandsFor(d: char, n: nat) {
    n < 16 && (d == LOWER_DIGITS[n] || d == UPPER_DIGITS[n])
  }

  ghost predicate IsDigitOf(d: char) {
    exists n: nat :: StandsFor(d, n)
  }

  predicate At(s: string, o: nat, d: string) {
    o + |d| <= |s| && s[o..o + |d|] == d
  }

  lemma AtParts(s: string, o: nat, a: string, b: string)
    requires At(s, o, a + b)
    ensures At(s, o, a) && At(s, o + |a|, b)
  {
    assert s[o..o + |a|] == s[o..o + |a| + |b|][..|a|];
    assert s[o + |a|..o + |a| + |b|] == s[o..o + |a| + |b|][|a|..];
  }
}
