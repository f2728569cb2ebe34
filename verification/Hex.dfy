/** Hexadecimal text. */
module Hex {
  import opened Bytes
  import opened Texts

  /** '0' is added to a nibble, and the gap before 'A' is skipped. */
  function Nibble(n: nat): char
    requires n < 16
  {
    if n < 10 then '0' + n as char else '0' + 7 as char + n as char
  }

  function Encode(s: seq<byte>): (t: string)
    ensures |t| == 2 * |s|
  {
    if s == [] then "" else [Nibble(s[0] / 16), Nibble(s[0] % 16)] + Encode(s[1..])
  }

  /** An unsigned char's subtraction of '0', then of the gap. */
  function NibbleOf(c: char): byte {
    var b := (c as int - '0' as int) % 256;
    if b > 9 then (b - 7) % 256 else b
  }

  function CharAt(t: string, i: nat): char {
    if i < |t| then t[i] else '\0'
  }

  /** A byte for every two characters; an odd one out is paired with the zero
      behind the text. */
  function Decode(t: string): (s: seq<byte>)
    ensures |s| == (|t| + 1) / 2
    decreases |t|
  {
    if t == "" then []
    else [(16 * NibbleOf(t[0]) + NibbleOf(CharAt(t, 1))) % 256] + Decode(if |t| < 2 then "" else t[2..])
  }

  lemma NibbleInverse(n: nat)
    requires n < 16
    ensures NibbleOf(Nibble(n)) == n
  {
  }

  // ---------- What a text says ----------

  ghost predicate PairSays(h: char, l: char, b: byte) {
    exists m: nat, n: nat :: StandsFor(h, m) && StandsFor(l, n) && b == 16 * m + n
  }

  /** Two digits, in either case, for every byte. */
  ghost predicate Says(t: string, s: seq<byte>)
    decreases |s|
  {
    if s == [] then t == "" else |t| >= 2 && PairSays(t[0], t[1], s[0]) && Says(t[2..], s[1..])
  }

  predicate SmallLetter(c: char) {
    'a' <= c <= 'f'
  }

  /** A pair's second digit is a small letter. */
  predicate EndsSmall(t: string) {
    |t| >= 2 && (SmallLetter(t[1]) || EndsSmall(t[2..]))
  }

  lemma NibbleAt(n: nat)
    requires n < 16
    ensures Nibble(n) == UPPER_DIGITS[n] && StandsFor(Nibble(n), n) && !SmallLetter(Nibble(n))
  {
  }

  lemma PairEncoded(b: byte)
    ensures PairSays(Nibble(b / 16), Nibble(b % 16), b) && !SmallLetter(Nibble(b % 16))
  {
    NibbleAt(b / 16);
    NibbleAt(b % 16);
    hide Nibble, StandsFor, SmallLetter;
    assert b == 16 * (b / 16) + b % 16;
  }

  /** The encoded text says the bytes, in capital digits. */
  lemma {:induction false} EncodedSays(s: seq<byte>)
    ensures Says(Encode(s), s) && !EndsSmall(Encode(s))
    ensures forall k :: 0 <= k < |Encode(s)| ==> Encode(s)[k] in UPPER_DIGITS
    decreases |s|
  {
    if s == [] {
    } else {
      var rest := Encode(s[1..]);
      EncodedSays(s[1..]);
      PairEncoded(s[0]);
      NibbleAt(s[0] / 16);
      NibbleAt(s[0] % 16);
      hide Nibble, PairSays, SmallLetter;
      assert Encode(s) == [Nibble(s[0] / 16), Nibble(s[0] % 16)] + rest;
      assert Encode(s)[2..] == rest;
    }
  }

  /** A small letter counts 32 too much, which the high half of a byte does not show. */
  lemma NibbleValue(d: char, n: nat)
    requires StandsFor(d, n)
    ensures NibbleOf(d) == (if SmallLetter(d) then n + 32 else n) && n < 16
  {
  }

  lemma PairDecoded(h: char, l: char, b: byte)
    requires PairSays(h, l, b)
    ensures (16 * NibbleOf(h) + NibbleOf(l)) % 256 == b <==> !SmallLetter(l)
  {
    var m: nat, n: nat :| StandsFor(h, m) && StandsFor(l, n) && b == 16 * m + n;
    NibbleValue(h, m);
    NibbleValue(l, n);
    PairValue(m, n, NibbleOf(h), NibbleOf(l));
    hide NibbleOf, StandsFor, PairSays;
  }

  lemma PairValue(m: nat, n: nat, x: nat, y: nat)
    requires m < 16 && n < 16 && (x == m || x == m + 32) && (y == n || y == n + 32)
    ensures (16 * x + y) % 256 == 16 * m + n <==> y == n
  {
    var b := 16 * m + n;
    assert b % 256 == b && (b + 512) % 256 == b;
    assert (b + 32) % 256 != b && (b + 512 + 32) % 256 == (b + 32) % 256;
  }

  /** A text is decoded to the bytes it says if and only if no second digit of a pair
      is a small letter. */
  lemma {:induction false} DecodesExactly(t: string, s: seq<byte>)
    requires Says(t, s)
    ensures Decode(t) == s <==> !EndsSmall(t)
    decreases |s|
  {
    if s == [] {
    } else {
      PairDecoded(t[0], t[1], s[0]);
      assert t == [t[0], t[1]] + t[2..] && s == [s[0]] + s[1..];
      DecodePair(t[0], t[1], t[2..]);
      hide NibbleOf, SmallLetter, StandsFor, Decode, PairSays;
      DecodesExactly(t[2..], s[1..]);
    }
  }

  /** "0a" is decoded to 42. */
  lemma SmallDigit()
    ensures Says("0a", [10]) && Decode("0a") == [42]
  {
    assert StandsFor('0', 0) && StandsFor('a', 10);
    assert PairSays('0', 'a', 10);
    assert "0a"[2..] == "" && [10][1..] == [];
    DecodePair('0', 'a', "");
    assert "0a" == ['0', 'a'] + "";
  }

  lemma DecodePair(c0: char, c1: char, rest: string)
    ensures Decode([c0, c1] + rest) == [(16 * NibbleOf(c0) + NibbleOf(c1)) % 256] + Decode(rest)
  {
    assert ([c0, c1] + rest)[2..] == rest;
    hide NibbleOf;
  }

  /** Decoding undoes encoding. */
  lemma {:induction false} DecodeEncode(s: seq<byte>)
    ensures Decode(Encode(s)) == s
  {
    hide Nibble, NibbleOf;
    if s == [] {
    } else {
      var t, rest := Encode(s), Encode(s[1..]);
      DecodeEncode(s[1..]);
      NibbleInverse(s[0] / 16);
      NibbleInverse(s[0] % 16);
      DecodePair(t[0], t[1], rest);
      assert s == [s[0]] + s[1..];
    }
  }

  lemma {:induction false} EncodeSnoc(s: seq<byte>, b: byte)
    ensures Encode(s + [b]) == Encode(s) + [Nibble(b / 16), Nibble(b % 16)]
  {
    hide Nibble;
    if s == [] {
      assert Encode([]) == "" && [b][1..] == [];
    } else {
      assert (s + [b])[1..] == s[1..] + [b];
      EncodeSnoc(s[1..], b);
    }
  }

  /** hex::encode; a zero follows the text. */
  method EncodeTo(input: seq<byte>, output: array<char>)
    requires 2 * |input| < output.Length
    modifies output
    ensures output[..2 * |input|] == Encode(input) && output[2 * |input|] == '\0'
  {
    hide Nibble;
    for i := 0 to |input|
      invariant output[..2 * i] == Encode(input[..i])
    {
      assert input[..i + 1] == input[..i] + [input[i]];
      EncodeSnoc(input[..i], input[i]);
      output[2 * i] := Nibble(input[i] / 16);
      output[2 * i + 1] := Nibble(input[i] % 16);
    }
    assert input[..|input|] == input;
    output[2 * |input|] := '\0';
  }

  lemma {:induction false} DecodeStep(t: string, i: nat)
    requires i < |t| && i % 2 == 0
    ensures i / 2 < |Decode(t)| && Decode(t)[i / 2] == (16 * NibbleOf(t[i]) + NibbleOf(CharAt(t, i + 1))) % 256
  {
    hide NibbleOf;
    if i == 0 {
    } else {
      DecodeStep(t[2..], i - 2);
      assert Decode(t)[i / 2] == Decode(t[2..])[i / 2 - 1];
    }
  }

  /** hex::decode. */
  method DecodeTo(input: string, output: array<byte>) returns (n: nat)
    requires (|input| + 1) / 2 <= output.Length
    modifies output
    ensures n == |input| / 2
    ensures output[..(|input| + 1) / 2] == Decode(input)
    ensures output[(|input| + 1) / 2..] == old(output[(|input| + 1) / 2..])
  {
    hide NibbleOf, Decode;
    var i := 0;
    while i < |input|
      invariant i % 2 == 0 && i <= |input| + 1
      invariant output[..i / 2] == Decode(input)[..i / 2]
      invariant output[(|input| + 1) / 2..] == old(output[(|input| + 1) / 2..])
    {
      DecodeStep(input, i);
      output[i / 2] := (16 * NibbleOf(input[i]) + NibbleOf(CharAt(input, i + 1))) % 256;
      i := i + 2;
    }
    n := |input| / 2;
  }
}
