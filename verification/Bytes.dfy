/** Bytes as numbers, words of several bytes, and exclusive or. */
module Bytes {

  type byte = b: int | 0 <= b < 256

  function Pow2(n: nat): (p: nat)
    ensures p > 0
  {
    if n == 0 then 1 else 2 * Pow2(n - 1)
  }

  lemma Pow2Values()
    ensures Pow2(8) == 256 && Pow2(16) == 0x1_0000 && Pow2(24) == 0x100_0000 && Pow2(32) == 0x1_0000_0000
  {
    assert Pow2(4) == 16;
    assert Pow2(8) == 256;
    assert Pow2(12) == 4096;
    assert Pow2(16) == 0x1_0000;
    assert Pow2(20) == 0x10_0000;
    assert Pow2(24) == 0x100_0000;
    assert Pow2(28) == 0x1000_0000;
  }

  /** Exclusive or of the low n bits. */
  function Xor(n: nat, a: nat, b: nat): (r: nat)
    ensures r < Pow2(n)
  {
    if n == 0 then 0 else 2 * Xor(n - 1, a / 2, b / 2) + (if a % 2 == b % 2 then 0 else 1)
  }

  /** Bit k of a number. */
  predicate Bit(a: nat, k: nat) {
    if k == 0 then a % 2 == 1 else Bit(a / 2, k - 1)
  }

  /** Every bit of an exclusive or is set if and only if it is in one of the two. */
  lemma {:induction false} XorBits(n: nat, a: nat, b: nat, k: nat)
    requires k < n
    ensures Bit(Xor(n, a, b), k) <==> Bit(a, k) != Bit(b, k)
  {
    var high := Xor(n - 1, a / 2, b / 2);
    assert Xor(n, a, b) / 2 == high;
    if k > 0 {
      XorBits(n - 1, a / 2, b / 2, k - 1);
    }
  }

  lemma {:induction false} XorTwice(n: nat, a: nat, b: nat)
    requires a < Pow2(n)
    ensures Xor(n, Xor(n, a, b), b) == a
  {
    if n == 0 {
    } else {
      XorTwice(n - 1, a / 2, b / 2);
    }
  }

  lemma {:induction false} XorZero(n: nat, a: nat)
    requires a < Pow2(n)
    ensures Xor(n, a, 0) == a
  {
    if n == 0 {
    } else {
      XorZero(n - 1, a / 2);
    }
  }

  /** High and low parts are combined separately. */
  lemma {:induction false} XorParts(n: nat, k: nat, h: nat, l: nat, h': nat, l': nat)
    requires l < Pow2(n) && l' < Pow2(n)
    ensures Xor(n + k, Pow2(n) * h + l, Pow2(n) * h' + l') == Pow2(n) * Xor(k, h, h') + Xor(n, l, l')
  {
    if n == 0 {
    } else {
      var p := Pow2(n - 1);
      Halved(p, h, l);
      Halved(p, h', l');
      Halved(p, Xor(k, h, h'), Xor(n, l, l'));
      XorParts(n - 1, k, h, l / 2, h', l' / 2);
    }
  }

  lemma Halved(p: nat, h: nat, l: nat)
    ensures 2 * p * h == 2 * (p * h)
    ensures (2 * p * h + l) / 2 == p * h + l / 2 && (2 * p * h + l) % 2 == l % 2
  {
    var q := p * h;
    assert 2 * p * h == 2 * q;
  }

  // ---------- Words of four bytes ----------

  type word = w: int | 0 <= w < 0x1_0000_0000

  function XorByte(a: byte, b: byte): byte {
    Pow2Values();
    Xor(8, a, b)
  }

  function XorWord(a: word, b: word): word {
    Pow2Values();
    Xor(32, a, b)
  }

  /** Four bytes of memory read as a word by a little-endian machine. */
  function Word(b0: byte, b1: byte, b2: byte, b3: byte): word {
    b0 + 256 * (b1 + 256 * (b2 + 256 * b3))
  }

  /** A word as it lies in the memory of such a machine. */
  function WordBytes(w: word): (s: seq<byte>)
    ensures |s| == 4
  {
    [w % 256, w / 256 % 256, w / 256 / 256 % 256, w / 256 / 256 / 256]
  }

  lemma PartsWord(w: word)
    ensures var s := WordBytes(w); Word(s[0], s[1], s[2], s[3]) == w
  {
  }

  lemma WordParts(b0: byte, b1: byte, b2: byte, b3: byte)
    ensures WordBytes(Word(b0, b1, b2, b3)) == [b0, b1, b2, b3]
  {
    var w := Word(b0, b1, b2, b3);
    assert w / 256 == b1 + 256 * (b2 + 256 * b3);
    assert w / 256 / 256 == b2 + 256 * b3;
  }

  lemma XorStep(k: nat, high: nat, low: byte, high': nat, low': byte)
    ensures Xor(8 + k, low + 256 * high, low' + 256 * high') == XorByte(low, low') + 256 * Xor(k, high, high')
  {
    Pow2Values();
    XorParts(8, k, high, low, high', low');
    hide Xor, Pow2;
  }

  /** Combining words combines their bytes. */
  lemma XorWordParts(b0: byte, b1: byte, b2: byte, b3: byte, c0: byte, c1: byte, c2: byte, c3: byte)
    ensures XorWord(Word(b0, b1, b2, b3), Word(c0, c1, c2, c3))
         == Word(XorByte(b0, c0), XorByte(b1, c1), XorByte(b2, c2), XorByte(b3, c3))
  {
    hide Xor, Pow2;
    XorStep(24, b1 + 256 * (b2 + 256 * b3), b0, c1 + 256 * (c2 + 256 * c3), c0);
    XorStep(16, b2 + 256 * b3, b1, c2 + 256 * c3, c1);
    XorStep(8, b3, b2, c3, c2);
  }

  // ---------- Numbers in network byte order ----------

  /** The last k bytes of n, most significant first. */
  function BigEndian(n: nat, k: nat): (s: seq<byte>)
    ensures |s| == k
  {
    if k == 0 then [] else BigEndian(n / 256, k - 1) + [n % 256]
  }

  function FromBigEndian(s: seq<byte>): nat {
    if s == [] then 0 else FromBigEndian(s[..|s| - 1]) * 256 + s[|s| - 1]
  }

  function Pow256(k: nat): (p: nat)
    ensures p > 0
  {
    if k == 0 then 1 else 256 * Pow256(k - 1)
  }

  lemma Pow256Values()
    ensures Pow256(2) == 0x1_0000 && Pow256(4) == 0x1_0000_0000 && Pow256(8) == 0x1_0000_0000_0000_0000
  {
    assert Pow256(4) == 0x1_0000_0000;
    assert Pow256(6) == 0x1_0000_0000_0000;
  }

  lemma {:induction false} BigEndianInverse(n: nat, k: nat)
    requires n < Pow256(k)
    ensures FromBigEndian(BigEndian(n, k)) == n
  {
    if k == 0 {
    } else {
      BigEndianInverse(n / 256, k - 1);
      assert BigEndian(n, k)[..k - 1] == BigEndian(n / 256, k - 1);
    }
  }

  /** High and low digits are written one after the other. */
  lemma {:induction false} BigEndianParts(high: nat, low: nat, j: nat, k: nat)
    requires low < Pow256(k)
    ensures BigEndian(Pow256(k) * high + low, j + k) == BigEndian(high, j) + BigEndian(low, k)
  {
    if k == 0 {
      assert BigEndian(high, j) + [] == BigEndian(high, j);
    } else {
      var p := Pow256(k - 1) * high;
      assert Pow256(k) * high == 256 * p;
      assert (256 * p + low) / 256 == p + low / 256 && (256 * p + low) % 256 == low % 256;
      BigEndianParts(high, low / 256, j, k - 1);
      assert BigEndian(high, j) + (BigEndian(low / 256, k - 1) + [low % 256])
          == BigEndian(high, j) + BigEndian(low / 256, k - 1) + [low % 256];
    }
  }

  /** Eight bytes are written as two words, the high one first. */
  lemma BigEndianHalves(n: nat)
    requires n < 0x1_0000_0000_0000_0000
    ensures BigEndian(n, 8) == BigEndian(n / 0x1_0000_0000, 4) + BigEndian(n % 0x1_0000_0000, 4)
  {
    Pow256Values();
    BigEndianParts(n / 0x1_0000_0000, n % 0x1_0000_0000, 4, 4);
    hide BigEndian, Pow256;
  }

  /** Two or four bytes read in network byte order. */
  function Net16(b0: byte, b1: byte): nat { 0x100 * b0 + b1 }

  function Net32(b0: byte, b1: byte, b2: byte, b3: byte): nat {
    0x100_0000 * b0 + 0x1_0000 * b1 + 0x100 * b2 + b3
  }
}
