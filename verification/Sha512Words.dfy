/** The constants, word functions and octet order of SHA-512, stated without their
    definitions: roots of primes by integer inequalities (sections 4.2.3 and 5.3.5 of
    FIPS 180-4), functions by the places and the words they choose (section 4.1.3), octets
    most significant first (section 3.1). */
module Sha512Words {
  import opened Sha512Standard

  // ---------- Functions on words ----------

  /** Where rotations by 28, 34 and 39 bits take the last bit and the first one. */
  lemma Sum0Places()
    ensures Sum0(1) == (1 << 36) | (1 << 30) | (1 << 25)
    ensures Sum0(1 << 63) == (1 << 35) | (1 << 29) | (1 << 24)
  {
  }

  /** Likewise for rotations by 14, 18 and 41 bits. */
  lemma Sum1Places()
    ensures Sum1(1) == (1 << 50) | (1 << 46) | (1 << 23)
    ensures Sum1(1 << 63) == (1 << 49) | (1 << 45) | (1 << 22)
  {
  }

  /** Rotations by 1 and 8 bits, and a shift by 7. */
  lemma Sigma0Places()
    ensures Sigma0(1) == (1 << 63) | (1 << 56)
    ensures Sigma0(1 << 63) == (1 << 62) | (1 << 56) | (1 << 55)
  {
  }

  /** Rotations by 19 and 61 bits, and a shift by 6. */
  lemma Sigma1Places()
    ensures Sigma1(1) == (1 << 45) | (1 << 3)
    ensures Sigma1(1 << 63) == (1 << 57) | (1 << 44) | (1 << 2)
  {
  }

  /** Where x has a bit, Ch is y, and elsewhere z. */
  lemma ChChooses(x: bv64, y: bv64, z: bv64)
    ensures Ch(x, y, z) & x == y & x && Ch(x, y, z) & !x == z & !x
  {
  }

  /** Where x and y agree, Maj is x, and elsewhere z. */
  lemma MajAgrees(x: bv64, y: bv64, z: bv64)
    ensures Maj(x, y, z) & !(x ^ y) == x & !(x ^ y) && Maj(x, y, z) & (x ^ y) == z & (x ^ y)
  {
  }

  // ---------- Octets ----------

  /** The first octet of a word is its most significant one, and the others follow. */
  lemma PackOrder(s: Octets)
    requires |s| == 8
    ensures Pack(s) >> 56 == s[0] as bv64 && Pack(s) << 8 == Pack(s[1..] + [0])
  {
  }

  lemma UnpackPack(s: Octets)
    requires |s| == 8
    ensures Unpack(Pack(s)) == s
  {
  }

  lemma PackUnpack(x: bv64)
    ensures Pack(Unpack(x)) == x
  {
  }

  function Bit(o: bv8, mask: bv8): nat {
    if o & mask != 0 then 1 else 0
  }

  predicate OctetBits(o: bv8, n: nat) {
    && Bit(o, 1) == n % 2 && Bit(o, 2) == n / 2 % 2 && Bit(o, 4) == n / 4 % 2 && Bit(o, 8) == n / 8 % 2
    && Bit(o, 16) == n / 16 % 2 && Bit(o, 32) == n / 32 % 2 && Bit(o, 64) == n / 64 % 2 && Bit(o, 128) == n / 128 % 2
  }

  lemma OctetHasBits(n: nat)
    ensures OctetBits(Octet(n), n)
  {
  }

  /** The sum of the bits of an octet. */
  function Value(o: bv8): nat {
    Bit(o, 1) + 2 * Bit(o, 2) + 4 * Bit(o, 4) + 8 * Bit(o, 8)
    + 16 * Bit(o, 16) + 32 * Bit(o, 32) + 64 * Bit(o, 64) + 128 * Bit(o, 128)
  }

  lemma ValueIsNumber(o: bv8)
    ensures o as nat == Value(o)
  {
  }

  lemma Halves(n: nat)
    requires n < 256
    ensures n == n % 2 + 2 * (n / 2 % 2) + 4 * (n / 4 % 2) + 8 * (n / 8 % 2)
                 + 16 * (n / 16 % 2) + 32 * (n / 32 % 2) + 64 * (n / 64 % 2) + 128 * (n / 128 % 2)
  {
    var a, b, c := n / 2, n / 4, n / 8;
    assert a / 2 == b && b / 2 == c && c / 2 == n / 16;
    assert n / 16 / 2 == n / 32 && n / 32 / 2 == n / 64 && n / 64 / 2 == n / 128;
  }

  lemma ValueOfBits(o: bv8, n: nat)
    requires n < 256 && OctetBits(o, n)
    ensures Value(o) == n
  {
    hide Bit;
    Halves(n);
  }

  /** An octet is its number. */
  lemma OctetValue(n: nat)
    requires n < 256
    ensures Octet(n) as nat == n
  {
    OctetHasBits(n);
    ValueIsNumber(Octet(n));
    ValueOfBits(Octet(n), n);
    hide Octet, Value, OctetBits;
  }

  // ---------- The constants ----------

  /** x is the root of n, rounded down. */
  predicate CubeRoot(x: nat, n: nat) { x * x * x <= n < (x + 1) * (x + 1) * (x + 1) }

  predicate SquareRoot(x: nat, n: nat) { x * x <= n < (x + 1) * (x + 1) }

  /** x is the root of p with 64 bits of its fraction, and k is these bits. */
  predicate CubeAt(k: bv64, p: nat, x: nat) {
    && CubeRoot(x, p * 0x1_0000_0000_0000_0000_0000_0000_0000_0000_0000_0000_0000_0000)
    && k as nat == x % 0x1_0000_0000_0000_0000
  }

  predicate SquareAt(k: bv64, p: nat, x: nat) {
    SquareRoot(x, p * 0x1_0000_0000_0000_0000_0000_0000_0000_0000) && k as nat == x % 0x1_0000_0000_0000_0000
  }

  /** k is the first 64 bits of the fraction of the cube root of p. */
  ghost predicate FromCube(k: bv64, p: nat) {
    exists x: nat :: CubeAt(k, p, x)
  }

  ghost predicate FromSquare(k: bv64, p: nat) {
    exists x: nat :: SquareAt(k, p, x)
  }

  lemma CubesFound()
    ensures forall k: bv64, p: nat, x: nat :: CubeAt(k, p, x) ==> FromCube(k, p)
  {
  }

  lemma SquaresFound()
    ensures forall k: bv64, p: nat, x: nat :: SquareAt(k, p, x) ==> FromSquare(k, p)
  {
  }

  const P0: seq<nat> := [2, 3, 5, 7, 11, 13, 17, 19, 23, 29,
                         31, 37, 41, 43, 47, 53, 59, 61, 67, 71]
  const P20: seq<nat> := [73, 79, 83, 89, 97, 101, 103, 107, 109, 113,
                          127, 131, 137, 139, 149, 151, 157, 163, 167, 173]
  const P40: seq<nat> := [179, 181, 191, 193, 197, 199, 211, 223, 227, 229,
                          233, 239, 241, 251, 257, 263, 269, 271, 277, 281]
  const P60: seq<nat> := [283, 293, 307, 311, 313, 317, 331, 337, 347, 349,
                          353, 359, 367, 373, 379, 383, 389, 397, 401, 409]

  /** The first eighty primes. */
  const PRIMES: seq<nat> := P0 + P20 + P40 + P60

  lemma Roots0()
    ensures CubeAt(0x428a2f98d728ae22, 2, 0x1_428a2f98d728ae22)
    ensures CubeAt(0x7137449123ef65cd, 3, 0x1_7137449123ef65cd)
    ensures CubeAt(0xb5c0fbcfec4d3b2f, 5, 0x1_b5c0fbcfec4d3b2f)
    ensures CubeAt(0xe9b5dba58189dbbc, 7, 0x1_e9b5dba58189dbbc)
    ensures CubeAt(0x3956c25bf348b538, 11, 0x2_3956c25bf348b538)
    ensures CubeAt(0x59f111f1b605d019, 13, 0x2_59f111f1b605d019)
    ensures CubeAt(0x923f82a4af194f9b, 17, 0x2_923f82a4af194f9b)
    ensures CubeAt(0xab1c5ed5da6d8118, 19, 0x2_ab1c5ed5da6d8118)
    ensures CubeAt(0xd807aa98a3030242, 23, 0x2_d807aa98a3030242)
    ensures CubeAt(0x12835b0145706fbe, 29, 0x3_12835b0145706fbe)
    ensures CubeAt(0x243185be4ee4b28c, 31, 0x3_243185be4ee4b28c)
    ensures CubeAt(0x550c7dc3d5ffb4e2, 37, 0x3_550c7dc3d5ffb4e2)
    ensures CubeAt(0x72be5d74f27b896f, 41, 0x3_72be5d74f27b896f)
    ensures CubeAt(0x80deb1fe3b1696b1, 43, 0x3_80deb1fe3b1696b1)
    ensures CubeAt(0x9bdc06a725c71235, 47, 0x3_9bdc06a725c71235)
    ensures CubeAt(0xc19bf174cf692694, 53, 0x3_c19bf174cf692694)
    ensures CubeAt(0xe49b69c19ef14ad2, 59, 0x3_e49b69c19ef14ad2)
    ensures CubeAt(0xefbe4786384f25e3, 61, 0x3_efbe4786384f25e3)
    ensures CubeAt(0x0fc19dc68b8cd5b5, 67, 0x4_0fc19dc68b8cd5b5)
    ensures CubeAt(0x240ca1cc77ac9c65, 71, 0x4_240ca1cc77ac9c65)
  {
  }

  lemma Row0(i: nat)
    requires i < 20
    ensures FromCube(K0[i], P0[i])
  {
    hide CubeAt;
    Roots0();
    CubesFound();
    hide FromCube;
  }

  lemma Roots20()
    ensures CubeAt(0x2de92c6f592b0275, 73, 0x4_2de92c6f592b0275)
    ensures CubeAt(0x4a7484aa6ea6e483, 79, 0x4_4a7484aa6ea6e483)
    ensures CubeAt(0x5cb0a9dcbd41fbd4, 83, 0x4_5cb0a9dcbd41fbd4)
    ensures CubeAt(0x76f988da831153b5, 89, 0x4_76f988da831153b5)
    ensures CubeAt(0x983e5152ee66dfab, 97, 0x4_983e5152ee66dfab)
    ensures CubeAt(0xa831c66d2db43210, 101, 0x4_a831c66d2db43210)
    ensures CubeAt(0xb00327c898fb213f, 103, 0x4_b00327c898fb213f)
    ensures CubeAt(0xbf597fc7beef0ee4, 107, 0x4_bf597fc7beef0ee4)
    ensures CubeAt(0xc6e00bf33da88fc2, 109, 0x4_c6e00bf33da88fc2)
    ensures CubeAt(0xd5a79147930aa725, 113, 0x4_d5a79147930aa725)
    ensures CubeAt(0x06ca6351e003826f, 127, 0x5_06ca6351e003826f)
    ensures CubeAt(0x142929670a0e6e70, 131, 0x5_142929670a0e6e70)
    ensures CubeAt(0x27b70a8546d22ffc, 137, 0x5_27b70a8546d22ffc)
    ensures CubeAt(0x2e1b21385c26c926, 139, 0x5_2e1b21385c26c926)
    ensures CubeAt(0x4d2c6dfc5ac42aed, 149, 0x5_4d2c6dfc5ac42aed)
    ensures CubeAt(0x53380d139d95b3df, 151, 0x5_53380d139d95b3df)
    ensures CubeAt(0x650a73548baf63de, 157, 0x5_650a73548baf63de)
    ensures CubeAt(0x766a0abb3c77b2a8, 163, 0x5_766a0abb3c77b2a8)
    ensures CubeAt(0x81c2c92e47edaee6, 167, 0x5_81c2c92e47edaee6)
    ensures CubeAt(0x92722c851482353b, 173, 0x5_92722c851482353b)
  {
  }

  lemma Row20(i: nat)
    requires i < 20
    ensures FromCube(K20[i], P20[i])
  {
    hide CubeAt;
    Roots20();
    CubesFound();
    hide FromCube;
  }

  lemma Roots40()
    ensures CubeAt(0xa2bfe8a14cf10364, 179, 0x5_a2bfe8a14cf10364)
    ensures CubeAt(0xa81a664bbc423001, 181, 0x5_a81a664bbc423001)
    ensures CubeAt(0xc24b8b70d0f89791, 191, 0x5_c24b8b70d0f89791)
    ensures CubeAt(0xc76c51a30654be30, 193, 0x5_c76c51a30654be30)
    ensures CubeAt(0xd192e819d6ef5218, 197, 0x5_d192e819d6ef5218)
    ensures CubeAt(0xd69906245565a910, 199, 0x5_d69906245565a910)
    ensures CubeAt(0xf40e35855771202a, 211, 0x5_f40e35855771202a)
    ensures CubeAt(0x106aa07032bbd1b8, 223, 0x6_106aa07032bbd1b8)
    ensures CubeAt(0x19a4c116b8d2d0c8, 227, 0x6_19a4c116b8d2d0c8)
    ensures CubeAt(0x1e376c085141ab53, 229, 0x6_1e376c085141ab53)
    ensures CubeAt(0x2748774cdf8eeb99, 233, 0x6_2748774cdf8eeb99)
    ensures CubeAt(0x34b0bcb5e19b48a8, 239, 0x6_34b0bcb5e19b48a8)
    ensures CubeAt(0x391c0cb3c5c95a63, 241, 0x6_391c0cb3c5c95a63)
    ensures CubeAt(0x4ed8aa4ae3418acb, 251, 0x6_4ed8aa4ae3418acb)
    ensures CubeAt(0x5b9cca4f7763e373, 257, 0x6_5b9cca4f7763e373)
    ensures CubeAt(0x682e6ff3d6b2b8a3, 263, 0x6_682e6ff3d6b2b8a3)
    ensures CubeAt(0x748f82ee5defb2fc, 269, 0x6_748f82ee5defb2fc)
    ensures CubeAt(0x78a5636f43172f60, 271, 0x6_78a5636f43172f60)
    ensures CubeAt(0x84c87814a1f0ab72, 277, 0x6_84c87814a1f0ab72)
    ensures CubeAt(0x8cc702081a6439ec, 281, 0x6_8cc702081a6439ec)
  {
  }

  lemma Row40(i: nat)
    requires i < 20
    ensures FromCube(K40[i], P40[i])
  {
    hide CubeAt;
    Roots40();
    CubesFound();
    hide FromCube;
  }

  lemma Roots60()
    ensures CubeAt(0x90befffa23631e28, 283, 0x6_90befffa23631e28)
    ensures CubeAt(0xa4506cebde82bde9, 293, 0x6_a4506cebde82bde9)
    ensures CubeAt(0xbef9a3f7b2c67915, 307, 0x6_bef9a3f7b2c67915)
    ensures CubeAt(0xc67178f2e372532b, 311, 0x6_c67178f2e372532b)
    ensures CubeAt(0xca273eceea26619c, 313, 0x6_ca273eceea26619c)
    ensures CubeAt(0xd186b8c721c0c207, 317, 0x6_d186b8c721c0c207)
    ensures CubeAt(0xeada7dd6cde0eb1e, 331, 0x6_eada7dd6cde0eb1e)
    ensures CubeAt(0xf57d4f7fee6ed178, 337, 0x6_f57d4f7fee6ed178)
    ensures CubeAt(0x06f067aa72176fba, 347, 0x7_06f067aa72176fba)
    ensures CubeAt(0x0a637dc5a2c898a6, 349, 0x7_0a637dc5a2c898a6)
    ensures CubeAt(0x113f9804bef90dae, 353, 0x7_113f9804bef90dae)
    ensures CubeAt(0x1b710b35131c471b, 359, 0x7_1b710b35131c471b)
    ensures CubeAt(0x28db77f523047d84, 367, 0x7_28db77f523047d84)
    ensures CubeAt(0x32caab7b40c72493, 373, 0x7_32caab7b40c72493)
    ensures CubeAt(0x3c9ebe0a15c9bebc, 379, 0x7_3c9ebe0a15c9bebc)
    ensures CubeAt(0x431d67c49c100d4c, 383, 0x7_431d67c49c100d4c)
    ensures CubeAt(0x4cc5d4becb3e42b6, 389, 0x7_4cc5d4becb3e42b6)
    ensures CubeAt(0x597f299cfc657e2a, 397, 0x7_597f299cfc657e2a)
    ensures CubeAt(0x5fcb6fab3ad6faec, 401, 0x7_5fcb6fab3ad6faec)
    ensures CubeAt(0x6c44198c4a475817, 409, 0x7_6c44198c4a475817)
  {
  }

  lemma Row60(i: nat)
    requires i < 20
    ensures FromCube(K60[i], P60[i])
  {
    hide CubeAt;
    Roots60();
    CubesFound();
    hide FromCube;
  }

  /** The constant of round t is the first 64 bits of the fraction of the cube root of
      the t-th prime. */
  lemma RoundConstant(t: nat)
    requires t < 80
    ensures FromCube(K[t], PRIMES[t])
  {
    hide FromCube;
    if
    case t < 20 => Row0(t);
    case 20 <= t < 40 => Row20(t - 20);
    case 40 <= t < 60 => Row40(t - 40);
    case 60 <= t => Row60(t - 60);
  }

  lemma SquareRoots()
    ensures SquareAt(0x6a09e667f3bcc908, 2, 0x1_6a09e667f3bcc908)
    ensures SquareAt(0xbb67ae8584caa73b, 3, 0x1_bb67ae8584caa73b)
    ensures SquareAt(0x3c6ef372fe94f82b, 5, 0x2_3c6ef372fe94f82b)
    ensures SquareAt(0xa54ff53a5f1d36f1, 7, 0x2_a54ff53a5f1d36f1)
    ensures SquareAt(0x510e527fade682d1, 11, 0x3_510e527fade682d1)
    ensures SquareAt(0x9b05688c2b3e6c1f, 13, 0x3_9b05688c2b3e6c1f)
    ensures SquareAt(0x1f83d9abfb41bd6b, 17, 0x4_1f83d9abfb41bd6b)
    ensures SquareAt(0x5be0cd19137e2179, 19, 0x4_5be0cd19137e2179)
  {
  }

  /** The words of the initial value are the first 64 bits of the fractions of the square
      roots of the first eight primes. */
  lemma InitialWord(t: nat)
    requires t < 8
    ensures FromSquare(H0[t], PRIMES[t])
  {
    hide SquareAt;
    SquareRoots();
    SquaresFound();
    hide FromSquare;
    assert PRIMES[t] == P0[t];
  }
}
