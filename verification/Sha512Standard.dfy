/** SHA-512 as FIPS 180-4 defines it: functions and constants (sections 3.2,
    4.1.3 and 4.2.3), padding (section 5.1.2), initial value (section 5.3.5) and the hash
    computation (section 6.4). */
module Sha512Standard {

  const BLOCK_SIZE := 128

  type Octets = seq<bv8>

  /** The eight words of a hash value. */
  type Hash = h: seq<bv64> | |h| == 8 witness [0, 0, 0, 0, 0, 0, 0, 0]

  type Block = b: Octets | |b| == BLOCK_SIZE witness seq(BLOCK_SIZE, _ => 0)

  const K0: seq<bv64> := [
    0x428a2f98d728ae22, 0x7137449123ef65cd, 0xb5c0fbcfec4d3b2f, 0xe9b5dba58189dbbc,
    0x3956c25bf348b538, 0x59f111f1b605d019, 0x923f82a4af194f9b, 0xab1c5ed5da6d8118,
    0xd807aa98a3030242, 0x12835b0145706fbe, 0x243185be4ee4b28c, 0x550c7dc3d5ffb4e2,
    0x72be5d74f27b896f, 0x80deb1fe3b1696b1, 0x9bdc06a725c71235, 0xc19bf174cf692694,
    0xe49b69c19ef14ad2, 0xefbe4786384f25e3, 0x0fc19dc68b8cd5b5, 0x240ca1cc77ac9c65
  ]

  const K20: seq<bv64> := [
    0x2de92c6f592b0275, 0x4a7484aa6ea6e483, 0x5cb0a9dcbd41fbd4, 0x76f988da831153b5,
    0x983e5152ee66dfab, 0xa831c66d2db43210, 0xb00327c898fb213f, 0xbf597fc7beef0ee4,
    0xc6e00bf33da88fc2, 0xd5a79147930aa725, 0x06ca6351e003826f, 0x142929670a0e6e70,
    0x27b70a8546d22ffc, 0x2e1b21385c26c926, 0x4d2c6dfc5ac42aed, 0x53380d139d95b3df,
    0x650a73548baf63de, 0x766a0abb3c77b2a8, 0x81c2c92e47edaee6, 0x92722c851482353b
  ]

  const K40: seq<bv64> := [
    0xa2bfe8a14cf10364, 0xa81a664bbc423001, 0xc24b8b70d0f89791, 0xc76c51a30654be30,
    0xd192e819d6ef5218, 0xd69906245565a910, 0xf40e35855771202a, 0x106aa07032bbd1b8,
    0x19a4c116b8d2d0c8, 0x1e376c085141ab53, 0x2748774cdf8eeb99, 0x34b0bcb5e19b48a8,
    0x391c0cb3c5c95a63, 0x4ed8aa4ae3418acb, 0x5b9cca4f7763e373, 0x682e6ff3d6b2b8a3,
    0x748f82ee5defb2fc, 0x78a5636f43172f60, 0x84c87814a1f0ab72, 0x8cc702081a6439ec
  ]

  const K60: seq<bv64> := [
    0x90befffa23631e28, 0xa4506cebde82bde9, 0xbef9a3f7b2c67915, 0xc67178f2e372532b,
    0xca273eceea26619c, 0xd186b8c721c0c207, 0xeada7dd6cde0eb1e, 0xf57d4f7fee6ed178,
    0x06f067aa72176fba, 0x0a637dc5a2c898a6, 0x113f9804bef90dae, 0x1b710b35131c471b,
    0x28db77f523047d84, 0x32caab7b40c72493, 0x3c9ebe0a15c9bebc, 0x431d67c49c100d4c,
    0x4cc5d4becb3e42b6, 0x597f299cfc657e2a, 0x5fcb6fab3ad6faec, 0x6c44198c4a475817
  ]

  /** The constants of the 80 rounds. */
  const K: seq<bv64> := K0 + K20 + K40 + K60

  const H0: Hash := [
    0x6a09e667f3bcc908, 0xbb67ae8584caa73b, 0x3c6ef372fe94f82b, 0xa54ff53a5f1d36f1,
    0x510e527fade682d1, 0x9b05688c2b3e6c1f, 0x1f83d9abfb41bd6b, 0x5be0cd19137e2179
  ]

  // ---------- Words ----------

  /** Section 3.2. */
  function Rotr(x: bv64, n: bv64): bv64
    requires 0 < n < 64
  {
    (x >> n) | (x << (64 - n))
  }

  /** Addition modulo 2^64. */
  function Add(x: bv64, y: bv64): bv64 { x + y }

  function Ch(x: bv64, y: bv64, z: bv64): bv64 { (x & y) ^ (!x & z) }

  function Maj(x: bv64, y: bv64, z: bv64): bv64 { (x & y) ^ (x & z) ^ (y & z) }

  function Sum0(x: bv64): bv64 { Rotr(x, 28) ^ Rotr(x, 34) ^ Rotr(x, 39) }

  function Sum1(x: bv64): bv64 { Rotr(x, 14) ^ Rotr(x, 18) ^ Rotr(x, 41) }

  function Sigma0(x: bv64): bv64 { Rotr(x, 1) ^ Rotr(x, 8) ^ (x >> 7) }

  function Sigma1(x: bv64): bv64 { Rotr(x, 19) ^ Rotr(x, 61) ^ (x >> 6) }

  /** Eight octets as a word, the first one most significant. */
  function Pack(s: Octets): bv64
    requires |s| == 8
  {
    ((s[0] as bv64) << 56) | ((s[1] as bv64) << 48) | ((s[2] as bv64) << 40) | ((s[3] as bv64) << 32)
    | ((s[4] as bv64) << 24) | ((s[5] as bv64) << 16) | ((s[6] as bv64) << 8) | (s[7] as bv64)
  }

  function Unpack(x: bv64): (s: Octets)
    ensures |s| == 8
  {
    [((x >> 56) & 0xFF) as bv8, ((x >> 48) & 0xFF) as bv8, ((x >> 40) & 0xFF) as bv8, ((x >> 32) & 0xFF) as bv8,
     ((x >> 24) & 0xFF) as bv8, ((x >> 16) & 0xFF) as bv8, ((x >> 8) & 0xFF) as bv8, (x & 0xFF) as bv8]
  }

  function UnpackAll(h: seq<bv64>): (s: Octets)
    ensures |s| == 8 * |h|
  {
    if h == [] then [] else UnpackAll(h[..|h| - 1]) + Unpack(h[|h| - 1])
  }

  // ---------- The hash computation ----------

  /** The first t words of the message schedule. */
  function Schedule(block: Block, t: nat): (w: seq<bv64>)
    requires t <= 80
    ensures |w| == t
  {
    if t == 0 then []
    else
      var w := Schedule(block, t - 1);
      var j := t - 1;
      w + [if j < 16 then Pack(block[8 * j..8 * j + 8])
           else Add(Add(Add(Sigma1(w[j - 2]), w[j - 7]), Sigma0(w[j - 15])), w[j - 16])]
  }

  datatype Working = Working(a: bv64, b: bv64, c: bv64, d: bv64, e: bv64, f: bv64, g: bv64, h: bv64)

  function T1(v: Working, k: bv64, w: bv64): bv64 { Add(Add(Add(Add(v.h, Sum1(v.e)), Ch(v.e, v.f, v.g)), k), w) }

  function T2(v: Working): bv64 { Add(Sum0(v.a), Maj(v.a, v.b, v.c)) }

  function Round(v: Working, k: bv64, w: bv64): Working {
    Working(Add(T1(v, k, w), T2(v)), v.a, v.b, v.c, Add(v.d, T1(v, k, w)), v.e, v.f, v.g)
  }

  /** The working variables after t rounds. */
  function Rounds(v: Working, w: seq<bv64>, t: nat): Working
    requires t <= |w| == 80
  {
    if t == 0 then v else Round(Rounds(v, w, t - 1), K[t - 1], w[t - 1])
  }

  function Start(h: Hash): Working { Working(h[0], h[1], h[2], h[3], h[4], h[5], h[6], h[7]) }

  function AddVariables(h: Hash, v: Working): Hash {
    [Add(h[0], v.a), Add(h[1], v.b), Add(h[2], v.c), Add(h[3], v.d),
     Add(h[4], v.e), Add(h[5], v.f), Add(h[6], v.g), Add(h[7], v.h)]
  }

  function Compress(h: Hash, block: Block): Hash {
    AddVariables(h, Rounds(Start(h), Schedule(block, 80), 80))
  }

  /** Block after block; a last incomplete block is not looked at. */
  function HashBlocks(h: Hash, m: Octets): Hash
    decreases |m|
  {
    if |m| < BLOCK_SIZE then h else HashBlocks(Compress(h, m[..BLOCK_SIZE]), m[BLOCK_SIZE..])
  }

  // ---------- Padding and digest ----------

  /** A number below 256 as an octet. */
  function Octet(n: nat): bv8 {
    (if n % 2 == 1 then 1 else 0) | (if n / 2 % 2 == 1 then 2 else 0) | (if n / 4 % 2 == 1 then 4 else 0)
    | (if n / 8 % 2 == 1 then 8 else 0) | (if n / 16 % 2 == 1 then 16 else 0) | (if n / 32 % 2 == 1 then 32 else 0)
    | (if n / 64 % 2 == 1 then 64 else 0) | (if n / 128 % 2 == 1 then 128 else 0)
  }

  /** The k low octets of n, most significant first. */
  function Field(n: nat, k: nat): (s: Octets)
    ensures |s| == k
  {
    if k == 0 then [] else Field(n / 256, k - 1) + [Octet(n % 256)]
  }

  function Zeros(n: nat): (s: Octets)
    ensures |s| == n
  {
    seq(n, _ => 0)
  }

  /** A one bit, as few zero bits as possible, and the number of message bits in
      128 bits. */
  function Padding(n: nat): Octets {
    [0x80] + Zeros((111 - n) % BLOCK_SIZE) + Field(8 * n, 16)
  }

  lemma PaddingLength(n: nat)
    ensures (111 - n) % BLOCK_SIZE == if n % BLOCK_SIZE <= 111 then 111 - n % BLOCK_SIZE else 239 - n % BLOCK_SIZE
  {
    var q, r := n / BLOCK_SIZE, n % BLOCK_SIZE;
    if r <= 111 {
      assert 111 - n == BLOCK_SIZE * -q + (111 - r);
    } else {
      assert 111 - n == BLOCK_SIZE * (-q - 1) + (239 - r);
    }
  }

  /** The digest of a message. */
  function Digest(m: Octets): (d: Octets)
    ensures |d| == 64
  {
    UnpackAll(HashBlocks(H0, m + Padding(|m|)))
  }
}
