/** Work for the hashers: the base they hash, the ceiling made from a difficulty,
    and the test of a hash against it. */
module Shares {
  import opened Bytes
  import Base64
  import Hex

  const RAW_LENGTH := 32
  const NONCE_SIZE := 64
  const UINT64 := 0x1_0000_0000_0000_0000

  // ---------- Comparing byte strings as numbers ----------

  lemma {:induction false} FromBigEndianParts(a: seq<byte>, b: seq<byte>)
    ensures FromBigEndian(a + b) == FromBigEndian(a) * Pow256(|b|) + FromBigEndian(b)
  {
    if b == [] {
      assert a + b == a;
    } else {
      var n := |b| - 1;
      FromBigEndianParts(a, b[..n]);
      assert (a + b)[..|a + b| - 1] == a + b[..n];
      assert FromBigEndian(a) * (256 * Pow256(n)) == 256 * (FromBigEndian(a) * Pow256(n));
    }
  }

  lemma {:induction false} FromBigEndianBound(s: seq<byte>)
    ensures FromBigEndian(s) < Pow256(|s|)
  {
    if s == [] {
    } else {
      FromBigEndianBound(s[..|s| - 1]);
    }
  }

  function Complement(s: seq<byte>): (r: seq<byte>)
    ensures |r| == |s|
  {
    seq(|s|, i requires 0 <= i < |s| => 255 - s[i])
  }

  lemma {:induction false} ComplementValue(s: seq<byte>)
    ensures FromBigEndian(Complement(s)) == Pow256(|s|) - 1 - FromBigEndian(s)
  {
    if s == [] {
    } else {
      var n := |s| - 1;
      ComplementValue(s[..n]);
      assert Complement(s)[..n] == Complement(s[..n]);
    }
  }

  /** The first difference decides. */
  lemma {:induction false} FirstDifference(a: seq<byte>, b: seq<byte>, i: nat)
    requires |a| == |b| && i < |a| && a[..i] == b[..i] && a[i] < b[i]
    ensures FromBigEndian(a) < FromBigEndian(b)
  {
    var n := |a| - 1;
    if i == n {
      assert a[..n] == b[..n];
    } else {
      assert a[..n][..i] == b[..n][..i];
      FirstDifference(a[..n], b[..n], i);
    }
  }

  // ---------- The ceiling ----------

  /** Two zeros, then the complement of the difficulty's eight bytes. */
  function CeilingBytes(difficulty: nat): (s: seq<byte>)
    ensures |s| == 10
  {
    [0, 0] + Complement(BigEndian(difficulty, 8))
  }

  lemma CeilingValue(difficulty: nat)
    requires difficulty < UINT64
    ensures FromBigEndian(CeilingBytes(difficulty)) == UINT64 - 1 - difficulty
  {
    var c := Complement(BigEndian(difficulty, 8));
    Pow256Values();
    BigEndianInverse(difficulty, 8);
    ComplementValue(BigEndian(difficulty, 8));
    FromBigEndianParts([0, 0], c);
    assert [0, 0][..1] == [0] && [0][..0] == [];
    assert FromBigEndian([0]) == 0;
    hide Pow256;
  }

  lemma {:induction false} BigEndianAt(n: nat, k: nat, i: nat)
    requires i < k
    ensures BigEndian(n, k)[i] == n / Pow256(k - 1 - i) % 256
  {
    if i < k - 1 {
      BigEndianAt(n / 256, k - 1, i);
      DivTwice(n, Pow256(k - 2 - i));
    }
  }

  lemma DivTwice(n: nat, p: nat)
    requires p > 0
    ensures n / 256 / p == n / (256 * p)
  {
    var q, r := n / 256 / p, n / 256 % p;
    assert n / 256 == p * q + r;
    assert 256 * (p * q) == 256 * p * q;
    DivUnique(n, 256 * p, q, 256 * r + n % 256);
  }

  lemma DivUnique(n: nat, d: nat, q: nat, r: nat)
    requires d > 0 && n == d * q + r && r < d
    ensures n / d == q
  {
    NotMore(d, q, r, n / d, n % d);
    NotMore(d, n / d, n % d, q, r);
  }

  lemma NotMore(d: nat, q: nat, r: nat, q': nat, r': nat)
    requires d * q + r == d * q' + r' && r' < d
    ensures q <= q'
  {
    if q > q' {
      MulMonotone(d, q' + 1, q);
      assert false;
    }
  }

  lemma MulMonotone(d: nat, x: nat, y: nat)
    requires x <= y
    ensures d * x <= d * y
  {
  }

  /** miner::calc_hash_ceil. */
  method CalcHashCeil(difficulty: nat) returns (text: string)
    requires difficulty < UINT64
    ensures text == Hex.Encode(CeilingBytes(difficulty))
  {
    var ceil := new byte[10];
    ceil[0], ceil[1] := 0, 0;
    ghost var all := CeilingBytes(difficulty);
    for i := 0 to 8
      invariant ceil[..i + 2] == all[..i + 2]
    {
      BigEndianAt(difficulty, 8, i);
      var cb := difficulty / Pow256(7 - i) % 256;
      ceil[i + 2] := 255 - cb;
      assert all[i + 2] == 255 - cb;
    }
    assert ceil[..10] == ceil[..] == all;
    var output := new char[30];
    Hex.EncodeTo(ceil[..], output);
    text := output[..20];
  }

  // ---------- The share test ----------

  /** The ceiling's missing bytes count as 0xff. */
  function Padded(ceil: seq<byte>, n: nat): (s: seq<byte>)
    ensures |s| == n
  {
    seq(n, i requires 0 <= i < n => if i < |ceil| then ceil[i] else 255)
  }

  predicate Accepts(hash: seq<byte>, ceil: seq<byte>) {
    |hash| >= RAW_LENGTH && FromBigEndian(hash) <= FromBigEndian(Padded(ceil, |hash|))
  }

  /** __check_hash: a scan for the first difference, which compares numbers. */
  method CheckHash(hash: seq<byte>, ceil: seq<byte>) returns (ok: bool)
    ensures ok <==> Accepts(hash, ceil)
  {
    hide FromBigEndian;
    if |hash| < RAW_LENGTH {
      return false;
    }
    ghost var all := Padded(ceil, |hash|);
    for i := 0 to |hash|
      invariant hash[..i] == all[..i]
    {
      var cb: byte := if i < |ceil| then ceil[i] else 255;
      if cb > hash[i] {
        FirstDifference(hash, all, i);
        return true;
      }
      if cb < hash[i] {
        FirstDifference(all, hash, i);
        return false;
      }
    }
    assert hash == hash[..|hash|] == all[..|hash|] == all;
    return true;
  }

  lemma PaddedParts(ceil: seq<byte>, n: nat)
    requires |ceil| <= n
    ensures Padded(ceil, n) == ceil + Complement(seq(n - |ceil|, _ => 0))
  {
  }

  lemma {:induction false} ZerosValue(n: nat)
    ensures FromBigEndian(seq(n, _ => 0)) == 0
  {
    if n == 0 {
    } else {
      assert seq<byte>(n, _ => 0)[..n - 1] == seq<byte>(n - 1, _ => 0);
      ZerosValue(n - 1);
    }
  }

  /** Only as many leading bytes of the hash count as the ceiling has. */
  lemma LeadingBytes(hash: seq<byte>, ceil: seq<byte>)
    requires |ceil| <= |hash|
    ensures FromBigEndian(hash) <= FromBigEndian(Padded(ceil, |hash|))
       <==> FromBigEndian(hash[..|ceil|]) <= FromBigEndian(ceil)
  {
    hide FromBigEndian, Pow256;
    var n := |hash| - |ceil|;
    var zeros: seq<byte> := seq(n, _ => 0);
    var head, tail := hash[..|ceil|], hash[|ceil|..];
    assert hash == head + tail;
    FromBigEndianParts(head, tail);
    FromBigEndianBound(tail);
    PaddedParts(ceil, |hash|);
    FromBigEndianParts(ceil, Complement(zeros));
    ComplementValue(zeros);
    ZerosValue(n);
    Quotients(FromBigEndian(head), FromBigEndian(tail), FromBigEndian(ceil), Pow256(n));
  }

  lemma Quotients(a: nat, b: nat, c: nat, p: nat)
    requires b < p
    ensures a * p + b <= c * p + p - 1 <==> a <= c
  {
    if a <= c {
      assert a * p <= c * p;
    } else {
      assert a * p >= (c + 1) * p;
      assert (c + 1) * p == c * p + p;
    }
  }

  /** The difficulty reaches a hasher as hexadecimal text; a hash of 32 bytes is a
      share if and only if its first ten bytes are at most 2^64 - 1 - difficulty. */
  lemma ShareTest(difficulty: nat, hash: seq<byte>)
    requires difficulty < UINT64 && |hash| == RAW_LENGTH
    ensures var ceil := Hex.Decode(Hex.Encode(CeilingBytes(difficulty)));
            Accepts(hash, ceil) <==> FromBigEndian(hash[..10]) <= UINT64 - 1 - difficulty
  {
    Hex.DecodeEncode(CeilingBytes(difficulty));
    CeilingValue(difficulty);
    LeadingBytes(hash, CeilingBytes(difficulty));
    hide FromBigEndian, CeilingBytes;
  }

  /** A share for one difficulty is a share for every smaller one. */
  lemma HarderIsFewer(easy: nat, hard: nat, hash: seq<byte>)
    requires easy <= hard < UINT64 && |hash| == RAW_LENGTH && Accepts(hash, CeilingBytes(hard))
    ensures Accepts(hash, CeilingBytes(easy))
  {
    hide FromBigEndian, CeilingBytes, Accepts;
    Hex.DecodeEncode(CeilingBytes(easy));
    Hex.DecodeEncode(CeilingBytes(hard));
    ShareTest(easy, hash);
    ShareTest(hard, hash);
  }

  // ---------- The base ----------

  /** __make_base's result, where both parts fit. */
  function Base(checksum: string, solver: string): string {
    Hex.Encode(Base64.Decode(checksum) + Base64.Decode(solver))
  }

  predicate BaseFits(checksum: string, solver: string) {
    |Base64.Decode(checksum)| + |Base64.Decode(solver)| <= 255
  }

  /** hasher::__make_base. */
  method MakeBase(checksum: string, solver: string) returns (text: string)
    requires BaseFits(checksum, solver)
    ensures text == Base(checksum, solver)
  {
    var blk := new byte[256];
    var slv := new byte[256];
    var output := new char[512];
    var blkSize := Base64.DecodeTo(checksum, blk, 256);
    var slvSize := Base64.DecodeTo(solver, slv, 256);
    var input := blk[..blkSize] + slv[..slvSize];
    Hex.EncodeTo(input, output);
    text := output[..2 * |input|];
  }

  /** What a hasher decodes is what the pool encoded. */
  lemma BasePipeline(x: seq<byte>, y: seq<byte>)
    requires |x| + |y| <= 255
    ensures BaseFits(Base64.Encode(x), Base64.Encode(y))
    ensures Hex.Decode(Base(Base64.Encode(x), Base64.Encode(y))) == x + y
  {
    Base64.DecodeEncode(x);
    Base64.DecodeEncode(y);
    Hex.DecodeEncode(x + y);
  }

  // ---------- Results ----------

  datatype HashData = HashData(nonce: string, checksum: string, ceil: string, base: string)

  /** The results of one batch: one for every accepted hash, in order, each with
      its nonce and otherwise the input's fields. */
  function Results(input: HashData, nonces: seq<seq<byte>>, hashes: seq<seq<byte>>): (r: seq<HashData>)
    requires |nonces| == |hashes|
    ensures forall h :: h in r ==> h == input.(nonce := h.nonce)
  {
    if hashes == [] then []
    else
      var rest := Results(input, nonces[1..], hashes[1..]);
      if Accepts(hashes[0], Hex.Decode(input.ceil)) then [input.(nonce := Hex.Encode(nonces[0]))] + rest else rest
  }

  lemma {:induction false} ResultsSnoc(input: HashData, nonces: seq<seq<byte>>, hashes: seq<seq<byte>>, i: nat)
    requires |nonces| == |hashes| && i < |hashes|
    ensures Results(input, nonces[..i + 1], hashes[..i + 1])
         == Results(input, nonces[..i], hashes[..i])
            + (if Accepts(hashes[i], Hex.Decode(input.ceil)) then [input.(nonce := Hex.Encode(nonces[i]))] else [])
  {
    hide Accepts;
    if i == 0 {
      assert hashes[..1][1..] == [] && nonces[..1][1..] == [];
    } else {
      assert hashes[..i + 1][1..] == hashes[1..][..i] && nonces[..i + 1][1..] == nonces[1..][..i];
      assert hashes[..i][1..] == hashes[1..][..i - 1] && nonces[..i][1..] == nonces[1..][..i - 1];
      ResultsSnoc(input, nonces[1..], hashes[1..], i - 1);
    }
  }

  /** The accept loop of encode_hashes: input's own nonce field is overwritten. */
  method EncodeHashes(input: HashData, nonces: seq<seq<byte>>, hashes: seq<seq<byte>>)
    returns (count: nat, results: seq<HashData>)
    requires |nonces| == |hashes|
    requires forall i :: 0 <= i < |nonces| ==> |nonces[i]| == NONCE_SIZE
    requires |input.ceil| <= 20 && |input.ceil| % 2 == 0
    ensures count == |hashes| && results == Results(input, nonces, hashes)
  {
    hide Accepts, Results;
    var encoded := new char[NONCE_SIZE * 2 + 1];
    var byteCeil := new byte[10];
    var n := Hex.DecodeTo(input.ceil, byteCeil);
    results := [];
    var current := input;
    assert results == Results(input, nonces[..0], hashes[..0]) by {
      NoResults(input, nonces[..0], hashes[..0]);
    }
    for i := 0 to |hashes|
      invariant results == Results(input, nonces[..i], hashes[..i]) && current == input.(nonce := current.nonce)
      invariant byteCeil[..(|input.ceil| + 1) / 2] == Hex.Decode(input.ceil)
    {
      ResultsSnoc(input, nonces, hashes, i);
      var ok := CheckHash(hashes[i], byteCeil[..n]);
      if ok {
        Hex.EncodeTo(nonces[i], encoded);
        current := current.(nonce := encoded[..NONCE_SIZE * 2]);
        results := results + [current];
      }
    }
    assert nonces[..|nonces|] == nonces && hashes[..|hashes|] == hashes;
    count := |hashes|;
  }

  lemma NoResults(input: HashData, nonces: seq<seq<byte>>, hashes: seq<seq<byte>>)
    requires |nonces| == |hashes| == 0
    ensures Results(input, nonces, hashes) == []
  {
  }
}
