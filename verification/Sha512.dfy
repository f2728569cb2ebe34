/** Streaming SHA-512: block splitting, buffering and padding, against the
    standard's digest of the whole message. */
module Sha512 {
  import opened Bytes
  import opened Sha512Standard

  const WORD32 := 0x1_0000_0000

  // ---------- Blocks ----------

  lemma {:induction false} HashAppend(h: Hash, m: Octets, more: Octets)
    requires |m| % BLOCK_SIZE == 0
    ensures HashBlocks(h, m + more) == HashBlocks(HashBlocks(h, m), more)
    decreases |m|
  {
    hide Compress;
    if m == [] {
      assert m + more == more;
    } else {
      assert (m + more)[..BLOCK_SIZE] == m[..BLOCK_SIZE];
      assert (m + more)[BLOCK_SIZE..] == m[BLOCK_SIZE..] + more;
      HashAppend(Compress(h, m[..BLOCK_SIZE]), m[BLOCK_SIZE..], more);
    }
  }

  lemma HashOne(h: Hash, block: Block)
    ensures HashBlocks(h, block) == Compress(h, block)
  {
    hide Compress;
    assert block[..BLOCK_SIZE] == block;
  }

  // ---------- The padding that final writes ----------

  /** Like Padding, except that the length field holds 32 bits. */
  function WrittenPadding(n: nat): Octets {
    [0x80] + Zeros((111 - n) % BLOCK_SIZE + 12) + Field(8 * n % WORD32, 4)
  }

  lemma OctetZero(n: nat)
    requires n < 256
    ensures Octet(n) == 0 <==> n == 0
  {
    if n != 0 {
      var m := if n % 2 == 1 then 1 else if n / 2 % 2 == 1 then 2 else if n / 4 % 2 == 1 then 4
               else if n / 8 % 2 == 1 then 8 else if n / 16 % 2 == 1 then 16 else if n / 32 % 2 == 1 then 32
               else if n / 64 % 2 == 1 then 64 else 128 as bv8;
      assert Octet(n) & m == m;
    }
  }

  lemma {:induction false} FieldParts(high: nat, low: nat, j: nat, k: nat)
    requires low < Pow256(k)
    ensures Field(Pow256(k) * high + low, j + k) == Field(high, j) + Field(low, k)
  {
    hide Octet;
    if k == 0 {
      assert Field(high, j) + [] == Field(high, j);
    } else {
      var p := Pow256(k - 1) * high;
      assert Pow256(k) * high == 256 * p;
      assert (256 * p + low) / 256 == p + low / 256 && (256 * p + low) % 256 == low % 256;
      FieldParts(high, low / 256, j, k - 1);
      assert Field(high, j) + (Field(low / 256, k - 1) + [Octet(low % 256)])
          == Field(high, j) + Field(low / 256, k - 1) + [Octet(low % 256)];
    }
  }

  lemma {:induction false} FieldZero(n: nat, k: nat)
    requires n < Pow256(k)
    ensures Field(n, k) == Zeros(k) <==> n == 0
  {
    if k == 0 {
    } else {
      FieldZero(n / 256, k - 1);
      OctetZero(n % 256);
      assert Zeros(k)[..k - 1] == Zeros(k - 1) && Field(n, k)[..k - 1] == Field(n / 256, k - 1);
      assert Zeros(k) == Zeros(k - 1) + [0];
      hide Octet;
    }
  }

  /** The padding that final writes is the standard's if and only if the message
      is shorter than 2^29 bytes (of all messages the standard allows). */
  lemma PaddingExact(n: nat)
    requires 8 * n < 0x1_0000_0000 * Pow256(12)
    ensures WrittenPadding(n) == Padding(n) <==> n < 0x2000_0000
  {
    hide Field, Pow256, Zeros, Octet;
    var high, low := 8 * n / WORD32, 8 * n % WORD32;
    Pow256Values();
    FieldParts(high, low, 12, 4);
    FieldZero(high, 12);
    var z := (111 - n) % BLOCK_SIZE;
    ZerosParts(z, 12);
    var h: Octets := [0x80] + Zeros(z);
    assert WrittenPadding(n) == h + (Zeros(12) + Field(low, 4));
    assert Padding(n) == h + (Field(high, 12) + Field(low, 4));
    if WrittenPadding(n) == Padding(n) {
      assert (h + (Zeros(12) + Field(low, 4)))[|h|..|h| + 12] == Zeros(12);
      assert (h + (Field(high, 12) + Field(low, 4)))[|h|..|h| + 12] == Field(high, 12);
    }
  }

  lemma ZerosParts(a: nat, b: nat)
    ensures Zeros(a + b) == Zeros(a) + Zeros(b)
  {
  }

  // ---------- The hasher ----------

  class Hasher {
    /** m_h, m_block, m_len and m_tot_len; the last two are 32-bit. */
    const h: array<bv64>
    const block: array<bv8>
    var len: nat
    var totLen: nat
    /** Every byte given to Update since Init. */
    ghost var fed: Octets

    ghost predicate Shape()
      reads this
    {
      h.Length == 8 && block.Length == 2 * BLOCK_SIZE
    }

    /** m_h is the hash of all complete blocks, m_block starts with the rest. */
    ghost predicate Valid()
      reads this, h, block
    {
      && Shape() && len < BLOCK_SIZE && len <= |fed| && (|fed| - len) % BLOCK_SIZE == 0
      && h[..] == HashBlocks(H0, fed[..|fed| - len])
      && block[..len] == fed[|fed| - len..]
      && totLen == (|fed| - len) % WORD32
    }

    constructor ()
      ensures Shape() && fresh(h) && fresh(block)
    {
      h := new bv64[8];
      block := new bv8[2 * BLOCK_SIZE];
    }

    method Init()
      requires Shape()
      modifies this, h
      ensures Valid() && fed == []
    {
      h[0] := 0x6a09e667f3bcc908;
      h[1] := 0xbb67ae8584caa73b;
      h[2] := 0x3c6ef372fe94f82b;
      h[3] := 0xa54ff53a5f1d36f1;
      h[4] := 0x510e527fade682d1;
      h[5] := 0x9b05688c2b3e6c1f;
      h[6] := 0x1f83d9abfb41bd6b;
      h[7] := 0x5be0cd19137e2179;
      len, totLen, fed := 0, 0, [];
      assert h[..] == H0;
    }

    /** transform: blockNb blocks at the front of message. */
    method Transform(message: Octets, blockNb: nat)
      requires Shape() && BLOCK_SIZE * blockNb <= |message|
      modifies h
      ensures h[..] == HashBlocks(old(h[..]), message[..BLOCK_SIZE * blockNb])
    {
      hide Compress;
      for i := 0 to blockNb
        invariant h[..] == HashBlocks(old(h[..]), message[..BLOCK_SIZE * i])
      {
        ghost var before: Hash := h[..];
        var subBlock := message[BLOCK_SIZE * i..BLOCK_SIZE * (i + 1)];
        TransformOne(subBlock);
        assert message[..BLOCK_SIZE * (i + 1)] == message[..BLOCK_SIZE * i] + subBlock;
        HashAppend(old(h[..]), message[..BLOCK_SIZE * i], subBlock);
        HashOne(before, subBlock);
      }
    }

    /** The body of transform's loop. */
    method TransformOne(subBlock: Block)
      requires Shape()
      modifies h
      ensures h[..] == Compress(old(h[..]), subBlock)
    {
      hide Add, AddVariables, Schedule, Rounds;
      var w := new bv64[80];
      FillSchedule(subBlock, w);
      var words := w[..];
      var wv := new bv64[8];
      for j := 0 to 8
        invariant h[..] == old(h[..]) && wv[..j] == h[..j]
      {
        wv[j] := h[j];
      }
      assert wv[..] == wv[..8] == h[..8] == h[..];
      RunRounds(words, wv);
      assert h[..] == old(h[..]);
      AddTo(h, wv[..]);
    }

    method Update(message: Octets)
      requires Valid() && |message| < 0x8000_0000
      modifies this, block, h
      ensures Valid() && fed == old(fed) + message
    {
      hide HashBlocks;
      var tmpLen := BLOCK_SIZE - len;
      var remLen := if |message| < tmpLen then |message| else tmpLen;
      ghost var whole, tail := fed[..|fed| - len], fed[|fed| - len..];
      Store(block, len, message[..remLen]);
      assert block[..len + remLen] == tail + message[..remLen];
      fed := fed + message;
      assert fed == whole + tail + message;
      if len + |message| < BLOCK_SIZE {
        len := len + |message|;
        assert fed[..|fed| - len] == whole && fed[|fed| - len..] == tail + message;
        return;
      }
      FullBlocks(message, remLen, whole, tail);
    }

    /** The end of update, when the message completes the block. */
    method FullBlocks(message: Octets, filled: nat, ghost whole: Octets, ghost tail: Octets)
      requires Shape() && filled <= |message| && len == |tail| && |tail| + filled == BLOCK_SIZE
      requires |whole| % BLOCK_SIZE == 0 && totLen == |whole| % WORD32 && h[..] == HashBlocks(H0, whole)
      requires fed == whole + tail + message && block[..BLOCK_SIZE] == tail + message[..filled]
      modifies `len, `totLen, block, h
      ensures Valid()
    {
      hide HashBlocks;
      var newLen := |message| - filled;
      var blockNb := newLen / BLOCK_SIZE;
      var shifted := message[filled..];
      ghost var first, done := tail + message[..filled], shifted[..BLOCK_SIZE * blockNb];
      assert block[..][..BLOCK_SIZE] == first;
      Transform(block[..], 1);
      Transform(shifted, blockNb);
      assert h[..] == HashBlocks(H0, whole + first + done) by {
        UpdateHash(whole, first, done);
      }
      var remLen := newLen % BLOCK_SIZE;
      Store(block, 0, shifted[blockNb * BLOCK_SIZE..blockNb * BLOCK_SIZE + remLen]);
      len := remLen;
      totLen := (totLen + (blockNb + 1) * BLOCK_SIZE) % WORD32;
      FedSplit(whole, tail, message, blockNb);
      assert |fed| - len == |whole| + BLOCK_SIZE * (blockNb + 1);
      assert block[..len] == fed[|fed| - len..];
      assert (|whole| + (blockNb + 1) * BLOCK_SIZE) % WORD32 == totLen;
    }

    /** final: afterwards the hasher needs Init again. */
    method Final(digest: array<bv8>)
      requires Valid() && digest.Length == 64
      modifies h, block, digest
      ensures digest[..] == UnpackAll(HashBlocks(H0, fed + WrittenPadding(|fed|)))
      ensures |fed| < 0x2000_0000 ==> digest[..] == Digest(fed)
    {
      hide HashBlocks, UnpackAll, WrittenPadding, Digest, BitLength;
      var blockNb := if BLOCK_SIZE - 17 < len % BLOCK_SIZE then 2 else 1;
      var lenB := BitLength(totLen, len);
      LengthField(|fed|, totLen, len);
      var pmLen := blockNb * BLOCK_SIZE;
      PadBlock(block, len, pmLen, lenB, |fed|);
      FinalHash(fed, |fed| - len, block[..pmLen]);
      Transform(block[..], blockNb);
      assert block[..][..pmLen] == block[..pmLen];
      WriteDigest(h[..], digest);
      if |fed| < 0x2000_0000 {
        DigestOf(fed);
      }
    }
  }

  /** Block after block or all at once. */
  lemma UpdateHash(whole: Octets, first: Octets, done: Octets)
    requires |whole| % BLOCK_SIZE == |first| % BLOCK_SIZE == 0
    ensures HashBlocks(HashBlocks(HashBlocks(H0, whole), first), done) == HashBlocks(H0, whole + first + done)
  {
    hide HashBlocks;
    HashAppend(H0, whole, first);
    HashAppend(H0, whole + first, done);
  }

  lemma FinalHash(fed: Octets, cut: nat, last: Octets)
    requires cut <= |fed| && cut % BLOCK_SIZE == 0 && last == fed[cut..] + WrittenPadding(|fed|)
    ensures HashBlocks(HashBlocks(H0, fed[..cut]), last) == HashBlocks(H0, fed + WrittenPadding(|fed|))
  {
    hide HashBlocks, WrittenPadding;
    HashAppend(H0, fed[..cut], last);
    assert fed + WrittenPadding(|fed|) == fed[..cut] + (fed[cut..] + WrittenPadding(|fed|));
  }

  /** Where update cuts the bytes it has been given. */
  lemma FedSplit(whole: Octets, tail: Octets, message: Octets, blockNb: nat)
    requires |tail| <= BLOCK_SIZE <= |tail| + |message| && |whole| % BLOCK_SIZE == 0
    requires BLOCK_SIZE * blockNb <= |tail| + |message| - BLOCK_SIZE
    ensures var fed := whole + tail + message;
            var rem := BLOCK_SIZE - |tail|;
            var shifted := message[rem..];
            var cut := |whole| + BLOCK_SIZE * (blockNb + 1);
            && cut <= |fed| && cut % BLOCK_SIZE == 0
            && fed[..cut] == whole + (tail + message[..rem]) + shifted[..BLOCK_SIZE * blockNb]
            && fed[cut..] == shifted[BLOCK_SIZE * blockNb..]
  {
  }

  lemma Small(n: nat)
    requires n < 0x2000_0000
    ensures 8 * n < 0x1_0000_0000 * Pow256(12)
  {
    assert Pow256(12) >= 1;
    assert 0x1_0000_0000 * Pow256(12) >= 0x1_0000_0000;
  }

  lemma DigestOf(m: Octets)
    requires |m| < 0x2000_0000
    ensures UnpackAll(HashBlocks(H0, m + WrittenPadding(|m|))) == Digest(m)
  {
    hide HashBlocks, UnpackAll, WrittenPadding;
    Small(|m|);
    PaddingExact(|m|);
  }

  /** len_b, with its two wraps. */
  function BitLength(totLen: nat, len: nat): nat { (totLen + len) % WORD32 * 8 % WORD32 }

  lemma LengthField(n: nat, totLen: nat, len: nat)
    requires len <= n && len < BLOCK_SIZE && (n - len) % BLOCK_SIZE == 0 && totLen == (n - len) % WORD32
    ensures BitLength(totLen, len) == 8 * n % WORD32 && len == n % BLOCK_SIZE
  {
    assert (totLen + len) % WORD32 == n % WORD32;
  }

  /** memset and the two stores of final. */
  method PadBlock(block: array<bv8>, len: nat, pmLen: nat, lenB: nat, ghost n: nat)
    requires block.Length == 2 * BLOCK_SIZE && len == n % BLOCK_SIZE && lenB == 8 * n % WORD32
    requires pmLen == if 111 < len then 256 else 128
    modifies block
    ensures block[..pmLen] == old(block[..len]) + WrittenPadding(n)
  {
    hide Field;
    PaddingLength(n);
    Store(block, len, Zeros(pmLen - len));
    assert block[len..pmLen] == Zeros(pmLen - len);
    block[len] := 0x80;
    ghost var z := (111 - n) % BLOCK_SIZE + 12;
    ghost var front := old(block[..len]) + [0x80] + Zeros(z);
    forall k | 0 <= k < pmLen - 4 ensures block[k] == front[k] {
      assert k > len ==> block[k] == block[len + 1..pmLen][k - len - 1];
    }
    Store(block, pmLen - 4, Field(lenB, 4));
    assert block[..pmLen - 4] == front;
  }

  method Store(a: array<bv8>, at: nat, s: Octets)
    requires at + |s| <= a.Length
    modifies a
    ensures a[..at] == old(a[..at]) && a[at..at + |s|] == s && a[at + |s|..] == old(a[at + |s|..])
  {
    forall k | 0 <= k < |s| {
      a[at + k] := s[k];
    }
  }

  method WriteDigest(h: seq<bv64>, digest: array<bv8>)
    requires |h| == 8 && digest.Length == 64
    modifies digest
    ensures digest[..] == UnpackAll(h)
  {
    hide Unpack;
    for i := 0 to 8
      invariant digest[..8 * i] == UnpackAll(h[..i])
    {
      assert h[..i + 1][..i] == h[..i];
      Store(digest, 8 * i, Unpack(h[i]));
    }
    assert h[..8] == h && digest[..64] == digest[..];
  }

  method AddTo(h: array<bv64>, wv: seq<bv64>)
    requires h.Length == |wv| == 8
    modifies h
    ensures h[..] == AddVariables(old(h[..]), Start(wv))
  {
    hide Add;
    for j := 0 to 8
      invariant forall k :: 0 <= k < j ==> h[k] == Add(old(h[k]), wv[k])
      invariant forall k :: j <= k < 8 ==> h[k] == old(h[k])
    {
      h[j] := Add(h[j], wv[j]);
    }
  }

  /** SHA512::hash. */
  method Hash512(input: Octets) returns (digest: array<bv8>)
    requires |input| < 0x8000_0000
    ensures fresh(digest) && digest.Length == 64
    ensures digest[..] == UnpackAll(HashBlocks(H0, input + WrittenPadding(|input|)))
    ensures |input| < 0x2000_0000 ==> digest[..] == Digest(input)
  {
    digest := new bv8[64](_ => 0);
    var ctx := new Hasher();
    ctx.Init();
    ctx.Update(input);
    assert ctx.fed == input;
    ctx.Final(digest);
  }

  function Variables(wv: array<bv64>): Working
    requires wv.Length == 8
    reads wv
  {
    Start(wv[..])
  }

  lemma ScheduleStep(block: Block, j: nat)
    requires j < 80
    ensures var w := Schedule(block, j);
            Schedule(block, j + 1) == w + [if j < 16 then Pack(block[8 * j..8 * j + 8])
                                           else Add(Add(Add(Sigma1(w[j - 2]), w[j - 7]), Sigma0(w[j - 15])), w[j - 16])]
  {
    hide Add, Pack, Sigma0, Sigma1;
  }

  method FillSchedule(subBlock: Block, w: array<bv64>)
    requires w.Length == 80
    modifies w
    ensures w[..] == Schedule(subBlock, 80)
  {
    hide Add, Pack, Sigma0, Sigma1, Schedule;
    assert Schedule(subBlock, 0) == [];
    for j := 0 to 16
      invariant w[..j] == Schedule(subBlock, j)
    {
      ScheduleStep(subBlock, j);
      w[j] := Pack(subBlock[8 * j..8 * j + 8]);
      assert w[..j + 1] == w[..j] + [w[j]];
    }
    for j := 16 to 80
      invariant w[..j] == Schedule(subBlock, j)
    {
      ScheduleStep(subBlock, j);
      ghost var before := w[..j];
      w[j] := Add(Add(Add(Sigma1(w[j - 2]), w[j - 7]), Sigma0(w[j - 15])), w[j - 16]);
      assert w[..j + 1] == before + [w[j]];
    }
    assert w[..80] == w[..];
  }

  /** The body of transform's loop over the rounds. */
  method OneRound(wv: array<bv64>, k: bv64, w: bv64)
    requires wv.Length == 8
    modifies wv
    ensures Variables(wv) == Round(old(Variables(wv)), k, w)
  {
    hide Add, Ch, Maj, Sum0, Sum1;
    var t1 := Add(Add(Add(Add(wv[7], Sum1(wv[4])), Ch(wv[4], wv[5], wv[6])), k), w);
    var t2 := Add(Sum0(wv[0]), Maj(wv[0], wv[1], wv[2]));
    wv[7] := wv[6];
    wv[6] := wv[5];
    wv[5] := wv[4];
    wv[4] := Add(wv[3], t1);
    wv[3] := wv[2];
    wv[2] := wv[1];
    wv[1] := wv[0];
    wv[0] := Add(t1, t2);
  }

  method RunRounds(w: seq<bv64>, wv: array<bv64>)
    requires |w| == 80 && wv.Length == 8
    modifies wv
    ensures Variables(wv) == Rounds(old(Variables(wv)), w, 80)
  {
    hide Round, Variables;
    for j := 0 to 80
      invariant Variables(wv) == Rounds(old(Variables(wv)), w, j)
    {
      OneRound(wv, K[j], w[j]);
    }
  }
}
