/** WebSocket frames (sections 5.2 and 5.3 of RFC 6455) and the functions that
    write them. */
module WebSocketFrames {
  import opened Bytes

  /** What a data handler is given: the first byte of the frame and the
      unmasked payload. */
  datatype Message = Message(mop: byte, payload: seq<byte>)

  // ---------- Masking ----------

  /** Section 5.3: byte i is combined with byte i mod 4 of the key. */
  function Masked(data: seq<byte>, mask: seq<byte>): (r: seq<byte>)
    requires |mask| == 4
    ensures |r| == |data|
  {
    seq(|data|, i requires 0 <= i < |data| => XorByte(data[i], mask[i % 4]))
  }

  lemma MaskTwice(data: seq<byte>, mask: seq<byte>)
    requires |mask| == 4
    ensures Masked(Masked(data, mask), mask) == data
  {
    Pow2Values();
    forall i | 0 <= i < |data| ensures Masked(Masked(data, mask), mask)[i] == data[i] {
      XorTwice(8, data[i], mask[i % 4]);
    }
  }

  /** A zero key changes nothing. */
  lemma MaskZero(data: seq<byte>)
    ensures Masked(data, [0, 0, 0, 0]) == data
  {
    Pow2Values();
    forall i | 0 <= i < |data| ensures Masked(data, [0, 0, 0, 0])[i] == data[i] {
      assert [0, 0, 0, 0][i % 4] == 0;
      XorZero(8, data[i]);
    }
  }

  lemma MaskedAt(data: seq<byte>, mask: seq<byte>, i: nat, k: nat)
    requires |mask| == 4 && i % 4 == 0 && k < 4 && i + k < |data|
    ensures Masked(data, mask)[i + k] == XorByte(data[i + k], mask[k])
  {
    assert (i + k) % 4 == k;
  }

  /** One word of mask_data: four bytes loaded, combined with the key, stored. */
  lemma MaskedWord(input: seq<byte>, key: word, i: nat)
    requires i + 4 <= |input| && i % 4 == 0
    ensures WordBytes(XorWord(Word(input[i], input[i + 1], input[i + 2], input[i + 3]), key))
         == Masked(input, WordBytes(key))[i..i + 4]
  {
    hide Word, XorByte, XorWord, Masked, WordBytes;
    var mask := WordBytes(key);
    PartsWord(key);
    XorWordParts(input[i], input[i + 1], input[i + 2], input[i + 3], mask[0], mask[1], mask[2], mask[3]);
    WordParts(XorByte(input[i], mask[0]), XorByte(input[i + 1], mask[1]),
              XorByte(input[i + 2], mask[2]), XorByte(input[i + 3], mask[3]));
    MaskedAt(input, mask, i, 0);
    MaskedAt(input, mask, i, 1);
    MaskedAt(input, mask, i, 2);
    MaskedAt(input, mask, i, 3);
  }

  lemma MaskedByte(input: seq<byte>, mask: seq<byte>, i: nat)
    requires |mask| == 4 && i < |input|
    ensures Masked(input, mask)[i..i + 1] == [XorByte(input[i], mask[i % 4])]
  {
  }

  /** A store of several bytes into a buffer. */
  method Store(a: array<byte>, at: nat, s: seq<byte>)
    requires at + |s| <= a.Length
    modifies a
    ensures a[..at] == old(a[..at]) && a[at..at + |s|] == s && a[at + |s|..] == old(a[at + |s|..])
  {
    forall k | 0 <= k < |s| {
      a[at + k] := s[k];
    }
  }

  /** What is stored behind a prefix that is done extends it. */
  lemma PrefixGrows(output: seq<byte>, masked: seq<byte>, i: nat, n: nat)
    requires i + n <= |output| && i + n <= |masked|
    requires output[..i] == masked[..i] && output[i..i + n] == masked[i..i + n]
    ensures output[..i + n] == masked[..i + n]
  {
    assert output[..i + n] == output[..i] + output[i..i + n];
    assert masked[..i + n] == masked[..i] + masked[i..i + n];
  }

  lemma SuffixKept(output: seq<byte>, was: seq<byte>, i: nat, n: nat)
    requires i <= n <= |output| == |was| && output[i..] == was[i..]
    ensures output[n..] == was[n..]
  {
    assert output[n..] == output[i..][n - i..] && was[n..] == was[i..][n - i..];
  }

  /** mask_data: word by word if the input is aligned, the rest byte by byte. */
  method MaskData(input: seq<byte>, aligned: bool, key: word, output: array<byte>)
    requires |input| <= output.Length
    modifies output
    ensures output[..|input|] == Masked(input, WordBytes(key))
    ensures output[|input|..] == old(output[|input|..])
  {
    hide Word, WordBytes, XorByte, XorWord, Masked;
    ghost var masked := Masked(input, WordBytes(key));
    var i := 0;
    if |input| > 3 && aligned {
      while i < |input| - 3
        invariant 0 <= i <= |input| && i % 4 == 0
        invariant output[..i] == masked[..i] && output[|input|..] == old(output[|input|..])
      {
        ghost var was := output[..];
        MaskedWord(input, key, i);
        Store(output, i, WordBytes(XorWord(Word(input[i], input[i + 1], input[i + 2], input[i + 3]), key)));
        PrefixGrows(output[..], masked, i, 4);
        SuffixKept(output[..], was, i + 4, |input|);
        i := i + 4;
      }
    }
    while i < |input|
      invariant 0 <= i <= |input|
      invariant output[..i] == masked[..i] && output[|input|..] == old(output[|input|..])
    {
      MaskedByte(input, WordBytes(key), i);
      output[i] := XorByte(input[i], WordBytes(key)[i % 4]);
      assert output[i..i + 1] == [output[i]];
      PrefixGrows(output[..], masked, i, 1);
      i := i + 1;
    }
    assert masked[..|input|] == masked;
  }

  // ---------- The layout of a frame ----------

  /** The length field: seven bits, or seven bits that announce 2 or 8 bytes. */
  function LengthCode(n: nat): (c: nat)
    ensures c < 128
  {
    if n < 126 then n else if n <= 0xFFFF then 126 else 127
  }

  function ExtensionSize(n: nat): (k: nat)
    ensures k == 0 || k == 2 || k == 8
  {
    if n < 126 then 0 else if n <= 0xFFFF then 2 else 8
  }

  function LengthExtension(n: nat): (s: seq<byte>)
    ensures |s| == ExtensionSize(n)
  {
    BigEndian(n, ExtensionSize(n))
  }

  /** Final bit and opcode, mask bit and length code. */
  function FirstTwo(opcode: int, n: nat, masked: bool): (s: seq<byte>)
    ensures |s| == 2
  {
    [0x80 + opcode % 16, LengthCode(n) + (if masked then 0x80 else 0)]
  }

  /** The header of a final frame; a zero key means an unmasked frame. */
  function Header(opcode: int, n: nat, key: word): seq<byte> {
    FirstTwo(opcode, n, key != 0) + LengthExtension(n) + (if key != 0 then WordBytes(key) else [])
  }

  /** A message as it is written: header, then masked payload. */
  function Frame(opcode: int, payload: seq<byte>, key: word): seq<byte> {
    Header(opcode, |payload|, key) + Masked(payload, WordBytes(key))
  }

  // ---------- The writers ----------

  class Writer {
    var sent: seq<byte>

    constructor ()
      ensures sent == []
    {
      sent := [];
    }

    /** mg_write, with a peer that takes all bytes. */
    method Write(data: seq<byte>) returns (n: int)
      modifies this
      ensures sent == old(sent) + data && n == |data|
    {
      sent := sent + data;
      n := |data|;
    }

    /** mg_websocket_write_exec. */
    method WriteExec(opcode: int, data: seq<byte>, key: word) returns (retval: int)
      requires |data| < 0x1_0000_0000_0000_0000
      modifies this
      ensures sent == old(sent) + (Header(opcode, |data|, key) + data)
      ensures retval == if data == [] then |Header(opcode, 0, key)| else |data|
    {
      hide Header;
      var header := new byte[14];
      var headerLen := FillHeader(header, opcode, |data|, key);
      retval := Write(header[..headerLen]);
      if |data| > 0 {
        retval := Write(data);
      }
    }

    /** mg_websocket_write. */
    method ServerWrite(opcode: int, data: seq<byte>) returns (retval: int)
      requires |data| < 0x1_0000_0000_0000_0000
      modifies this
      ensures sent == old(sent) + Frame(opcode, data, 0)
    {
      retval := WriteExec(opcode, data, 0);
      assert WordBytes(0) == [0, 0, 0, 0];
      MaskZero(data);
    }

    /** mg_websocket_client_write; the alignment of data and the random key are
        parameters. */
    method ClientWrite(opcode: int, data: seq<byte>, aligned: bool, key: word) returns (retval: int)
      requires |data| < 0x1_0000_0000_0000_0000
      modifies this
      ensures sent == old(sent) + Frame(opcode, data, key)
    {
      hide Header, Masked;
      var masked := new byte[(|data| + 7) / 4 * 4];
      MaskData(data, aligned, key, masked);
      retval := WriteExec(opcode, masked[..|data|], key);
    }
  }

  /** The part of mg_websocket_write_exec that lays out the header. */
  method FillHeader(header: array<byte>, opcode: int, n: nat, key: word) returns (headerLen: nat)
    requires header.Length == 14 && n < 0x1_0000_0000_0000_0000
    modifies header
    ensures headerLen <= 14 && header[..headerLen] == Header(opcode, n, key)
  {
    hide WordBytes, BigEndian;
    header[0] := 0x80 + opcode % 16;
    if n < 126 {
      header[1] := n;
      headerLen := 2;
    } else if n <= 0xFFFF {
      header[1] := 126;
      assert header[..2] == FirstTwo(opcode, n, false);
      Store(header, 2, BigEndian(n, 2));
      headerLen := 4;
    } else {
      header[1] := 127;
      assert header[..2] == FirstTwo(opcode, n, false);
      Store(header, 2, BigEndian(n / 0x1_0000_0000, 4));
      ghost var six := header[..6];
      assert six[..2] == FirstTwo(opcode, n, false);
      Store(header, 6, BigEndian(n % 0x1_0000_0000, 4));
      headerLen := 10;
      BigEndianHalves(n);
      assert header[..6] == six && header[..2] == six[..2] && header[2..6] == six[2..6];
      assert header[2..10] == header[2..6] + header[6..10];
    }
    assert header[..2] == FirstTwo(opcode, n, false);
    assert header[..headerLen] == header[..2] + LengthExtension(n);
    if key != 0 {
      header[1] := header[1] + 0x80;
      assert header[..2] == FirstTwo(opcode, n, true);
      assert header[..headerLen] == header[..2] + LengthExtension(n);
      Store(header, headerLen, WordBytes(key));
      headerLen := headerLen + 4;
    }
  }
}
