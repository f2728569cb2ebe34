/** Base 64 (section 4 of RFC 4648). */
module Base64 {
  import opened Bytes

  type sextet = n: int | 0 <= n < 64

  predicate IsBase64(c: char) {
    'A' <= c <= 'Z' || 'a' <= c <= 'z' || '0' <= c <= '9' || c == '+' || c == '/'
  }

  /** base64_chars[n]. */
  function CharOf(n: sextet): (c: char)
    ensures IsBase64(c)
  {
    if n < 26 then 'A' + n as char
    else if n < 52 then 'a' + (n - 26) as char
    else if n < 62 then '0' + (n - 52) as char
    else if n == 62 then '+' else '/'
  }

  /** base64_chars.find(c). */
  function IndexOf(c: char): sextet
    requires IsBase64(c)
  {
    if 'A' <= c <= 'Z' then c as int - 'A' as int
    else if 'a' <= c <= 'z' then c as int - 'a' as int + 26
    else if '0' <= c <= '9' then c as int - '0' as int + 52
    else if c == '+' then 62 else 63
  }

  lemma IndexInverse(n: sextet)
    ensures IndexOf(CharOf(n)) == n
  {
  }

  // ---------- Encoding ----------

  /** Three bytes as four sextets. */
  function Sextets(b0: byte, b1: byte, b2: byte): (q: seq<sextet>)
    ensures |q| == 4
  {
    [b0 / 4, b0 % 4 * 16 + b1 / 16, b1 % 16 * 4 + b2 / 64, b2 % 64]
  }

  function Chars(q: seq<sextet>): (t: string)
    ensures |t| == |q| && forall i :: 0 <= i < |t| ==> IsBase64(t[i])
  {
    seq(|q|, i requires 0 <= i < |q| => CharOf(q[i]))
  }

  /** One or two bytes at the end: as many sextets as they touch, then padding. */
  function Last(s: seq<byte>): (t: string)
    requires 0 < |s| < 3
  {
    var b1 := if |s| == 2 then s[1] else 0;
    Chars(Sextets(s[0], b1, 0)[..|s| + 1]) + (if |s| == 1 then "==" else "=")
  }

  function Encode(s: seq<byte>): string {
    if s == [] then ""
    else if |s| < 3 then Last(s)
    else Chars(Sextets(s[0], s[1], s[2])) + Encode(s[3..])
  }

  // ---------- Decoding ----------

  /** Four sextets as three bytes. */
  function Octets(q0: sextet, q1: sextet, q2: sextet, q3: sextet): (s: seq<byte>)
    ensures |s| == 3
  {
    [q0 * 4 + q1 / 16, q1 % 16 * 16 + q2 / 4, q2 % 4 * 64 + q3]
  }

  predicate AllBase64(t: string) {
    forall i :: 0 <= i < |t| ==> IsBase64(t[i])
  }

  /** Up to the padding, or to any character that is not in the alphabet. */
  function Prefix(t: string): (p: string)
    ensures AllBase64(p) && p <= t && (|p| < |t| ==> !IsBase64(t[|p|]))
  {
    if t == "" || !IsBase64(t[0]) then "" else [t[0]] + Prefix(t[1..])
  }

  /** Fewer than four characters at the end give one byte less than they are. */
  function LastOctets(p: string): (s: seq<byte>)
    requires |p| < 4 && AllBase64(p)
    ensures |s| == if |p| == 0 then 0 else |p| - 1
  {
    if |p| < 2 then []
    else Octets(IndexOf(p[0]), IndexOf(p[1]), if |p| == 3 then IndexOf(p[2]) else 0, 0)[..|p| - 1]
  }

  function DecodeChars(p: string): seq<byte>
    requires AllBase64(p)
  {
    if |p| < 4 then LastOctets(p)
    else Octets(IndexOf(p[0]), IndexOf(p[1]), IndexOf(p[2]), IndexOf(p[3])) + DecodeChars(p[4..])
  }

  function Decode(t: string): seq<byte> {
    DecodeChars(Prefix(t))
  }

  // ---------- The round trip ----------

  lemma OctetsOfSextets(b0: byte, b1: byte, b2: byte)
    ensures var q := Sextets(b0, b1, b2);
            Octets(q[0], q[1], q[2], q[3]) == [b0, b1, b2]
  {
  }

  lemma {:induction false} PrefixAppend(a: string, b: string)
    requires AllBase64(a)
    ensures Prefix(a + b) == a + Prefix(b)
  {
    if a == "" {
      assert a + b == b;
    } else {
      assert (a + b)[1..] == a[1..] + b;
      PrefixAppend(a[1..], b);
    }
  }

  lemma QuadDecoded(q: seq<sextet>, more: string)
    requires |q| == 4 && AllBase64(more)
    ensures AllBase64(Chars(q) + more)
    ensures DecodeChars(Chars(q) + more) == Octets(q[0], q[1], q[2], q[3]) + DecodeChars(more)
  {
    hide CharOf, IndexOf, Octets;
    var p := Chars(q) + more;
    assert p[4..] == more;
    IndexInverse(q[0]);
    IndexInverse(q[1]);
    IndexInverse(q[2]);
    IndexInverse(q[3]);
  }

  lemma LastDecoded(s: seq<byte>)
    requires 0 < |s| < 3
    ensures Decode(Last(s)) == s
  {
    hide CharOf, IndexOf, Sextets, Octets;
    var b1: byte := if |s| == 2 then s[1] else 0;
    var q := Sextets(s[0], b1, 0);
    var p := Chars(q[..|s| + 1]);
    PrefixAppend(p, if |s| == 1 then "==" else "=");
    NoPrefix(if |s| == 1 then "==" else "=");
    assert p + "" == p;
    IndexInverse(q[0]);
    IndexInverse(q[1]);
    IndexInverse(q[2]);
    OctetsOfSextets(s[0], b1, 0);
    LowOctets(q[0], q[1], q[2], q[3]);
  }

  lemma NoPrefix(t: string)
    requires t != "" && t[0] == '='
    ensures Prefix(t) == ""
  {
  }

  /** The first bytes do not depend on the last sextets' low bits. */
  lemma LowOctets(q0: sextet, q1: sextet, q2: sextet, q3: sextet)
    ensures Octets(q0, q1, q2, 0)[..2] == Octets(q0, q1, q2, q3)[..2]
    ensures Octets(q0, q1, 0, 0)[..1] == Octets(q0, q1, q2, q3)[..1]
  {
  }

  /** Decoding undoes encoding. */
  lemma {:induction false} DecodeEncode(s: seq<byte>)
    ensures Decode(Encode(s)) == s
  {
    hide Sextets, Octets, Last, Chars, DecodeChars;
    if s == [] {
      assert Prefix("") == "" && DecodeChars("") == [] by {
        EmptyDecoded();
      }
    } else if |s| < 3 {
      LastDecoded(s);
    } else {
      var q := Sextets(s[0], s[1], s[2]);
      PrefixAppend(Chars(q), Encode(s[3..]));
      QuadDecoded(q, Prefix(Encode(s[3..])));
      OctetsOfSextets(s[0], s[1], s[2]);
      DecodeEncode(s[3..]);
      assert s == [s[0], s[1], s[2]] + s[3..];
    }
  }

  lemma EmptyDecoded()
    ensures Prefix("") == "" && DecodeChars("") == []
  {
  }

  // ---------- The alphabet and the shape of a text ----------

  const CAPITALS := "ABCDEFGHIJKLMNOPQRSTUVWXYZ"
  const SMALLS := "abcdefghijklmnopqrstuvwxyz"
  const FIGURES := "0123456789"
  const ALPHABET := CAPITALS + SMALLS + FIGURES + "+/"

  /** Characters that follow each other. */
  function Consecutive(first: char, n: nat): (s: string)
    requires first as int + n < 0xD800
    ensures |s| == n && forall k :: 0 <= k < n ==> s[k] == first + k as char
  {
    if n == 0 then "" else Consecutive(first, n - 1) + [first + (n - 1) as char]
  }

  lemma CapitalsFollow()
    ensures CAPITALS == Consecutive('A', 26)
  {
  }

  lemma SmallsFollow()
    ensures SMALLS == Consecutive('a', 26)
  {
  }

  lemma FiguresFollow()
    ensures FIGURES == Consecutive('0', 10)
  {
  }

  lemma AlphabetAt(n: sextet)
    ensures |ALPHABET| == 64 && CharOf(n) == ALPHABET[n] && IndexOf(ALPHABET[n]) == n
  {
    hide CAPITALS, SMALLS, FIGURES;
    CapitalsFollow();
    SmallsFollow();
    FiguresFollow();
  }

  function Number64(q0: int, q1: int, q2: int, q3: int): int {
    262144 * q0 + 4096 * q1 + 64 * q2 + q3
  }

  function Number256(b0: int, b1: int, b2: int): int {
    65536 * b0 + 256 * b1 + b2
  }

  /** The four sextets are the digits, to the base 64, of the number that the three
      bytes are to the base 256. */
  lemma GroupValue(b0: byte, b1: byte, b2: byte)
    ensures var q := Sextets(b0, b1, b2); Number64(q[0], q[1], q[2], q[3]) == Number256(b0, b1, b2)
  {
  }

  /** The characters of t are those of the alphabet at the digits of a number. */
  ghost predicate Spells(t: string, n: int) {
    |t| == 4 && exists q0: sextet, q1: sextet, q2: sextet, q3: sextet ::
      Number64(q0, q1, q2, q3) == n && t == [CharAt(q0), CharAt(q1), CharAt(q2), CharAt(q3)]
  }

  function CharAt(n: sextet): char {
    AlphabetAt(n);
    ALPHABET[n]
  }

  lemma GroupSpelled(b0: byte, b1: byte, b2: byte)
    ensures Spells(Chars(Sextets(b0, b1, b2)), Number256(b0, b1, b2))
  {
    var q := Sextets(b0, b1, b2);
    GroupValue(b0, b1, b2);
    AlphabetAt(q[0]);
    AlphabetAt(q[1]);
    AlphabetAt(q[2]);
    AlphabetAt(q[3]);
    hide Sextets, CharOf, ALPHABET, Number64, Number256;
    assert Chars(q) == [CharAt(q[0]), CharAt(q[1]), CharAt(q[2]), CharAt(q[3])];
  }

  /** Every group of three bytes is four characters of the alphabet, the digits of their
      number; a rest of one or two bytes is filled up with zeros, and the characters
      that hold nothing but the filling are replaced by '='. */
  ghost predicate Standard(s: seq<byte>, t: string)
    decreases |s|
  {
    if s == [] then t == ""
    else if |s| == 1 then |t| == 4 && t[2..] == "==" && Spells(t[..2] + "AA", Number256(s[0], 0, 0))
    else if |s| == 2 then |t| == 4 && t[3..] == "=" && Spells(t[..3] + "A", Number256(s[0], s[1], 0))
    else |t| >= 4 && Spells(t[..4], Number256(s[0], s[1], s[2])) && Standard(s[3..], t[4..])
  }

  lemma ZeroChars(b0: byte, b1: byte)
    ensures var t := Chars(Sextets(b0, b1, 0)); t[3] == 'A' && (b1 == 0 ==> t[2] == 'A')
  {
  }

  lemma LastStandard(s: seq<byte>)
    requires 0 < |s| < 3
    ensures Standard(s, Last(s))
  {
    var b1: byte := if |s| == 2 then s[1] else 0;
    var t := Chars(Sextets(s[0], b1, 0));
    GroupSpelled(s[0], b1, 0);
    ZeroChars(s[0], b1);
    LastChars(s);
    hide *;
    if |s| == 1 {
      OneStandard(s, t);
    } else {
      TwoStandard(s, t);
    }
  }

  lemma OneStandard(s: seq<byte>, t: string)
    requires |s| == 1 && |t| == 4 && Spells(t, Number256(s[0], 0, 0)) && t[2] == t[3] == 'A'
    ensures Standard(s, t[..2] + "==")
  {
    hide Spells, Number256;
    assert t == t[..2] + "AA" && (t[..2] + "==")[..2] == t[..2];
  }

  lemma TwoStandard(s: seq<byte>, t: string)
    requires |s| == 2 && |t| == 4 && Spells(t, Number256(s[0], s[1], 0)) && t[3] == 'A'
    ensures Standard(s, t[..3] + "=")
  {
    hide Spells, Number256;
    assert t == t[..3] + "A" && (t[..3] + "=")[..3] == t[..3];
  }

  lemma LastChars(s: seq<byte>)
    requires 0 < |s| < 3
    ensures var b1: byte := if |s| == 2 then s[1] else 0;
            Last(s) == Chars(Sextets(s[0], b1, 0))[..|s| + 1] + (if |s| == 1 then "==" else "=")
  {
    hide Sextets, CharOf;
  }

  /** A byte string is encoded as the standard says. */
  lemma {:induction false} EncodedIsStandard(s: seq<byte>)
    ensures Standard(s, Encode(s))
    decreases |s|
  {
    hide Sextets, Last, Chars, Spells, Number256;
    if s == [] {
    } else if |s| < 3 {
      LastStandard(s);
    } else {
      GroupSpelled(s[0], s[1], s[2]);
      EncodedIsStandard(s[3..]);
      assert Encode(s)[..4] == Chars(Sextets(s[0], s[1], s[2])) && Encode(s)[4..] == Encode(s[3..]);
    }
  }

  // ---------- The loops ----------

  method PutChars(output: array<char>, at: nat, t: string)
    requires at + |t| <= output.Length
    modifies output
    ensures output[..at + |t|] == old(output[..at]) + t && output[at + |t|..] == old(output[at + |t|..])
  {
    for j := 0 to |t|
      invariant output[..at + j] == old(output[..at]) + t[..j] && output[at + j..] == old(output[at + j..])
    {
      output[at + j] := t[j];
    }
  }

  /** base64::encode, three bytes at a time; returns where it stopped writing. */
  method EncodeTo(input: seq<byte>, output: array<char>) returns (ret: nat)
    requires |Encode(input)| <= output.Length
    modifies output
    ensures ret == |Encode(input)| && output[..ret] == Encode(input) && output[ret..] == old(output[ret..])
  {
    hide Sextets, Chars, Encode, Last;
    var three := new byte[3];
    var i := 0;
    ret := 0;
    ghost var all := Encode(input);
    for k := 0 to |input|
      invariant i < 3 && i <= k && three[..i] == input[k - i..k] && three.Length == 3
      invariant ret <= output.Length && output[..ret] + Encode(input[k - i..]) == all
      invariant output[ret..] == old(output[ret..])
    {
      three[i] := input[k];
      i := i + 1;
      assert three[..i] == input[k + 1 - i..k + 1];
      if i == 3 {
        var f := three[..];
        assert f == three[..3];
        EncodeThree(input, k - 2, f);
        var t := Chars(Sextets(f[0], f[1], f[2]));
        Associates(output[..ret], t, Encode(input[k + 1..]));
        assert |output[..ret] + t + Encode(input[k + 1..])| == |all|;
        PutChars(output, ret, t);
        ret := ret + 4;
        i := 0;
      }
    }
    if i > 0 {
      EncodeEnd(input[|input| - i..]);
      assert three[..i] == input[|input| - i..];
      ret := PutLast(three, i, output, ret);
    } else {
      EncodeEnd([]);
      assert input[|input|..] == [] && output[..ret] + "" == output[..ret];
    }
  }

  /** What is left of three bytes, filled up with zeros. */
  method PutLast(three: array<byte>, i: nat, output: array<char>, at: nat) returns (ret: nat)
    requires three.Length == 3 && 0 < i < 3 && at + |Last(three[..i])| <= output.Length
    modifies three, output
    ensures ret == at + |old(Last(three[..i]))|
    ensures output[..ret] == old(output[..at]) + old(Last(three[..i])) && output[ret..] == old(output[ret..])
  {
    hide Sextets, Chars, Last;
    ghost var rest := three[..i];
    assert rest[0] == three[0] && (i == 2 ==> rest[1] == three[1]);
    if i == 1 {
      three[1] := 0;
    }
    three[2] := 0;
    LastIs(rest, three[0], three[1]);
    var t := Chars(Sextets(three[0], three[1], three[2])[..i + 1]) + (if i == 1 then "==" else "=");
    PutChars(output, at, t);
    ret := at + |t|;
  }

  lemma Associates(a: string, b: string, c: string)
    ensures a + (b + c) == a + b + c
  {
  }

  lemma EncodeThree(input: seq<byte>, k: nat, f: seq<byte>)
    requires k + 3 <= |input| && f == input[k..k + 3]
    ensures Encode(input[k..]) == Chars(Sextets(f[0], f[1], f[2])) + Encode(input[k + 3..])
  {
    assert input[k..][3..] == input[k + 3..] && f == input[k..][..3];
    hide Sextets, Chars;
  }

  lemma EncodeEnd(s: seq<byte>)
    requires |s| < 3
    ensures Encode(s) == if s == [] then "" else Last(s)
  {
    hide Last;
  }

  lemma LastIs(s: seq<byte>, b0: byte, b1: byte)
    requires 0 < |s| < 3 && s[0] == b0 && b1 == if |s| == 2 then s[1] else 0
    ensures Last(s) == Chars(Sextets(b0, b1, 0)[..|s| + 1]) + (if |s| == 1 then "==" else "=")
  {
  }

  /** The loop that writes out_size bytes one by one, or finds no room. */
  method PutOctets(output: array<byte>, outputSize: nat, at: nat, s: seq<byte>) returns (outSize: int)
    requires at <= outputSize <= output.Length
    modifies output
    ensures outSize == if at + |s| <= outputSize then at + |s| else -1
    ensures outSize >= 0 ==> output[..outSize] == old(output[..at]) + s
    ensures output[outputSize..] == old(output[outputSize..])
  {
    outSize := at;
    for j := 0 to |s|
      invariant outSize == at + j <= outputSize
      invariant output[..outSize] == old(output[..at]) + s[..j]
      invariant output[outputSize..] == old(output[outputSize..])
    {
      outSize := outSize + 1;
      if outputSize < outSize {
        return -1;
      }
      output[outSize - 1] := s[j];
    }
  }

  /** base64::decode: -1 exactly when the output does not fit. */
  method DecodeTo(input: string, output: array<byte>, outputSize: nat) returns (outSize: int)
    requires outputSize <= output.Length
    modifies output
    ensures outSize == if |Decode(input)| <= outputSize then |Decode(input)| else -1
    ensures outSize >= 0 ==> output[..outSize] == Decode(input)
    ensures output[outputSize..] == old(output[outputSize..])
  {
    hide IndexOf, Octets, DecodeChars, Prefix, LastOctets;
    var four := new char[4];
    var i, pos := 0, 0;
    outSize := 0;
    ghost var p := Prefix(input);
    while pos < |input| && input[pos] != '=' && IsBase64(input[pos])
      invariant i < 4 && i <= pos <= |p| && four[..i] == p[pos - i..pos] && four.Length == 4
      invariant 0 <= outSize <= outputSize && output[..outSize] + DecodeChars(p[pos - i..]) == DecodeChars(p)
      invariant output[outputSize..] == old(output[outputSize..])
    {
      InPrefix(input, pos);
      four[i] := input[pos];
      i, pos := i + 1, pos + 1;
      assert four[..i] == p[pos - i..pos];
      if i == 4 {
        var f := four[..];
        assert f == four[..4];
        DecodeFour(p, pos - 4, f);
        var s := Octets(IndexOf(f[0]), IndexOf(f[1]), IndexOf(f[2]), IndexOf(f[3]));
        assert output[..outSize] + (s + DecodeChars(p[pos..])) == output[..outSize] + s + DecodeChars(p[pos..]);
        outSize := PutOctets(output, outputSize, outSize, s);
        if outSize < 0 {
          return;
        }
        i := 0;
      }
    }
    PrefixEnd(input, pos);
    DecodeLast(p[pos - i..]);
    if i > 0 {
      assert four[..i] == p[pos - i..];
      outSize := PutOctets(output, outputSize, outSize, LastOctets(four[..i]));
    }
  }

  lemma InPrefix(t: string, pos: nat)
    requires pos <= |Prefix(t)| && pos < |t| && IsBase64(t[pos])
    ensures pos < |Prefix(t)| && Prefix(t)[pos] == t[pos]
  {
  }

  lemma PrefixEnd(t: string, pos: nat)
    requires pos <= |Prefix(t)| && (pos < |t| ==> t[pos] == '=' || !IsBase64(t[pos]))
    ensures pos == |Prefix(t)|
  {
  }

  lemma DecodeFour(p: string, k: nat, f: string)
    requires AllBase64(p) && k + 4 <= |p| && f == p[k..k + 4]
    ensures AllBase64(f)
    ensures DecodeChars(p[k..])
         == Octets(IndexOf(f[0]), IndexOf(f[1]), IndexOf(f[2]), IndexOf(f[3])) + DecodeChars(p[k + 4..])
  {
    assert p[k..][4..] == p[k + 4..] && f == p[k..][..4];
    hide Octets, IndexOf;
  }

  lemma DecodeLast(p: string)
    requires |p| < 4 && AllBase64(p)
    ensures DecodeChars(p) == LastOctets(p) && (p == "" ==> LastOctets(p) == [])
  {
  }
}
