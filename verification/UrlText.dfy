/** Percent-encoded text: the encoder, the two decoders, form fields, and the
    clean-up of decoded paths. */
module UrlText {
  import opened Texts

  datatype Option<T> = None | Some(value: T)

  predicate IsBytes(s: string) {
    forall i :: 0 <= i < |s| ==> s[i] as int < 256
  }

  // ---------- Characters ----------

  predicate IsDigit(c: char) { '0' <= c <= '9' }

  predicate IsAlnum(c: char) { IsDigit(c) || 'A' <= c <= 'Z' || 'a' <= c <= 'z' }

  predicate IsHex(c: char) { IsDigit(c) || 'A' <= c <= 'F' || 'a' <= c <= 'f' }

  /** The characters that are not escaped; strchr also finds the zero that ends
      its list. */
  predicate Kept(c: char) {
    IsAlnum(c) || c == '.' || c == '_' || c == '-' || c == '$' || c == ',' || c == ';' || c == '~' || c == '('
    || c == ')' || c == '\0'
  }

  function HexDigit(n: nat): char
    requires n < 16
  {
    if n < 10 then '0' + n as char else 'a' + (n - 10) as char
  }

  /** HEXTOI after tolower. */
  function HexValue(c: char): (n: nat)
    requires IsHex(c)
    ensures n < 16
  {
    if IsDigit(c) then c as int - '0' as int else Lower(c) as int - 'W' as int
  }

  // ---------- Encoding and decoding ----------

  function EncodeChar(c: char): (s: string)
    requires c as int < 256
    ensures s != ""
  {
    if Kept(c) then [c] else ['%', HexDigit(c as int / 16), HexDigit(c as int % 16)]
  }

  function Encode(s: string): string
    requires IsBytes(s)
  {
    if s == "" then "" else EncodeChar(s[0]) + Encode(s[1..])
  }

  /** Whether an escape of three characters comes first. */
  predicate Escape(s: string) {
    |s| >= 3 && s[0] == '%' && IsHex(s[1]) && IsHex(s[2])
  }

  function DecodeChar(s: string, form: bool): char
    requires s != ""
  {
    if Escape(s) then (16 * HexValue(s[1]) + HexValue(s[2])) as char
    else if form && s[0] == '+' then ' ' else s[0]
  }

  function Width(s: string): (n: nat)
    requires s != ""
    ensures 1 <= n <= |s|
  {
    if Escape(s) then 3 else 1
  }

  function Decode(s: string, form: bool): (d: string)
    ensures |d| <= |s|
    decreases |s|
  {
    if s == "" then "" else [DecodeChar(s, form)] + Decode(s[Width(s)..], form)
  }

  lemma DecodeOne(c: char, rest: string, form: bool)
    requires c as int < 256
    ensures var e := EncodeChar(c);
            Width(e + rest) == |e| && (e + rest)[|e|..] == rest && DecodeChar(e + rest, form) == c
  {
    var e := EncodeChar(c);
    if !Kept(c) {
      var h, l := c as int / 16, c as int % 16;
      assert HexValue(HexDigit(h)) == h && HexValue(HexDigit(l)) == l;
    }
  }

  /** Decoding undoes encoding, in both modes. */
  lemma {:induction false} DecodeEncode(s: string, form: bool)
    requires IsBytes(s)
    ensures Decode(Encode(s), form) == s
  {
    hide EncodeChar, DecodeChar, Width;
    if s == "" {
    } else {
      DecodeOne(s[0], Encode(s[1..]), form);
      DecodeEncode(s[1..], form);
    }
  }

  // ---------- What a text says ----------

  /** '%' and two digits. */
  ghost predicate IsEscape(t: string) {
    |t| >= 3 && t[0] == '%' && IsDigitOf(t[1]) && IsDigitOf(t[2])
  }

  /** The text t says s: '%' and two digits say a byte, in a form '+' says a blank,
      and every other character says itself. */
  ghost predicate Says(t: string, s: string, form: bool)
    decreases |s|
  {
    if t == "" || s == "" then t == s
    else if IsEscape(t) then
      && (exists h: nat, l: nat :: StandsFor(t[1], h) && StandsFor(t[2], l) && s[0] as int == 16 * h + l)
      && Says(t[3..], s[1..], form)
    else s[0] == (if form && t[0] == '+' then ' ' else t[0]) && Says(t[1..], s[1..], form)
  }

  lemma HexExactly(d: char)
    ensures IsHex(d) <==> IsDigitOf(d)
    ensures forall n: nat :: StandsFor(d, n) ==> HexValue(d) == n
    ensures IsHex(d) ==> StandsFor(d, HexValue(d))
  {
    if IsHex(d) {
      assert StandsFor(d, HexValue(d));
    }
  }

  /** Every text, in either case of its digits and with '+' or "%20" for a blank, is
      decoded to what it says and to nothing else. */
  lemma {:induction false} DecodesExactly(t: string, s: string, form: bool)
    ensures Decode(t, form) == s <==> Says(t, s, form)
    decreases |t|
  {
    if t == "" || s == "" {
    } else {
      if |t| >= 3 {
        HexExactly(t[1]);
        HexExactly(t[2]);
      }
      hide IsHex, HexValue, IsDigitOf, StandsFor;
      DecodesExactly(t[Width(t)..], s[1..], form);
      var d := Decode(t, form);
      assert d == s <==> d[0] == s[0] && d[1..] == s[1..];
    }
  }

  /** What an encoded text is made of: characters that delimit nothing, and escapes. */
  predicate Delimits(c: char) {
    c in "&=+/?#:@!'*[]{}<>|^`\\\"" || c == ' ' || c > '~' || '\0' < c < ' '
  }

  lemma {:induction false} EncodedIsSafe(s: string)
    requires IsBytes(s)
    ensures forall k :: 0 <= k < |Encode(s)| ==> !Delimits(Encode(s)[k])
  {
    hide Delimits;
    if s == "" {
    } else {
      EncodedChar(s[0]);
      EncodedIsSafe(s[1..]);
    }
  }

  lemma EncodedChar(c: char)
    requires c as int < 256
    ensures var e := EncodeChar(c); forall k :: 0 <= k < |e| ==> !Delimits(e[k])
  {
  }

  /** Letters, digits, nine marks and the zero byte stay as they are. */
  lemma StaysExactly(c: char)
    requires c as int < 256
    ensures EncodeChar(c) == [c] <==>
              'a' <= c <= 'z' || 'A' <= c <= 'Z' || '0' <= c <= '9' || c in "._-$,;~()" || c == '\0'
  {
  }

  lemma {:induction false} EncodeSnoc(s: string, c: char)
    requires IsBytes(s + [c]) && IsBytes(s) && c as int < 256
    ensures Encode(s + [c]) == Encode(s) + EncodeChar(c)
  {
    hide EncodeChar;
    if s == "" {
      assert [c][1..] == "" && Encode("") == "";
    } else {
      assert (s + [c])[1..] == s[1..] + [c];
      EncodeSnoc(s[1..], c);
    }
  }

  lemma EncodeNothing()
    ensures Encode("") == ""
  {
  }

  /** CivetServer::urlEncode. */
  method UrlEncode(src: string, dst: string, append: bool) returns (r: string)
    requires IsBytes(src)
    ensures r == (if append then dst else "") + Encode(src)
  {
    hide HexDigit, Kept, Encode;
    assert Encode("") == "" by {
      EncodeNothing();
    }
    r := if append then dst else "";
    ghost var start := r;
    for i := 0 to |src|
      invariant r == start + Encode(src[..i])
    {
      assert src[..i + 1] == src[..i] + [src[i]];
      EncodeSnoc(src[..i], src[i]);
      if Kept(src[i]) {
        r := r + [src[i]];
      } else {
        r := r + ['%', HexDigit(src[i] as int / 16), HexDigit(src[i] as int % 16)];
      }
    }
    assert src[..|src|] == src;
  }

  /** CivetServer::urlDecode. */
  method UrlDecode(src: string, form: bool) returns (dst: string)
    ensures dst == Decode(src, form)
  {
    hide DecodeChar, Width;
    dst := "";
    var i := 0;
    while i < |src|
      invariant 0 <= i <= |src| && dst + Decode(src[i..], form) == Decode(src, form)
    {
      var s := src[i..];
      assert s[Width(s)..] == src[i + Width(s)..];
      assert dst + ([DecodeChar(s, form)] + Decode(s[Width(s)..], form))
          == dst + [DecodeChar(s, form)] + Decode(s[Width(s)..], form);
      dst := dst + [DecodeChar(s, form)];
      i := i + Width(s);
    }
  }

  /** mg_url_decode; src and dst may be one buffer: nothing is written in front of
      what is still to be read. */
  method MgUrlDecode(src: array<char>, srcLen: nat, dst: array<char>, dstLen: nat, form: bool) returns (r: int)
    requires srcLen <= src.Length && 0 < dstLen <= dst.Length
    modifies dst
    ensures var d := Decode(old(src[..srcLen]), form);
            && (r == if |d| < dstLen then |d| else -1)
            && (|d| < dstLen ==> dst[..|d|] == d && dst[|d|] == '\0')
            && (|d| >= dstLen ==> dst[..dstLen - 1] == d[..dstLen - 1] && dst[dstLen - 1] == '\0')
  {
    hide DecodeChar, Width, Decode;
    ghost var all := old(src[..srcLen]);
    var i, j := 0, 0;
    while i < srcLen && j < dstLen - 1
      invariant j <= i <= srcLen && j <= dstLen - 1
      invariant src[i..srcLen] == all[i..]
      invariant dst[..j] + Decode(all[i..], form) == Decode(all, form)
    {
      var s := src[i..srcLen];
      assert s == all[i..];
      DecodeNext(s, form);
      assert s[Width(s)..] == all[i + Width(s)..];
      dst[j] := DecodeChar(s, form);
      assert dst[..j + 1] == dst[..j] + [DecodeChar(s, form)];
      i := i + Width(s);
      j := j + 1;
    }
    dst[j] := '\0';
    r := if i >= srcLen then j else -1;
    DecodeNext(all[i..], form);
  }

  lemma DecodeNext(s: string, form: bool)
    ensures s == "" ==> Decode(s, form) == ""
    ensures s != "" ==> Width(s) <= |s| && Decode(s, form) == [DecodeChar(s, form)] + Decode(s[Width(s)..], form)
  {
  }

  // ---------- Clean-up of paths ----------

  predicate IsSeparator(c: char) { c == '/' || c == '\\' }

  /** What follows separators and pairs of dots. */
  function Skip(s: string): (r: string)
    ensures |r| <= |s|
  {
    if s == "" then ""
    else if IsSeparator(s[0]) then Skip(s[1..])
    else if |s| >= 2 && s[0] == '.' && s[1] == '.' then Skip(s[2..])
    else s
  }

  function Cleaned(s: string): (r: string)
    ensures |r| <= |s|
    decreases |s|
  {
    if s == "" then ""
    else [s[0]] + Cleaned(if IsSeparator(s[0]) then Skip(s[1..]) else s[1..])
  }

  /** No separator is followed by a separator or by two dots. */
  predicate Tidy(s: string) {
    forall i :: 0 <= i < |s| - 1 && (s[i] == '/' || s[i] == '\\') ==>
      s[i + 1] != '/' && s[i + 1] != '\\' && !(s[i + 1] == '.' && i + 2 < |s| && s[i + 2] == '.')
  }

  /** Separators and pairs of dots, and nothing else. */
  predicate Skippable(x: string) {
    || x == ""
    || ((x[0] == '/' || x[0] == '\\') && Skippable(x[1..]))
    || (|x| >= 2 && x[0] == '.' && x[1] == '.' && Skippable(x[2..]))
  }

  /** t is s without separators and pairs of dots, and those only right behind a
      separator that stays. */
  ghost predicate Drops(s: string, t: string)
    decreases |s|
  {
    if s == "" || t == "" then s == t
    else
      && s[0] == t[0]
      && (if s[0] == '/' || s[0] == '\\' then
            exists k :: 0 < k <= |s| && Skippable(s[1..k]) && Drops(s[k..], t[1..])
          else Drops(s[1..], t[1..]))
  }

  lemma {:induction false} SkipDrops(s: string) returns (k: nat)
    ensures k <= |s| && Skippable(s[..k]) && Skip(s) == s[k..]
  {
    if s == "" {
      k := 0;
    } else if IsSeparator(s[0]) {
      k := SkipDrops(s[1..]);
      assert s[..k + 1][1..] == s[1..][..k] && s[1..][k..] == s[k + 1..];
      k := k + 1;
    } else if |s| >= 2 && s[0] == '.' && s[1] == '.' {
      k := SkipDrops(s[2..]);
      assert s[..k + 2][2..] == s[2..][..k] && s[2..][k..] == s[k + 2..];
      k := k + 2;
    } else {
      k := 0;
    }
  }

  lemma {:induction false} CleanedDrops(s: string)
    ensures Drops(s, Cleaned(s))
    decreases |s|
  {
    if s == "" {
    } else if IsSeparator(s[0]) {
      var k := SkipDrops(s[1..]);
      CleanedDrops(Skip(s[1..]));
      assert s[1..k + 1] == s[1..][..k] && s[k + 1..] == s[1..][k..];
      assert Skippable(s[1..k + 1]) && Drops(s[k + 1..], Cleaned(s)[1..]);
    } else {
      CleanedDrops(s[1..]);
    }
  }

  /** A tidy rest begins where the skipping ends. */
  lemma {:induction false} SkipsTo(x: string, rest: string)
    requires Skippable(x) && Skip(rest) == rest
    ensures Skip(x + rest) == rest
  {
    if x == "" {
      assert x + rest == rest;
    } else if IsSeparator(x[0]) {
      assert (x + rest)[1..] == x[1..] + rest;
      SkipsTo(x[1..], rest);
    } else {
      assert (x + rest)[2..] == x[2..] + rest;
      SkipsTo(x[2..], rest);
    }
  }

  lemma {:induction false} TidyIsCleaned(s: string, t: string)
    requires Drops(s, t) && Tidy(t)
    ensures t == Cleaned(s)
    decreases |s|
  {
    if s == "" || t == "" {
    } else {
      TidyTail(t);
      assert t == [t[0]] + t[1..];
      if IsSeparator(s[0]) {
        var k :| 0 < k <= |s| && Skippable(s[1..k]) && Drops(s[k..], t[1..]);
        TidyIsCleaned(s[k..], t[1..]);
        assert s[1..] == s[1..k] + s[k..];
        RestStays(s[k..], t[1..]);
        SkipsTo(s[1..k], s[k..]);
      } else {
        TidyIsCleaned(s[1..], t[1..]);
      }
    }
  }

  lemma RestStays(s: string, t: string)
    requires t == Cleaned(s) && Skip(t) == t
    ensures Skip(s) == s
  {
    if s != "" && !IsSeparator(s[0]) {
      SecondStays(s);
    }
  }

  /** The cleaned path is the only one that is tidy and lacks nothing else. */
  lemma CleanedIsOnly(s: string, t: string)
    ensures t == Cleaned(s) <==> Drops(s, t) && Tidy(t)
  {
    hide Tidy, Drops;
    CleanedDrops(s);
    CleanedIsTidy(s);
    if Drops(s, t) && Tidy(t) {
      TidyIsCleaned(s, t);
    }
  }

  lemma {:induction false} SkipStops(s: string)
    ensures var r := Skip(s);
            r == "" || (!IsSeparator(r[0]) && !(|r| >= 2 && r[0] == '.' && r[1] == '.'))
  {
    if s == "" {
    } else {
      if IsSeparator(s[0]) {
        SkipStops(s[1..]);
      } else if |s| >= 2 && s[0] == '.' && s[1] == '.' {
        SkipStops(s[2..]);
      }
    }
  }

  /** The second character stays unless it may be skipped. */
  lemma SecondStays(s: string)
    requires s != "" && !IsSeparator(s[0])
    ensures var c := Cleaned(s);
            c != "" && c[0] == s[0] && (|c| >= 2 ==> |s| >= 2 && c[1] == s[1])
  {
  }

  lemma {:induction false} CleanedIsTidy(s: string)
    ensures Tidy(Cleaned(s))
    decreases |s|
  {
    if s == "" {
    } else {
      var t := if IsSeparator(s[0]) then Skip(s[1..]) else s[1..];
      CleanedIsTidy(t);
      var c := Cleaned(t);
      if IsSeparator(s[0]) && t != "" {
        SkipStops(s[1..]);
        SecondStays(t);
      }
      forall i | 0 <= i < |c| && IsSeparator(([s[0]] + c)[i])
        ensures var d := [s[0]] + c;
                !IsSeparator(d[i + 1]) && !(d[i + 1] == '.' && i + 2 < |d| && d[i + 2] == '.')
      {
        if i > 0 {
          assert IsSeparator(c[i - 1]);
        }
      }
    }
  }

  lemma TidyTail(s: string)
    requires Tidy(s) && s != ""
    ensures Tidy(s[1..]) && (IsSeparator(s[0]) ==> Skip(s[1..]) == s[1..])
  {
    var t := s[1..];
    forall i | 0 <= i < |t| - 1 && IsSeparator(t[i])
      ensures !IsSeparator(t[i + 1]) && !(t[i + 1] == '.' && i + 2 < |t| && t[i + 2] == '.')
    {
      assert IsSeparator(s[i + 1]);
    }
  }

  lemma {:induction false} TidyStays(s: string)
    requires Tidy(s)
    ensures Cleaned(s) == s
    decreases |s|
  {
    if s == "" {
    } else {
      TidyTail(s);
      hide Tidy;
      TidyStays(s[1..]);
      assert s == [s[0]] + s[1..];
    }
  }

  /** The clean-up changes a path if and only if it is not tidy, and cleaning
      twice is cleaning once. */
  lemma CleanedExactly(s: string)
    ensures (Cleaned(s) == s <==> Tidy(s)) && Tidy(Cleaned(s)) && Cleaned(Cleaned(s)) == Cleaned(s)
  {
    hide Tidy;
    CleanedIsTidy(s);
    TidyStays(Cleaned(s));
    if Tidy(s) {
      TidyStays(s);
    }
  }

  /** The characters that stay keep their order. */
  predicate Subsequence(a: string, b: string) {
    a == "" || (b != "" && ((a[0] == b[0] && Subsequence(a[1..], b[1..])) || Subsequence(a, b[1..])))
  }

  lemma {:induction false} SubsequenceSkips(a: string, s: string)
    requires Subsequence(a, Skip(s))
    ensures Subsequence(a, s)
  {
    if s == "" {
    } else {
      if IsSeparator(s[0]) {
        SubsequenceSkips(a, s[1..]);
      } else if |s| >= 2 && s[0] == '.' && s[1] == '.' {
        SubsequenceSkips(a, s[2..]);
        assert s[1..][1..] == s[2..];
        assert Subsequence(a, s[1..]);
      }
    }
  }

  lemma {:induction false} CleanedIsSubsequence(s: string)
    ensures Subsequence(Cleaned(s), s)
    decreases |s|
  {
    if s == "" {
    } else {
      var t := if IsSeparator(s[0]) then Skip(s[1..]) else s[1..];
      CleanedIsSubsequence(t);
      if IsSeparator(s[0]) {
        SubsequenceSkips(Cleaned(t), s[1..]);
      }
      assert Cleaned(s)[1..] == Cleaned(t);
    }
  }

  /** The inner loop of the clean-up. */
  method SkipFrom(buf: array<char>, start: nat, n: nat) returns (s: nat)
    requires start <= n < buf.Length && buf[n] == '\0' && forall k :: start <= k < n ==> buf[k] != '\0'
    ensures start <= s <= n && buf[s..n] == Skip(buf[start..n])
  {
    s := start;
    while buf[s] != '\0'
      invariant start <= s <= n && Skip(buf[s..n]) == Skip(buf[start..n])
      decreases n - s
    {
      assert buf[s..n][1..] == buf[s + 1..n];
      if IsSeparator(buf[s]) {
        s := s + 1;
      } else if buf[s] == '.' && buf[s + 1] == '.' {
        assert s + 1 < n && buf[s..n][2..] == buf[s + 2..n];
        s := s + 2;
      } else {
        return;
      }
    }
  }

  /** remove_double_dots_and_double_slashes, on a string of n characters that a
      zero ends. */
  method CleanUp(buf: array<char>, n: nat) returns (m: nat)
    requires n < buf.Length && buf[n] == '\0' && forall k :: 0 <= k < n ==> buf[k] != '\0'
    modifies buf
    ensures m <= n && buf[..m] == Cleaned(old(buf[..n])) && buf[m] == '\0'
  {
    hide Skip, IsSeparator, Cleaned;
    ghost var all := old(buf[..n]);
    var p, s := 0, 0;
    assert all[0..] == all;
    while buf[s] != '\0'
      invariant p <= s <= n && buf[n] == '\0' && forall k :: s <= k < n ==> buf[k] == all[k] != '\0'
      invariant buf[..p] + Cleaned(all[s..]) == Cleaned(all)
      decreases n - s
    {
      ghost var c := buf[s];
      ghost var rest := all[s + 1..];
      assert all[s..] == [c] + rest;
      CleanedFirst(c, rest);
      buf[p] := buf[s];
      assert buf[..p + 1] == buf[..p] + [c];
      p, s := p + 1, s + 1;
      if IsSeparator(buf[s - 1]) {
        assert buf[s..n] == rest;
        s := SkipFrom(buf, s, n);
        assert buf[s..n] == all[s..];
      }
    }
    CleanedNothing();
    assert s == n && all[n..] == "" && buf[..p] + "" == buf[..p];
    buf[p] := '\0';
    m := p;
  }

  lemma CleanedFirst(c: char, rest: string)
    ensures Cleaned([c] + rest) == [c] + Cleaned(if IsSeparator(c) then Skip(rest) else rest)
  {
    assert ([c] + rest)[1..] == rest;
  }

  lemma CleanedNothing()
    ensures Cleaned("") == ""
  {
  }
}
