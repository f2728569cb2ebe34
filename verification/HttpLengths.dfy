/** What the parser makes of the digits of a length and of a header name. */
module HttpLengths {
  import opened HttpChars
  import opened HttpMachine
  import opened HttpRun
  import opened HttpStretch

  // ---------- Content-Length ----------

  predicate AllDigits(d: seq<byte>) {
    forall i :: 0 <= i < |d| ==> IsNum(d[i])
  }

  function Decimal(d: seq<byte>): nat
    requires AllDigits(d)
  {
    if d == [] then 0 else 10 * Decimal(d[..|d| - 1]) + Digit(d[|d| - 1])
  }

  /** The largest value the conservative overflow test lets through. */
  const LARGEST_DECIMAL: nat := ULLONG_MAX - 6

  lemma LengthStart(cfg: Config, f: Fields, ch: byte)
    requires f.state.HeaderValueDiscardWs? && f.headerState.ContentLength? && !f.flags.contentLength && IsNum(ch)
    ensures Dispatch(cfg, f, false, ch) ==
            Stay(f.(state := HeaderValue, index := 0, flags := f.flags.(contentLength := true),
                    contentLength := Digit(ch), headerState := ContentLengthNum), MarkTake(Value))
  {
  }

  lemma LengthNext(cfg: Config, f: Fields, ch: byte)
    requires f.state.HeaderValue? && f.headerState.ContentLengthNum? && IsNum(ch)
    ensures Dispatch(cfg, f, false, ch) ==
            if (ULLONG_MAX - 10) / 10 < f.contentLength then Err(InvalidContentLength)
            else Stay(f.(contentLength := f.contentLength * 10 + Digit(ch)), Take(Value))
  {
    assert IsHeaderChar(ch) && ch != CR && ch != LF;
    assert ch != ' ';
    assert f.(headerState := ContentLengthNum) == f;
  }

  /** A Content-Length of any number of digits is accepted exactly if its value
      is at most 2^64 - 7, and then stored exactly; it cannot wrap, nor be taken
      for the marker of an unknown length. */
  lemma {:induction false} ContentLengthExact(cfg: Config, m: Machine, d: seq<byte>)
    requires m.f.state.HeaderValueDiscardWs? && m.f.headerState.ContentLength? && !m.f.flags.contentLength
    requires d != [] && AllDigits(d) && m.f.nread + |d| <= HTTP_MAX_HEADER_SIZE
    ensures var r := Run(cfg, m, d);
            if Decimal(d) <= LARGEST_DECIMAL then
              && r.Running? && r.m.f.state.HeaderValue? && r.m.f.headerState.ContentLengthNum?
              && r.m.f.contentLength == Decimal(d) < ULLONG_MAX && r.m.f.nread == m.f.nread + |d|
            else r == Failed(InvalidContentLength)
    decreases |d|
  {
    hide Run, Byte, Passes, Dispatch, Digit, Counted;
    var init, last := d[..|d| - 1], d[|d| - 1];
    RunLast(cfg, m, d);
    if init == [] {
      RunNothing(cfg, m);
      FirstDigit(cfg, m, last);
    } else {
      ContentLengthExact(cfg, m, init);
      var r := Run(cfg, m, init);
      if r.Running? {
        NextDigit(cfg, r.m, last);
      }
    }
  }

  lemma FirstDigit(cfg: Config, m: Machine, ch: byte)
    requires m.f.state.HeaderValueDiscardWs? && m.f.headerState.ContentLength? && !m.f.flags.contentLength
    requires IsNum(ch) && m.f.nread < HTTP_MAX_HEADER_SIZE
    ensures var r := Run(cfg, m, [ch]);
            && r.Running? && r.m.f.state.HeaderValue? && r.m.f.headerState.ContentLengthNum?
            && r.m.f.contentLength == Digit(ch) && r.m.f.nread == m.f.nread + 1
  {
    LengthStart(cfg, Counted(m.f), ch);
    hide Dispatch, Run, Byte;
    OneStay(cfg, m, ch, Dispatch(cfg, Counted(m.f), false, ch).f, MarkTake(Value));
  }

  lemma NextDigit(cfg: Config, m: Machine, ch: byte)
    requires m.f.state.HeaderValue? && m.f.headerState.ContentLengthNum? && IsNum(ch)
    requires m.f.nread < HTTP_MAX_HEADER_SIZE
    ensures var r := Run(cfg, m, [ch]);
            if (ULLONG_MAX - 10) / 10 < m.f.contentLength then r == Failed(InvalidContentLength)
            else
              && r.Running? && r.m.f.state.HeaderValue? && r.m.f.headerState.ContentLengthNum?
              && r.m.f.contentLength == m.f.contentLength * 10 + Digit(ch) && r.m.f.nread == m.f.nread + 1
  {
    LengthNext(cfg, Counted(m.f), ch);
    hide Dispatch, Run, Byte;
    var a := Dispatch(cfg, Counted(m.f), false, ch);
    if a.Err? {
      OneErr(cfg, m, ch, InvalidContentLength);
    } else {
      OneStay(cfg, m, ch, a.f, Take(Value));
    }
  }

  // ---------- Chunk sizes ----------

  /** Bytes the chunk-size reader takes for digits: hexadecimal digits, and every
      byte from 0x80 up, which it reads as zero. */
  predicate AllHex(d: seq<byte>) {
    forall i :: 0 <= i < |d| ==> Unhex(d[i]) >= 0
  }

  function Hexadecimal(d: seq<byte>): nat
    requires AllHex(d)
  {
    if d == [] then 0 else 16 * Hexadecimal(d[..|d| - 1]) + Unhex(d[|d| - 1])
  }

  const LARGEST_HEXADECIMAL: nat := ULLONG_MAX - 16

  lemma SizeStart(cfg: Config, f: Fields, ch: byte)
    requires f.state.ChunkSizeStart? && Unhex(ch) >= 0
    ensures Dispatch(cfg, f, false, ch) == Stay(f.(contentLength := Unhex(ch), state := ChunkSize), Quiet)
  {
  }

  lemma SizeNext(cfg: Config, f: Fields, ch: byte)
    requires f.state.ChunkSize? && Unhex(ch) >= 0
    ensures Dispatch(cfg, f, false, ch) ==
            if (ULLONG_MAX - 16) / 16 < f.contentLength then Err(InvalidContentLength)
            else Stay(f.(contentLength := f.contentLength * 16 + Unhex(ch)), Quiet)
  {
    assert ch != CR;
  }

  /** A chunk size of any number of digits is accepted exactly if its value is at
      most 2^64 - 17, and then stored exactly. */
  lemma {:induction false} ChunkSizeExact(cfg: Config, m: Machine, d: seq<byte>)
    requires m.f.state.ChunkSizeStart? && d != [] && AllHex(d) && m.f.nread + |d| <= HTTP_MAX_HEADER_SIZE
    ensures Run(cfg, m, d) ==
            if Hexadecimal(d) <= LARGEST_HEXADECIMAL then
              Running(Machine(m.f.(state := ChunkSize, contentLength := Hexadecimal(d), nread := m.f.nread + |d|),
                              false, m.log))
            else Failed(InvalidContentLength)
    decreases |d|
  {
    hide Run, Byte, Passes, Dispatch, Unhex;
    var init, last := d[..|d| - 1], d[|d| - 1];
    RunLast(cfg, m, d);
    if init == [] {
      RunNothing(cfg, m);
      SizeStart(cfg, Counted(m.f), last);
      OneStay(cfg, m, last, Counted(m.f).(contentLength := Unhex(last), state := ChunkSize), Quiet);
    } else {
      ChunkSizeExact(cfg, m, init);
      var r := Run(cfg, m, init);
      if r.Running? {
        NextHexDigit(cfg, r.m, last);
      }
    }
  }

  lemma NextHexDigit(cfg: Config, m: Machine, ch: byte)
    requires m.f.state.ChunkSize? && Unhex(ch) >= 0 && m.f.nread < HTTP_MAX_HEADER_SIZE
    ensures Run(cfg, m, [ch]) ==
            if (ULLONG_MAX - 16) / 16 < m.f.contentLength then Failed(InvalidContentLength)
            else Running(Machine(m.f.(contentLength := m.f.contentLength * 16 + Unhex(ch), nread := m.f.nread + 1),
                                 false, m.log))
  {
    SizeNext(cfg, Counted(m.f), ch);
    hide Dispatch, Run, Byte;
    var a := Dispatch(cfg, Counted(m.f), false, ch);
    if a.Err? {
      OneErr(cfg, m, ch, InvalidContentLength);
    } else {
      OneStay(cfg, m, ch, a.f, Quiet);
    }
  }

  /** Not every accepted size is hexadecimal: the byte 0x80 alone reads as zero. */
  lemma HighByteIsZero(cfg: Config, m: Machine)
    requires m.f.state.ChunkSizeStart? && m.f.nread == 0
    ensures !IsHex(0x80 as char) && Run(cfg, m, [0x80 as char]).Running?
    ensures Run(cfg, m, [0x80 as char]).m.f.contentLength == 0
  {
    var d: seq<byte> := [0x80 as char];
    assert d[..0] == [];
    ChunkSizeExact(cfg, m, d);
  }

  /** The table against the digits that section 4.1 of RFC 7230 allows. */
  lemma UnhexExact(c: byte)
    ensures Unhex(c) >= 0 <==> IsHex(c) || c >= 0x80 as char
    ensures IsHex(c) ==> c < 0x80 as char
  {
  }

  /** No byte ends the digits of a chunk size. */
  predicate NoSizeEnd(d: seq<byte>) {
    ';' !in d && ' ' !in d && CR !in d
  }

  lemma SizeErr(cfg: Config, f: Fields, ch: byte)
    requires f.state.ChunkSizeStart? || (f.state.ChunkSize? && ch != ';' && ch != ' ' && ch != CR)
    requires Unhex(ch) < 0
    ensures Dispatch(cfg, f, false, ch) == Err(InvalidChunkSize)
  {
  }

  lemma {:induction false} BadDigitFails(cfg: Config, m: Machine, d: seq<byte>)
    requires m.f.state.ChunkSizeStart? && NoSizeEnd(d) && !AllHex(d) && m.f.nread + |d| <= HTTP_MAX_HEADER_SIZE
    ensures Run(cfg, m, d).Failed?
    decreases |d|
  {
    hide Run, Byte, Passes, Dispatch, Unhex, Hexadecimal;
    var init, last := d[..|d| - 1], d[|d| - 1];
    RunLast(cfg, m, d);
    if !AllHex(init) {
      BadDigitFails(cfg, m, init);
    } else {
      assert Unhex(last) < 0;
      if init == [] {
        RunNothing(cfg, m);
      } else {
        ChunkSizeExact(cfg, m, init);
      }
      var r := Run(cfg, m, init);
      if r.Running? {
        SizeErr(cfg, Counted(r.m.f), last);
        OneErr(cfg, r.m, last, InvalidChunkSize);
      }
    }
  }

  /** Exactly which digits are accepted, and when those are what the standard
      calls a chunk size: if and only if no byte is 0x80 or above. */
  lemma SizeAccepted(cfg: Config, m: Machine, d: seq<byte>)
    requires m.f.state.ChunkSizeStart? && d != [] && NoSizeEnd(d) && m.f.nread + |d| <= HTTP_MAX_HEADER_SIZE
    ensures var r := Run(cfg, m, d);
            && (r.Running? && r.m.f.state.ChunkSize? <==> AllHex(d) && Hexadecimal(d) <= LARGEST_HEXADECIMAL)
            && (r.Running? ==> ((forall i :: 0 <= i < |d| ==> IsHex(d[i])) <==>
                                (forall i :: 0 <= i < |d| ==> d[i] < 0x80 as char)))
  {
    hide Run, Unhex, Hexadecimal, IsHex;
    if AllHex(d) {
      ChunkSizeExact(cfg, m, d);
      forall i | 0 <= i < |d| ensures IsHex(d[i]) <==> d[i] < 0x80 as char {
        UnhexExact(d[i]);
      }
    } else {
      BadDigitFails(cfg, m, d);
    }
  }
}
