/** Chunked bodies (section 4.1 of RFC 7230): decoding undoes encoding. */
module HttpChunked {
  import opened HttpChars
  import opened HttpMachine
  import opened HttpRun
  import opened HttpFraming
  import opened HttpStretch
  import opened HttpLengths
  import opened HttpHeaders
  import opened HttpConnection
  import opened HttpHeaderLines

  /** A chunk as a sender may write it: its size in hexadecimal with any leading
      zeros, optional parameters, its payload. */
  datatype Chunk = Chunk(size: seq<byte>, params: seq<byte>, payload: seq<byte>)

  predicate SizeLine(size: seq<byte>, params: seq<byte>, n: nat) {
    && size != [] && AllHex(size) && Hexadecimal(size) == n <= LARGEST_HEXADECIMAL
    && (params != [] ==> params[0] == ';' || params[0] == ' ') && CR !in params
    && |size| + |params| + 2 <= HTTP_MAX_HEADER_SIZE
  }

  predicate ValidChunk(c: Chunk) {
    c.payload != [] && SizeLine(c.size, c.params, |c.payload|)
  }

  function EncodeChunk(c: Chunk): seq<byte> {
    c.size + c.params + CRLF + c.payload + CRLF
  }

  function EncodeChunks(cs: seq<Chunk>): seq<byte> {
    if cs == [] then [] else EncodeChunk(cs[0]) + EncodeChunks(cs[1..])
  }

  function ChunkEvents(c: Chunk): Log {
    [ChunkHeader(|c.payload|), Data(Body, c.payload), ChunkComplete]
  }

  function ChunksEvents(cs: seq<Chunk>): Log {
    if cs == [] then [] else ChunkEvents(cs[0]) + ChunksEvents(cs[1..])
  }

  predicate AtSizeStart(m: Machine) {
    m.f.state.ChunkSizeStart? && m.f.nread == 0 && m.f.flags.chunked
  }

  lemma Associative(a: Log, b: Log, c: Log)
    ensures a + b + c == a + (b + c)
  {
  }

  // ---------- The size line ----------

  lemma ParamByte(cfg: Config, f: Fields, ch: byte)
    requires f.state.ChunkParameters? && ch != CR
    ensures Dispatch(cfg, f, false, ch) == Stay(f, Quiet)
  {
  }

  lemma {:induction false} ParamsRun(cfg: Config, m: Machine, params: seq<byte>)
    requires m.f.state.ChunkParameters? && CR !in params && m.f.nread + |params| <= HTTP_MAX_HEADER_SIZE && !m.skip
    ensures Run(cfg, m, params) == Running(m.(f := m.f.(nread := m.f.nread + |params|)))
    decreases |params|
  {
    hide Byte, Passes, Dispatch;
    if params == [] {
      assert m.f.(nread := m.f.nread) == m.f;
    } else {
      ParamByte(cfg, Counted(m.f), params[0]);
      var n := m.(f := Counted(m.f));
      hide Run;
      RunStay(cfg, m, params, 0, n.f, Quiet);
      assert params[0..] == params;
      ParamsRun(cfg, n, params[1..]);
    }
  }

  lemma SizeEnd(cfg: Config, f: Fields, ch: byte)
    ensures f.state.ChunkSize? && (ch == ';' || ch == ' ') ==>
              Dispatch(cfg, f, false, ch) == Stay(f.(state := ChunkParameters), Quiet)
    ensures (f.state.ChunkSize? || f.state.ChunkParameters?) && ch == CR ==>
              Dispatch(cfg, f, false, ch) == Stay(f.(state := ChunkSizeAlmostDone), Quiet)
    ensures f.state.ChunkSizeAlmostDone? && ch == LF && f.contentLength > 0 ==>
              Dispatch(cfg, f, false, ch) == Stay(f.(nread := 0, state := ChunkData), Notify(ChunkHeader(f.contentLength)))
    ensures f.state.ChunkSizeAlmostDone? && ch == LF && f.contentLength == 0 ==>
              Dispatch(cfg, f, false, ch) ==
              Stay(f.(nread := 0, flags := f.flags.(trailing := true), state := HeaderFieldStart), Notify(ChunkHeader(0)))
  {
  }

  lemma SizeAndParams(cfg: Config, m: Machine, size: seq<byte>, params: seq<byte>, n: nat)
    requires AtSizeStart(m) && SizeLine(size, params, n)
    ensures var r := Run(cfg, m, size + params);
            && r.Running? && !r.m.skip && r.m.log == m.log && (r.m.f.state.ChunkSize? || r.m.f.state.ChunkParameters?)
            && r.m.f == m.f.(state := r.m.f.state, contentLength := n, nread := |size| + |params|)
  {
    hide Run, Byte, Passes, Dispatch, Unhex, Hexadecimal;
    ChunkSizeExact(cfg, m, size);
    RunThen(cfg, m, size, params);
    var s := Run(cfg, m, size).m;
    if params == [] {
      RunNothing(cfg, s);
    } else {
      var p := Counted(s.f).(state := ChunkParameters);
      SizeEnd(cfg, Counted(s.f), params[0]);
      RunStay(cfg, s, params, 0, p, Quiet);
      assert params[0..] == params;
      ParamsRun(cfg, Machine(p, false, m.log), params[1..]);
    }
  }

  /** A whole size line: chunk_header is told the size, counting starts anew. */
  lemma SizeLineRun(cfg: Config, m: Machine, size: seq<byte>, params: seq<byte>, n: nat)
    requires AtSizeStart(m) && SizeLine(size, params, n)
    ensures Run(cfg, m, size + params + CRLF) ==
            Running(Machine(
              if n > 0 then m.f.(state := ChunkData, contentLength := n, nread := 0)
              else m.f.(state := HeaderFieldStart, contentLength := 0, nread := 0,
                        flags := m.f.flags.(trailing := true)),
              false, m.log + [ChunkHeader(n)]))
  {
    hide Run, Byte, Passes, Dispatch, Unhex, Hexadecimal, AllHex;
    SizeAndParams(cfg, m, size, params, n);
    RunThen(cfg, m, size + params, CRLF);
    SizeLineEnd(cfg, Run(cfg, m, size + params).m);
  }

  lemma SizeLineEnd(cfg: Config, m: Machine)
    requires (m.f.state.ChunkSize? || m.f.state.ChunkParameters?) && !m.skip && m.f.nread + 2 <= HTTP_MAX_HEADER_SIZE
    ensures Run(cfg, m, CRLF) ==
            Running(Machine(
              if m.f.contentLength > 0 then m.f.(state := ChunkData, nread := 0)
              else m.f.(state := HeaderFieldStart, nread := 0, flags := m.f.flags.(trailing := true)),
              false, m.log + [ChunkHeader(m.f.contentLength)]))
  {
    hide Run, Byte, Passes, Dispatch, Absorb;
    var a := Counted(m.f).(state := ChunkSizeAlmostDone);
    SizeEnd(cfg, Counted(m.f), CR);
    OneStay(cfg, m, CR, a, Quiet);
    var t := Machine(a, false, m.log);
    SizeEnd(cfg, Counted(a), LF);
    OneStay(cfg, t, LF, Dispatch(cfg, Counted(a), false, LF).f, Notify(ChunkHeader(m.f.contentLength)));
    assert CRLF == [CR] + [LF];
    RunThen(cfg, m, [CR], [LF]);
  }

  // ---------- The payload ----------

  lemma PayloadEnd(cfg: Config, f: Fields, ch: byte)
    ensures f.state.ChunkData? && f.contentLength == 1 ==>
              Dispatch(cfg, f, false, ch) == Stay(f.(contentLength := 0, state := ChunkDataAlmostDone), MarkTake(Body))
    ensures f.state.ChunkDataAlmostDone? && ch == CR ==>
              Dispatch(cfg, f, false, ch) == Stay(f.(state := ChunkDataDone), Flush(Body))
    ensures f.state.ChunkDataDone? && ch == LF ==>
              Dispatch(cfg, f, false, ch) == Stay(f.(nread := 0, state := ChunkSizeStart), Notify(ChunkComplete))
  {
  }

  lemma PayloadRun(cfg: Config, m: Machine, data: seq<byte>)
    requires m.f.state.ChunkData? && data != [] && m.f.contentLength == |data| && m.f.nread == 0
    ensures Run(cfg, m, data) ==
            Running(Machine(m.f.(contentLength := 0, state := ChunkDataAlmostDone), false,
                            Absorb(m.log, Data(Body, data))))
  {
    hide Run, Byte, Passes, Dispatch, Absorb;
    var k := |data| - 1;
    var init := m;
    if k > 0 {
      assert data[0..] == data && data[0..k] == data[..k];
      BodyStretch(cfg, m, data, 0, k);
      init := Machine(m.f.(contentLength := 1), false, Absorb(m.log, Data(Body, data[..k])));
      AbsorbSplit(m.log, Body, data[..k], [data[k]]);
      assert data[..k] + [data[k]] == data;
    } else {
      assert data == [data[0]];
    }
    assert data[k..] == [data[k]];
    PayloadEnd(cfg, init.f, data[k]);
    OneStay(cfg, init, data[k], init.f.(contentLength := 0, state := ChunkDataAlmostDone), MarkTake(Body));
  }

  lemma PayloadLineEnd(cfg: Config, m: Machine)
    requires m.f.state.ChunkDataAlmostDone? && m.f.nread == 0 && LastIs(m.log, Body)
    ensures Run(cfg, m, CRLF) == Running(Machine(m.f.(nread := 0, state := ChunkSizeStart), false, m.log + [ChunkComplete]))
  {
    hide Run, Byte, Passes, Dispatch;
    AbsorbNothing(m.log, Body);
    PayloadEnd(cfg, m.f, CR);
    OneStay(cfg, m, CR, m.f.(state := ChunkDataDone), Flush(Body));
    var n := Machine(m.f.(state := ChunkDataDone), false, m.log);
    PayloadEnd(cfg, n.f, LF);
    OneStay(cfg, n, LF, n.f.(nread := 0, state := ChunkSizeStart), Notify(ChunkComplete));
    assert CRLF == [CR] + [LF];
    RunThen(cfg, m, [CR], [LF]);
  }

  lemma ChunkRun(cfg: Config, m: Machine, c: Chunk)
    requires AtSizeStart(m) && ValidChunk(c)
    ensures Run(cfg, m, EncodeChunk(c)) ==
            Running(Machine(m.f.(contentLength := 0), false, m.log + ChunkEvents(c)))
  {
    hide Run;
    var line := c.size + c.params + CRLF;
    SizeLineRun(cfg, m, c.size, c.params, |c.payload|);
    RunThen(cfg, m, line, c.payload + CRLF);
    assert EncodeChunk(c) == line + (c.payload + CRLF);
    var n := Run(cfg, m, line).m;
    PayloadRun(cfg, n, c.payload);
    RunThen(cfg, n, c.payload, CRLF);
    var p := Run(cfg, n, c.payload).m;
    assert p.log == n.log + [Data(Body, c.payload)];
    PayloadLineEnd(cfg, p);
    assert m.log + [ChunkHeader(|c.payload|)] + [Data(Body, c.payload)] + [ChunkComplete] == m.log + ChunkEvents(c);
  }

  lemma {:induction false} ChunksRun(cfg: Config, m: Machine, cs: seq<Chunk>)
    requires AtSizeStart(m) && !m.skip && forall i :: 0 <= i < |cs| ==> ValidChunk(cs[i])
    ensures var r := Run(cfg, m, EncodeChunks(cs));
            && r.Running? && AtSizeStart(r.m) && !r.m.skip && r.m.log == m.log + ChunksEvents(cs)
            && r.m.f == m.f.(contentLength := r.m.f.contentLength)
    decreases |cs|
  {
    if cs == [] {
      RunNothing(cfg, m);
      assert m.log + [] == m.log;
    } else {
      assert ValidChunk(cs[0]) && forall i :: 0 <= i < |cs[1..]| ==> ValidChunk(cs[1..][i]);
      hide Run, EncodeChunk, ChunkEvents, ValidChunk;
      ChunkRun(cfg, m, cs[0]);
      RunThen(cfg, m, EncodeChunk(cs[0]), EncodeChunks(cs[1..]));
      var n := Run(cfg, m, EncodeChunk(cs[0])).m;
      ChunksRun(cfg, n, cs[1..]);
      Associative(m.log, ChunkEvents(cs[0]), ChunksEvents(cs[1..]));
    }
  }

  // ---------- Trailers and the end ----------

  /** Header lines behind the last chunk; a length among them is read, but means
      nothing any more. */
  predicate ValidTrailers(exact: bool, ts: seq<HeaderLine>) {
    ValidHeaderLines(exact, ts) && Lengths(ts) <= 1
  }

  lemma EndPasses(cfg: Config, f: Fields)
    ensures f.state.HeaderFieldStart? ==>
              && Dispatch(cfg, f, false, CR) == Stay(f.(state := HeadersAlmostDone), Quiet)
              && Dispatch(cfg, f, false, LF) == Again(f.(state := HeadersAlmostDone), Quiet)
    ensures f.state.HeadersAlmostDone? && f.flags.trailing ==>
              Dispatch(cfg, f, false, LF) == Again(f.(state := MessageDone), Notify(ChunkComplete))
    ensures f.state.MessageDone? ==>
              Dispatch(cfg, f, false, LF) ==
              if f.upgrade then Leave(f.(state := Following(f)), Notify(MessageComplete))
              else Stay(f.(state := Following(f)), Notify(MessageComplete))
  {
    FramingExactly(f);
    hide Following, NewMessage, NeedsEof, ShouldKeepAlive, ToClose, Persists;
  }

  /** A machine that has completed a message. */
  function Done(m: Machine): Outcome {
    var n := m.(f := m.f.(state := Following(m.f)));
    if m.f.upgrade then Stopped(n, 0) else Running(n)
  }

  lemma SameFollowing(f: Fields, g: Fields)
    requires g == f.(state := g.state, nread := g.nread, headerState := g.headerState, index := g.index)
    ensures Following(f) == Following(g)
  {
  }

  /** The last pass of a chunked message. */
  lemma EndedPasses(cfg: Config, f: Fields, log: Log)
    requires f.state.HeadersAlmostDone? && f.flags.trailing
    ensures Passes(cfg, Machine(f, false, log), LF) == Done(Machine(f, false, log + [ChunkComplete, MessageComplete]))
  {
    var g := f.(state := MessageDone);
    EndPasses(cfg, f);
    EndPasses(cfg, g);
    SameFollowing(f, g);
    hide Dispatch, Following;
    assert log + [ChunkComplete] + [MessageComplete] == log + [ChunkComplete, MessageComplete];
    assert Passes(cfg, Machine(f, false, log), LF) == Passes(cfg, Machine(g, false, log + [ChunkComplete]), LF);
  }

  lemma OneLast(cfg: Config, m: Machine, ch: byte)
    requires ParsingHeader(m.f.state) && m.f.nread < HTTP_MAX_HEADER_SIZE
    ensures var p := Passes(cfg, m.(f := Counted(m.f)), ch);
            !(p.Stopped? && p.left > 0) ==> Run(cfg, m, [ch]) == p
  {
    hide Passes;
    assert [ch][1..] == [];
  }

  lemma DoneLeft(m: Machine)
    ensures Done(m).Running? || (Done(m).Stopped? && Done(m).left == 0)
    ensures !Done(m).Failed?
  {
  }

  /** The empty line behind the trailers. */
  lemma FinalLine(cfg: Config, m: Machine, end: Ending)
    requires AtLine(m) && LineBegun(m).f.flags.trailing && m.f.nread + |EndText(end)| <= HTTP_MAX_HEADER_SIZE
    ensures var f, log := LineBegun(m).f, LineBegun(m).log + [ChunkComplete, MessageComplete];
            Run(cfg, m, EndText(end)) == Done(Machine(f.(nread := m.f.nread + |EndText(end)|), false, log))
  {
    hide Run, Passes, Dispatch, Following, LineBegun;
    BegunState(m);
    BegunSkips(m);
    BeginLine(cfg, m, EndText(end));
    var s := LineBegun(m);
    var f := Counted(s.f);
    EndPasses(cfg, f);
    var g := f.(state := HeadersAlmostDone);
    if end.CrLf? {
      OneStay(cfg, s, CR, g, Quiet);
      var n := Machine(g, false, s.log);
      EndedPasses(cfg, Counted(g), s.log);
      OneLast(cfg, n, LF);
      DoneLeft(Machine(Counted(g), false, s.log + [ChunkComplete, MessageComplete]));
      DoneSame(Counted(g), f.(nread := f.nread + 1), s.log + [ChunkComplete, MessageComplete]);
      RunThen(cfg, s, [CR], [LF]);
      assert CRLF == [CR] + [LF];
    } else {
      EndedPasses(cfg, g, s.log);
      BareLinePass(cfg, f, s.log);
      OneLast(cfg, s, LF);
      DoneLeft(Machine(g, false, s.log + [ChunkComplete, MessageComplete]));
      DoneSame(g, f, s.log + [ChunkComplete, MessageComplete]);
    }
  }

  lemma BegunSkips(m: Machine)
    requires AtLine(m)
    ensures !LineBegun(m).skip
  {
  }

  lemma BareLinePass(cfg: Config, f: Fields, log: Log)
    requires f.state.HeaderFieldStart?
    ensures Passes(cfg, Machine(f, false, log), LF)
         == Passes(cfg, Machine(f.(state := HeadersAlmostDone), false, log), LF)
  {
    EndPasses(cfg, f);
    hide Dispatch;
  }

  lemma DoneSame(f: Fields, g: Fields, log: Log)
    requires g == f.(state := g.state)
    ensures Done(Machine(f, false, log)) == Done(Machine(g, false, log))
  {
    SameFollowing(f, g);
    hide Following;
  }

  /** Trailers and the empty line. */
  lemma TrailersRun(cfg: Config, exact: bool, m: Machine, ts: seq<HeaderLine>, end: Ending)
    requires m.f.state.HeaderFieldStart? && !m.skip && m.f.flags.trailing && m.f.flags.chunked
    requires !m.f.flags.contentLength && ValidTrailers(exact, ts) && !LastIs(m.log, Field)
    requires m.f.nread + |HeadText(ts)| + |EndText(end)| <= HTTP_MAX_HEADER_SIZE
    ensures var r := Run(cfg, m, HeadText(ts) + EndText(end));
            && !r.Failed? && r == Done(r.m) && r.m.f.upgrade == m.f.upgrade
            && r.m.log == m.log + HeadEvents(ts) + [ChunkComplete, MessageComplete]
            && r.m.f.nread == m.f.nread + |HeadText(ts)| + |EndText(end)| && !r.m.skip
            && Calm(m.f, r.m.f) && (exact ==> r.m.f.flags == NotedAll(m.f, ts).flags)
  {
    hide Run, Following, HeadText, HeadEvents, NotedAll, LastIs, ValidHeaderLines, EndText;
    assert LineBegun(m) == m;
    if exact {
      NotedLines(cfg, m, ts);
    }
    ExactIsCalm(exact, ts);
    CalmLines(cfg, m, ts);
    var n := Run(cfg, m, HeadText(ts)).m;
    FinalLine(cfg, n, end);
    RunThen(cfg, m, HeadText(ts), EndText(end));
    DoneTwice(Machine(LineBegun(n).f.(nread := n.f.nread + |EndText(end)|), false,
                      LineBegun(n).log + [ChunkComplete, MessageComplete]));
  }

  lemma DoneTwice(m: Machine)
    ensures Done(Done(m).m) == Done(m) && Done(m).m == m.(f := m.f.(state := Following(m.f)))
  {
    SameFollowing(m.f, m.f.(state := Following(m.f)));
    hide Following;
  }

  lemma ExactIsCalm(exact: bool, ts: seq<HeaderLine>)
    requires ValidHeaderLines(exact, ts)
    ensures ValidHeaderLines(false, ts) && SomeOptions(ts)
  {
    forall i | 0 <= i < |ts| ensures ValidHeaderLine(false, ts[i]) {
      assert ValidHeaderLine(exact, ts[i]);
    }
  }

  // ---------- What the callbacks amount to ----------

  /** Everything on_body was given. */
  function BodyOf(log: Log): seq<byte> {
    if log == [] then []
    else (if log[0].Data? && log[0].kind == Body then log[0].bytes else []) + BodyOf(log[1..])
  }

  function Completions(log: Log): nat {
    if log == [] then 0 else (if log[0] == MessageComplete then 1 else 0) + Completions(log[1..])
  }

  lemma CountNothing()
    ensures BodyOf([]) == [] && Completions([]) == 0
  {
  }

  lemma CountFirst(log: Log)
    requires log != []
    ensures BodyOf(log) == (if log[0].Data? && log[0].kind == Body then log[0].bytes else []) + BodyOf(log[1..])
    ensures Completions(log) == (if log[0] == MessageComplete then 1 else 0) + Completions(log[1..])
  {
  }

  lemma {:induction false} CountAppend(a: Log, b: Log)
    ensures BodyOf(a + b) == BodyOf(a) + BodyOf(b) && Completions(a + b) == Completions(a) + Completions(b)
    decreases |a|
  {
    hide *;
    if a == [] {
      CountNothing();
      assert a + b == b && BodyOf([]) + BodyOf(b) == BodyOf(b);
    } else {
      CountFirst(a);
      CountFirst(a + b);
      assert (a + b)[1..] == a[1..] + b && (a + b)[0] == a[0];
      CountAppend(a[1..], b);
    }
  }

  function Payloads(cs: seq<Chunk>): seq<byte> {
    if cs == [] then [] else cs[0].payload + Payloads(cs[1..])
  }

  lemma {:induction false} ChunksBody(cs: seq<Chunk>)
    ensures BodyOf(ChunksEvents(cs)) == Payloads(cs) && Completions(ChunksEvents(cs)) == 0
    decreases |cs|
  {
    if cs == [] {
    } else {
      var e := ChunkEvents(cs[0]);
      CountAppend(e, ChunksEvents(cs[1..]));
      ChunksBody(cs[1..]);
      assert e[1..][1..] == [ChunkComplete] && e[1..] == [Data(Body, cs[0].payload), ChunkComplete];
      assert BodyOf([ChunkComplete]) == [] && Completions([ChunkComplete]) == 0;
      assert BodyOf(e[1..]) == cs[0].payload && Completions(e[1..]) == 0;
    }
  }

  lemma OneEvent(e: Event)
    ensures BodyOf([e]) == (if e.Data? && e.kind == Body then e.bytes else [])
    ensures Completions([e]) == if e == MessageComplete then 1 else 0
  {
    assert [e][1..] == [];
  }

  lemma NoEvents()
    ensures BodyOf([]) == [] && Completions([]) == 0
  {
  }

  lemma LineSilent(l: HeaderLine)
    requires l.Options? ==> l.entries != []
    ensures BodyOf(HeaderLineEvents(l)) == [] && Completions(HeaderLineEvents(l)) == 0
  {
    hide BodyOf, Completions, ValueOf, EntriesText;
    var e := HeaderLineEvents(l);
    OneEvent(e[0]);
    OneEvent(e[1]);
    CountAppend([e[0]], [e[1]]);
    assert e == [e[0]] + [e[1]];
  }

  lemma {:induction false} LinesSilent(ls: seq<HeaderLine>)
    requires SomeOptions(ls)
    ensures BodyOf(HeadEvents(ls)) == [] && Completions(HeadEvents(ls)) == 0
    decreases |ls|
  {
    hide BodyOf, Completions, HeaderLineEvents;
    if ls == [] {
      NoEvents();
    } else {
      LineSilent(ls[0]);
      LinesSilent(ls[1..]);
      CountAppend(HeaderLineEvents(ls[0]), HeadEvents(ls[1..]));
    }
  }

  // ---------- The theorem ----------

  function EncodeBody(cs: seq<Chunk>, size: seq<byte>, params: seq<byte>, ts: seq<HeaderLine>, end: Ending): seq<byte>
    requires SomeOptions(ts)
  {
    EncodeChunks(cs) + (size + params + CRLF + (HeadText(ts) + EndText(end)))
  }

  function ChunkedEvents(cs: seq<Chunk>, ts: seq<HeaderLine>): Log
    requires SomeOptions(ts)
  {
    ChunksEvents(cs) + ([ChunkHeader(0)] + (HeadEvents(ts) + [ChunkComplete, MessageComplete]))
  }

  /** A chunked body, with any parameters and trailers, is decoded to exactly its
      payloads in order, and the message is completed exactly once, at the last
      byte. */
  lemma ChunkedRoundTrip(cfg: Config, exact: bool, m: Machine, cs: seq<Chunk>, size: seq<byte>, params: seq<byte>,
                         ts: seq<HeaderLine>, end: Ending)
    requires AtSizeStart(m) && !m.skip && !m.f.flags.contentLength
    requires forall i :: 0 <= i < |cs| ==> ValidChunk(cs[i])
    requires SizeLine(size, params, 0)
    requires ValidTrailers(exact, ts) && |HeadText(ts)| + |EndText(end)| <= HTTP_MAX_HEADER_SIZE
    ensures var r := Run(cfg, m, EncodeBody(cs, size, params, ts, end));
            && !r.Failed? && r == Done(r.m) && r.m.f.upgrade == m.f.upgrade && !r.m.skip
            && r.m.f.nread == |HeadText(ts)| + |EndText(end)|
            && Calm(m.f.(flags := m.f.flags.(trailing := true)), r.m.f)
            && (exact ==> r.m.f.flags == NotedAll(m.f.(flags := m.f.flags.(trailing := true)), ts).flags)
            && r.m.log == m.log + ChunkedEvents(cs, ts)
            && BodyOf(r.m.log) == BodyOf(m.log) + Payloads(cs)
            && Completions(r.m.log) == Completions(m.log) + 1
  {
    hide Run, ValidChunk, ValidHeaderLines, BodyOf, Completions, HeadText, HeadEvents, NotedAll, EndText, LastIs;
    ExactIsCalm(exact, ts);
    var line, tail := size + params + CRLF, HeadText(ts) + EndText(end);
    ChunksRun(cfg, m, cs);
    RunThen(cfg, m, EncodeChunks(cs), line + tail);
    var a := Run(cfg, m, EncodeChunks(cs)).m;
    SizeLineRun(cfg, a, size, params, 0);
    RunThen(cfg, a, line, tail);
    var b := Run(cfg, a, line).m;
    NotField(a.log, ChunkHeader(0));
    TrailersRun(cfg, exact, b, ts, end);
    TrailersFrom(exact, m.f, b.f, ts);
    assert m.log + ChunksEvents(cs) + [ChunkHeader(0)] + HeadEvents(ts) + [ChunkComplete, MessageComplete] ==
           m.log + ChunkedEvents(cs, ts);
    EventsCounted(m.log, cs, ts);
  }

  lemma NotField(log: Log, e: Event)
    requires !e.Data?
    ensures !LastIs(log + [e], Field)
  {
  }

  lemma TrailersFrom(exact: bool, f: Fields, g: Fields, ts: seq<HeaderLine>)
    requires g == f.(flags := f.flags.(trailing := true), state := g.state, contentLength := g.contentLength,
                     nread := g.nread)
    requires ValidTrailers(exact, ts)
    ensures var h := f.(flags := f.flags.(trailing := true));
            && (exact ==> NotedAll(h, ts).flags == NotedAll(g, ts).flags)
            && (forall k :: Calm(g, k) ==> Calm(h, k))
  {
    if exact {
      hide Calm;
      FlagsNoted(f.(flags := f.flags.(trailing := true)), g, ts);
    }
  }

  /** The flags that lines set depend on the flags only. */
  lemma {:induction false} FlagsNoted(f: Fields, g: Fields, ts: seq<HeaderLine>)
    requires f.flags == g.flags && ValidHeaderLines(true, ts)
    ensures NotedAll(f, ts).flags == NotedAll(g, ts).flags
    decreases |ts|
  {
    if ts == [] {
    } else {
      LinesAhead(true, ts);
      hide Noted, ValidHeaderLine;
      FlagsNoted(Noted(f, ts[0]), Noted(g, ts[0]), ts[1..]);
    }
  }

  lemma EventsCounted(log: Log, cs: seq<Chunk>, ts: seq<HeaderLine>)
    requires SomeOptions(ts)
    ensures var all := log + ChunkedEvents(cs, ts);
            BodyOf(all) == BodyOf(log) + Payloads(cs) && Completions(all) == Completions(log) + 1
  {
    var ends: Log := [ChunkComplete, MessageComplete];
    var zero: Log := [ChunkHeader(0)];
    assert ends[1..] == [MessageComplete] && ends[1..][1..] == [];
    assert BodyOf(ends) == [] && Completions(ends) == 1;
    assert BodyOf(zero) == [] && Completions(zero) == 0;
    hide BodyOf, Completions;
    ChunksBody(cs);
    LinesSilent(ts);
    CountAppend(HeadEvents(ts), ends);
    CountAppend(zero, HeadEvents(ts) + ends);
    CountAppend(ChunksEvents(cs), zero + (HeadEvents(ts) + ends));
    CountAppend(log, ChunksEvents(cs) + (zero + (HeadEvents(ts) + ends)));
  }
}
