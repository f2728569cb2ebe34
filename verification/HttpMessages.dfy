/** Whole messages: a start line, header lines, and a body framed as the headers say
    come out as they were written, one message after the other. */
module HttpMessages {
  import opened HttpChars
  import opened HttpMachine
  import opened HttpRun
  import opened HttpFraming
  import opened HttpStretch
  import opened HttpLengths
  import opened HttpHeaders
  import opened HttpHeaderLines
  import opened HttpChunked
  import opened HttpStartLines

  // ---------- The end of the headers ----------

  /** The connection is to be handed over when the message is complete. */
  predicate Upgrades(f: Fields) {
    if f.flags.upgrade && f.flags.connectionUpgrade then f.kind == Request || f.statusCode == 101
    else f.verb == CONNECT
  }

  /** Two ways of framing the body. */
  predicate Conflict(f: Fields) {
    f.flags.chunked && f.flags.contentLength
  }

  /** What the callback is told when the headers are complete. */
  function Ready(f: Fields): Event {
    HeadersComplete(f.statusCode, f.verb, Upgrades(f), f.contentLength)
  }

  /** The fields once the callback has answered 0, 1 or 2. */
  function Opened(cfg: Config, f: Fields): Fields {
    f.(nread := 0, upgrade := Upgrades(f) || cfg.headersReply == 2,
       flags := f.flags.(skipBody := f.flags.skipBody || cfg.headersReply == 1 || cfg.headersReply == 2))
  }

  /** No body follows. */
  predicate NoBody(g: Fields) {
    || g.flags.skipBody
    || (g.upgrade && (g.verb == CONNECT || !(g.flags.chunked || (0 < g.contentLength && g.contentLength != NO_LENGTH))))
    || (!g.flags.chunked && (g.contentLength == 0 || (g.contentLength == NO_LENGTH && !ToClose(g))))
  }

  function BodyState(g: Fields): State {
    if NoBody(g) then Following(g)
    else if g.flags.chunked then ChunkSizeStart
    else if g.contentLength != NO_LENGTH then BodyIdentity
    else BodyIdentityEof
  }

  /** Where the empty line behind the headers leads. */
  function HeadOutcome(cfg: Config, f: Fields, log: Log): Outcome {
    if Conflict(f) then Failed(UnexpectedContentLength)
    else if !(0 <= cfg.headersReply <= 2) then Failed(CbHeadersComplete)
    else
      var g := Opened(cfg, f);
      if NoBody(g) then Done(Machine(g, false, log + [Ready(f), MessageComplete]))
      else Running(Machine(g.(state := BodyState(g)), false, log + [Ready(f)]))
  }

  lemma ReadyPass(cfg: Config, f: Fields)
    requires f.state.HeadersAlmostDone? && !f.flags.trailing
    ensures Dispatch(cfg, f, false, LF) ==
            if Conflict(f) then Err(UnexpectedContentLength)
            else if !(0 <= cfg.headersReply <= 2) then Err(CbHeadersComplete)
            else Again(Opened(cfg, f).(nread := f.nread, state := HeadersDone), Notify(Ready(f)))
  {
    assert f.flags.(skipBody := f.flags.skipBody) == f.flags;
  }

  lemma OpenPass(cfg: Config, h: Fields)
    requires h.state.HeadersDone?
    ensures var g := h.(nread := 0);
            Dispatch(cfg, h, false, LF) ==
            if NoBody(g) then
              if g.upgrade then Leave(g.(state := Following(g)), Notify(MessageComplete))
              else Stay(g.(state := Following(g)), Notify(MessageComplete))
            else Stay(g.(state := BodyState(g)), Quiet)
  {
    FramingExactly(h.(nread := 0));
    hide NewMessage, NeedsEof, Following;
  }

  lemma FramingSame(f: Fields, g: Fields)
    requires g == f.(nread := g.nread, state := g.state, headerState := g.headerState, index := g.index)
    ensures ToClose(f) == ToClose(g) && Following(f) == Following(g)
  {
  }

  lemma EndedHead(cfg: Config, f: Fields, log: Log)
    requires f.state.HeadersAlmostDone? && !f.flags.trailing
    ensures Passes(cfg, Machine(f, false, log), LF) == HeadOutcome(cfg, f, log)
  {
    ReadyPass(cfg, f);
    hide Dispatch, Ready, Opened, NoBody, Following, Conflict, BodyState;
    if !Conflict(f) && 0 <= cfg.headersReply <= 2 {
      OpenedPasses(cfg, f, log);
    }
  }

  lemma OpenedPasses(cfg: Config, f: Fields, log: Log)
    ensures var g, h := Opened(cfg, f), Opened(cfg, f).(nread := f.nread, state := HeadersDone);
            Passes(cfg, Machine(h, false, log + [Ready(f)]), LF) ==
            if NoBody(g) then Done(Machine(g, false, log + [Ready(f), MessageComplete]))
            else Running(Machine(g.(state := BodyState(g)), false, log + [Ready(f)]))
  {
    hide Dispatch, Ready, Opened, NoBody, Following, BodyState;
    OpenPass(cfg, Opened(cfg, f).(nread := f.nread, state := HeadersDone));
    OpenedShape(cfg, f);
    assert log + [Ready(f)] + [MessageComplete] == log + [Ready(f), MessageComplete];
  }

  lemma OpenedShape(cfg: Config, f: Fields)
    ensures var g, h := Opened(cfg, f), Opened(cfg, f).(nread := f.nread, state := HeadersDone);
            && h.upgrade == g.upgrade && NoBody(h.(nread := 0)) == NoBody(g)
            && BodyState(h.(nread := 0)) == BodyState(g) && Following(h.(nread := 0)) == Following(g)
            && h.(nread := 0) == g.(state := HeadersDone) && !Ready(f).Data?
  {
    var g := Opened(cfg, f);
    FramingSame(g, g.(state := HeadersDone));
    hide Following, ToClose;
  }

  lemma HeadSame(cfg: Config, f: Fields, g: Fields, log: Log)
    requires g == f.(state := g.state, nread := g.nread)
    ensures HeadOutcome(cfg, f, log) == HeadOutcome(cfg, g, log)
  {
    FramingSame(Opened(cfg, f), Opened(cfg, g));
    hide Following, ToClose;
  }

  lemma HeadLeft(cfg: Config, f: Fields, log: Log)
    ensures var r := HeadOutcome(cfg, f, log); !(r.Stopped? && r.left > 0)
  {
    hide NoBody, Following, Ready;
  }

  /** The empty line behind the headers, for every answer of the callback. */
  lemma HeadersEnd(cfg: Config, m: Machine, end: Ending)
    requires AtLine(m) && !LineBegun(m).f.flags.trailing && m.f.nread + |EndText(end)| <= HTTP_MAX_HEADER_SIZE
    ensures Run(cfg, m, EndText(end)) == HeadOutcome(cfg, LineBegun(m).f, LineBegun(m).log)
  {
    hide Run, Passes, Dispatch, LineBegun, HeadOutcome;
    BegunState(m);
    BegunSkips(m);
    BeginLine(cfg, m, EndText(end));
    var s := LineBegun(m);
    var f := Counted(s.f);
    EndPasses(cfg, f);
    var g := f.(state := HeadersAlmostDone);
    if end.CrLf? {
      OneStay(cfg, s, CR, g, Quiet);
      var n := Machine(g, false, s.log);
      EndedHead(cfg, Counted(g), s.log);
      HeadSame(cfg, s.f, Counted(g), s.log);
      HeadLeft(cfg, s.f, s.log);
      OneLast(cfg, n, LF);
      RunThen(cfg, s, [CR], [LF]);
      assert CRLF == [CR] + [LF];
    } else {
      EndedHead(cfg, g, s.log);
      BareLinePass(cfg, f, s.log);
      HeadSame(cfg, s.f, g, s.log);
      HeadLeft(cfg, s.f, s.log);
      OneLast(cfg, s, LF);
    }
  }

  /** Behind the headers of a response that says neither how long its body is nor that it
      comes in chunks, the body goes on to the end of the connection exactly if the
      status allows a body; otherwise the message is complete at once. */
  lemma BodyToEnd(cfg: Config, m: Machine, end: Ending)
    requires AtLine(m) && m.f.nread + |EndText(end)| <= 81920 && cfg.headersReply == 0
    requires var f := LineBegun(m).f;
             !f.kind.Request? && !f.flags.trailing && !f.flags.chunked && f.contentLength == 18446744073709551615 &&
             !Upgrades(f)
    ensures var f, r := LineBegun(m).f, Run(cfg, m, EndText(end));
            && r.Running?
            && (r.m.f.state.BodyIdentityEof? <==>
                !(100 <= f.statusCode <= 199) && f.statusCode != 204 && f.statusCode != 304 && !f.flags.skipBody)
            && r.m.log == LineBegun(m).log + [HeadersComplete(f.statusCode, f.verb, false, f.contentLength)] +
            if r.m.f.state.BodyIdentityEof? then [] else [MessageComplete]
  {
    hide Run, LineBegun;
    HeadersEnd(cfg, m, end);
  }

  // ---------- Bodies ----------

  lemma IdentityLast(cfg: Config, f: Fields, ch: byte)
    requires f.state.BodyIdentity? && f.contentLength == 1
    ensures Dispatch(cfg, f, false, ch) == Again(f.(contentLength := 0, state := MessageDone), MarkTakeFlush(Body))
  {
  }

  lemma DonePass(cfg: Config, f: Fields, ch: byte)
    requires f.state.MessageDone?
    ensures Dispatch(cfg, f, false, ch) ==
            if f.upgrade then Leave(f.(state := Following(f)), Notify(MessageComplete))
            else Stay(f.(state := Following(f)), Notify(MessageComplete))
  {
    FramingExactly(f);
    hide Following, NewMessage, NeedsEof, ShouldKeepAlive, ToClose, Persists;
  }

  lemma LastOfBody(cfg: Config, m: Machine, ch: byte)
    requires m.f.state.BodyIdentity? && m.f.contentLength == 1 && !m.skip
    ensures Run(cfg, m, [ch])
         == Done(Machine(m.f.(contentLength := 0), false, Absorb(m.log, Data(Body, [ch])) + [MessageComplete]))
  {
    hide Dispatch, Following, Absorb;
    var done := m.f.(contentLength := 0, state := MessageDone);
    IdentityLast(cfg, m.f, ch);
    DonePass(cfg, done, ch);
    FramingSame(m.f.(contentLength := 0), done);
    var log := Absorb(m.log, Data(Body, [ch]));
    assert Passes(cfg, m, ch) == Passes(cfg, Machine(done, false, log), ch);
    assert [ch][1..] == [];
  }

  /** A body with a length is handed over as it is, and the message is complete. */
  lemma IdentityBody(cfg: Config, m: Machine, body: seq<byte>)
    requires m.f.state.BodyIdentity? && m.f.contentLength == |body| > 0 && !m.skip
    ensures Run(cfg, m, body)
         == Done(Machine(m.f.(contentLength := 0), false, Absorb(m.log, Data(Body, body)) + [MessageComplete]))
  {
    hide Run, Following, Absorb, Done;
    var n := |body| - 1;
    if n == 0 {
      assert body == [body[0]];
      LastOfBody(cfg, m, body[0]);
    } else {
      BodyStretch(cfg, m, body, 0, n);
      assert body[0..] == body && body[0..n] == body[..n] && body[n..] == [body[n]];
      var k := Machine(m.f.(contentLength := 1), false, Absorb(m.log, Data(Body, body[..n])));
      LastOfBody(cfg, k, body[n]);
      AbsorbSplit(m.log, Body, body[..n], [body[n]]);
      assert body[..n] + [body[n]] == body;
    }
  }

  /** What is accepted behind a body with a length is decided by the version and the
      flags alone. */
  lemma NextMessage(cfg: Config, m: Machine, body: seq<byte>)
    requires m.f.state.BodyIdentity? && m.f.contentLength == |body| > 0 && !m.skip && !m.f.upgrade
    ensures var f, r := m.f, Run(cfg, m, body);
            && r.Running?
            && (r.m.f.state.Dead? <==>
                if f.httpMajor >= 1 && f.httpMinor >= 1 then f.flags.close else !f.flags.keepAlive)
            && (r.m.f.state.StartReq? || r.m.f.state.StartRes? || r.m.f.state.Dead?)
            && (r.m.f.state.StartReq? ==> f.kind.Request?) && (r.m.f.state.StartRes? ==> !f.kind.Request?)
  {
    hide Run, Absorb;
    IdentityBody(cfg, m, body);
  }

  /** A body without a length is handed over as far as it has come. */
  lemma EofBody(cfg: Config, m: Machine, body: seq<byte>)
    requires m.f.state.BodyIdentityEof? && body != [] && !m.skip
    ensures Run(cfg, m, body) == Running(Machine(m.f, false, Absorb(m.log, Data(Body, body))))
  {
    hide Run, Absorb;
    BodyStretch(cfg, m, body, 0, |body|);
    assert body[0..] == body && body[0..|body|] == body && body[|body|..] == [];
    RunNothing(cfg, Machine(m.f, false, Absorb(m.log, Data(Body, body))));
  }

  // ---------- Messages ----------

  datatype MessageBody =
    | Whole(payload: seq<byte>)
    | Chunks(chunks: seq<Chunk>, size: seq<byte>, params: seq<byte>, trailers: seq<HeaderLine>, end: Ending)
    | ToEnd(payload: seq<byte>)
    | Nothing

  /** Everything behind the start line. */
  datatype Content = Content(lines: seq<HeaderLine>, end: Ending, body: MessageBody)

  predicate ValidBody(b: MessageBody) {
    b.Chunks? ==>
      && (forall i :: 0 <= i < |b.chunks| ==> ValidChunk(b.chunks[i])) && SizeLine(b.size, b.params, 0)
      && ValidTrailers(true, b.trailers) && |HeadText(b.trailers)| + |EndText(b.end)| <= HTTP_MAX_HEADER_SIZE
  }

  predicate ValidContent(c: Content) {
    ValidHeaderLines(true, c.lines) && Lengths(c.lines) <= 1 && ValidBody(c.body)
  }

  /** The body is framed as the headers say. */
  predicate Framed(g: Fields, b: MessageBody) {
    if NoBody(g) then b.Nothing?
    else if g.flags.chunked then b.Chunks?
    else if g.contentLength != NO_LENGTH then b.Whole? && |b.payload| == g.contentLength
    else b.ToEnd?
  }

  function LinesText(c: Content): seq<byte>
    requires SomeOptions(c.lines)
  {
    HeadText(c.lines) + EndText(c.end)
  }

  function BodyText(b: MessageBody): seq<byte>
    requires ValidBody(b)
  {
    match b
    case Whole(payload) => payload
    case Chunks(chunks, size, params, trailers, end) => EncodeBody(chunks, size, params, trailers, end)
    case ToEnd(payload) => payload
    case Nothing => []
  }

  /** The bytes that on_body must be given. */
  function Payload(b: MessageBody): seq<byte> {
    match b
    case Whole(payload) => payload
    case Chunks(chunks, _, _, _, _) => Payloads(chunks)
    case ToEnd(payload) => payload
    case Nothing => []
  }

  function BodyEvents(b: MessageBody): Log
    requires ValidBody(b)
  {
    match b
    case Whole(payload) => [Data(Body, payload), MessageComplete]
    case Chunks(chunks, _, _, trailers, _) => ChunkedEvents(chunks, trailers)
    case ToEnd(payload) => if payload == [] then [] else [Data(Body, payload)]
    case Nothing => [MessageComplete]
  }

  function ContentEvents(f: Fields, c: Content): Log
    requires ValidContent(c)
  {
    HeadEvents(c.lines) + ([Ready(NotedAll(f, c.lines))] + BodyEvents(c.body))
  }

  /** Header bytes counted since the body began. */
  function TailSize(b: MessageBody): nat
    requires ValidBody(b)
  {
    if b.Chunks? then |HeadText(b.trailers)| + |EndText(b.end)| else 0
  }

  /** The fields that decide what comes after the message. */
  function FinalFields(g: Fields, b: MessageBody): Fields
    requires ValidBody(b)
  {
    match b
    case Whole(_) => g.(contentLength := 0)
    case Chunks(_, _, _, trailers, _) => g.(flags := NotedAll(g.(flags := g.flags.(trailing := true)), trailers).flags)
    case ToEnd(_) => g
    case Nothing => g
  }

  /** The fields of two states of one message, but for where they are in it. */
  predicate SameMessage(f: Fields, g: Fields) {
    g == f.(state := g.state, headerState := g.headerState, index := g.index, nread := g.nread,
            contentLength := g.contentLength)
  }

  /** A message may start here: no flags, no length. */
  predicate Fresh(m: Machine) {
    && m.f.state.HeaderFieldStart? && !m.skip && m.f.flags == NO_FLAGS && m.f.contentLength == NO_LENGTH
    && !LastIs(m.log, Field) && !LastIs(m.log, Body)
  }

  /** How a message ends: completed, or waiting for the end of the connection. */
  predicate Ended(g: Fields, b: MessageBody, r: Outcome)
    requires ValidBody(b)
  {
    && !r.Failed? && !r.m.skip && SameMessage(FinalFields(g, b), r.m.f) && r.m.f.nread == TailSize(b)
    && (if b.ToEnd? then r.Running? && r.m.f.state.BodyIdentityEof?
        else r == Done(r.m) && r.m.f.state == Following(FinalFields(g, b)))
  }

  lemma NotTrailing(f: Fields, ls: seq<HeaderLine>)
    requires ValidHeaderLines(true, ls)
    ensures var g := NotedAll(f, ls); g.flags.trailing == f.flags.trailing && g.flags.skipBody == f.flags.skipBody
    ensures var g := NotedAll(f, ls); g == f.(flags := g.flags, contentLength := g.contentLength)
    decreases |ls|
  {
    if ls == [] {
    } else {
      LinesAhead(true, ls);
      OneNotTrailing(f, ls[0]);
      hide Noted, ValidHeaderLine;
      NotTrailing(Noted(f, ls[0]), ls[1..]);
    }
  }

  lemma OneNotTrailing(f: Fields, l: HeaderLine)
    requires ValidHeaderLine(true, l)
    ensures var g := Noted(f, l); g.flags.trailing == f.flags.trailing && g.flags.skipBody == f.flags.skipBody
    ensures var g := Noted(f, l); g == f.(flags := g.flags, contentLength := g.contentLength)
  {
    if l.Options? {
      HttpConnection.ListFraming(f.flags, l.entries);
    }
    hide HttpConnection.ListFlags, Decimal, ValueOf;
  }

  /** The parser behind the empty line; f differs from what was noted only in where
      the parser is. */
  lemma HeadRead(cfg: Config, m: Machine, c: Content) returns (f: Fields)
    requires Fresh(m) && ValidContent(c) && m.f.nread + |LinesText(c)| <= HTTP_MAX_HEADER_SIZE
    ensures SameHead(NotedAll(m.f, c.lines), f)
    ensures Run(cfg, m, LinesText(c)) == HeadOutcome(cfg, f, m.log + HeadEvents(c.lines))
  {
    hide Run, HeadText, HeadEvents, NotedAll, LastIs, ValidHeaderLine, EndText, HeadOutcome, ValidBody;
    assert LineBegun(m) == m;
    NotedLines(cfg, m, c.lines);
    var n := Run(cfg, m, HeadText(c.lines)).m;
    NotTrailing(m.f, c.lines);
    HeadersEnd(cfg, n, c.end);
    RunThen(cfg, m, HeadText(c.lines), EndText(c.end));
    f := LineBegun(n).f;
  }

  lemma HeadAlike(cfg: Config, f: Fields, g: Fields)
    requires SameHead(f, g)
    ensures var a, b := Opened(cfg, f), Opened(cfg, g);
            && Conflict(f) == Conflict(g) && Ready(f) == Ready(g) && NoBody(a) == NoBody(b)
            && SameMessage(a, b) && a.contentLength == b.contentLength && BodyState(a) == BodyState(b)
            && Following(a) == Following(b)
  {
    FramingSame(Opened(cfg, f), Opened(cfg, g));
    hide Following, ToClose;
  }

  lemma DoneShape(m: Machine)
    ensures var r := Done(m);
            && !r.Failed? && r == Done(r.m) && r.m == m.(f := m.f.(state := Following(m.f)))
  {
    DoneTwice(m);
    hide Following;
  }

  /** The next message does not depend on a length that framed nothing. */
  lemma FollowingSame(f: Fields, g: Fields)
    requires SameMessage(f, g) && (f.contentLength == g.contentLength || f.flags.chunked)
    ensures Following(f) == Following(g)
  {
  }

  lemma AbsorbBody(log: Log, body: seq<byte>)
    requires !LastIs(log, Body)
    ensures Absorb(log, Data(Body, body)) == log + [Data(Body, body)]
  {
  }

  lemma WholeRead(cfg: Config, m: Machine, g: Fields, b: MessageBody)
    requires b.Whole? && m.f.state.BodyIdentity? && SameMessage(g, m.f) && m.f.contentLength == g.contentLength
    requires |b.payload| == g.contentLength > 0 && !m.skip && m.f.nread == 0 && !LastIs(m.log, Body)
    ensures Ended(g, b, Run(cfg, m, b.payload)) && Run(cfg, m, b.payload).m.log == m.log + BodyEvents(b)
  {
    hide Run, Following, Absorb, LastIs;
    var n := Machine(m.f.(contentLength := 0), false, Absorb(m.log, Data(Body, b.payload)) + [MessageComplete]);
    IdentityBody(cfg, m, b.payload);
    AbsorbBody(m.log, b.payload);
    DoneShape(n);
    FollowingSame(g.(contentLength := 0), n.f);
    assert m.log + [Data(Body, b.payload)] + [MessageComplete] == m.log + BodyEvents(b);
  }

  lemma ChunksRead(cfg: Config, m: Machine, g: Fields, b: MessageBody)
    requires b.Chunks? && ValidBody(b) && AtSizeStart(m) && SameMessage(g, m.f) && !m.skip && !g.flags.contentLength
    ensures Ended(g, b, Run(cfg, m, BodyText(b))) && Run(cfg, m, BodyText(b)).m.log == m.log + BodyEvents(b)
  {
    hide Run, Following, ValidChunk, SizeLine, HeadText, EndText, ChunkedEvents, EncodeBody, BodyOf, Completions;
    hide ValidHeaderLine, NotedAll;
    ChunkedRoundTrip(cfg, true, m, b.chunks, b.size, b.params, b.trailers, b.end);
    var r := Run(cfg, m, BodyText(b));
    var h := m.f.(flags := m.f.flags.(trailing := true));
    FlagsNoted(g.(flags := g.flags.(trailing := true)), h, b.trailers);
    FlagsChunked(g.(flags := g.flags.(trailing := true)), b.trailers);
    DoneShape(r.m);
    FollowingSame(FinalFields(g, b), r.m.f);
  }

  lemma {:induction false} FlagsChunked(f: Fields, ls: seq<HeaderLine>)
    requires ValidHeaderLines(true, ls) && f.flags.chunked
    ensures NotedAll(f, ls).flags.chunked
    decreases |ls|
  {
    if ls == [] {
    } else {
      LinesAhead(true, ls);
      NotedIsCalm(f, ls[0]);
      hide Noted, ValidHeaderLine;
      FlagsChunked(Noted(f, ls[0]), ls[1..]);
    }
  }

  lemma ToEndRead(cfg: Config, m: Machine, g: Fields, b: MessageBody)
    requires b.ToEnd? && m.f.state.BodyIdentityEof? && SameMessage(g, m.f) && m.f.nread == 0 && !m.skip
    requires !LastIs(m.log, Body)
    ensures Ended(g, b, Run(cfg, m, b.payload)) && Run(cfg, m, b.payload).m.log == m.log + BodyEvents(b)
  {
    hide Run, Absorb, LastIs;
    if b.payload == [] {
      RunNothing(cfg, m);
      assert m.log + [] == m.log;
    } else {
      EofBody(cfg, m, b.payload);
      AbsorbBody(m.log, b.payload);
    }
  }

  /** A body framed as the headers say is handed over as it was written. */
  lemma BodyRead(cfg: Config, m: Machine, g: Fields, b: MessageBody)
    requires !NoBody(g) && Framed(g, b) && ValidBody(b) && !Conflict(g)
    requires SameMessage(g, m.f) && m.f.contentLength == g.contentLength && m.f.state == BodyState(g)
    requires !m.skip && m.f.nread == 0 && !LastIs(m.log, Body)
    ensures Ended(g, b, Run(cfg, m, BodyText(b))) && Run(cfg, m, BodyText(b)).m.log == m.log + BodyEvents(b)
  {
    hide Run, Ended, BodyEvents, ValidBody, Following, ToClose, LastIs;
    match b
    case Whole(_) => WholeRead(cfg, m, g, b);
    case Chunks(_, _, _, _, _) => ChunksRead(cfg, m, g, b);
    case ToEnd(_) => ToEndRead(cfg, m, g, b);
    case Nothing =>
  }

  /** The content fits the headers, and the callback goes on. */
  predicate Fits(cfg: Config, f: Fields, c: Content) {
    && ValidContent(c) && 0 <= cfg.headersReply <= 2
    && var h := NotedAll(f, c.lines); !Conflict(h) && Framed(Opened(cfg, h), c.body)
  }

  /** What a message is does not depend on where the parser is. */
  lemma FitsSame(cfg: Config, f: Fields, g: Fields, c: Content)
    requires SameHead(f, g) && ValidContent(c)
    ensures Fits(cfg, f, c) == Fits(cfg, g, c) && ContentEvents(f, c) == ContentEvents(g, c)
    ensures var a, b := Opened(cfg, NotedAll(f, c.lines)), Opened(cfg, NotedAll(g, c.lines));
            SameMessage(a, b) && a.contentLength == b.contentLength
  {
    NotedAllSame(f, g, c.lines);
    hide NotedAll, ValidHeaderLine, HeadEvents, BodyEvents, ValidBody;
    HeadAlike(cfg, NotedAll(f, c.lines), NotedAll(g, c.lines));
    hide NoBody, Ready, Conflict;
  }

  lemma EndedSame(g: Fields, h: Fields, b: MessageBody, r: Outcome)
    requires SameMessage(g, h) && g.contentLength == h.contentLength && ValidBody(b)
    ensures Ended(g, b, r) == Ended(h, b, r)
  {
    if b.Chunks? {
      FlagsNoted(g.(flags := g.flags.(trailing := true)), h.(flags := h.flags.(trailing := true)), b.trailers);
    }
    hide NotedAll, ValidHeaderLine, HeadText, EndText;
    FramingSame(FinalFields(g, b), FinalFields(h, b));
    hide Following;
  }

  /** A whole message behind its start line: header lines are reported as they were
      written, then the end of the headers, then the body's events; and the parser
      is where the message leaves it. */
  lemma ContentRead(cfg: Config, m: Machine, c: Content)
    requires Fresh(m) && Fits(cfg, m.f, c) && m.f.nread + |LinesText(c)| <= HTTP_MAX_HEADER_SIZE
    ensures var r := Run(cfg, m, LinesText(c) + BodyText(c.body));
            && Ended(Opened(cfg, NotedAll(m.f, c.lines)), c.body, r)
            && r.m.log == m.log + ContentEvents(m.f, c)
  {
    hide Run, HeadText, HeadEvents, NotedAll, LastIs, ValidHeaderLine, EndText, ValidBody, Following, LinesText, Fresh;
    hide Ready, NoBody, Conflict, BodyEvents;
    var h := NotedAll(m.f, c.lines);
    var f := HeadRead(cfg, m, c);
    HeadAlike(cfg, h, f);
    var log := m.log + HeadEvents(c.lines);
    var g, e := Opened(cfg, h), [Ready(h)];
    EventsJoin(log, e, BodyEvents(c.body));
    EventsJoin(m.log, HeadEvents(c.lines), e + BodyEvents(c.body));
    if NoBody(g) {
      assert LinesText(c) + [] == LinesText(c);
      DoneShape(Machine(Opened(cfg, f), false, log + [Ready(h), MessageComplete]));
      NothingEvents(log, e);
    } else {
      var n := Run(cfg, m, LinesText(c)).m;
      RunThen(cfg, m, LinesText(c), BodyText(c.body));
      ReadyLast(log, h);
      ConflictSame(cfg, h);
      BodyRead(cfg, n, g, c.body);
    }
  }

  lemma NothingEvents(log: Log, e: Log)
    requires |e| == 1
    ensures log + [e[0], MessageComplete] == log + e + BodyEvents(Nothing)
  {
  }

  lemma ReadyLast(log: Log, f: Fields)
    ensures !LastIs(log + [Ready(f)], Body)
  {
  }

  lemma ConflictSame(cfg: Config, f: Fields)
    ensures Conflict(Opened(cfg, f)) == Conflict(f)
  {
  }

  // ---------- What the callbacks amount to ----------

  lemma BodyCounted(b: MessageBody)
    requires ValidBody(b)
    ensures BodyOf(BodyEvents(b)) == Payload(b)
    ensures Completions(BodyEvents(b)) == if b.ToEnd? then 0 else 1
  {
    hide BodyOf, Completions, ChunkedEvents, Payloads;
    NoEvents();
    OneEvent(MessageComplete);
    match b
    case Whole(payload) =>
      OneEvent(Data(Body, payload));
      CountAppend([Data(Body, payload)], [MessageComplete]);
      assert [Data(Body, payload)] + [MessageComplete] == [Data(Body, payload), MessageComplete];
    case Chunks(chunks, _, _, trailers, _) =>
      EventsCounted([], chunks, trailers);
      assert [] + ChunkedEvents(chunks, trailers) == ChunkedEvents(chunks, trailers);
    case ToEnd(payload) =>
      OneEvent(Data(Body, payload));
    case Nothing =>
  }

  /** The body comes out intact, and the message is completed once, or not before
      the connection ends. */
  lemma BodyIntact(f: Fields, c: Content)
    requires ValidContent(c)
    ensures BodyOf(ContentEvents(f, c)) == Payload(c.body)
    ensures Completions(ContentEvents(f, c)) == if c.body.ToEnd? then 0 else 1
  {
    hide BodyOf, Completions, HeadEvents, BodyEvents, ValidBody, ValidHeaderLine, NotedAll;
    var e := Ready(NotedAll(f, c.lines));
    CountAppend(HeadEvents(c.lines), [e] + BodyEvents(c.body));
    CountAppend([e], BodyEvents(c.body));
    LinesSilent(c.lines);
    OneEvent(e);
    BodyCounted(c.body);
  }

  lemma BegunSilent(e: Event)
    requires e.Data? && e.kind != Body
    ensures BodyOf([MessageBegin, e]) == [] && Completions([MessageBegin, e]) == 0
  {
    hide BodyOf, Completions;
    OneEvent(MessageBegin);
    OneEvent(e);
    CountAppend([MessageBegin], [e]);
    assert [MessageBegin, e] == [MessageBegin] + [e];
  }

  lemma BegunFresh(log: Log, e: Event)
    requires e.Data? && e.kind != Body && e.kind != Field
    ensures !LastIs(log + [MessageBegin, e], Field) && !LastIs(log + [MessageBegin, e], Body)
  {
  }

  // ---------- Responses ----------

  datatype WholeResponse = WholeResponse(line: StatusLine, content: Content)

  predicate ValidResponse(cfg: Config, f: Fields, x: WholeResponse) {
    ValidStatusLine(x.line) && Fits(cfg, ResponseFields(f, x.line), x.content)
  }

  function ResponseFields(f: Fields, l: StatusLine): Fields
    requires ValidStatusLine(l)
  {
    f.(flags := NO_FLAGS, contentLength := NO_LENGTH, httpMajor := Digit(l.version.major),
       httpMinor := Digit(l.version.minor), statusCode := Decimal(l.code))
  }

  function ResponseText(x: WholeResponse): seq<byte>
    requires ValidContent(x.content)
  {
    StatusText(x.line) + (LinesText(x.content) + BodyText(x.content.body))
  }

  function ResponseEvents(f: Fields, x: WholeResponse): Log
    requires ValidStatusLine(x.line) && ValidContent(x.content)
  {
    [MessageBegin, Data(Status, ReasonOf(x.line.reason))] + ContentEvents(ResponseFields(f, x.line), x.content)
  }

  /** The size of what is counted as header bytes before the body. */
  function HeadSize(x: WholeResponse): nat
    requires ValidContent(x.content)
  {
    |StatusText(x.line)| + |LinesText(x.content)|
  }

  /** The fields when the headers are complete, but for where the parser is. */
  function HeadFields(cfg: Config, f: Fields, x: WholeResponse): Fields
    requires ValidResponse(cfg, f, x)
  {
    Opened(cfg, NotedAll(ResponseFields(f, x.line), x.content.lines))
  }

  /** A whole response: version, code, reason, headers and body are reported as they
      were written, in any framing, and the body comes out intact. */
  lemma ResponseRead(cfg: Config, m: Machine, x: WholeResponse)
    requires m.f.state.StartRes? && !m.skip && ValidResponse(cfg, m.f, x)
    requires m.f.nread + HeadSize(x) <= HTTP_MAX_HEADER_SIZE
    ensures var r := Run(cfg, m, ResponseText(x));
            && Ended(HeadFields(cfg, m.f, x), x.content.body, r)
            && r.m.log == m.log + ResponseEvents(m.f, x)
            && BodyOf(ResponseEvents(m.f, x)) == Payload(x.content.body)
            && Completions(ResponseEvents(m.f, x)) == if x.content.body.ToEnd? then 0 else 1
  {
    hide Run, StatusText, LinesText, BodyText, ContentEvents, BodyOf, Completions, Payload, Digit, Decimal;
    hide ValidStatusLine, ValidHeaderLine, ValidBody, LastIs, NotedAll, Framed, Conflict, Ended, ReasonOf, Opened;
    hide BodyEvents;
    var l, c := x.line, x.content;
    var e := Data(Status, ReasonOf(l.reason));
    StatusLineRead(cfg, m, l, LinesText(c) + BodyText(c.body));
    var f := ResponseFields(m.f, l).(index := 0, nread := m.f.nread + |StatusText(l)|, state := HeaderFieldStart);
    var n := Machine(f, false, m.log + [MessageBegin, e]);
    BegunFresh(m.log, e);
    FitsSame(cfg, ResponseFields(m.f, l), f, c);
    ContentRead(cfg, n, c);
    EventsJoin(m.log, [MessageBegin, e], ContentEvents(f, c));
    BegunSilent(e);
    BodyIntact(ResponseFields(m.f, l), c);
    CountAppend([MessageBegin, e], ContentEvents(ResponseFields(m.f, l), c));
    assert [] + Payload(c.body) == Payload(c.body);
    EndedSame(HeadFields(cfg, m.f, x), Opened(cfg, NotedAll(f, c.lines)), c.body, Run(cfg, m, ResponseText(x)));
  }

  // ---------- Several responses ----------

  /** The connection goes on after this response. */
  predicate KeptAlive(cfg: Config, f: Fields, x: WholeResponse)
    requires ValidResponse(cfg, f, x)
  {
    var g := HeadFields(cfg, f, x);
    !x.content.body.ToEnd? && !g.upgrade && Persists(FinalFields(g, x.content.body))
  }

  function ResponsesText(xs: seq<WholeResponse>): seq<byte>
    requires forall k :: 0 <= k < |xs| ==> ValidContent(xs[k].content)
  {
    if xs == [] then [] else ResponseText(xs[0]) + ResponsesText(xs[1..])
  }

  function ResponsesEvents(f: Fields, xs: seq<WholeResponse>): Log
    requires forall k :: 0 <= k < |xs| ==> ValidStatusLine(xs[k].line) && ValidContent(xs[k].content)
  {
    if xs == [] then [] else ResponseEvents(f, xs[0]) + ResponsesEvents(f, xs[1..])
  }

  /** Responses that can follow each other on one connection. */
  predicate Chain(cfg: Config, f: Fields, counted: nat, xs: seq<WholeResponse>)
    decreases |xs|
  {
    xs == [] ||
    (&& ValidResponse(cfg, f, xs[0]) && KeptAlive(cfg, f, xs[0])
     && counted + HeadSize(xs[0]) <= HTTP_MAX_HEADER_SIZE
     && Chain(cfg, f, TailSize(xs[0].content.body), xs[1..]))
  }

  /** Fields that a response leaves as they are. */
  predicate SameConnection(f: Fields, g: Fields) {
    f.kind == g.kind && f.verb == g.verb
  }

  lemma SameResponse(cfg: Config, f: Fields, g: Fields, x: WholeResponse)
    requires SameConnection(f, g) && ValidResponse(cfg, f, x)
    ensures ValidResponse(cfg, g, x) && KeptAlive(cfg, f, x) == KeptAlive(cfg, g, x)
    ensures ResponseEvents(f, x) == ResponseEvents(g, x)
  {
    hide ValidStatusLine, StatusText, Digit, Decimal, Fits, ContentEvents, ValidContent, NotedAll, Opened;
    FitsContent(cfg, ResponseFields(f, x.line), x.content);
    FitsSame(cfg, ResponseFields(f, x.line), ResponseFields(g, x.line), x.content);
    FinalSame(HeadFields(cfg, f, x), HeadFields(cfg, g, x), x.content.body);
    hide Persists, FinalFields;
  }

  lemma FitsContent(cfg: Config, f: Fields, c: Content)
    requires Fits(cfg, f, c)
    ensures ValidContent(c) && ValidBody(c.body) && ValidHeaderLines(true, c.lines)
  {
    hide ValidBody, ValidHeaderLines, Framed, Conflict;
  }

  lemma FinalSame(g: Fields, h: Fields, b: MessageBody)
    requires SameMessage(g, h) && g.contentLength == h.contentLength && ValidBody(b)
    ensures Persists(FinalFields(g, b)) == Persists(FinalFields(h, b))
  {
    if b.Chunks? {
      FlagsNoted(g.(flags := g.flags.(trailing := true)), h.(flags := h.flags.(trailing := true)), b.trailers);
    }
    hide NotedAll, ValidHeaderLine, HeadText, EndText;
  }

  lemma {:induction false} SameChain(cfg: Config, f: Fields, g: Fields, counted: nat, xs: seq<WholeResponse>)
    requires SameConnection(f, g) && Chain(cfg, f, counted, xs)
    ensures Chain(cfg, g, counted, xs) && ChainValid(xs) && ResponsesEvents(f, xs) == ResponsesEvents(g, xs)
    decreases |xs|
  {
    hide ValidResponse, KeptAlive, ResponseEvents, ValidStatusLine, ValidContent, SameConnection, TailSize;
    if xs == [] {
    } else {
      SameResponse(cfg, f, g, xs[0]);
      ResponseValid(cfg, f, xs[0]);
      SameChain(cfg, f, g, TailSize(xs[0].content.body), xs[1..]);
    }
  }

  predicate ChainValid(xs: seq<WholeResponse>) {
    forall k :: 0 <= k < |xs| ==> ValidStatusLine(xs[k].line) && ValidContent(xs[k].content)
  }

  lemma ResponseValid(cfg: Config, f: Fields, x: WholeResponse)
    requires ValidResponse(cfg, f, x)
    ensures ValidStatusLine(x.line) && ValidContent(x.content)
  {
  }

  lemma KeptFields(f: Fields, l: StatusLine, ls: seq<HeaderLine>, cfg: Config, b: MessageBody, g: Fields)
    requires ValidStatusLine(l) && ValidHeaderLines(true, ls) && ValidBody(b)
    requires SameMessage(FinalFields(Opened(cfg, NotedAll(ResponseFields(f, l), ls)), b), g)
    ensures SameConnection(f, g)
  {
    NotTrailing(ResponseFields(f, l), ls);
    hide NotedAll, ValidHeaderLine, HeadText, EndText;
  }

  /** Any number of responses that keep the connection are reported one after the
      other, each as it was written. */
  lemma {:induction false} ResponsesRead(cfg: Config, m: Machine, xs: seq<WholeResponse>)
    requires m.f.state.StartRes? && m.f.kind.Response? && !m.skip && Chain(cfg, m.f, m.f.nread, xs) && ChainValid(xs)
    ensures var r := Run(cfg, m, ResponsesText(xs));
            r.Running? && r.m.f.state.StartRes? && r.m.log == m.log + ResponsesEvents(m.f, xs)
    decreases |xs|
  {
    hide Run, ValidResponse, KeptAlive, ResponseEvents, ResponseText, ValidStatusLine, ValidContent, HeadSize, TailSize;
    if xs == [] {
      RunNothing(cfg, m);
      assert m.log + [] == m.log;
    } else {
      var x, rest := xs[0], xs[1..];
      KeptRead(cfg, m, x);
      RunThen(cfg, m, ResponseText(x), ResponsesText(rest));
      var n := Run(cfg, m, ResponseText(x)).m;
      SameChain(cfg, m.f, n.f, TailSize(x.content.body), rest);
      ResponsesRead(cfg, n, rest);
      EventsJoin(m.log, ResponseEvents(m.f, x), ResponsesEvents(m.f, rest));
    }
  }

  /** A response that keeps the connection leaves the parser ready for the next. */
  lemma KeptRead(cfg: Config, m: Machine, x: WholeResponse)
    requires m.f.state.StartRes? && m.f.kind.Response? && !m.skip
    requires ValidResponse(cfg, m.f, x) && KeptAlive(cfg, m.f, x) && m.f.nread + HeadSize(x) <= HTTP_MAX_HEADER_SIZE
    ensures ValidStatusLine(x.line) && ValidContent(x.content) && ValidBody(x.content.body)
    ensures var r := Run(cfg, m, ResponseText(x));
            && r.Running? && r.m.f.state.StartRes? && r.m.f.kind.Response? && !r.m.skip
            && SameConnection(m.f, r.m.f) && r.m.f.nread == TailSize(x.content.body)
            && r.m.log == m.log + ResponseEvents(m.f, x)
  {
    hide Run, ResponseEvents, ResponseText, HeadSize, TailSize, BodyOf, Completions, Payload, Fits, NotedAll, Opened;
    hide Persists, ToClose, FinalFields, ValidStatusLine;
    ResponseValid(cfg, m.f, x);
    ResponseRead(cfg, m, x);
    FitsContent(cfg, ResponseFields(m.f, x.line), x.content);
    var r := Run(cfg, m, ResponseText(x));
    KeptFields(m.f, x.line, x.content.lines, cfg, x.content.body, r.m.f);
    FinalUpgrade(HeadFields(cfg, m.f, x), x.content.body);
  }

  lemma FinalUpgrade(g: Fields, b: MessageBody)
    requires ValidBody(b)
    ensures FinalFields(g, b).upgrade == g.upgrade && FinalFields(g, b).kind == g.kind
  {
    hide NotedAll, ValidHeaderLine;
  }

  // ---------- Requests ----------

  datatype WholeRequest = WholeRequest(line: RequestLine, content: Content)

  function RequestFields(f: Fields, l: RequestLine): Fields
    requires ValidRequestLine(l)
  {
    f.(flags := NO_FLAGS, contentLength := NO_LENGTH, verb := l.verb,
       httpMajor := MajorOf(l.protocol), httpMinor := MinorOf(l.protocol))
  }

  predicate ValidRequest(cfg: Config, f: Fields, x: WholeRequest) {
    ValidRequestLine(x.line) && Fits(cfg, RequestFields(f, x.line), x.content)
  }

  function RequestEvents(f: Fields, x: WholeRequest): Log
    requires ValidRequestLine(x.line) && ValidContent(x.content)
  {
    [MessageBegin, Data(Url, x.line.target)] + ContentEvents(RequestFields(f, x.line), x.content)
  }

  /** A whole request of any method, target and version likewise. A request that
      hands the connection over stops the parser behind its last byte. */
  lemma RequestRead(cfg: Config, m: Machine, x: WholeRequest)
    requires m.f.state.StartReq? && !m.skip && ValidRequest(cfg, m.f, x)
    requires m.f.nread + |RequestText(x.line)| + |LinesText(x.content)| <= HTTP_MAX_HEADER_SIZE
    ensures var r := Run(cfg, m, RequestText(x.line) + (LinesText(x.content) + BodyText(x.content.body)));
            && Ended(Opened(cfg, NotedAll(RequestFields(m.f, x.line), x.content.lines)), x.content.body, r)
            && r.m.log == m.log + RequestEvents(m.f, x)
            && BodyOf(RequestEvents(m.f, x)) == Payload(x.content.body)
            && Completions(RequestEvents(m.f, x)) == if x.content.body.ToEnd? then 0 else 1
  {
    hide Run, RequestText, LinesText, BodyText, ContentEvents, BodyOf, Completions, Payload, MajorOf, MinorOf;
    hide ValidRequestLine, ValidHeaderLine, ValidBody, LastIs, NotedAll, Framed, Conflict, Ended, Opened, BodyEvents;
    var l, c := x.line, x.content;
    var e := Data(Url, l.target);
    RequestLineRead(cfg, m, l, LinesText(c) + BodyText(c.body));
    var f := RequestFields(m.f, l).(index := |l.name| + 1, nread := m.f.nread + |RequestText(l)|,
                                    state := HeaderFieldStart);
    var n := Machine(f, false, m.log + [MessageBegin, e]);
    BegunFresh(m.log, e);
    FitsSame(cfg, RequestFields(m.f, l), f, c);
    ContentRead(cfg, n, c);
    EventsJoin(m.log, [MessageBegin, e], ContentEvents(f, c));
    BegunSilent(e);
    BodyIntact(RequestFields(m.f, l), c);
    CountAppend([MessageBegin, e], ContentEvents(RequestFields(m.f, l), c));
    assert [] + Payload(c.body) == Payload(c.body);
    EndedSame(Opened(cfg, NotedAll(RequestFields(m.f, l), c.lines)), Opened(cfg, NotedAll(f, c.lines)), c.body,
              Run(cfg, n, LinesText(c) + BodyText(c.body)));
  }
}
