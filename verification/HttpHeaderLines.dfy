/** Header lines by what they mean to the parser: nothing, a list of connection
    options, the length of the body, or that the body comes in chunks. */
module HttpHeaderLines {
  import opened HttpChars
  import opened HttpMachine
  import opened HttpRun
  import opened HttpStretch
  import opened HttpLengths
  import opened HttpNames
  import opened HttpHeaders
  import opened HttpConnection

  datatype HeaderLine =
    | Plain(header: Header)
    | Options(name: seq<byte>, blanks: seq<byte>, entries: seq<Entry>, end: Ending)
    | Length(name: seq<byte>, blanks: seq<byte>, digits: seq<byte>, spaces: seq<byte>, end: Ending)
    | Chunked(name: seq<byte>, blanks: seq<byte>, word: seq<byte>, spaces: seq<byte>, end: Ending)

  predicate AllSpaces(s: seq<byte>) {
    forall i :: 0 <= i < |s| ==> s[i] == ' '
  }

  predicate LengthDigits(d: seq<byte>) {
    d != [] && AllDigits(d) && Decimal(d) <= LARGEST_DECIMAL
  }

  predicate ChunkedWord(w: seq<byte>) {
    |w| == |CHUNKED| && forall i :: 0 <= i < |CHUNKED| ==> Lower(w[i]) == CHUNKED[i]
  }

  predicate LineName(name: seq<byte>, expected: string, blanks: seq<byte>) {
    name != [] && AllTokens(name) && Lowered(name) == expected && AllBlank(blanks)
  }

  /** If `exact`, a line of one of the four kinds; otherwise its name may have a
      meaning and its value any form, unless it is a length. */
  predicate ValidHeaderLine(exact: bool, l: HeaderLine) {
    match l
    case Plain(h) => ValidHeader(h) && TameName(exact, h.name)
    case Options(name, blanks, es, _) => ValidOptions(name, blanks, es)
    case Length(name, blanks, digits, spaces, _) =>
      LineName(name, CONTENT_LENGTH, blanks) && LengthDigits(digits) && AllSpaces(spaces)
    case Chunked(name, blanks, word, spaces, _) =>
      LineName(name, TRANSFER_ENCODING, blanks) && ChunkedWord(word) && AllSpaces(spaces)
  }

  function SimpleText(name: seq<byte>, blanks: seq<byte>, value: seq<byte>, end: Ending): seq<byte> {
    name + ":" + blanks + value + EndText(end)
  }

  function HeaderLineText(l: HeaderLine): seq<byte>
    requires l.Options? ==> l.entries != []
  {
    match l
    case Plain(h) => HeaderText(h)
    case Options(name, blanks, es, end) => HeaderText(OptionsHeader(name, blanks, es, end))
    case Length(name, blanks, digits, spaces, end) => SimpleText(name, blanks, digits + spaces, end)
    case Chunked(name, blanks, word, spaces, end) => SimpleText(name, blanks, word + spaces, end)
  }

  /** What the callbacks are told of a line. */
  function HeaderLineEvents(l: HeaderLine): Log
    requires l.Options? ==> l.entries != []
  {
    match l
    case Plain(h) => [Data(Field, h.name), Data(Value, ValueOf(h.lines))]
    case Options(name, _, es, _) => [Data(Field, name), Data(Value, EntriesText(es))]
    case Length(name, _, digits, spaces, _) => [Data(Field, name), Data(Value, digits + spaces)]
    case Chunked(name, _, word, spaces, _) => [Data(Field, name), Data(Value, word + spaces)]
  }

  /** What the parser notes of a line. */
  function Noted(f: Fields, l: HeaderLine): Fields
    requires l.Options? ==> ValidEntries(l.entries)
    requires l.Length? ==> AllDigits(l.digits)
  {
    match l
    case Plain(h) =>
      if Lowered(h.name) == UPGRADE && ValueOf(h.lines) != [] then f.(flags := f.flags.(upgrade := true)) else f
    case Options(_, _, es, _) => f.(flags := ListFlags(f.flags, es))
    case Length(_, _, digits, _, _) => f.(flags := f.flags.(contentLength := true), contentLength := Decimal(digits))
    case Chunked(_, _, _, _, _) => f.(flags := f.flags.(chunked := true))
  }

  // ---------- Lengths ----------

  lemma {:induction false} LengthValue(cfg: Config, m: Machine, d: seq<byte>)
    requires m.f.state.HeaderValueDiscardWs? && m.f.headerState.ContentLength? && !m.f.flags.contentLength && !m.skip
    requires LengthDigits(d) && m.f.nread + |d| <= HTTP_MAX_HEADER_SIZE
    ensures Run(cfg, m, d)
         == Running(Machine(m.f.(state := HeaderValue, index := 0, flags := m.f.flags.(contentLength := true),
                                 contentLength := Decimal(d), headerState := ContentLengthNum,
                                 nread := m.f.nread + |d|), false, Absorb(m.log, Data(Value, d))))
    decreases |d|
  {
    hide Run, Byte, Passes, Dispatch, Digit, Absorb, LastIs;
    var init, last := d[..|d| - 1], d[|d| - 1];
    if init == [] {
      assert d == [last] && Decimal([]) == 0;
      LengthStart(cfg, Counted(m.f), last);
      OneStay(cfg, m, last, Dispatch(cfg, Counted(m.f), false, last).f, MarkTake(Value));
    } else {
      LengthValue(cfg, m, init);
      var n := Run(cfg, m, init).m;
      LengthNext(cfg, Counted(n.f), last);
      OneStay(cfg, n, last, n.f.(nread := n.f.nread + 1, contentLength := Decimal(d)), Take(Value));
      RunThen(cfg, m, init, [last]);
      assert d == init + [last];
      AbsorbSplit(m.log, Value, init, [last]);
    }
  }

  /** A space behind a length or behind "chunked". */
  function AfterSpaces(h: HeaderState, spaces: seq<byte>): HeaderState {
    if h.ContentLengthNum? && spaces != [] then ContentLengthWs else h
  }

  lemma SpaceStep(cfg: Config, f: Fields)
    requires f.state.HeaderValue?
    requires f.headerState.ContentLengthNum? || f.headerState.ContentLengthWs? || f.headerState.TransferEncodingChunked?
    ensures Dispatch(cfg, f, false, ' ')
         == Stay(f.(headerState := AfterSpaces(f.headerState, [' '])), Take(Value))
  {
    assert IsHeaderChar(' ');
    assert f.(headerState := f.headerState) == f;
  }

  lemma {:induction false} SpacesRun(cfg: Config, m: Machine, spaces: seq<byte>)
    requires m.f.state.HeaderValue? && !m.skip && AllSpaces(spaces) && LastIs(m.log, Value)
    requires m.f.headerState.ContentLengthNum? || m.f.headerState.ContentLengthWs?
             || m.f.headerState.TransferEncodingChunked?
    requires m.f.nread + |spaces| <= HTTP_MAX_HEADER_SIZE
    ensures Run(cfg, m, spaces)
         == Running(Machine(m.f.(headerState := AfterSpaces(m.f.headerState, spaces), nread := m.f.nread + |spaces|),
                            false, Absorb(m.log, Data(Value, spaces))))
    decreases |spaces|
  {
    hide Run, Dispatch, Absorb, LastIs;
    if spaces == [] {
      RunNothing(cfg, m);
      AbsorbNothing(m.log, Value);
      assert m.f.(headerState := m.f.headerState, nread := m.f.nread) == m.f;
    } else {
      assert spaces[0] == ' ' && AllSpaces(spaces[1..]);
      SpaceStep(cfg, Counted(m.f));
      OneStay(cfg, m, ' ', Counted(m.f).(headerState := AfterSpaces(m.f.headerState, [' '])), Take(Value));
      AbsorbedLast(m.log, [' ']);
      var n := Run(cfg, m, [' ']).m;
      SpacesRun(cfg, n, spaces[1..]);
      RunThen(cfg, m, [' '], spaces[1..]);
      assert [' '] + spaces[1..] == spaces;
      AbsorbSplit(m.log, Value, [' '], spaces[1..]);
    }
  }

  // ---------- "chunked" ----------

  lemma ChunkedLetters(v: seq<byte>, i: nat)
    requires ChunkedWord(v) && i < |CHUNKED|
    ensures IsHeaderChar(v[i]) && v[i] != CR && v[i] != LF && v[i] != ' ' && v[i] != '\t'
    ensures Lower(v[i]) == CHUNKED[i]
  {
  }

  lemma ChunkedStart(cfg: Config, f: Fields, ch: byte)
    requires f.state.HeaderValueDiscardWs? && f.headerState.TransferEncoding? && Lower(ch) == 'c'
    requires ch != CR && ch != LF && ch != ' ' && ch != '\t'
    ensures Dispatch(cfg, f, false, ch)
         == Stay(f.(state := HeaderValue, index := 0, headerState := MatchingTransferEncodingChunked), MarkTake(Value))
  {
    hide Lower;
  }

  lemma ChunkedNext(cfg: Config, f: Fields, ch: byte)
    requires f.state.HeaderValue? && f.headerState.MatchingTransferEncodingChunked? && f.index + 1 < |CHUNKED|
    requires Lower(ch) == CHUNKED[f.index + 1] && IsHeaderChar(ch) && ch != CR && ch != LF
    ensures Dispatch(cfg, f, false, ch)
         == Stay(f.(index := f.index + 1,
                    headerState := if f.index + 1 == |CHUNKED| - 1 then TransferEncodingChunked
                                   else MatchingTransferEncodingChunked), Take(Value))
  {
    hide Lower, IsHeaderChar;
  }

  lemma ChunkedFirst(cfg: Config, m: Machine, ch: byte)
    requires m.f.state.HeaderValueDiscardWs? && m.f.headerState.TransferEncoding? && Lower(ch) == 'c' && !m.skip
    requires ch != CR && ch != LF && ch != ' ' && ch != '\t' && m.f.nread < HTTP_MAX_HEADER_SIZE
    ensures Run(cfg, m, [ch])
         == Running(Machine(m.f.(state := HeaderValue, index := 0, nread := m.f.nread + 1,
                                 headerState := MatchingTransferEncodingChunked),
                            false, Absorb(m.log, Data(Value, [ch]))))
  {
    hide Run, Dispatch, Absorb, Lower;
    ChunkedStart(cfg, Counted(m.f), ch);
    OneStay(cfg, m, ch, Counted(m.f).(state := HeaderValue, index := 0,
                                      headerState := MatchingTransferEncodingChunked), MarkTake(Value));
  }

  lemma ChunkedMore(cfg: Config, m: Machine, ch: byte)
    requires m.f.state.HeaderValue? && m.f.headerState.MatchingTransferEncodingChunked? && m.f.index + 1 < |CHUNKED|
    requires Lower(ch) == CHUNKED[m.f.index + 1] && IsHeaderChar(ch) && ch != CR && ch != LF
    requires m.f.nread < HTTP_MAX_HEADER_SIZE
    ensures Run(cfg, m, [ch])
         == Running(Machine(m.f.(index := m.f.index + 1, nread := m.f.nread + 1,
                                 headerState := if m.f.index + 1 == |CHUNKED| - 1 then TransferEncodingChunked
                                                else MatchingTransferEncodingChunked),
                            false, Absorb(m.log, Data(Value, [ch]))))
  {
    hide Run, Dispatch, Absorb, Lower, IsHeaderChar;
    ChunkedNext(cfg, Counted(m.f), ch);
    OneStay(cfg, m, ch, Dispatch(cfg, Counted(m.f), false, ch).f, Take(Value));
  }

  lemma {:induction false} ChunkedValue(cfg: Config, m: Machine, v: seq<byte>, n: nat)
    requires m.f.state.HeaderValueDiscardWs? && m.f.headerState.TransferEncoding? && !m.skip
    requires ChunkedWord(v) && 0 < n <= |v|
    requires m.f.nread + n <= HTTP_MAX_HEADER_SIZE
    ensures Run(cfg, m, v[..n])
         == Running(Machine(m.f.(state := HeaderValue, index := n - 1, nread := m.f.nread + n,
                                 headerState := if n == |v| then TransferEncodingChunked
                                                else MatchingTransferEncodingChunked),
                            false, Absorb(m.log, Data(Value, v[..n]))))
    decreases n
  {
    hide Run, Byte, Passes, Dispatch, Absorb, Lower, IsHeaderChar;
    var ch := v[n - 1];
    ChunkedLetters(v, n - 1);
    if n == 1 {
      assert v[..1] == [ch];
      ChunkedFirst(cfg, m, ch);
    } else {
      ChunkedValue(cfg, m, v, n - 1);
      ChunkedMore(cfg, Run(cfg, m, v[..n - 1]).m, ch);
      RunThen(cfg, m, v[..n - 1], [ch]);
      assert v[..n] == v[..n - 1] + [ch];
      AbsorbSplit(m.log, Value, v[..n - 1], [ch]);
    }
  }

  // ---------- Lines of these two kinds ----------

  /** Name, colon and blanks. */
  lemma NameAndBlanks(cfg: Config, m: Machine, name: seq<byte>, blanks: seq<byte>, expected: string)
    requires AtLine(m) && LineName(name, expected, blanks) && !LastIs(LineBegun(m).log, Field)
    requires m.f.nread + |name| + 1 + |blanks| <= HTTP_MAX_HEADER_SIZE
    ensures var r := Run(cfg, m, name + ":" + blanks);
            && r.Running? && !r.m.skip && r.m.log == LineBegun(m).log + [Data(Field, name)]
            && r.m.f == LineBegun(m).f.(state := HeaderValueDiscardWs, headerState := Recognised(expected),
                                        index := r.m.f.index, nread := m.f.nread + |name| + 1 + |blanks|)
  {
    hide Run, Lowered, Recognised, AllTokens, LineBegun, LastIs;
    NamePart(cfg, m, name);
    LeadingBlanks(cfg, Run(cfg, m, name + ":").m, blanks);
    RunThen(cfg, m, name + ":", blanks);
  }

  /** The rest of a line whose value has been read. */
  lemma SimpleEnd(cfg: Config, m: Machine, v: seq<byte>, spaces: seq<byte>, end: Ending)
    requires Run(cfg, m, v).Running? && AllSpaces(spaces)
    requires var n := Run(cfg, m, v).m;
             && n.f.state.HeaderValue? && !n.skip && n.log == Absorb(m.log, Data(Value, v))
             && (n.f.headerState.ContentLengthNum? || n.f.headerState.TransferEncodingChunked?)
             && n.f.nread + |spaces| + |EndText(end)| <= HTTP_MAX_HEADER_SIZE
    ensures var n := Run(cfg, m, v).m;
            Run(cfg, m, v + spaces + EndText(end))
            == Running(Machine(n.f.(state := HeaderValueLws, headerState := AfterSpaces(n.f.headerState, spaces),
                                    nread := n.f.nread + |spaces| + |EndText(end)|), false,
                               Absorb(m.log, Data(Value, v + spaces))))
  {
    hide Run, Absorb, LastIs, AfterSpaces, EndText;
    var n := Run(cfg, m, v).m;
    AbsorbedLast(m.log, v);
    SpacesRun(cfg, n, spaces);
    RunThen(cfg, m, v, spaces);
    AbsorbSplit(m.log, Value, v, spaces);
    AbsorbedLast(m.log, v + spaces);
    ValueEnd(cfg, Run(cfg, m, v + spaces).m, end);
    RunThen(cfg, m, v + spaces, EndText(end));
  }

  lemma SimpleParts(name: seq<byte>, blanks: seq<byte>, v: seq<byte>, spaces: seq<byte>, end: Ending)
    ensures SimpleText(name, blanks, v + spaces, end) == name + ":" + blanks + (v + spaces + EndText(end))
  {
    hide EndText;
  }

  lemma LengthRun(cfg: Config, m: Machine, l: HeaderLine)
    requires AtLine(m) && l.Length? && ValidHeaderLine(true, l) && !LastIs(LineBegun(m).log, Field)
    requires !LineBegun(m).f.flags.contentLength && m.f.nread + |HeaderLineText(l)| <= HTTP_MAX_HEADER_SIZE
    ensures NotedRun(m, Run(cfg, m, HeaderLineText(l)), l)
  {
    hide Run, Lowered, LineName, LengthDigits, AllSpaces, Absorb, LastIs, LineBegun, EndText, Decimal, AllDigits, SimpleText;
    SimpleParts(l.name, l.blanks, l.digits, l.spaces, l.end);
    SimpleSize(l.name, l.blanks, l.digits, l.spaces, l.end);
    NameAndBlanks(cfg, m, l.name, l.blanks, CONTENT_LENGTH);
    var start := l.name + ":" + l.blanks;
    var n := Run(cfg, m, start).m;
    LengthValue(cfg, n, l.digits);
    SimpleEnd(cfg, n, l.digits, l.spaces, l.end);
    RunThen(cfg, m, start, l.digits + l.spaces + EndText(l.end));
    AppendedValue(LineBegun(m).log, l.name, l.digits + l.spaces);
    var k := Run(cfg, m, HeaderLineText(l)).m;
    BegunNow(k);
    BegunState(m);
  }

  lemma SimpleSize(name: seq<byte>, blanks: seq<byte>, v: seq<byte>, spaces: seq<byte>, end: Ending)
    ensures |SimpleText(name, blanks, v + spaces, end)| ==
            |name| + 1 + |blanks| + |v| + |spaces| + |EndText(end)|
  {
    hide EndText;
  }

  lemma BegunState(m: Machine)
    requires AtLine(m)
    ensures LineBegun(m).f.state.HeaderFieldStart? && LineBegun(m).f.nread == m.f.nread
  {
  }

  lemma BegunNow(m: Machine)
    requires m.f.state.HeaderValueLws? && !m.skip
    ensures AtLine(m) && LineBegun(m) == m.(f := m.f.(flags := WithFlag(m.f.flags, m.f.headerState), state := HeaderFieldStart))
  {
  }

  lemma ChunkedRun(cfg: Config, m: Machine, l: HeaderLine)
    requires AtLine(m) && l.Chunked? && ValidHeaderLine(true, l) && !LastIs(LineBegun(m).log, Field)
    requires m.f.nread + |HeaderLineText(l)| <= HTTP_MAX_HEADER_SIZE
    ensures NotedRun(m, Run(cfg, m, HeaderLineText(l)), l)
  {
    hide Run, Lowered, LineName, AllSpaces, Absorb, LastIs, LineBegun, EndText, SimpleText, ChunkedWord;
    WordLength(l.word);
    SimpleParts(l.name, l.blanks, l.word, l.spaces, l.end);
    SimpleSize(l.name, l.blanks, l.word, l.spaces, l.end);
    NameAndBlanks(cfg, m, l.name, l.blanks, TRANSFER_ENCODING);
    var start := l.name + ":" + l.blanks;
    var n := Run(cfg, m, start).m;
    ChunkedValue(cfg, n, l.word, |l.word|);
    assert l.word[..|l.word|] == l.word;
    SimpleEnd(cfg, n, l.word, l.spaces, l.end);
    RunThen(cfg, m, start, l.word + l.spaces + EndText(l.end));
    AppendedValue(LineBegun(m).log, l.name, l.word + l.spaces);
    hide AfterSpaces;
    BegunNow(Run(cfg, m, HeaderLineText(l)).m);
    BegunState(m);
  }

  lemma WordLength(w: seq<byte>)
    requires ChunkedWord(w)
    ensures |w| == |CHUNKED| == 7
  {
  }

  // ---------- Any line ----------

  /** A line has been read, reported and noted. */
  predicate NotedRun(m: Machine, r: Outcome, l: HeaderLine)
    requires ValidHeaderLine(true, l)
  {
    && r.Running? && AtLine(r.m) && r.m.f.nread == m.f.nread + |HeaderLineText(l)|
    && LineBegun(r.m).log == LineBegun(m).log + HeaderLineEvents(l)
    && LineBegun(r.m).f == Noted(LineBegun(m).f, l).(headerState := r.m.f.headerState, index := r.m.f.index,
                                                     nread := r.m.f.nread)
  }

  lemma NotedLine(cfg: Config, m: Machine, l: HeaderLine)
    requires AtLine(m) && ValidHeaderLine(true, l) && !LastIs(LineBegun(m).log, Field)
    requires l.Length? ==> !LineBegun(m).f.flags.contentLength
    requires m.f.nread + |HeaderLineText(l)| <= HTTP_MAX_HEADER_SIZE
    ensures NotedRun(m, Run(cfg, m, HeaderLineText(l)), l)
  {
    hide Run, Lowered, LineName, LengthDigits, ChunkedWord, AllSpaces, LastIs, SimpleText, EntriesText, HeaderText;
    hide ValidEntry, AllTokens, AllBlank, ListFlags, TameName, ValueOf;
    match l
    case Plain(h) =>
      HeaderRun(cfg, true, m, h);
    case Options(name, blanks, es, end) => OptionsRun(cfg, m, name, blanks, es, end);
    case Length(_, _, _, _, _) => LengthRun(cfg, m, l);
    case Chunked(_, _, _, _, _) => ChunkedRun(cfg, m, l);
  }

  // ---------- Lists of lines ----------

  /** No list of options is empty. */
  predicate SomeOptions(ls: seq<HeaderLine>) {
    forall i :: 0 <= i < |ls| && ls[i].Options? ==> ls[i].entries != []
  }

  predicate ValidHeaderLines(exact: bool, ls: seq<HeaderLine>) {
    SomeOptions(ls) && forall i :: 0 <= i < |ls| ==> ValidHeaderLine(exact, ls[i])
  }

  /** How many lines give a length. */
  function Lengths(ls: seq<HeaderLine>): nat {
    if ls == [] then 0 else (if ls[0].Length? then 1 else 0) + Lengths(ls[1..])
  }

  function HeadText(ls: seq<HeaderLine>): seq<byte>
    requires SomeOptions(ls)
  {
    if ls == [] then [] else HeaderLineText(ls[0]) + HeadText(ls[1..])
  }

  function HeadEvents(ls: seq<HeaderLine>): Log
    requires SomeOptions(ls)
  {
    if ls == [] then [] else HeaderLineEvents(ls[0]) + HeadEvents(ls[1..])
  }

  function NotedAll(f: Fields, ls: seq<HeaderLine>): Fields
    requires ValidHeaderLines(true, ls)
    decreases |ls|
  {
    if ls == [] then f
    else
      assert ValidHeaderLine(true, ls[0]);
      NotedAll(Noted(f, ls[0]), ls[1..])
  }

  /** These fields stay apart from what is noted. */
  predicate SameHead(f: Fields, g: Fields) {
    g == f.(state := g.state, headerState := g.headerState, index := g.index, nread := g.nread, upgrade := g.upgrade)
  }

  lemma {:induction false} NotedAllSame(f: Fields, g: Fields, ls: seq<HeaderLine>)
    requires ValidHeaderLines(true, ls) && SameHead(f, g)
    ensures SameHead(NotedAll(f, ls), NotedAll(g, ls))
    decreases |ls|
  {
    if ls == [] {
    } else {
      LinesAhead(true, ls);
      hide Noted, ValidHeaderLine, SameHead;
      NotedAllSame(Noted(f, ls[0]), Noted(g, ls[0]), ls[1..]);
    }
  }

  lemma LinesAhead(exact: bool, ls: seq<HeaderLine>)
    requires ValidHeaderLines(exact, ls) && ls != []
    ensures ValidHeaderLine(exact, ls[0]) && ValidHeaderLines(exact, ls[1..])
    ensures ls[0].Options? ==> ValidEntries(ls[0].entries) && ls[0].entries != []
    ensures ls[0].Length? ==> AllDigits(ls[0].digits)
    ensures SomeOptions(ls[1..])
  {
  }

  /** A line gives a length or leaves that to others. */
  lemma NotedLength(f: Fields, l: HeaderLine)
    requires ValidHeaderLine(true, l)
    ensures Noted(f, l).flags.contentLength <==> f.flags.contentLength || l.Length?
  {
    if l.Options? {
      ListFraming(f.flags, l.entries);
    }
    hide Lowered, ValueOf, ListFlags, Decimal;
  }

  lemma EventsLast(log: Log, l: HeaderLine)
    requires l.Options? ==> l.entries != []
    ensures !LastIs(log + HeaderLineEvents(l), Field)
  {
    hide ValueOf, EntriesText;
  }

  lemma EventsJoin(log: Log, a: Log, b: Log)
    ensures log + a + b == log + (a + b)
  {
  }

  /** Any header lines, with at most one length, are reported in order and noted. */
  lemma {:induction false} NotedLines(cfg: Config, m: Machine, ls: seq<HeaderLine>)
    requires AtLine(m) && ValidHeaderLines(true, ls) && !LastIs(LineBegun(m).log, Field)
    requires Lengths(ls) + (if LineBegun(m).f.flags.contentLength then 1 else 0) <= 1
    requires m.f.nread + |HeadText(ls)| <= HTTP_MAX_HEADER_SIZE
    ensures var r := Run(cfg, m, HeadText(ls));
            && r.Running? && AtLine(r.m) && r.m.f.nread == m.f.nread + |HeadText(ls)|
            && LineBegun(r.m).log == LineBegun(m).log + HeadEvents(ls) && !LastIs(LineBegun(r.m).log, Field)
            && SameHead(NotedAll(LineBegun(m).f, ls), LineBegun(r.m).f)
    decreases |ls|
  {
    hide Run, HeaderLineText, HeaderLineEvents, Noted, ValidHeaderLine, LastIs, LineBegun;
    if ls == [] {
      RunNothing(cfg, m);
      assert LineBegun(m).log + [] == LineBegun(m).log;
    } else {
      LinesAhead(true, ls);
      var f, l, rest := LineBegun(m).f, ls[0], ls[1..];
      NotedLine(cfg, m, l);
      RunThen(cfg, m, HeaderLineText(l), HeadText(rest));
      var n := Run(cfg, m, HeaderLineText(l)).m;
      NotedLength(f, l);
      EventsLast(LineBegun(m).log, l);
      NotedLines(cfg, n, rest);
      EventsJoin(LineBegun(m).log, HeaderLineEvents(l), HeadEvents(rest));
      NotedAllSame(Noted(f, l), LineBegun(n).f, rest);
    }
  }

  // ---------- Trailers ----------

  /** What lines behind a chunked body leave alone. */
  predicate Calm(f: Fields, g: Fields) {
    && g == f.(state := g.state, headerState := g.headerState, index := g.index, nread := g.nread, flags := g.flags,
               contentLength := g.contentLength)
    && g.flags.chunked == f.flags.chunked && g.flags.trailing == f.flags.trailing
  }

  predicate CalmRun(m: Machine, r: Outcome, l: HeaderLine)
    requires l.Options? ==> l.entries != []
  {
    && r.Running? && AtLine(r.m) && r.m.f.nread == m.f.nread + |HeaderLineText(l)|
    && LineBegun(r.m).log == LineBegun(m).log + HeaderLineEvents(l)
    && Calm(LineBegun(m).f, LineBegun(r.m).f)
    && (LineBegun(r.m).f.flags.contentLength <==> LineBegun(m).f.flags.contentLength || l.Length?)
  }

  lemma NotedIsCalm(f: Fields, l: HeaderLine)
    requires ValidHeaderLine(true, l) && f.flags.chunked
    ensures Calm(f, Noted(f, l))
  {
    if l.Options? {
      ListFraming(f.flags, l.entries);
    }
    hide Lowered, ValueOf, ListFlags, Decimal;
  }

  lemma CalmLine(cfg: Config, m: Machine, l: HeaderLine)
    requires AtLine(m) && ValidHeaderLine(false, l) && !LastIs(LineBegun(m).log, Field) && LineBegun(m).f.flags.chunked
    requires l.Length? ==> !LineBegun(m).f.flags.contentLength
    requires m.f.nread + |HeaderLineText(l)| <= HTTP_MAX_HEADER_SIZE
    ensures CalmRun(m, Run(cfg, m, HeaderLineText(l)), l)
  {
    if l.Plain? {
      hide Run, TameName, LastIs, HeaderText, ValueOf, ValidHeader, LineBegun, Lowered;
      HeaderRun(cfg, false, m, l.header);
    } else {
      assert ValidHeaderLine(true, l);
      hide Run, HeaderLineText, HeaderLineEvents, Noted, ValidHeaderLine, LastIs, LineBegun;
      NotedLine(cfg, m, l);
      NotedIsCalm(LineBegun(m).f, l);
      NotedLength(LineBegun(m).f, l);
    }
  }

  lemma {:induction false} CalmLines(cfg: Config, m: Machine, ls: seq<HeaderLine>)
    requires AtLine(m) && ValidHeaderLines(false, ls) && !LastIs(LineBegun(m).log, Field) && LineBegun(m).f.flags.chunked
    requires Lengths(ls) + (if LineBegun(m).f.flags.contentLength then 1 else 0) <= 1
    requires m.f.nread + |HeadText(ls)| <= HTTP_MAX_HEADER_SIZE
    ensures var r := Run(cfg, m, HeadText(ls));
            && r.Running? && AtLine(r.m) && r.m.f.nread == m.f.nread + |HeadText(ls)|
            && LineBegun(r.m).log == LineBegun(m).log + HeadEvents(ls)
            && Calm(LineBegun(m).f, LineBegun(r.m).f)
    decreases |ls|
  {
    hide Run, HeaderLineText, HeaderLineEvents, ValidHeaderLine, LastIs, LineBegun, Calm;
    if ls == [] {
      RunNothing(cfg, m);
      CalmTwice(LineBegun(m).f, LineBegun(m).f, LineBegun(m).f);
      assert LineBegun(m).log + [] == LineBegun(m).log;
    } else {
      LinesAhead(false, ls);
      var l, rest := ls[0], ls[1..];
      CalmLine(cfg, m, l);
      RunThen(cfg, m, HeaderLineText(l), HeadText(rest));
      var n := Run(cfg, m, HeaderLineText(l)).m;
      CalmTwice(LineBegun(m).f, LineBegun(n).f, LineBegun(n).f);
      EventsLast(LineBegun(m).log, l);
      CalmLines(cfg, n, rest);
      EventsJoin(LineBegun(m).log, HeaderLineEvents(l), HeadEvents(rest));
      CalmTwice(LineBegun(m).f, LineBegun(n).f, LineBegun(Run(cfg, m, HeadText(ls)).m).f);
    }
  }

  lemma CalmTwice(f: Fields, g: Fields, h: Fields)
    ensures Calm(f, g) && Calm(g, h) ==> Calm(f, h)
    ensures Calm(f, f) && (Calm(f, g) && f.flags.chunked ==> g.flags.chunked)
  {
  }
}
