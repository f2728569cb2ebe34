/** Header lines of any shape: names, blanks, values that are empty or go on over
    several physical lines, either line end. What they make the parser report, and
    what they leave alone. */
module HttpHeaders {
  import opened HttpChars
  import opened HttpMachine
  import opened HttpRun
  import opened HttpInvariant
  import opened HttpStretch
  import opened HttpNames

  const CRLF: seq<byte> := [CR, LF]

  // ---------- Headers as they are written ----------

  datatype Ending = CrLf | OnlyLf

  function EndText(e: Ending): (s: seq<byte>)
    ensures 1 <= |s| <= 2
  {
    if e.CrLf? then CRLF else [LF]
  }

  /** One physical line of a value. */
  datatype Line = Line(text: seq<byte>, end: Ending)

  /** A header: every line of its value but the first begins with a blank. */
  datatype Header = Header(name: seq<byte>, lines: seq<Line>)

  predicate IsBlank(c: byte) {
    c == ' ' || c == '\t'
  }

  predicate AllBlank(s: seq<byte>) {
    forall i :: 0 <= i < |s| ==> IsBlank(s[i])
  }

  predicate PlainText(s: seq<byte>) {
    NoLineEnd(s) && forall i :: 0 <= i < |s| ==> IsHeaderChar(s[i])
  }

  predicate Continuation(l: Line) {
    PlainText(l.text) && l.text != [] && IsBlank(l.text[0])
  }

  predicate Continuations(lines: seq<Line>) {
    forall k :: 0 <= k < |lines| ==> Continuation(lines[k])
  }

  predicate ValueLines(lines: seq<Line>) {
    lines != [] && PlainText(lines[0].text) && Continuations(lines[1..])
  }

  predicate ValidHeader(h: Header) {
    h.name != [] && AllTokens(h.name) && ValueLines(h.lines)
  }

  function LineText(l: Line): seq<byte> {
    l.text + EndText(l.end)
  }

  function LinesText(lines: seq<Line>): seq<byte> {
    if lines == [] then [] else LineText(lines[0]) + LinesText(lines[1..])
  }

  function HeaderText(h: Header): seq<byte> {
    h.name + ":" + LinesText(h.lines)
  }

  /** A text without its leading blanks. */
  function Trimmed(s: seq<byte>): (r: seq<byte>)
    ensures |r| <= |s|
    ensures r != [] ==> !IsBlank(r[0])
  {
    if s != [] && IsBlank(s[0]) then Trimmed(s[1..]) else s
  }

  function Texts(lines: seq<Line>): seq<byte> {
    if lines == [] then [] else lines[0].text + Texts(lines[1..])
  }

  /** The value: blank lines and leading blanks are dropped, further lines are
      appended with their blanks. */
  function ValueOf(lines: seq<Line>): seq<byte> {
    if lines == [] then []
    else if Trimmed(lines[0].text) == [] then ValueOf(lines[1..])
    else Trimmed(lines[0].text) + Texts(lines[1..])
  }

  // ---------- What a value may change ----------

  /** Header states whose value is not looked at. */
  predicate Dull(h: HeaderState) {
    h.General? || h.HC? || h.HCO? || h.HCON? || h.MatchingConnection? || h.MatchingProxyConnection?
    || h.MatchingContentLength? || h.MatchingTransferEncoding? || h.MatchingUpgrade?
  }

  predicate NoLength(h: HeaderState) {
    !h.ContentLength? && !h.ContentLengthNum? && !h.ContentLengthWs?
  }

  /** Before a value of interest: if `exact`, no value is looked at but an Upgrade
      header's first byte; otherwise any value but a length. */
  predicate Tame(exact: bool, h: HeaderState) {
    if exact then Dull(h) || h.Upgrade? else NoLength(h)
  }

  /** The flags after the first byte of a value that is otherwise not looked at. */
  function Begun(f: Fields): Flags {
    if f.headerState.Upgrade? then f.flags.(upgrade := true) else f.flags
  }

  /** What header lines may change. */
  predicate SameFraming(f: Fields, g: Fields) {
    && g == f.(state := g.state, headerState := g.headerState, index := g.index, nread := g.nread, flags := g.flags)
    && SameBodyFlags(f.flags, g.flags)
  }

  /** A value has begun at f and has come to g. */
  predicate Keeps(exact: bool, f: Fields, g: Fields) {
    && SameFraming(f, g)
    && (if exact then Dull(g.headerState) && g.flags == Begun(f) else NoLength(g.headerState))
  }

  lemma FirstValueByte(exact: bool, f: Fields, ch: byte)
    requires Tame(exact, f.headerState)
    ensures var a := ValueStart(f, ch);
            && a.Stay? && a.effect == MarkTake(Value) && a.f.state == HeaderValue && Keeps(exact, f, a.f)
            && a.f.nread == f.nread
  {
    hide Lower;
  }

  lemma NextValueByte(exact: bool, f: Fields, ch: byte)
    requires if exact then Dull(f.headerState) else NoLength(f.headerState)
    ensures var a := ValueByte(f, ch);
            && a.Stay? && a.effect == Take(Value) && a.f.state == f.state && Keeps(exact, f, a.f)
            && a.f.nread == f.nread
  {
    hide Match, Token, Lower;
    if f.headerState.ConnectionKeepAlive? || f.headerState.ConnectionClose? || f.headerState.ConnectionUpgrade? {
    } else {
      hide WithFlag, TokenEnd;
    }
  }

  lemma KeepsOn(exact: bool, f: Fields, g: Fields, h: Fields)
    requires Keeps(exact, f, g) && Keeps(exact, g, h)
    ensures Keeps(exact, f, h)
  {
  }

  /** Counting a byte, moving on in the lines, changes nothing that matters. */
  lemma KeepsMoved(exact: bool, f: Fields, g: Fields)
    requires Keeps(exact, f, g)
    ensures forall s, t, m: nat, n: nat :: Keeps(exact, f.(state := s, nread := m), g.(state := t, nread := n))
  {
  }

  // ---------- Single bytes of a value ----------

  lemma ValueDispatch(cfg: Config, f: Fields, unchecked: bool, ch: byte)
    requires ch != CR && ch != LF
    ensures f.state.HeaderValue? && IsHeaderChar(ch) ==> Dispatch(cfg, f, unchecked, ch) == ValueByte(f, ch)
    ensures f.state.HeaderValueStart? ==> Dispatch(cfg, f, unchecked, ch) == ValueStart(f, ch)
    ensures f.state.HeaderValueDiscardWs? && !IsBlank(ch) ==> Dispatch(cfg, f, unchecked, ch) == ValueStart(f, ch)
    ensures f.state.HeaderValueDiscardWs? && IsBlank(ch) ==> Dispatch(cfg, f, unchecked, ch) == Stay(f, Quiet)
    ensures f.state.HeaderValueLws? && IsBlank(ch) ==>
              Dispatch(cfg, f, unchecked, ch) == Again(f.(state := HeaderValueStart), Quiet)
    ensures f.state.HeaderValueDiscardLws? && IsBlank(ch) ==>
              Dispatch(cfg, f, unchecked, ch) == Stay(f.(state := HeaderValueDiscardWs), Quiet)
  {
    hide ValueByte, ValueStart, IsHeaderChar;
  }

  lemma EndDispatch(cfg: Config, f: Fields, unchecked: bool)
    ensures f.state.HeaderValue? ==>
              && Dispatch(cfg, f, unchecked, CR) == Stay(f.(state := HeaderAlmostDone), Flush(Value))
              && Dispatch(cfg, f, unchecked, LF) == Again(f.(state := HeaderAlmostDone), Flush(Value))
    ensures f.state.HeaderAlmostDone? ==> Dispatch(cfg, f, unchecked, LF) == Stay(f.(state := HeaderValueLws), Quiet)
    ensures f.state.HeaderValueDiscardWs? ==>
              && Dispatch(cfg, f, unchecked, CR) == Stay(f.(state := HeaderValueDiscardWsAlmostDone), Quiet)
              && Dispatch(cfg, f, unchecked, LF) == Stay(f.(state := HeaderValueDiscardLws), Quiet)
    ensures f.state.HeaderValueDiscardWsAlmostDone? ==>
              Dispatch(cfg, f, unchecked, LF) == Stay(f.(state := HeaderValueDiscardLws), Quiet)
  {
  }

  lemma {:induction false} LeadingBlanks(cfg: Config, m: Machine, blanks: seq<byte>)
    requires m.f.state.HeaderValueDiscardWs? && AllBlank(blanks) && !m.skip
    requires m.f.nread + |blanks| <= HTTP_MAX_HEADER_SIZE
    ensures Run(cfg, m, blanks) == Running(m.(f := m.f.(nread := m.f.nread + |blanks|)))
    decreases |blanks|
  {
    if blanks == [] {
      RunNothing(cfg, m);
      assert m.f.(nread := m.f.nread) == m.f;
    } else {
      hide Run, Byte, Passes, Dispatch;
      assert IsBlank(blanks[0]);
      ValueDispatch(cfg, Counted(m.f), false, blanks[0]);
      var n := m.(f := Counted(m.f));
      RunStay(cfg, m, blanks, 0, n.f, Quiet);
      assert blanks[0..] == blanks;
      LeadingBlanks(cfg, n, blanks[1..]);
    }
  }

  /** The line end of a line without a value byte. */
  lemma BlankEnd(cfg: Config, m: Machine, end: Ending)
    requires m.f.state.HeaderValueDiscardWs? && !m.skip && m.f.nread + |EndText(end)| <= HTTP_MAX_HEADER_SIZE
    ensures Run(cfg, m, EndText(end))
         == Running(Machine(m.f.(state := HeaderValueDiscardLws, nread := m.f.nread + |EndText(end)|), false, m.log))
  {
    hide Run, Dispatch;
    var f := Counted(m.f);
    EndDispatch(cfg, f, false);
    if end.CrLf? {
      OneStay(cfg, m, CR, f.(state := HeaderValueDiscardWsAlmostDone), Quiet);
      var n := Machine(f.(state := HeaderValueDiscardWsAlmostDone), false, m.log);
      EndDispatch(cfg, Counted(n.f), false);
      OneStay(cfg, n, LF, Counted(n.f).(state := HeaderValueDiscardLws), Quiet);
      RunThen(cfg, m, [CR], [LF]);
      assert CRLF == [CR] + [LF];
    } else {
      OneStay(cfg, m, LF, f.(state := HeaderValueDiscardLws), Quiet);
    }
  }

  /** The line end behind a value byte. */
  lemma ValueEnd(cfg: Config, m: Machine, end: Ending)
    requires m.f.state.HeaderValue? && LastIs(m.log, Value) && m.f.nread + |EndText(end)| <= HTTP_MAX_HEADER_SIZE
    ensures Run(cfg, m, EndText(end))
         == Running(Machine(m.f.(state := HeaderValueLws, nread := m.f.nread + |EndText(end)|), false, m.log))
  {
    hide Run, Dispatch, Absorb, LastIs;
    if end.CrLf? {
      AbsorbNothing(m.log, Value);
      var f := Counted(m.f);
      EndDispatch(cfg, f, m.skip && Skips(m.f));
      var g := f.(state := HeaderAlmostDone);
      OneStay(cfg, m, CR, g, Flush(Value));
      var n := Machine(g, false, m.log);
      EndDispatch(cfg, Counted(g), false);
      OneStay(cfg, n, LF, Counted(g).(state := HeaderValueLws), Quiet);
      RunThen(cfg, m, [CR], [LF]);
      assert CRLF == [CR] + [LF];
    } else {
      BareValueEnd(cfg, m);
    }
  }

  lemma BareValueEnd(cfg: Config, m: Machine)
    requires m.f.state.HeaderValue? && LastIs(m.log, Value) && m.f.nread < HTTP_MAX_HEADER_SIZE
    ensures Run(cfg, m, [LF])
         == Running(Machine(m.f.(state := HeaderValueLws, nread := m.f.nread + 1), false, m.log))
  {
    hide Run, Dispatch, Absorb, LastIs;
    AbsorbNothing(m.log, Value);
    var f := Counted(m.f);
    EndDispatch(cfg, f, m.skip && Skips(m.f));
    var g := f.(state := HeaderAlmostDone);
    RunAgain(cfg, m, [LF], 0, g, Flush(Value));
    assert [LF][0..] == [LF] && [LF][1..] == [];
    EndDispatch(cfg, g, false);
    var r := Machine(g.(state := HeaderValueLws), false, m.log);
    assert Passes(cfg, Machine(g, false, m.log), LF) == Running(r);
    RunNothing(cfg, r);
  }

  /** The first byte of a value. */
  lemma ValueBegins(cfg: Config, exact: bool, m: Machine, ch: byte)
    requires m.f.state.HeaderValueDiscardWs? && Tame(exact, m.f.headerState) && !m.skip
    requires ch != CR && ch != LF && !IsBlank(ch) && m.f.nread < HTTP_MAX_HEADER_SIZE
    ensures var r := Run(cfg, m, [ch]);
            && r.Running? && r.m.f.state.HeaderValue? && Keeps(exact, m.f, r.m.f)
            && r.m.f.nread == m.f.nread + 1 && r.m.log == Absorb(m.log, Data(Value, [ch]))
  {
    hide Run, Dispatch, Absorb, ValueStart, Keeps, Tame;
    var f := Counted(m.f);
    ValueDispatch(cfg, f, false, ch);
    FirstValueByte(exact, f, ch);
    OneStay(cfg, m, ch, ValueStart(f, ch).f, MarkTake(Value));
    KeepsMoved(exact, f, ValueStart(f, ch).f);
    assert f.(state := f.state, nread := m.f.nread) == m.f;
    var g := ValueStart(f, ch).f;
    assert g.(state := g.state, nread := g.nread) == g;
  }

  /** The blank that continues a value on a new line belongs to the value. */
  lemma ValueContinues(cfg: Config, exact: bool, m: Machine, ch: byte)
    requires m.f.state.HeaderValueLws? && !m.skip && IsBlank(ch) && m.f.nread < HTTP_MAX_HEADER_SIZE
    requires if exact then Dull(m.f.headerState) else NoLength(m.f.headerState)
    ensures var r := Run(cfg, m, [ch]);
            && r.Running? && r.m.f.state.HeaderValue? && Keeps(exact, m.f, r.m.f)
            && r.m.f.nread == m.f.nread + 1 && r.m.log == Absorb(m.log, Data(Value, [ch]))
  {
    hide Run, Dispatch, Absorb, ValueStart, Keeps;
    var f := Counted(m.f);
    var g := f.(state := HeaderValueStart);
    ValueDispatch(cfg, f, false, ch);
    ValueDispatch(cfg, g, false, ch);
    FirstValueByte(exact, g, ch);
    var h := ValueStart(g, ch).f;
    RunAgain(cfg, m, [ch], 0, g, Quiet);
    assert [ch][0..] == [ch] && [ch][1..] == [];
    var r := Machine(h, false, Absorb(m.log, Data(Value, [ch])));
    assert Passes(cfg, Machine(g, false, m.log), ch) == Running(r);
    RunNothing(cfg, r);
    KeepsMoved(exact, g, h);
    assert g.(state := m.f.state, nread := m.f.nread) == m.f;
    assert h.(state := h.state, nread := h.nread) == h;
  }

  lemma ValueStep(cfg: Config, exact: bool, m: Machine, ch: byte)
    requires m.f.state.HeaderValue? && ch != CR && ch != LF && IsHeaderChar(ch) && m.f.nread < HTTP_MAX_HEADER_SIZE
    requires if exact then Dull(m.f.headerState) else NoLength(m.f.headerState)
    ensures var r, g := Run(cfg, m, [ch]), ValueByte(Counted(m.f), ch).f;
            && r.Running? && r.m.f == g && Keeps(exact, Counted(m.f), g) && g.state.HeaderValue?
            && g.nread == m.f.nread + 1 && r.m.log == Absorb(m.log, Data(Value, [ch]))
  {
    hide Run, Dispatch, Absorb, ValueByte, Keeps, IsHeaderChar;
    var f := Counted(m.f);
    ValueDispatch(cfg, f, m.skip && Skips(m.f), ch);
    NextValueByte(exact, f, ch);
    OneStay(cfg, m, ch, ValueByte(f, ch).f, Take(Value));
  }

  /** More bytes of a value. */
  lemma {:induction false} ValueRun(cfg: Config, exact: bool, m: Machine, text: seq<byte>)
    requires m.f.state.HeaderValue? && PlainText(text) && LastIs(m.log, Value)
    requires if exact then Dull(m.f.headerState) else NoLength(m.f.headerState)
    requires m.f.nread + |text| <= HTTP_MAX_HEADER_SIZE
    ensures var r := Run(cfg, m, text);
            && r.Running? && r.m.f.state.HeaderValue? && Keeps(exact, m.f, r.m.f)
            && r.m.f.nread == m.f.nread + |text| && r.m.log == Absorb(m.log, Data(Value, text))
    decreases |text|
  {
    hide *;
    if text == [] {
      RunNothing(cfg, m);
      AbsorbNothing(m.log, Value);
      KeepsItself(exact, m.f);
    } else {
      var ch := text[0];
      PlainAhead(text);
      ValueStep(cfg, exact, m, ch);
      var n := Run(cfg, m, [ch]).m;
      var g := n.f;
      AbsorbedLast(m.log, [ch]);
      KeptStates(exact, Counted(m.f), g);
      ValueRun(cfg, exact, n, text[1..]);
      RunThen(cfg, m, [ch], text[1..]);
      AbsorbSplit(m.log, Value, [ch], text[1..]);
      assert [ch] + text[1..] == text;
      KeepsCounted(exact, m.f, g);
      KeepsOn(exact, m.f, g, Run(cfg, n, text[1..]).m.f);
    }
  }

  lemma KeepsItself(exact: bool, f: Fields)
    requires if exact then Dull(f.headerState) else NoLength(f.headerState)
    ensures Keeps(exact, f, f)
  {
  }

  lemma PlainAhead(text: seq<byte>)
    requires PlainText(text) && text != []
    ensures PlainText(text[1..]) && text[0] != CR && text[0] != LF && IsHeaderChar(text[0])
  {
  }

  lemma KeepsCounted(exact: bool, f: Fields, g: Fields)
    requires Keeps(exact, Counted(f), g)
    ensures Keeps(exact, f, g)
  {
  }

  lemma KeptStates(exact: bool, f: Fields, g: Fields)
    requires Keeps(exact, f, g)
    ensures if exact then Dull(g.headerState) else NoLength(g.headerState)
  {
  }

  // ---------- Physical lines ----------

  lemma {:induction false} TrimmedParts(s: seq<byte>) returns (blanks: seq<byte>)
    ensures AllBlank(blanks) && s == blanks + Trimmed(s)
    ensures PlainText(s) ==> PlainText(Trimmed(s))
  {
    if s != [] && IsBlank(s[0]) {
      var rest := TrimmedParts(s[1..]);
      blanks := [s[0]] + rest;
    } else {
      blanks := [];
    }
  }

  /** A line while no byte of the value has been seen. */
  lemma FirstLine(cfg: Config, exact: bool, m: Machine, l: Line)
    requires m.f.state.HeaderValueDiscardWs? && Tame(exact, m.f.headerState) && !m.skip && PlainText(l.text)
    requires m.f.nread + |LineText(l)| <= HTTP_MAX_HEADER_SIZE
    ensures var r, v := Run(cfg, m, LineText(l)), Trimmed(l.text);
            && r.Running? && !r.m.skip && r.m.f.nread == m.f.nread + |LineText(l)|
            && (if v == [] then
                  r.m.f == m.f.(state := HeaderValueDiscardLws, nread := r.m.f.nread) && r.m.log == m.log
                else
                  r.m.f.state.HeaderValueLws? && Keeps(exact, m.f, r.m.f) && r.m.log == Absorb(m.log, Data(Value, v)))
  {
    hide Run, Absorb, Keeps, Tame, AllBlank, PlainText, EndText;
    var v := Trimmed(l.text);
    var blanks := TrimmedParts(l.text);
    LeadingBlanks(cfg, m, blanks);
    var n := Run(cfg, m, blanks).m;
    if v == [] {
      assert LineText(l) == blanks + EndText(l.end);
      BlankEnd(cfg, n, l.end);
      RunThen(cfg, m, blanks, EndText(l.end));
    } else {
      ValueWhole(cfg, exact, n, v, l.end);
      assert LineText(l) == blanks + (v + EndText(l.end));
      RunThen(cfg, m, blanks, v + EndText(l.end));
      var g := Run(cfg, n, v + EndText(l.end)).m.f;
      KeepsMoved(exact, n.f, g);
      assert n.f.(state := n.f.state, nread := m.f.nread) == m.f && g.(state := g.state, nread := g.nread) == g;
    }
  }

  lemma PlainTail(v: seq<byte>)
    requires v != [] && PlainText(v)
    ensures PlainText(v[1..]) && v[0] != CR && v[0] != LF && v == [v[0]] + v[1..]
  {
  }

  lemma ValueWhole(cfg: Config, exact: bool, m: Machine, v: seq<byte>, end: Ending)
    requires m.f.state.HeaderValueDiscardWs? && Tame(exact, m.f.headerState) && !m.skip
    requires v != [] && PlainText(v) && !IsBlank(v[0]) && m.f.nread + |v + EndText(end)| <= HTTP_MAX_HEADER_SIZE
    ensures var r := Run(cfg, m, v + EndText(end));
            && r.Running? && !r.m.skip && r.m.f.nread == m.f.nread + |v + EndText(end)| && r.m.f.state.HeaderValueLws?
            && Keeps(exact, m.f, r.m.f) && r.m.log == Absorb(m.log, Data(Value, v))
  {
    hide Run, Absorb, Keeps, Tame, PlainText, LastIs, EndText;
    PlainTail(v);
    ValueBegins(cfg, exact, m, v[0]);
    var n := Run(cfg, m, [v[0]]).m;
    AbsorbedLast(m.log, [v[0]]);
    KeptStates(exact, m.f, n.f);
    ValueTail(cfg, exact, n, v[1..], end);
    RunThen(cfg, m, [v[0]], v[1..] + EndText(end));
    assert v + EndText(end) == [v[0]] + (v[1..] + EndText(end));
    AbsorbSplit(m.log, Value, [v[0]], v[1..]);
    KeepsOn(exact, m.f, n.f, Run(cfg, n, v[1..] + EndText(end)).m.f);
  }

  lemma ValueTail(cfg: Config, exact: bool, m: Machine, v: seq<byte>, end: Ending)
    requires m.f.state.HeaderValue? && PlainText(v) && LastIs(m.log, Value)
    requires if exact then Dull(m.f.headerState) else NoLength(m.f.headerState)
    requires m.f.nread + |v + EndText(end)| <= HTTP_MAX_HEADER_SIZE
    ensures var r := Run(cfg, m, v + EndText(end));
            && r.Running? && !r.m.skip && r.m.f.nread == m.f.nread + |v + EndText(end)| && r.m.f.state.HeaderValueLws?
            && Keeps(exact, m.f, r.m.f) && r.m.log == Absorb(m.log, Data(Value, v))
  {
    hide Run, Absorb, Keeps, PlainText, LastIs, EndText;
    ValueRun(cfg, exact, m, v);
    var n := Run(cfg, m, v).m;
    AbsorbedLast(m.log, v);
    ValueEnd(cfg, n, end);
    RunThen(cfg, m, v, EndText(end));
    KeepsMoved(exact, m.f, n.f);
    var g := Run(cfg, n, EndText(end)).m.f;
    assert m.f.(state := m.f.state, nread := m.f.nread) == m.f && n.f.(state := g.state, nread := g.nread) == g;
  }

  /** The lines after the one on which the value began. */
  lemma {:induction false} MoreLines(cfg: Config, exact: bool, m: Machine, lines: seq<Line>)
    requires m.f.state.HeaderValueLws? && !m.skip && Continuations(lines) && LastIs(m.log, Value)
    requires if exact then Dull(m.f.headerState) else NoLength(m.f.headerState)
    requires m.f.nread + |LinesText(lines)| <= HTTP_MAX_HEADER_SIZE
    ensures var r := Run(cfg, m, LinesText(lines));
            && r.Running? && !r.m.skip && r.m.f.nread == m.f.nread + |LinesText(lines)| && r.m.f.state.HeaderValueLws?
            && Keeps(exact, m.f, r.m.f) && r.m.log == Absorb(m.log, Data(Value, Texts(lines)))
    decreases |lines|
  {
    if lines == [] {
      RunNothing(cfg, m);
      AbsorbNothing(m.log, Value);
    } else {
      assert Continuation(lines[0]) && Continuations(lines[1..]);
      hide Run, Absorb, Keeps, LastIs, EndText, Dull, NoLength, Continuations;
      OneMoreLine(cfg, exact, m, lines[0]);
      var n := Run(cfg, m, LineText(lines[0])).m;
      AbsorbedLast(m.log, lines[0].text);
      KeptStates(exact, m.f, n.f);
      MoreLines(cfg, exact, n, lines[1..]);
      RunThen(cfg, m, LineText(lines[0]), LinesText(lines[1..]));
      AbsorbSplit(m.log, Value, lines[0].text, Texts(lines[1..]));
      KeepsOn(exact, m.f, n.f, Run(cfg, n, LinesText(lines[1..])).m.f);
    }
  }

  lemma OneMoreLine(cfg: Config, exact: bool, m: Machine, l: Line)
    requires m.f.state.HeaderValueLws? && !m.skip && Continuation(l) && LastIs(m.log, Value)
    requires if exact then Dull(m.f.headerState) else NoLength(m.f.headerState)
    requires m.f.nread + |LineText(l)| <= HTTP_MAX_HEADER_SIZE
    ensures var r := Run(cfg, m, LineText(l));
            && r.Running? && !r.m.skip && r.m.f.nread == m.f.nread + |LineText(l)| && r.m.f.state.HeaderValueLws?
            && Keeps(exact, m.f, r.m.f) && r.m.log == Absorb(m.log, Data(Value, l.text))
  {
    hide Run, Absorb, Keeps, LastIs, EndText, Dull, NoLength, PlainText;
    var ch, rest := l.text[0], l.text[1..];
    PlainTail(l.text);
    ValueContinues(cfg, exact, m, ch);
    var n := Run(cfg, m, [ch]).m;
    AbsorbedLast(m.log, [ch]);
    KeptStates(exact, m.f, n.f);
    ValueTail(cfg, exact, n, rest, l.end);
    RunThen(cfg, m, [ch], rest + EndText(l.end));
    assert LineText(l) == [ch] + (rest + EndText(l.end));
    AbsorbSplit(m.log, Value, [ch], rest);
    KeepsOn(exact, m.f, n.f, Run(cfg, n, rest + EndText(l.end)).m.f);
  }

  // ---------- Between headers ----------

  /** Where a header may begin, or a value go on. */
  predicate AtLine(m: Machine) {
    (m.f.state.HeaderFieldStart? || m.f.state.HeaderValueLws? || m.f.state.HeaderValueDiscardLws?) && !m.skip
  }

  /** The machine once it has seen that the header before is finished. An empty
      value is only reported then. */
  function LineBegun(m: Machine): Machine {
    if m.f.state.HeaderFieldStart? then m
    else
      m.(f := m.f.(flags := WithFlag(m.f.flags, m.f.headerState), state := HeaderFieldStart),
         log := if m.f.state.HeaderValueDiscardLws? then Absorb(m.log, Data(Value, [])) else m.log)
  }

  lemma LineBegunPass(cfg: Config, f: Fields, ch: byte)
    requires !IsBlank(ch)
    ensures f.state.HeaderValueLws? ==>
              Dispatch(cfg, f, false, ch) ==
              Again(f.(flags := WithFlag(f.flags, f.headerState), state := HeaderFieldStart), Quiet)
    ensures f.state.HeaderValueDiscardLws? ==>
              Dispatch(cfg, f, false, ch) ==
              Again(f.(flags := WithFlag(f.flags, f.headerState), state := HeaderFieldStart), MarkFlush(Value))
  {
    hide WithFlag;
  }

  /** The pass that sees the end of a header, and what follows it. */
  lemma BeginByte(cfg: Config, m: Machine, ch: byte)
    requires AtLine(m) && !IsBlank(ch)
    ensures Byte(cfg, m, ch) == Byte(cfg, LineBegun(m), ch)
  {
    hide Passes, Dispatch, Absorb, IsBlank, WithFlag;
    if !m.f.state.HeaderFieldStart? {
      BegunPass(cfg, m.(f := Counted(m.f)), ch);
    }
  }

  lemma BegunPass(cfg: Config, m: Machine, ch: byte)
    requires (m.f.state.HeaderValueLws? || m.f.state.HeaderValueDiscardLws?) && !m.skip && !IsBlank(ch)
    ensures Passes(cfg, m, ch) == Passes(cfg, LineBegun(m), ch)
  {
    LineBegunPass(cfg, m.f, ch);
    hide Dispatch, WithFlag, Absorb, IsBlank;
  }

  lemma BeginLine(cfg: Config, m: Machine, data: seq<byte>)
    requires AtLine(m) && data != [] && !IsBlank(data[0])
    ensures Run(cfg, m, data) == Run(cfg, LineBegun(m), data)
  {
    hide Run, Byte, LineBegun;
    BeginByte(cfg, m, data[0]);
    RunCons(cfg, m, data, 0);
    RunCons(cfg, LineBegun(m), data, 0);
    assert data[0..] == data;
  }

  /** A header has been read: the next may begin, k bytes are counted, and once
      the header is known to be finished it has been reported. */
  predicate Reported(exact: bool, m: Machine, n: Machine, k: nat, name: seq<byte>, value: seq<byte>, upgrade: bool) {
    && AtLine(n) && n.f.nread == m.f.nread + k
    && LineBegun(n).log == LineBegun(m).log + [Data(Field, name), Data(Value, value)]
    && SameFraming(LineBegun(m).f, LineBegun(n).f)
    && (exact ==>
          LineBegun(n).f.flags ==
          if upgrade && value != [] then LineBegun(m).f.flags.(upgrade := true) else LineBegun(m).f.flags)
  }

  lemma {:induction false} LinesRun(cfg: Config, exact: bool, m: Machine, lines: seq<Line>)
    requires m.f.state.HeaderValueDiscardWs? && Tame(exact, m.f.headerState) && !m.skip && ValueLines(lines)
    requires m.f.nread + |LinesText(lines)| <= HTTP_MAX_HEADER_SIZE
    ensures var r, v := Run(cfg, m, LinesText(lines)), ValueOf(lines);
            && r.Running? && !r.m.skip && r.m.f.nread == m.f.nread + |LinesText(lines)|
            && (if v == [] then
                  r.m.f == m.f.(state := HeaderValueDiscardLws, nread := r.m.f.nread) && r.m.log == m.log
                else
                  r.m.f.state.HeaderValueLws? && Keeps(exact, m.f, r.m.f) && r.m.log == Absorb(m.log, Data(Value, v)))
    decreases |lines|
  {
    hide Run, Absorb, Keeps, Tame, PlainText, LastIs, EndText, LineText, Trimmed;
    var l, rest := lines[0], lines[1..];
    FirstLine(cfg, exact, m, l);
    RunThen(cfg, m, LineText(l), LinesText(rest));
    var n := Run(cfg, m, LineText(l)).m;
    if Trimmed(l.text) != [] {
      AbsorbedLast(m.log, Trimmed(l.text));
      KeptStates(exact, m.f, n.f);
      MoreLines(cfg, exact, n, rest);
      AbsorbSplit(m.log, Value, Trimmed(l.text), Texts(rest));
      KeepsOn(exact, m.f, n.f, Run(cfg, n, LinesText(rest)).m.f);
    } else if rest == [] {
      RunNothing(cfg, n);
    } else {
      assert Continuation(rest[0]);
      var ch := rest[0].text[0];
      var folded := [Line(rest[0].text[1..], rest[0].end)] + rest[1..];
      DropBlank(rest, folded);
      BlankFold(cfg, n, ch);
      RunThen(cfg, n, [ch], LinesText(folded));
      var k := Run(cfg, n, [ch]).m;
      LinesRun(cfg, exact, k, folded);
      var g := Run(cfg, k, LinesText(folded)).m.f;
      if ValueOf(folded) != [] {
        KeepsMoved(exact, k.f, g);
        assert k.f.(state := m.f.state, nread := m.f.nread) == m.f && g.(state := g.state, nread := g.nread) == g;
      }
    }
  }

  lemma PlainRest(l: Line)
    requires Continuation(l) && l.text != []
    ensures PlainText(l.text[1..]) && IsBlank(l.text[0]) && l.text == [l.text[0]] + l.text[1..]
    ensures Trimmed(l.text) == Trimmed(l.text[1..])
  {
  }

  /** A continuation of nothing yet, without its first blank. */
  lemma DropBlank(rest: seq<Line>, folded: seq<Line>)
    requires rest != [] && Continuations(rest) && folded == [Line(rest[0].text[1..], rest[0].end)] + rest[1..]
    ensures ValueLines(folded) && ValueOf(folded) == ValueOf(rest)
    ensures LinesText(rest) == [rest[0].text[0]] + LinesText(folded)
  {
    hide *;
    ContinuationsAhead(rest);
    PlainRest(rest[0]);
    assert folded[1..] == rest[1..];
    LinesOf(folded);
    FirstOfLines(rest);
    FirstOfLines(folded);
    var ch, text, end, more := rest[0].text[0], rest[0].text[1..], EndText(rest[0].end), LinesText(rest[1..]);
    assert [ch] + text + end + more == [ch] + (text + end + more);
  }

  lemma ContinuationsAhead(lines: seq<Line>)
    requires Continuations(lines) && lines != []
    ensures Continuation(lines[0]) && lines[0].text != [] && Continuations(lines[1..])
  {
  }

  lemma LinesOf(lines: seq<Line>)
    requires lines != [] && PlainText(lines[0].text) && Continuations(lines[1..])
    ensures ValueLines(lines)
  {
  }

  lemma FirstOfLines(lines: seq<Line>)
    requires lines != []
    ensures LinesText(lines) == lines[0].text + EndText(lines[0].end) + LinesText(lines[1..])
    ensures var v := Trimmed(lines[0].text);
            ValueOf(lines) == if v == [] then ValueOf(lines[1..]) else v + Texts(lines[1..])
  {
    hide EndText, Trimmed;
  }

  lemma BlankFold(cfg: Config, m: Machine, ch: byte)
    requires m.f.state.HeaderValueDiscardLws? && !m.skip && IsBlank(ch) && m.f.nread < HTTP_MAX_HEADER_SIZE
    ensures Run(cfg, m, [ch])
         == Running(Machine(m.f.(state := HeaderValueDiscardWs, nread := m.f.nread + 1), false, m.log))
  {
    hide Run, Dispatch;
    ValueDispatch(cfg, Counted(m.f), false, ch);
    OneStay(cfg, m, ch, Counted(m.f).(state := HeaderValueDiscardWs), Quiet);
  }

  // ---------- Whole headers ----------

  lemma NotBlank(name: seq<byte>)
    requires name != [] && AllTokens(name)
    ensures !IsBlank(name[0])
  {
  }

  /** Name and colon. */
  lemma NamePart(cfg: Config, m: Machine, name: seq<byte>)
    requires AtLine(m) && name != [] && AllTokens(name) && !LastIs(LineBegun(m).log, Field)
    requires m.f.nread + |name| + 1 <= HTTP_MAX_HEADER_SIZE
    ensures var r := Run(cfg, m, name + ":");
            && r.Running? && !r.m.skip && r.m.log == LineBegun(m).log + [Data(Field, name)]
            && r.m.f == LineBegun(m).f.(state := HeaderValueDiscardWs, headerState := Recognised(Lowered(name)),
                                        index := r.m.f.index, nread := m.f.nread + |name| + 1)
  {
    hide Run, Lowered, Recognised, Token, WithFlag, Absorb, AllTokens;
    NotBlank(name);
    BeginLine(cfg, m, name + ":");
    NameRecognised(cfg, LineBegun(m), name);
    AppendedField(LineBegun(m).log, name);
  }

  lemma AppendedField(log: Log, name: seq<byte>)
    requires !LastIs(log, Field)
    ensures Absorb(log, Data(Field, name)) == log + [Data(Field, name)]
  {
  }

  lemma AppendedValue(log: Log, name: seq<byte>, value: seq<byte>)
    ensures Absorb(log + [Data(Field, name)], Data(Value, value)) == log + [Data(Field, name), Data(Value, value)]
  {
  }

  /** A header that the parser does not interpret, or only by its presence; or, if
      not `exact`, one that is no length. */
  predicate TameName(exact: bool, name: seq<byte>) {
    var w := Lowered(name);
    && w != CONTENT_LENGTH
    && (exact ==> w != CONNECTION && w != PROXY_CONNECTION && w != TRANSFER_ENCODING)
  }

  lemma TameRecognised(exact: bool, name: seq<byte>)
    requires TameName(exact, name)
    ensures Tame(exact, Recognised(Lowered(name)))
    ensures Recognised(Lowered(name)).Upgrade? <==> Lowered(name) == UPGRADE
  {
    hide Starts, Lowered;
  }

  /** A header of any value is reported as it was written. */
  lemma HeaderRun(cfg: Config, exact: bool, m: Machine, h: Header)
    requires AtLine(m) && ValidHeader(h) && TameName(exact, h.name) && !LastIs(LineBegun(m).log, Field)
    requires exact || LineBegun(m).f.flags.chunked
    requires m.f.nread + |HeaderText(h)| <= HTTP_MAX_HEADER_SIZE
    ensures var r := Run(cfg, m, HeaderText(h));
            r.Running? &&
            Reported(exact, m, r.m, |HeaderText(h)|, h.name, ValueOf(h.lines), Lowered(h.name) == UPGRADE)
  {
    hide Run, Lowered, Recognised, Absorb, LastIs, AllTokens, LinesText, ValueOf, ValueLines, Keeps, LineBegun;
    hide SameFraming, TameName, Tame, Reported;
    var name, value := h.name + ":", ValueOf(h.lines);
    NamePart(cfg, m, h.name);
    var n := Run(cfg, m, name).m;
    TameRecognised(exact, h.name);
    LinesRun(cfg, exact, n, h.lines);
    RunThen(cfg, m, name, LinesText(h.lines));
    var k := Run(cfg, n, LinesText(h.lines)).m;
    AppendedValue(LineBegun(m).log, h.name, value);
    ReportedAfter(exact, m, n, k, |HeaderText(h)|, h.name, value);
  }

  lemma ReportedAfter(exact: bool, m: Machine, n: Machine, k: Machine, size: nat, name: seq<byte>, value: seq<byte>)
    requires AtLine(m) && !n.skip && !k.skip && Tame(exact, n.f.headerState) && k.f.nread == m.f.nread + size
    requires exact || LineBegun(m).f.flags.chunked
    requires n.log == LineBegun(m).log + [Data(Field, name)]
    requires n.f == LineBegun(m).f.(state := n.f.state, headerState := n.f.headerState, index := n.f.index,
                                    nread := n.f.nread)
    requires if value == [] then k.f == n.f.(state := HeaderValueDiscardLws, nread := k.f.nread) && k.log == n.log
             else
               k.f.state.HeaderValueLws? && Keeps(exact, n.f, k.f) && k.log == Absorb(n.log, Data(Value, value))
    ensures Reported(exact, m, k, size, name, value, n.f.headerState.Upgrade?)
  {
    AppendedValue(LineBegun(m).log, name, value);
    if value == [] {
      NothingFramed(exact, n.f, k.f);
    } else {
      ValueFramed(exact, n.f, k.f);
    }
    hide Absorb, Keeps, Tame, WithFlag, SameFraming;
  }

  lemma NothingFramed(exact: bool, f: Fields, g: Fields)
    requires Tame(exact, f.headerState) && (exact || f.flags.chunked)
    requires g == f.(state := HeaderValueDiscardLws, nread := g.nread)
    ensures var h := g.(flags := WithFlag(g.flags, g.headerState), state := HeaderFieldStart);
            SameFraming(f, h) && (exact ==> h.flags == f.flags)
  {
    FlagAtEnd(f.flags, f.headerState);
    hide WithFlag, Dull, NoLength;
  }

  /** What the end of a header does to the flags that frame the body. */
  lemma FlagAtEnd(flags: Flags, h: HeaderState)
    ensures Dull(h) || h.Upgrade? ==> WithFlag(flags, h) == flags
    ensures flags.chunked ==> SameBodyFlags(flags, WithFlag(flags, h))
    ensures SameBodyFlags(flags, flags)
  {
  }

  lemma ValueFramed(exact: bool, f: Fields, g: Fields)
    requires Keeps(exact, f, g) && (exact || f.flags.chunked)
    ensures var h := g.(flags := WithFlag(g.flags, g.headerState), state := HeaderFieldStart);
            SameFraming(f, h) && (exact ==> h.flags == Begun(f))
  {
    FlagAtEnd(g.flags, g.headerState);
    hide WithFlag, Dull, NoLength;
  }
}
