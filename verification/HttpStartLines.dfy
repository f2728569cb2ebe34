/** Start lines: what a status line and a request line of any content make the
    parser report. */
module HttpStartLines {
  import opened HttpChars
  import opened HttpMachine
  import opened HttpRun
  import opened HttpStretch
  import opened HttpLengths
  import opened HttpHeaders
  import opened HttpHeaderLines
  import HttpUrl

  // ---------- Single bytes ----------

  /** A byte that only changes the fields. */
  lemma QuietByte(cfg: Config, m: Machine, ch: byte, rest: seq<byte>, f: Fields)
    requires !m.f.state.HeaderValue? && ParsingHeader(m.f.state) && m.f.nread < HTTP_MAX_HEADER_SIZE
    requires Dispatch(cfg, m.f.(nread := m.f.nread + 1), false, ch) == Stay(f, Quiet)
    ensures Run(cfg, m, [ch] + rest) == Run(cfg, Machine(f, false, m.log), rest)
  {
    hide Dispatch, Run;
    RunStay(cfg, m, [ch] + rest, 0, f, Quiet);
    assert ([ch] + rest)[0..] == [ch] + rest && ([ch] + rest)[1..] == rest;
  }

  /** A byte that runs a notify callback. */
  lemma NotifyByte(cfg: Config, m: Machine, ch: byte, rest: seq<byte>, f: Fields, e: Event)
    requires !m.f.state.HeaderValue? && ParsingHeader(m.f.state) && m.f.nread < HTTP_MAX_HEADER_SIZE
    requires Dispatch(cfg, m.f.(nread := m.f.nread + 1), false, ch) == Stay(f, Notify(e))
    ensures Run(cfg, m, [ch] + rest) == Run(cfg, Machine(f, false, m.log + [e]), rest)
  {
    hide Dispatch, Run;
    RunStay(cfg, m, [ch] + rest, 0, f, Notify(e));
    assert ([ch] + rest)[0..] == [ch] + rest && ([ch] + rest)[1..] == rest;
  }

  /** A word whose bytes only move the parser from state to state. */
  ghost predicate Spells(cfg: Config, f: Fields, word: seq<byte>, states: seq<State>) {
    && |states| == |word| + 1 && states[0] == f.state
    && forall i :: 0 <= i < |word| ==>
         && ParsingHeader(states[i]) && !states[i].HeaderValue?
         && Dispatch(cfg, f.(nread := f.nread + i + 1, state := states[i]), false, word[i])
            == Stay(f.(nread := f.nread + i + 1, state := states[i + 1]), Quiet)
  }

  lemma {:induction false} WordRun(cfg: Config, m: Machine, word: seq<byte>, states: seq<State>, rest: seq<byte>)
    requires Spells(cfg, m.f, word, states) && m.f.nread + |word| <= HTTP_MAX_HEADER_SIZE && !m.skip
    ensures Run(cfg, m, word + rest)
         == Run(cfg, Machine(m.f.(nread := m.f.nread + |word|, state := states[|word|]), false, m.log), rest)
    decreases |word|
  {
    hide Dispatch, Run;
    if word == [] {
      assert word + rest == rest;
      assert m.f.(nread := m.f.nread + 0, state := states[0]) == m.f;
    } else {
      var f := m.f.(nread := m.f.nread + 1, state := states[1]);
      assert m.f.(nread := m.f.nread + 0 + 1, state := states[0]) == m.f.(nread := m.f.nread + 1);
      QuietByte(cfg, m, word[0], word[1..] + rest, f);
      assert word + rest == [word[0]] + (word[1..] + rest);
      forall i | 0 <= i < |word[1..]|
        ensures ParsingHeader(states[1..][i]) && !states[1..][i].HeaderValue?
        ensures Dispatch(cfg, f.(nread := f.nread + i + 1, state := states[1..][i]), false, word[1..][i])
             == Stay(f.(nread := f.nread + i + 1, state := states[1..][i + 1]), Quiet)
      {
        assert f.(nread := f.nread + i + 1, state := states[1..][i])
            == m.f.(nread := m.f.nread + (i + 1) + 1, state := states[i + 1]);
      }
      WordRun(cfg, Machine(f, false, m.log), word[1..], states[1..], rest);
    }
  }

  // ---------- Versions ----------

  datatype Version = Version(major: byte, minor: byte)

  predicate ValidVersion(v: Version) { IsNum(v.major) && IsNum(v.minor) }

  function VersionText(v: Version): (t: seq<byte>)
    ensures |t| == 8
  {
    ['H', 'T', 'T', 'P', '/', v.major, '.', v.minor]
  }

  lemma ResponseStart(cfg: Config, f: Fields)
    requires f.state.StartRes?
    ensures Dispatch(cfg, f, false, 'H')
         == Stay(f.(flags := NO_FLAGS, contentLength := ULLONG_MAX, state := ResH), Notify(MessageBegin))
  {
  }

  lemma ResponseSteps(cfg: Config, f: Fields)
    ensures f.state.ResH? ==> Dispatch(cfg, f, false, 'T') == Stay(f.(state := ResHT), Quiet)
    ensures f.state.ResHT? ==> Dispatch(cfg, f, false, 'T') == Stay(f.(state := ResHTT), Quiet)
    ensures f.state.ResHTT? ==> Dispatch(cfg, f, false, 'P') == Stay(f.(state := ResHTTP), Quiet)
    ensures f.state.ResHTTP? ==> Dispatch(cfg, f, false, '/') == Stay(f.(state := ResHttpMajor), Quiet)
  {
  }

  lemma ResponseWord(cfg: Config, f: Fields)
    requires f.state.ResH?
    ensures Spells(cfg, f, ['T', 'T', 'P', '/'], [ResH, ResHT, ResHTT, ResHTTP, ResHttpMajor])
  {
    hide Dispatch;
    ResponseSteps(cfg, f.(nread := f.nread + 1));
    ResponseSteps(cfg, f.(nread := f.nread + 2, state := ResHT));
    ResponseSteps(cfg, f.(nread := f.nread + 3, state := ResHTT));
    ResponseSteps(cfg, f.(nread := f.nread + 4, state := ResHTTP));
  }

  lemma VersionSteps(cfg: Config, f: Fields, v: Version)
    requires ValidVersion(v)
    ensures f.state.ResHttpMajor? ==>
              Dispatch(cfg, f, false, v.major) == Stay(f.(httpMajor := Digit(v.major), state := ResHttpDot), Quiet)
    ensures f.state.ResHttpDot? ==> Dispatch(cfg, f, false, '.') == Stay(f.(state := ResHttpMinor), Quiet)
    ensures f.state.ResHttpMinor? ==>
              Dispatch(cfg, f, false, v.minor) == Stay(f.(httpMinor := Digit(v.minor), state := ResHttpEnd), Quiet)
    ensures f.state.ReqHttpMajor? ==>
              Dispatch(cfg, f, false, v.major) == Stay(f.(httpMajor := Digit(v.major), state := ReqHttpDot), Quiet)
    ensures f.state.ReqHttpDot? ==> Dispatch(cfg, f, false, '.') == Stay(f.(state := ReqHttpMinor), Quiet)
    ensures f.state.ReqHttpMinor? ==>
              Dispatch(cfg, f, false, v.minor) == Stay(f.(httpMinor := Digit(v.minor), state := ReqHttpEnd), Quiet)
  {
  }

  /** The two numbers of a version, in a response or a request. */
  lemma NumbersRun(cfg: Config, m: Machine, v: Version, rest: seq<byte>)
    requires (m.f.state.ResHttpMajor? || m.f.state.ReqHttpMajor?) && ValidVersion(v) && !m.skip
    requires m.f.nread + 3 <= HTTP_MAX_HEADER_SIZE
    ensures var f := m.f.(httpMajor := Digit(v.major), httpMinor := Digit(v.minor), nread := m.f.nread + 3,
                          state := if m.f.state.ResHttpMajor? then ResHttpEnd else ReqHttpEnd);
            Run(cfg, m, [v.major] + (['.'] + ([v.minor] + rest))) == Run(cfg, Machine(f, false, m.log), rest)
  {
    hide Dispatch, Run, Digit, IsNum;
    var n := m.f.nread;
    var response := m.f.state.ResHttpMajor?;
    VersionSteps(cfg, m.f.(nread := n + 1), v);
    var f1 := m.f.(nread := n + 1, httpMajor := Digit(v.major), state := if response then ResHttpDot else ReqHttpDot);
    QuietByte(cfg, m, v.major, ['.'] + ([v.minor] + rest), f1);
    VersionSteps(cfg, f1.(nread := n + 2), v);
    var f2 := f1.(nread := n + 2, state := if response then ResHttpMinor else ReqHttpMinor);
    QuietByte(cfg, Machine(f1, false, m.log), '.', [v.minor] + rest, f2);
    VersionSteps(cfg, f2.(nread := n + 3), v);
    var f3 := f2.(nread := n + 3, httpMinor := Digit(v.minor), state := if response then ResHttpEnd else ReqHttpEnd);
    QuietByte(cfg, Machine(f2, false, m.log), v.minor, rest, f3);
  }

  lemma ResponseVersion(cfg: Config, m: Machine, v: Version, rest: seq<byte>)
    requires m.f.state.StartRes? && ValidVersion(v) && m.f.nread + 8 <= HTTP_MAX_HEADER_SIZE && !m.skip
    ensures var f := m.f.(flags := NO_FLAGS, contentLength := ULLONG_MAX, httpMajor := Digit(v.major),
                          httpMinor := Digit(v.minor), nread := m.f.nread + 8, state := ResHttpEnd);
            Run(cfg, m, VersionText(v) + rest) == Run(cfg, Machine(f, false, m.log + [MessageBegin]), rest)
  {
    hide Dispatch, Run, Spells, Digit;
    var n := m.f.nread;
    var f1 := m.f.(nread := n + 1, flags := NO_FLAGS, contentLength := ULLONG_MAX, state := ResH);
    var numbers := [v.major] + (['.'] + ([v.minor] + rest));
    assert VersionText(v) + rest == ['H'] + (['T', 'T', 'P', '/'] + numbers);
    ResponseStart(cfg, m.f.(nread := n + 1));
    NotifyByte(cfg, m, 'H', ['T', 'T', 'P', '/'] + numbers, f1, MessageBegin);
    ResponseWord(cfg, f1);
    var w := Machine(f1, false, m.log + [MessageBegin]);
    WordRun(cfg, w, ['T', 'T', 'P', '/'], [ResH, ResHT, ResHTT, ResHTTP, ResHttpMajor], numbers);
    NumbersRun(cfg, w.(f := f1.(nread := n + 5, state := ResHttpMajor)), v, rest);
  }

  // ---------- Status lines ----------

  datatype Reason = NoReason | Reason(text: seq<byte>)

  datatype StatusLine =
    StatusLine(version: Version, spaces: seq<byte>, code: seq<byte>, reason: Reason, end: Ending)

  /** A code of any number of digits, up to 999; no reason, or one behind a space. */
  predicate ValidStatusLine(l: StatusLine) {
    && ValidVersion(l.version) && l.spaces != [] && AllSpaces(l.spaces)
    && l.code != [] && AllDigits(l.code) && Decimal(l.code) <= 999
    && (l.reason.Reason? ==> NoLineEnd(l.reason.text))
  }

  function ReasonText(r: Reason): seq<byte> {
    if r.NoReason? then [] else [' '] + r.text
  }

  /** What is reported: a missing reason is an empty one. */
  function ReasonOf(r: Reason): seq<byte> {
    if r.NoReason? then [] else r.text
  }

  function StatusText(l: StatusLine): seq<byte> {
    VersionText(l.version) + (l.spaces + (l.code + (ReasonText(l.reason) + EndText(l.end))))
  }

  lemma SpaceSteps(cfg: Config, f: Fields)
    ensures f.state.ResHttpEnd? ==> Dispatch(cfg, f, false, ' ') == Stay(f.(state := ResFirstStatusCode), Quiet)
    ensures f.state.ResStatusCode? ==> Dispatch(cfg, f, false, ' ') == Stay(f.(state := ResStatusStart), Quiet)
    ensures f.state.ResFirstStatusCode? || f.state.ReqSpacesBeforeUrl? || f.state.ReqHttpStart? ==>
              Dispatch(cfg, f, false, ' ') == Stay(f, Quiet)
  {
    assert f.state.ResFirstStatusCode? ==> f.(state := ResFirstStatusCode) == f;
  }

  /** Spaces where any number of them may stand. */
  lemma {:induction false} SpacesSkipped(cfg: Config, m: Machine, spaces: seq<byte>, rest: seq<byte>)
    requires m.f.state.ResFirstStatusCode? || m.f.state.ReqSpacesBeforeUrl? || m.f.state.ReqHttpStart?
    requires AllSpaces(spaces) && !m.skip && m.f.nread + |spaces| <= HTTP_MAX_HEADER_SIZE
    ensures Run(cfg, m, spaces + rest) == Run(cfg, m.(f := m.f.(nread := m.f.nread + |spaces|)), rest)
    decreases |spaces|
  {
    hide Dispatch, Run;
    if spaces == [] {
      assert spaces + rest == rest && m.f.(nread := m.f.nread + 0) == m.f;
    } else {
      assert spaces[0] == ' ' && AllSpaces(spaces[1..]);
      var f := m.f.(nread := m.f.nread + 1);
      SpaceSteps(cfg, f);
      QuietByte(cfg, m, ' ', spaces[1..] + rest, f);
      assert spaces + rest == [' '] + (spaces[1..] + rest);
      SpacesSkipped(cfg, Machine(f, false, m.log), spaces[1..], rest);
    }
  }

  lemma CodeSteps(cfg: Config, f: Fields, d: byte)
    requires IsNum(d)
    ensures f.state.ResFirstStatusCode? ==>
              Dispatch(cfg, f, false, d) == Stay(f.(statusCode := Digit(d), state := ResStatusCode), Quiet)
    ensures f.state.ResStatusCode? ==>
              Dispatch(cfg, f, false, d) ==
              if f.statusCode * 10 + Digit(d) > 999 then Err(InvalidStatus)
              else Stay(f.(statusCode := f.statusCode * 10 + Digit(d)), Quiet)
  {
  }

  /** A code of any number of digits is accepted if and only if it is at most 999. */
  lemma {:induction false} CodeRun(cfg: Config, m: Machine, code: seq<byte>)
    requires m.f.state.ResFirstStatusCode? && code != [] && AllDigits(code) && !m.skip
    requires m.f.nread + |code| <= HTTP_MAX_HEADER_SIZE
    ensures Run(cfg, m, code)
         == if Decimal(code) <= 999 then
              Running(Machine(m.f.(statusCode := Decimal(code), nread := m.f.nread + |code|, state := ResStatusCode),
                              false, m.log))
            else Failed(InvalidStatus)
    decreases |code|
  {
    hide Dispatch, Run, Byte, Passes, Digit, IsNum;
    var init, last := code[..|code| - 1], code[|code| - 1];
    RunLast(cfg, m, code);
    if init == [] {
      RunNothing(cfg, m);
      assert code == [last] && Decimal([]) == 0;
      CodeSteps(cfg, Counted(m.f), last);
      OneStay(cfg, m, last, Counted(m.f).(statusCode := Digit(last), state := ResStatusCode), Quiet);
    } else {
      CodeRun(cfg, m, init);
      var r := Run(cfg, m, init);
      if r.Running? {
        CodeSteps(cfg, Counted(r.m.f), last);
        var a := Dispatch(cfg, Counted(r.m.f), false, last);
        if a.Err? {
          OneErr(cfg, r.m, last, InvalidStatus);
        } else {
          OneStay(cfg, r.m, last, a.f, Quiet);
        }
      }
    }
  }

  lemma StatusByte(cfg: Config, f: Fields, ch: byte)
    requires ch != CR && ch != LF
    ensures f.state.ResStatusStart? ==>
              Dispatch(cfg, f, false, ch) == Stay(f.(state := ResStatus, index := 0), MarkTake(Status))
    ensures f.state.ResStatus? ==> Dispatch(cfg, f, false, ch) == Stay(f, Take(Status))
  {
  }

  lemma StatusEnd(cfg: Config, f: Fields, ch: byte)
    requires ch == CR || ch == LF
    ensures f.state.ResStatusCode? ==> Dispatch(cfg, f, false, ch) == Again(f.(state := ResStatusStart), Quiet)
    ensures f.state.ResStatusStart? ==>
              Dispatch(cfg, f, false, ch) == Again(f.(state := ResStatus, index := 0), Mark(Status))
    ensures f.state.ResStatus? ==>
              Dispatch(cfg, f, false, ch) ==
              Stay(f.(state := if ch == CR then ResLineAlmostDone else HeaderFieldStart), Flush(Status))
    ensures f.state.ResLineAlmostDone? && ch == LF ==>
              Dispatch(cfg, f, false, ch) == Stay(f.(state := HeaderFieldStart), Quiet)
  {
  }

  /** A byte that joins the data of one kind. */
  lemma TakenByte(cfg: Config, m: Machine, ch: byte, rest: seq<byte>, f: Fields, k: DataKind)
    requires !m.f.state.HeaderValue? && ParsingHeader(m.f.state) && m.f.nread < HTTP_MAX_HEADER_SIZE
    requires var a := Dispatch(cfg, m.f.(nread := m.f.nread + 1), false, ch);
             a == Stay(f, Take(k)) || a == Stay(f, MarkTake(k))
    ensures Run(cfg, m, [ch] + rest) == Run(cfg, Machine(f, false, Absorb(m.log, Data(k, [ch]))), rest)
  {
    hide Dispatch, Run, Absorb;
    var a := Dispatch(cfg, m.f.(nread := m.f.nread + 1), false, ch);
    RunStay(cfg, m, [ch] + rest, 0, f, a.effect);
    assert ([ch] + rest)[0..] == [ch] + rest && ([ch] + rest)[1..] == rest;
  }

  lemma {:induction false} ReasonRun(cfg: Config, m: Machine, reason: seq<byte>, rest: seq<byte>)
    requires m.f.state.ResStatus? && NoLineEnd(reason) && LastIs(m.log, Status) && !m.skip
    requires m.f.nread + |reason| <= HTTP_MAX_HEADER_SIZE
    ensures Run(cfg, m, reason + rest)
         == Run(cfg, Machine(m.f.(nread := m.f.nread + |reason|), false, Absorb(m.log, Data(Status, reason))), rest)
    decreases |reason|
  {
    hide Dispatch, Run, Absorb, LastIs;
    if reason == [] {
      AbsorbNothing(m.log, Status);
      assert reason + rest == rest && m.f.(nread := m.f.nread + 0) == m.f;
    } else {
      var f := m.f.(nread := m.f.nread + 1);
      var log := Absorb(m.log, Data(Status, [reason[0]]));
      StatusByte(cfg, f, reason[0]);
      TakenByte(cfg, m, reason[0], reason[1..] + rest, f, Status);
      assert reason + rest == [reason[0]] + (reason[1..] + rest);
      StatusLast(m.log, [reason[0]]);
      ReasonRun(cfg, Machine(f, false, log), reason[1..], rest);
      AbsorbSplit(m.log, Status, [reason[0]], reason[1..]);
      assert [reason[0]] + reason[1..] == reason;
    }
  }

  lemma StatusLast(log: Log, bytes: seq<byte>)
    ensures LastIs(Absorb(log, Data(Status, bytes)), Status)
  {
  }

  lemma ReasonStops(cfg: Config, m: Machine, ch: byte, rest: seq<byte>)
    requires m.f.state.ResStatus? && LastIs(m.log, Status) && !m.skip && (ch == CR || ch == LF)
    requires m.f.nread < HTTP_MAX_HEADER_SIZE
    ensures Run(cfg, m, [ch] + rest)
         == Run(cfg, Machine(m.f.(nread := m.f.nread + 1,
                                  state := if ch == CR then ResLineAlmostDone else HeaderFieldStart), false, m.log), rest)
  {
    hide Dispatch, Run, Absorb, LastIs;
    AbsorbNothing(m.log, Status);
    StatusEnd(cfg, Counted(m.f), ch);
    RunStay(cfg, m, [ch] + rest, 0, Counted(m.f).(state := if ch == CR then ResLineAlmostDone else HeaderFieldStart),
            Flush(Status));
    assert ([ch] + rest)[0..] == [ch] + rest && ([ch] + rest)[1..] == rest;
  }

  /** The line end behind a reason. */
  lemma ReasonEnd(cfg: Config, m: Machine, end: Ending, rest: seq<byte>)
    requires m.f.state.ResStatus? && LastIs(m.log, Status) && !m.skip
    requires m.f.nread + |EndText(end)| <= HTTP_MAX_HEADER_SIZE
    ensures Run(cfg, m, EndText(end) + rest)
         == Run(cfg, Machine(m.f.(nread := m.f.nread + |EndText(end)|, state := HeaderFieldStart), false, m.log), rest)
  {
    hide Dispatch, Run, LastIs;
    if end.CrLf? {
      var n := Machine(m.f.(nread := m.f.nread + 1, state := ResLineAlmostDone), false, m.log);
      assert CRLF + rest == [CR] + ([LF] + rest);
      ReasonStops(cfg, m, CR, [LF] + rest);
      StatusEnd(cfg, n.f.(nread := m.f.nread + 2), LF);
      QuietByte(cfg, n, LF, rest, m.f.(nread := m.f.nread + 2, state := HeaderFieldStart));
    } else {
      ReasonStops(cfg, m, LF, rest);
    }
  }

  /** A line that ends behind the code, or behind the space, has an empty reason. */
  lemma EmptyPasses(cfg: Config, f: Fields, log: Log, ch: byte)
    requires (f.state.ResStatusCode? || f.state.ResStatusStart?) && (ch == CR || ch == LF)
    ensures Passes(cfg, Machine(f, false, log), ch)
         == Passes(cfg, Machine(f.(state := ResStatus, index := 0), false, Absorb(log, Data(Status, []))), ch)
  {
    var g := f.(state := ResStatusStart);
    StatusEnd(cfg, f, ch);
    StatusEnd(cfg, g, ch);
    hide Dispatch, Absorb;
  }

  lemma EmptyByte(cfg: Config, m: Machine, ch: byte)
    requires (m.f.state.ResStatusCode? || m.f.state.ResStatusStart?) && (ch == CR || ch == LF) && !m.skip
    ensures Byte(cfg, m, ch)
         == Byte(cfg, Machine(m.f.(state := ResStatus, index := 0), false, Absorb(m.log, Data(Status, []))), ch)
  {
    hide Passes, Absorb;
    EmptyPasses(cfg, Counted(m.f), m.log, ch);
  }

  lemma EmptyReason(cfg: Config, m: Machine, end: Ending, rest: seq<byte>)
    requires (m.f.state.ResStatusCode? || m.f.state.ResStatusStart?) && !m.skip
    requires m.f.nread + |EndText(end)| <= HTTP_MAX_HEADER_SIZE
    ensures Run(cfg, m, EndText(end) + rest)
         == Run(cfg, Machine(m.f.(nread := m.f.nread + |EndText(end)|, index := 0, state := HeaderFieldStart), false,
                             Absorb(m.log, Data(Status, []))), rest)
  {
    hide Byte, Run, Absorb, LastIs;
    var data := EndText(end) + rest;
    var n := Machine(m.f.(state := ResStatus, index := 0), false, Absorb(m.log, Data(Status, [])));
    EmptyByte(cfg, m, data[0]);
    RunCons(cfg, m, data, 0);
    RunCons(cfg, n, data, 0);
    assert data[0..] == data;
    StatusLast(m.log, []);
    ReasonEnd(cfg, n, end, rest);
  }

  /** A reason behind its space, and the line end. */
  lemma ReasonLine(cfg: Config, m: Machine, reason: seq<byte>, end: Ending, rest: seq<byte>)
    requires m.f.state.ResStatusStart? && NoLineEnd(reason) && !m.skip
    requires m.f.nread + |reason| + |EndText(end)| <= HTTP_MAX_HEADER_SIZE
    ensures Run(cfg, m, reason + (EndText(end) + rest))
         == Run(cfg, Machine(m.f.(nread := m.f.nread + |reason| + |EndText(end)|, index := 0,
                                  state := HeaderFieldStart), false, Absorb(m.log, Data(Status, reason))), rest)
  {
    hide Dispatch, Run, Absorb, LastIs, EndText;
    var tail := EndText(end) + rest;
    if reason == [] {
      assert reason + tail == tail;
      EmptyReason(cfg, m, end, rest);
    } else {
      var ch, more := reason[0], reason[1..];
      var f := m.f.(nread := m.f.nread + 1);
      var g := f.(state := ResStatus, index := 0);
      StatusByte(cfg, f, ch);
      assert reason + tail == [ch] + (more + tail) && [ch] + more == reason;
      TakenByte(cfg, m, ch, more + tail, g, Status);
      var log := Absorb(m.log, Data(Status, [ch]));
      StatusLast(m.log, [ch]);
      ReasonRun(cfg, Machine(g, false, log), more, tail);
      AbsorbSplit(m.log, Status, [ch], more);
      StatusLast(m.log, reason);
      ReasonEnd(cfg, Machine(g.(nread := g.nread + |more|), false, Absorb(m.log, Data(Status, reason))), end, rest);
    }
  }

  /** What follows the code, up to the line end. */
  lemma CodeEnd(cfg: Config, m: Machine, reason: Reason, end: Ending, rest: seq<byte>)
    requires m.f.state.ResStatusCode? && (reason.Reason? ==> NoLineEnd(reason.text)) && !m.skip
    requires m.f.nread + |ReasonText(reason)| + |EndText(end)| <= HTTP_MAX_HEADER_SIZE
    ensures Run(cfg, m, ReasonText(reason) + (EndText(end) + rest))
         == Run(cfg, Machine(m.f.(nread := m.f.nread + |ReasonText(reason)| + |EndText(end)|, index := 0,
                                  state := HeaderFieldStart), false,
                             Absorb(m.log, Data(Status, ReasonOf(reason)))), rest)
  {
    hide Dispatch, Run, Absorb, EndText;
    var tail := EndText(end) + rest;
    if reason.NoReason? {
      assert ReasonText(reason) + tail == tail;
      EmptyReason(cfg, m, end, rest);
    } else {
      var f := m.f.(nread := m.f.nread + 1);
      SpaceSteps(cfg, f);
      assert ReasonText(reason) + tail == [' '] + (reason.text + tail);
      QuietByte(cfg, m, ' ', reason.text + tail, f.(state := ResStatusStart));
      ReasonLine(cfg, Machine(f.(state := ResStatusStart), false, m.log), reason.text, end, rest);
    }
  }

  /** A status line of any version, code and reason. */
  lemma StatusLineRead(cfg: Config, m: Machine, l: StatusLine, rest: seq<byte>)
    requires m.f.state.StartRes? && ValidStatusLine(l) && !m.skip
    requires m.f.nread + |StatusText(l)| <= HTTP_MAX_HEADER_SIZE
    ensures var f := m.f.(flags := NO_FLAGS, contentLength := ULLONG_MAX, httpMajor := Digit(l.version.major),
                          httpMinor := Digit(l.version.minor), statusCode := Decimal(l.code), index := 0,
                          nread := m.f.nread + |StatusText(l)|, state := HeaderFieldStart);
            Run(cfg, m, StatusText(l) + rest)
            == Run(cfg, Machine(f, false, m.log + [MessageBegin, Data(Status, ReasonOf(l.reason))]), rest)
  {
    hide Dispatch, Run, Absorb, VersionText, Decimal, Digit, EndText, ReasonText, ReasonOf, AllDigits, AllSpaces;
    var end := ReasonText(l.reason) + (EndText(l.end) + rest);
    assert StatusText(l) + rest == VersionText(l.version) + (l.spaces + (l.code + end));
    ResponseVersion(cfg, m, l.version, l.spaces + (l.code + end));
    var f1 := m.f.(flags := NO_FLAGS, contentLength := ULLONG_MAX, httpMajor := Digit(l.version.major),
                   httpMinor := Digit(l.version.minor), nread := m.f.nread + 8, state := ResHttpEnd);
    var m1 := Machine(f1, false, m.log + [MessageBegin]);
    CodeRead(cfg, m1, l.spaces, l.code, end);
    var m2 := m1.(f := f1.(statusCode := Decimal(l.code), nread := f1.nread + |l.spaces| + |l.code|,
                           state := ResStatusCode));
    CodeEnd(cfg, m2, l.reason, l.end, rest);
    AfterBegin(m.log, ReasonOf(l.reason));
  }

  lemma CodeRead(cfg: Config, m: Machine, spaces: seq<byte>, code: seq<byte>, rest: seq<byte>)
    requires m.f.state.ResHttpEnd? && !m.skip && spaces != [] && AllSpaces(spaces)
    requires code != [] && AllDigits(code) && Decimal(code) <= 999
    requires m.f.nread + |spaces| + |code| <= HTTP_MAX_HEADER_SIZE
    ensures Run(cfg, m, spaces + (code + rest))
         == Run(cfg, Machine(m.f.(statusCode := Decimal(code), nread := m.f.nread + |spaces| + |code|,
                                  state := ResStatusCode), false, m.log), rest)
  {
    hide Dispatch, Run, Decimal, AllDigits;
    assert spaces[0] == ' ' && AllSpaces(spaces[1..]);
    var f := m.f.(nread := m.f.nread + 1);
    SpaceSteps(cfg, f);
    var g := f.(state := ResFirstStatusCode);
    assert spaces + (code + rest) == [' '] + (spaces[1..] + (code + rest));
    QuietByte(cfg, m, ' ', spaces[1..] + (code + rest), g);
    SpacesSkipped(cfg, Machine(g, false, m.log), spaces[1..], code + rest);
    var n := Machine(g.(nread := g.nread + |spaces| - 1), false, m.log);
    CodeRun(cfg, n, code);
    RunThen(cfg, n, code, rest);
  }

  lemma AfterBegin(log: Log, reason: seq<byte>)
    ensures Absorb(log + [MessageBegin], Data(Status, reason)) == log + [MessageBegin, Data(Status, reason)]
    ensures Absorb(log + [MessageBegin], Data(Url, reason)) == log + [MessageBegin, Data(Url, reason)]
  {
  }

  // ---------- Methods ----------

  function AsByte(c: char): byte {
    if c < 256 as char then c else '\0'
  }

  /** The method guessed after the first i letters of a method's name. */
  function GuessAt(v: Method, i: nat): MethodGuess {
    if i == 0 then NoMethod
    else
      var ch := AsByte(At(MethodString(v), i - 1));
      if i == 1 then MethodOfLetter(ch) else NextGuess(GuessAt(v, i - 1), i - 1, ch)
  }

  /** The guess after letter i, from the guess before it. */
  function NextGuess(guess: MethodGuess, i: nat, ch: byte): MethodGuess {
    match guess
    case NoMethod => NoMethod
    case Guess(g) => if ch == At(MethodString(g), i) then Guess(g) else Reguess(g, i, ch)
  }

  /** The guess that a method is a correction of, and at which letter. */
  function Parent(v: Method): MethodGuess {
    match v
    case PUT => Guess(POST) case PATCH => Guess(POST) case PROPFIND => Guess(POST)
    case PURGE => Guess(PUT) case PROPPATCH => Guess(PROPFIND)
    case CHECKOUT => Guess(CONNECT) case COPY => Guess(CONNECT)
    case MOVE => Guess(MKCOL) case MERGE => Guess(MKCOL) case MSEARCH => Guess(MKCOL)
    case MKACTIVITY => Guess(MKCOL) case MKCALENDAR => Guess(MKCOL)
    case SEARCH => Guess(SUBSCRIBE) case SOURCE => Guess(SUBSCRIBE)
    case REBIND => Guess(REPORT) case LINK => Guess(LOCK)
    case UNSUBSCRIBE => Guess(UNLOCK) case UNBIND => Guess(UNLOCK) case UNLINK => Guess(UNLOCK)
    case _ => NoMethod
  }

  function Turn(v: Method): nat {
    match v
    case PURGE => 2 case COPY => 2 case MKACTIVITY => 2 case REBIND => 2 case UNSUBSCRIBE => 2 case UNBIND => 2
    case MKCALENDAR => 3 case UNLINK => 3
    case PROPPATCH => 4
    case _ => if Parent(v).Guess? then 1 else 0
  }

  /** Two methods begin with the same letters. */
  predicate SameStart(v: Method, w: Method, n: nat) {
    forall k :: 0 <= k < n ==> At(MethodString(v), k) == At(MethodString(w), k)
  }

  /** The correction fits: the same letters before, and a switch for the letter. */
  predicate TurnFits(v: Method, p: Method) {
    var n := Turn(v);
    && 0 < n < |MethodString(v)| && SameStart(v, p, n) && At(MethodString(v), n) != At(MethodString(p), n)
    && Reguess(p, n, AsByte(At(MethodString(v), n))) == Guess(v)
  }

  lemma TurnsFromPost(v: Method)
    requires v.PUT? || v.PATCH? || v.PROPFIND? || v.PURGE? || v.PROPPATCH? || v.CHECKOUT? || v.COPY?
    ensures TurnFits(v, Parent(v).verb)
  {
  }

  lemma TurnsFromMkcol(v: Method)
    requires v.MOVE? || v.MERGE? || v.MSEARCH? || v.MKACTIVITY? || v.MKCALENDAR?
    ensures TurnFits(v, Parent(v).verb)
  {
  }

  lemma TurnsFromSubscribe(v: Method)
    requires v.SEARCH? || v.SOURCE?
    ensures TurnFits(v, Parent(v).verb)
  {
  }

  lemma TurnsFromUnlock(v: Method)
    requires v.UNSUBSCRIBE? || v.UNBIND? || v.UNLINK? || v.REBIND? || v.LINK?
    ensures TurnFits(v, Parent(v).verb)
  {
  }

  lemma Turns(v: Method)
    requires Parent(v).Guess?
    ensures TurnFits(v, Parent(v).verb)
  {
    hide TurnFits;
    if v.PUT? || v.PATCH? || v.PROPFIND? || v.PURGE? || v.PROPPATCH? || v.CHECKOUT? || v.COPY? {
      TurnsFromPost(v);
    } else if v.MOVE? || v.MERGE? || v.MSEARCH? || v.MKACTIVITY? || v.MKCALENDAR? {
      TurnsFromMkcol(v);
    } else if v.SEARCH? || v.SOURCE? {
      TurnsFromSubscribe(v);
    } else {
      TurnsFromUnlock(v);
    }
  }

  /** A method without a parent is the first guess for its letter. */
  lemma FirstGuesses(v: Method)
    requires Parent(v).NoMethod?
    ensures |MethodString(v)| > 0 && MethodOfLetter(AsByte(At(MethodString(v), 0))) == Guess(v)
  {
  }

  lemma NoGuessYet(v: Method)
    ensures GuessAt(v, 0) == NoMethod
  {
  }

  lemma GuessStep(v: Method, n: nat)
    requires n > 0
    ensures var ch := AsByte(At(MethodString(v), n - 1));
            GuessAt(v, n) == if n == 1 then MethodOfLetter(ch) else NextGuess(GuessAt(v, n - 1), n - 1, ch)
  {
  }

  lemma StartsShorter(v: Method, w: Method, n: nat)
    requires SameStart(v, w, n) && n > 0
    ensures SameStart(v, w, n - 1) && At(MethodString(v), n - 1) == At(MethodString(w), n - 1)
  {
    hide MethodString, At;
  }

  lemma {:induction false} SharedGuess(v: Method, w: Method, n: nat)
    requires SameStart(v, w, n)
    ensures GuessAt(v, n) == GuessAt(w, n)
    decreases n
  {
    hide *;
    if n == 0 {
      NoGuessYet(v);
      NoGuessYet(w);
    } else {
      StartsShorter(v, w, n);
      SharedGuess(v, w, n - 1);
      GuessStep(v, n);
      GuessStep(w, n);
    }
  }

  /** A guess stays while its letters come. */
  lemma {:induction false} GuessStays(v: Method, g: Method, i: nat, n: nat)
    requires 0 < i <= n && GuessAt(v, i) == Guess(g)
    requires forall k :: i <= k < n ==> AsByte(At(MethodString(v), k)) == At(MethodString(g), k)
    ensures GuessAt(v, n) == Guess(g)
    decreases n - i
  {
    hide MethodString, MethodOfLetter, Reguess, AsByte;
    if i == n {
    } else {
      GuessStays(v, g, i, n - 1);
    }
  }

  function Depth(v: Method): nat {
    match v
    case PURGE => 2
    case PROPPATCH => 2
    case _ => if Parent(v).Guess? then 1 else 0
  }

  lemma ParentIsHigher(v: Method)
    requires Parent(v).Guess?
    ensures var p := Parent(v).verb; Depth(p) < Depth(v) && Turn(p) < Turn(v) <= |MethodString(p)|
  {
  }

  lemma AsciiNames(v: Method)
    ensures forall k :: 0 <= k < |MethodString(v)| ==> AsByte(At(MethodString(v), k)) == At(MethodString(v), k)
  {
    MethodLetters(v);
    hide MethodString;
  }

  /** Once its letters have told a method from its parent, it is the guess. */
  lemma {:induction false} GuessedFrom(v: Method, n: nat)
    requires Turn(v) < n <= |MethodString(v)|
    ensures GuessAt(v, n) == Guess(v)
    decreases Depth(v)
  {
    AsciiNames(v);
    if Parent(v).NoMethod? {
      FirstGuesses(v);
      hide Reguess, MethodOfLetter, AsByte, Parent, MethodString;
      GuessStays(v, v, 1, n);
    } else {
      Turns(v);
      ParentIsHigher(v);
      hide Reguess, MethodOfLetter, AsByte, Parent, MethodString, Turn, Depth;
      var p, k := Parent(v).verb, Turn(v);
      GuessedFrom(p, k);
      SharedGuess(v, p, k);
      GuessStays(v, v, k + 1, n);
    }
  }

  /** Guessing by the letters of a method ends at the method. */
  lemma Guessed(v: Method)
    ensures GuessAt(v, |MethodString(v)|) == Guess(v)
  {
    if Parent(v).Guess? {
      Turns(v);
    } else {
      FirstGuesses(v);
    }
    hide GuessAt, MethodString, Reguess, Parent;
    GuessedFrom(v, |MethodString(v)|);
  }

  predicate IsLetter(c: char) { 'A' <= c <= 'Z' || c == '-' }

  predicate AllLetters(s: string) {
    forall i :: 0 <= i < |s| ==> IsLetter(s[i])
  }

  lemma LettersFromDelete(v: Method)
    requires v.DELETE? || v.GET? || v.HEAD? || v.POST? || v.PUT? || v.CONNECT? || v.OPTIONS?
    ensures AllLetters(MethodString(v)) && |MethodString(v)| > 1
  {
  }

  lemma LettersFromTrace(v: Method)
    requires v.TRACE? || v.COPY? || v.LOCK? || v.MKCOL? || v.MOVE? || v.PROPFIND? || v.PROPPATCH?
    ensures AllLetters(MethodString(v)) && |MethodString(v)| > 1
  {
  }

  lemma LettersFromSearch(v: Method)
    requires v.SEARCH? || v.UNLOCK? || v.BIND? || v.REBIND? || v.UNBIND? || v.ACL? || v.REPORT?
    ensures AllLetters(MethodString(v)) && |MethodString(v)| > 1
  {
  }

  lemma LettersFromMkactivity(v: Method)
    requires v.MKACTIVITY? || v.CHECKOUT? || v.MERGE? || v.MSEARCH? || v.NOTIFY? || v.SUBSCRIBE? || v.UNSUBSCRIBE?
    ensures AllLetters(MethodString(v)) && |MethodString(v)| > 1
  {
  }

  lemma LettersFromPatch(v: Method)
    requires v.PATCH? || v.PURGE? || v.MKCALENDAR? || v.LINK? || v.UNLINK? || v.SOURCE?
    ensures AllLetters(MethodString(v)) && |MethodString(v)| > 1
  {
  }

  lemma MethodLetters(v: Method)
    ensures AllLetters(MethodString(v)) && |MethodString(v)| > 1
  {
    hide MethodString;
    if v.DELETE? || v.GET? || v.HEAD? || v.POST? || v.PUT? || v.CONNECT? || v.OPTIONS? {
      LettersFromDelete(v);
    } else if v.TRACE? || v.COPY? || v.LOCK? || v.MKCOL? || v.MOVE? || v.PROPFIND? || v.PROPPATCH? {
      LettersFromTrace(v);
    } else if v.SEARCH? || v.UNLOCK? || v.BIND? || v.REBIND? || v.UNBIND? || v.ACL? || v.REPORT? {
      LettersFromSearch(v);
    } else if v.MKACTIVITY? || v.CHECKOUT? || v.MERGE? || v.MSEARCH? || v.NOTIFY? || v.SUBSCRIBE? || v.UNSUBSCRIBE? {
      LettersFromMkactivity(v);
    } else {
      LettersFromPatch(v);
    }
  }

  lemma EarlierGuess(v: Method, i: nat)
    requires 0 < i && GuessAt(v, i + 1).Guess?
    ensures GuessAt(v, i).Guess?
  {
    hide Reguess, MethodString;
  }

  lemma {:induction false} GuessesSoFar(v: Method, i: nat, n: nat)
    requires 0 < i <= n && GuessAt(v, n).Guess?
    ensures GuessAt(v, i).Guess?
    decreases n
  {
    hide GuessAt;
    if i == n {
    } else {
      EarlierGuess(v, n - 1);
      GuessesSoFar(v, i, n - 1);
    }
  }

  lemma FirstLetter(cfg: Config, f: Fields, ch: byte)
    requires f.state.StartReq? && ch != CR && ch != LF && MethodOfLetter(ch).Guess?
    ensures Dispatch(cfg, f, false, ch)
         == Stay(f.(flags := NO_FLAGS, contentLength := ULLONG_MAX, verb := MethodOfLetter(ch).verb, index := 1,
                    state := ReqMethod), Notify(MessageBegin))
  {
    hide MethodOfLetter;
  }

  lemma NextLetter(cfg: Config, f: Fields, v: Method, ch: byte)
    requires f.state.ReqMethod? && f.index > 0 && GuessAt(v, f.index) == Guess(f.verb)
    requires GuessAt(v, f.index + 1).Guess? && ch == At(MethodString(v), f.index) && ch != ' ' && ch != '\0'
    ensures Dispatch(cfg, f, false, ch)
         == Stay(f.(verb := GuessAt(v, f.index + 1).verb, index := f.index + 1), Quiet)
  {
    hide MethodString, MethodOfLetter, Reguess;
  }

  lemma {:induction false} LettersRun(cfg: Config, m: Machine, v: Method, text: seq<byte>, rest: seq<byte>)
    requires m.f.state.ReqMethod? && 0 < m.f.index <= |text| && text == MethodString(v) && !m.skip
    requires GuessAt(v, m.f.index) == Guess(m.f.verb)
    requires m.f.nread + |text| - m.f.index <= HTTP_MAX_HEADER_SIZE
    ensures Run(cfg, m, text[m.f.index..] + rest)
         == Run(cfg, Machine(m.f.(verb := v, index := |text|, nread := m.f.nread + |text| - m.f.index), false, m.log),
                rest)
    decreases |text| - m.f.index
  {
    hide Dispatch, Run, GuessAt, MethodString;
    var i := m.f.index;
    Guessed(v);
    if i == |text| {
      assert text[i..] + rest == rest;
      assert m.f.(verb := v, index := |text|, nread := m.f.nread + |text| - i) == m.f;
    } else {
      MethodLetters(v);
      GuessesSoFar(v, i + 1, |text|);
      assert IsLetter(text[i]);
      var f := m.f.(nread := m.f.nread + 1);
      NextLetter(cfg, f, v, text[i]);
      var g := f.(verb := GuessAt(v, i + 1).verb, index := i + 1);
      assert text[i..] + rest == [text[i]] + (text[i + 1..] + rest);
      QuietByte(cfg, m, text[i], text[i + 1..] + rest, g);
      LettersRun(cfg, Machine(g, false, m.log), v, text, rest);
    }
  }

  lemma MethodEnd(cfg: Config, f: Fields, v: Method)
    requires f.state.ReqMethod? && f.verb == v && f.index == |MethodString(v)|
    ensures Dispatch(cfg, f, false, ' ') == Stay(f.(index := f.index + 1, state := ReqSpacesBeforeUrl), Quiet)
  {
    hide MethodString;
  }

  /** A request's method, and the space behind it. */
  lemma MethodRun(cfg: Config, m: Machine, v: Method, text: seq<byte>, rest: seq<byte>)
    requires m.f.state.StartReq? && text == MethodString(v) && !m.skip
    requires m.f.nread + |text| + 1 <= HTTP_MAX_HEADER_SIZE
    ensures var f := m.f.(flags := NO_FLAGS, contentLength := ULLONG_MAX, verb := v, index := |text| + 1,
                          nread := m.f.nread + |text| + 1, state := ReqSpacesBeforeUrl);
            Run(cfg, m, text + ([' '] + rest)) == Run(cfg, Machine(f, false, m.log + [MessageBegin]), rest)
  {
    hide Dispatch, Run, MethodString, MethodOfLetter;
    MethodLetters(v);
    Guessed(v);
    GuessesSoFar(v, 1, |text|);
    assert IsLetter(text[0]);
    var f := m.f.(nread := m.f.nread + 1);
    FirstLetter(cfg, f, text[0]);
    var g := f.(flags := NO_FLAGS, contentLength := ULLONG_MAX, verb := GuessAt(v, 1).verb, index := 1,
                state := ReqMethod);
    assert text + ([' '] + rest) == [text[0]] + (text[1..] + ([' '] + rest));
    NotifyByte(cfg, m, text[0], text[1..] + ([' '] + rest), g, MessageBegin);
    var n := Machine(g, false, m.log + [MessageBegin]);
    LettersRun(cfg, n, v, text, [' '] + rest);
    var h := g.(verb := v, index := |text|, nread := m.f.nread + |text|);
    MethodEnd(cfg, h.(nread := h.nread + 1), v);
    QuietByte(cfg, n.(f := h), ' ', rest, h.(nread := h.nread + 1, index := |text| + 1, state := ReqSpacesBeforeUrl));
  }

  // ---------- Request lines ----------

  lemma TargetByte(cfg: Config, f: Fields, ch: byte)
    requires f.state.ReqSpacesBeforeUrl? || InUrl(f.state)
    requires ch != ' ' && ch != CR && ch != LF
    ensures f.state.ReqSpacesBeforeUrl? ==>
              var s := ParseUrlChar(if f.verb == CONNECT then ReqServerStart else ReqSpacesBeforeUrl, ch);
              Dispatch(cfg, f, false, ch) == if s == Dead then Err(InvalidUrl) else Stay(f.(state := s), MarkTake(Url))
    ensures InUrl(f.state) ==>
              var s := ParseUrlChar(f.state, ch);
              Dispatch(cfg, f, false, ch) == if s == Dead then Err(InvalidUrl) else Stay(f.(state := s), Take(Url))
  {
    hide ParseUrlChar;
  }

  lemma DeadByte(s: State, ch: byte)
    requires ParseUrlChar(s, ch) != Dead
    ensures ch != ' ' && ch != CR && ch != LF && InUrl(ParseUrlChar(s, ch))
  {
  }

  function TargetState(target: seq<byte>, n: nat, verb: Method): State
    requires n <= |target|
  {
    HttpUrl.ScanUrl(target, n, verb == CONNECT).s
  }

  /** The bytes of a target move the parser as they move http_parser_parse_url. */
  lemma {:induction false} TargetRun(cfg: Config, m: Machine, target: seq<byte>, n: nat)
    requires m.f.state.ReqSpacesBeforeUrl? && 0 < n <= |target| && !m.skip
    requires TargetState(target, n, m.f.verb) != Dead && m.f.nread + n <= HTTP_MAX_HEADER_SIZE
    ensures InUrl(TargetState(target, n, m.f.verb))
    ensures Run(cfg, m, target[..n])
         == Running(Machine(m.f.(nread := m.f.nread + n, state := TargetState(target, n, m.f.verb)), false,
                            Absorb(m.log, Data(Url, target[..n]))))
  {
    hide Dispatch, Run, ParseUrlChar, Absorb, InUrl;
    var ch := target[n - 1];
    TargetStep(target, n, m.f.verb);
    DeadByte(TargetState(target, n - 1, m.f.verb), ch);
    assert target[..n] == target[..n - 1] + [ch];
    if n == 1 {
      assert target[..n] == [ch];
      FirstTargetByte(cfg, m, ch);
    } else {
      TargetRun(cfg, m, target, n - 1);
      NextTargetByte(cfg, Run(cfg, m, target[..n - 1]).m, ch);
      RunThen(cfg, m, target[..n - 1], [ch]);
      AbsorbSplit(m.log, Url, target[..n - 1], [ch]);
    }
  }

  lemma FirstTargetByte(cfg: Config, m: Machine, ch: byte)
    requires m.f.state.ReqSpacesBeforeUrl? && !m.skip && m.f.nread < HTTP_MAX_HEADER_SIZE
    requires ch != ' ' && ch != CR && ch != LF
    requires ParseUrlChar(if m.f.verb == CONNECT then ReqServerStart else ReqSpacesBeforeUrl, ch) != Dead
    ensures var s := ParseUrlChar(if m.f.verb == CONNECT then ReqServerStart else ReqSpacesBeforeUrl, ch);
            Run(cfg, m, [ch]) == Running(Machine(m.f.(nread := m.f.nread + 1, state := s), false,
                                                 Absorb(m.log, Data(Url, [ch]))))
  {
    hide Dispatch, Run, ParseUrlChar, Absorb;
    TargetByte(cfg, m.f.(nread := m.f.nread + 1), ch);
    OneStay(cfg, m, ch, Dispatch(cfg, m.f.(nread := m.f.nread + 1), false, ch).f, MarkTake(Url));
  }

  lemma NextTargetByte(cfg: Config, m: Machine, ch: byte)
    requires InUrl(m.f.state) && !m.skip && m.f.nread < HTTP_MAX_HEADER_SIZE
    requires ch != ' ' && ch != CR && ch != LF && ParseUrlChar(m.f.state, ch) != Dead
    ensures Run(cfg, m, [ch])
         == Running(Machine(m.f.(nread := m.f.nread + 1, state := ParseUrlChar(m.f.state, ch)), false,
                            Absorb(m.log, Data(Url, [ch]))))
  {
    hide Dispatch, Run, ParseUrlChar, Absorb, InUrl;
    UrlCounts(m.f);
    TargetByte(cfg, m.f.(nread := m.f.nread + 1), ch);
    OneStay(cfg, m, ch, Dispatch(cfg, m.f.(nread := m.f.nread + 1), false, ch).f, Take(Url));
  }

  lemma UrlCounts(f: Fields)
    requires InUrl(f.state)
    ensures Counted(f) == f.(nread := f.nread + 1) && !Skips(f)
  {
  }

  lemma TargetStep(target: seq<byte>, n: nat, verb: Method)
    requires 0 < n <= |target| && TargetState(target, n, verb) != Dead
    ensures TargetState(target, n - 1, verb) != Dead
    ensures TargetState(target, n, verb) == ParseUrlChar(TargetState(target, n - 1, verb), target[n - 1])
  {
    hide ParseUrlChar;
    HttpUrl.DeadStays(HttpUrl.ScanUrl(target, n - 1, verb == CONNECT), n - 1, target[n - 1]);
  }

  /** A target may end unless its scheme or authority is still to come. */
  predicate MayEnd(s: State) {
    InUrl(s) && !s.ReqSchema? && !s.ReqSchemaSlash? && !s.ReqSchemaSlashSlash? && !s.ReqServerStart?
  }

  lemma EndsAlive(s: State)
    requires MayEnd(s)
    ensures s != Dead
  {
  }

  lemma TargetEnd(cfg: Config, f: Fields)
    requires MayEnd(f.state)
    ensures Dispatch(cfg, f, false, ' ') == Stay(f.(state := ReqHttpStart), Flush(Url))
    ensures Dispatch(cfg, f, false, CR)
         == Stay(f.(httpMajor := 0, httpMinor := 9, state := ReqLineAlmostDone), Flush(Url))
    ensures Dispatch(cfg, f, false, LF)
         == Stay(f.(httpMajor := 0, httpMinor := 9, state := HeaderFieldStart), Flush(Url))
  {
  }

  lemma RequestSteps(cfg: Config, f: Fields)
    ensures f.state.ReqHttpStart? ==> Dispatch(cfg, f, false, 'H') == Stay(f.(state := ReqHttpH), Quiet)
    ensures f.state.ReqHttpH? ==> Dispatch(cfg, f, false, 'T') == Stay(f.(state := ReqHttpHT), Quiet)
    ensures f.state.ReqHttpHT? ==> Dispatch(cfg, f, false, 'T') == Stay(f.(state := ReqHttpHTT), Quiet)
    ensures f.state.ReqHttpHTT? ==> Dispatch(cfg, f, false, 'P') == Stay(f.(state := ReqHttpHTTP), Quiet)
    ensures f.state.ReqHttpHTTP? ==> Dispatch(cfg, f, false, '/') == Stay(f.(state := ReqHttpMajor), Quiet)
    ensures f.state.ReqHttpEnd? ==> Dispatch(cfg, f, false, CR) == Stay(f.(state := ReqLineAlmostDone), Quiet)
    ensures f.state.ReqHttpEnd? || f.state.ReqLineAlmostDone? ==>
              Dispatch(cfg, f, false, LF) == Stay(f.(state := HeaderFieldStart), Quiet)
  {
  }

  lemma RequestWord(cfg: Config, f: Fields)
    requires f.state.ReqHttpStart?
    ensures Spells(cfg, f, ['H', 'T', 'T', 'P', '/'],
                   [ReqHttpStart, ReqHttpH, ReqHttpHT, ReqHttpHTT, ReqHttpHTTP, ReqHttpMajor])
  {
    hide Dispatch;
    RequestSteps(cfg, f.(nread := f.nread + 1));
    RequestSteps(cfg, f.(nread := f.nread + 2, state := ReqHttpH));
    RequestSteps(cfg, f.(nread := f.nread + 3, state := ReqHttpHT));
    RequestSteps(cfg, f.(nread := f.nread + 4, state := ReqHttpHTT));
    RequestSteps(cfg, f.(nread := f.nread + 5, state := ReqHttpHTTP));
  }

  lemma RequestEnd(cfg: Config, f: Fields, end: Ending)
    requires f.state.ReqHttpEnd?
    ensures Spells(cfg, f, EndText(end),
                   if end.CrLf? then [ReqHttpEnd, ReqLineAlmostDone, HeaderFieldStart] else [ReqHttpEnd, HeaderFieldStart])
  {
    hide Dispatch;
    RequestSteps(cfg, f.(nread := f.nread + 1));
    RequestSteps(cfg, f.(nread := f.nread + 2, state := ReqLineAlmostDone));
  }

  /** A request line may end behind its target: then the version counts as 0.9. */
  datatype Protocol = Simple | Versioned(spaces: seq<byte>, version: Version)

  datatype RequestLine =
    RequestLine(verb: Method, name: seq<byte>, spaces: seq<byte>, target: seq<byte>, protocol: Protocol, end: Ending)

  predicate ValidRequestLine(l: RequestLine) {
    && l.name == MethodString(l.verb) && AllSpaces(l.spaces) && l.target != []
    && MayEnd(TargetState(l.target, |l.target|, l.verb))
    && (l.protocol.Versioned? ==> ValidVersion(l.protocol.version) && AllSpaces(l.protocol.spaces))
  }

  function ProtocolText(p: Protocol): seq<byte> {
    if p.Simple? then [] else [' '] + (p.spaces + VersionText(p.version))
  }

  function RequestText(l: RequestLine): seq<byte> {
    l.name + ([' '] + (l.spaces + (l.target + (ProtocolText(l.protocol) + EndText(l.end)))))
  }

  function MajorOf(p: Protocol): nat
    requires p.Versioned? ==> ValidVersion(p.version)
  {
    if p.Simple? then 0 else Digit(p.version.major)
  }

  function MinorOf(p: Protocol): nat
    requires p.Versioned? ==> ValidVersion(p.version)
  {
    if p.Simple? then 9 else Digit(p.version.minor)
  }

  /** A request line of any method, acceptable target and version, or none. */
  lemma RequestLineRead(cfg: Config, m: Machine, l: RequestLine, rest: seq<byte>)
    requires m.f.state.StartReq? && ValidRequestLine(l) && !m.skip
    requires m.f.nread + |RequestText(l)| <= HTTP_MAX_HEADER_SIZE
    ensures var f := m.f.(flags := NO_FLAGS, contentLength := ULLONG_MAX, verb := l.verb, index := |l.name| + 1,
                          httpMajor := MajorOf(l.protocol), httpMinor := MinorOf(l.protocol),
                          nread := m.f.nread + |RequestText(l)|, state := HeaderFieldStart);
            Run(cfg, m, RequestText(l) + rest)
            == Run(cfg, Machine(f, false, m.log + [MessageBegin, Data(Url, l.target)]), rest)
  {
    hide Dispatch, Run, Absorb, TargetState, MethodString, MayEnd, ProtocolText, EndText, MajorOf, MinorOf, AllSpaces;
    var end := ProtocolText(l.protocol) + (EndText(l.end) + rest);
    assert RequestText(l) + rest == l.name + ([' '] + (l.spaces + (l.target + end)));
    MethodRun(cfg, m, l.verb, l.name, l.spaces + (l.target + end));
    var f1 := m.f.(flags := NO_FLAGS, contentLength := ULLONG_MAX, verb := l.verb, index := |l.name| + 1,
                   nread := m.f.nread + |l.name| + 1, state := ReqSpacesBeforeUrl);
    var m1 := Machine(f1, false, m.log + [MessageBegin]);
    SpacesSkipped(cfg, m1, l.spaces, l.target + end);
    var m2 := m1.(f := f1.(nread := f1.nread + |l.spaces|));
    TargetRead(cfg, m2, l.target, end);
    AfterBegin(m.log, l.target);
    var m3 := Machine(m2.f.(nread := m2.f.nread + |l.target|, state := TargetState(l.target, |l.target|, l.verb)), false,
                      m.log + [MessageBegin, Data(Url, l.target)]);
    ProtocolRead(cfg, m3, l.protocol, l.end, rest);
  }

  lemma TargetRead(cfg: Config, m: Machine, target: seq<byte>, rest: seq<byte>)
    requires m.f.state.ReqSpacesBeforeUrl? && target != [] && !m.skip
    requires MayEnd(TargetState(target, |target|, m.f.verb)) && m.f.nread + |target| <= HTTP_MAX_HEADER_SIZE
    ensures Run(cfg, m, target + rest)
         == Run(cfg, Machine(m.f.(nread := m.f.nread + |target|, state := TargetState(target, |target|, m.f.verb)), false,
                             Absorb(m.log, Data(Url, target))), rest)
  {
    hide Dispatch, Run, Absorb, TargetState, MayEnd;
    assert target[..|target|] == target;
    EndsAlive(TargetState(target, |target|, m.f.verb));
    TargetRun(cfg, m, target, |target|);
    RunThen(cfg, m, target, rest);
  }

  /** What follows the target. */
  lemma ProtocolRead(cfg: Config, m: Machine, p: Protocol, end: Ending, rest: seq<byte>)
    requires MayEnd(m.f.state) && LastIs(m.log, Url) && !m.skip
    requires p.Versioned? ==> ValidVersion(p.version) && AllSpaces(p.spaces)
    requires m.f.nread + |ProtocolText(p)| + |EndText(end)| <= HTTP_MAX_HEADER_SIZE
    ensures var f := m.f.(httpMajor := MajorOf(p), httpMinor := MinorOf(p),
                          nread := m.f.nread + |ProtocolText(p)| + |EndText(end)|, state := HeaderFieldStart);
            Run(cfg, m, ProtocolText(p) + (EndText(end) + rest)) == Run(cfg, Machine(f, false, m.log), rest)
  {
    hide Dispatch, Run, Absorb, LastIs, MayEnd, Digit, AllSpaces, EndText, VersionText;
    var tail := EndText(end) + rest;
    if p.Simple? {
      assert ProtocolText(p) + tail == tail;
      SimpleRead(cfg, m, end, rest);
    } else {
      var f := m.f.(nread := m.f.nread + 1, state := ReqHttpStart);
      assert ProtocolText(p) + tail == [' '] + (p.spaces + (VersionText(p.version) + tail));
      TargetSpace(cfg, m, p.spaces + (VersionText(p.version) + tail));
      var n := Machine(f, false, m.log);
      SpacesSkipped(cfg, n, p.spaces, VersionText(p.version) + tail);
      VersionRead(cfg, n.(f := f.(nread := f.nread + |p.spaces|)), p.version, end, rest);
    }
  }

  /** The space behind a target. */
  lemma TargetSpace(cfg: Config, m: Machine, rest: seq<byte>)
    requires MayEnd(m.f.state) && LastIs(m.log, Url) && !m.skip && m.f.nread < HTTP_MAX_HEADER_SIZE
    ensures Run(cfg, m, [' '] + rest)
         == Run(cfg, Machine(m.f.(nread := m.f.nread + 1, state := ReqHttpStart), false, m.log), rest)
  {
    hide Dispatch, Run, Absorb, LastIs, MayEnd;
    EndCounts(m.f);
    AbsorbNothing(m.log, Url);
    TargetEnd(cfg, m.f.(nread := m.f.nread + 1));
    RunStay(cfg, m, [' '] + rest, 0, m.f.(nread := m.f.nread + 1, state := ReqHttpStart), Flush(Url));
    assert ([' '] + rest)[0..] == [' '] + rest && ([' '] + rest)[1..] == rest;
  }

  lemma EndCounts(f: Fields)
    requires MayEnd(f.state)
    ensures Counted(f) == f.(nread := f.nread + 1) && !Skips(f)
  {
  }

  lemma SimpleRead(cfg: Config, m: Machine, end: Ending, rest: seq<byte>)
    requires MayEnd(m.f.state) && LastIs(m.log, Url) && !m.skip
    requires m.f.nread + |EndText(end)| <= HTTP_MAX_HEADER_SIZE
    ensures var f := m.f.(httpMajor := 0, httpMinor := 9, nread := m.f.nread + |EndText(end)|, state := HeaderFieldStart);
            Run(cfg, m, EndText(end) + rest) == Run(cfg, Machine(f, false, m.log), rest)
  {
    hide Dispatch, Run, Absorb, LastIs, MayEnd;
    EndCounts(m.f);
    AbsorbNothing(m.log, Url);
    var f := m.f.(nread := m.f.nread + 1, httpMajor := 0, httpMinor := 9);
    TargetEnd(cfg, m.f.(nread := m.f.nread + 1));
    if end.CrLf? {
      RunStay(cfg, m, CRLF + rest, 0, f.(state := ReqLineAlmostDone), Flush(Url));
      assert (CRLF + rest)[0..] == CRLF + rest && (CRLF + rest)[1..] == [LF] + rest;
      var n := Machine(f.(state := ReqLineAlmostDone), false, m.log);
      RequestSteps(cfg, n.f.(nread := n.f.nread + 1));
      QuietByte(cfg, n, LF, rest, n.f.(nread := n.f.nread + 1, state := HeaderFieldStart));
    } else {
      RunStay(cfg, m, [LF] + rest, 0, f.(state := HeaderFieldStart), Flush(Url));
      assert ([LF] + rest)[0..] == [LF] + rest && ([LF] + rest)[1..] == rest;
    }
  }

  /** The version and the line end of a request line. */
  lemma VersionRead(cfg: Config, m: Machine, v: Version, end: Ending, rest: seq<byte>)
    requires m.f.state.ReqHttpStart? && ValidVersion(v) && !m.skip
    requires m.f.nread + 8 + |EndText(end)| <= HTTP_MAX_HEADER_SIZE
    ensures var f := m.f.(httpMajor := Digit(v.major), httpMinor := Digit(v.minor),
                          nread := m.f.nread + 8 + |EndText(end)|, state := HeaderFieldStart);
            Run(cfg, m, VersionText(v) + (EndText(end) + rest)) == Run(cfg, Machine(f, false, m.log), rest)
  {
    hide Dispatch, Run, Digit, Spells, EndText;
    var tail := EndText(end) + rest;
    var numbers := [v.major] + (['.'] + ([v.minor] + tail));
    assert VersionText(v) + tail == ['H', 'T', 'T', 'P', '/'] + numbers;
    RequestWord(cfg, m.f);
    WordRun(cfg, m, ['H', 'T', 'T', 'P', '/'],
            [ReqHttpStart, ReqHttpH, ReqHttpHT, ReqHttpHTT, ReqHttpHTTP, ReqHttpMajor], numbers);
    var m3 := Machine(m.f.(nread := m.f.nread + 5, state := ReqHttpMajor), false, m.log);
    NumbersRun(cfg, m3, v, tail);
    var m4 := m3.(f := m3.f.(httpMajor := Digit(v.major), httpMinor := Digit(v.minor), nread := m3.f.nread + 3,
                             state := ReqHttpEnd));
    RequestEnd(cfg, m4.f, end);
    EndLength(end);
    WordRun(cfg, m4, EndText(end),
            if end.CrLf? then [ReqHttpEnd, ReqLineAlmostDone, HeaderFieldStart] else [ReqHttpEnd, HeaderFieldStart], rest);
  }

  lemma EndLength(end: Ending)
    ensures |EndText(end)| == if end.CrLf? then 2 else 1
  {
  }
}
