/** Does it matter how a stream is cut into calls? Only when the parser is
    strict and a header value hides a control character where the skip over
    uninteresting values would not look at it. */
module HttpSegments {
  import opened HttpChars
  import opened HttpMachine
  import opened HttpRun
  import opened HttpStretch

  lemma {:induction false} CleanAppend(cfg: Config, m: Machine, a: seq<byte>, b: seq<byte>)
    requires Clean(cfg, m, a + b)
    ensures var r := Run(cfg, m, a); r.Running? ==> Clean(cfg, r.m, b)
    decreases |a|
  {
    if a == [] {
      assert a + b == b;
    } else {
      assert (a + b)[1..] == a[1..] + b;
      SkipOnlyPermits(cfg, m, a[0]);
      assert m == m.(skip := false) || m == m.(skip := true);
      var r := Byte(cfg, m, a[0]);
      if r.Running? {
        CleanAppend(cfg, r.m, a[1..], b);
      }
    }
  }

  lemma {:induction false} ConcatLast(pieces: seq<seq<byte>>, last: seq<byte>)
    ensures Concat(pieces + [last]) == Concat(pieces) + last
  {
    if pieces == [] {
      assert [] + [last] == [last] && [last][1..] == [];
    } else {
      assert (pieces + [last])[1..] == pieces[1..] + [last];
      ConcatLast(pieces[1..], last);
    }
  }

  /** A stream that passes the scan is read the same however it is cut. */
  lemma {:induction false} CleanSegmentation(cfg: Config, m: Machine, pieces: seq<seq<byte>>)
    requires Clean(cfg, m, Concat(pieces))
    ensures Agree(Feed(cfg, m, pieces), Run(cfg, NewCall(m), Concat(pieces)))
    decreases |pieces|
  {
    if pieces == [] {
    } else {
      var first, rest := pieces[0], Concat(pieces[1..]);
      RunAppend(cfg, NewCall(m), first, rest);
      CleanAppend(cfg, NewCall(m), first, rest);
      var r := Run(cfg, NewCall(m), first);
      if r.Running? {
        CleanSegmentation(cfg, r.m, pieces[1..]);
        CleanAgrees(cfg, r.m, NewCall(r.m), rest);
      }
    }
  }

  /** A run that remembers a skip does what one that does not does, unless the
      latter meets a hidden byte. */
  lemma {:induction false} SkippingRunPermits(cfg: Config, m: Machine, n: Machine, data: seq<byte>)
    requires m.f == n.f && m.log == n.log && (m.skip ==> n.skip)
    ensures var r, s := Run(cfg, m, data), Run(cfg, n, data);
            r == Failed(InvalidHeaderToken) || (Agree(r, s) && (r.Running? ==> (r.m.skip ==> s.m.skip)))
    decreases |data|
  {
    if data == [] {
    } else {
      SkipOnlyPermits(cfg, m, data[0]);
      assert m == m.(skip := false) || m == m.(skip := true);
      assert n == m.(skip := false) || n == m.(skip := true);
      var r := Byte(cfg, m, data[0]);
      if r.Running? {
        SkippingRunPermits(cfg, r.m, r.m, data[1..]);
      }
    }
  }

  /** Any cutting of a stream has the result of one call, or fails at a hidden byte. */
  lemma {:induction false} OneCallPermits(cfg: Config, m: Machine, n: Machine, pieces: seq<seq<byte>>)
    requires m.f == n.f && m.log == n.log
    ensures var r := Feed(cfg, m, pieces);
            r == Failed(InvalidHeaderToken) || Agree(r, Run(cfg, n, Concat(pieces)))
    decreases |pieces|
  {
    if pieces == [] {
    } else {
      RunAppend(cfg, n, pieces[0], Concat(pieces[1..]));
      SkippingRunPermits(cfg, NewCall(m), n, pieces[0]);
      var r := Run(cfg, NewCall(m), pieces[0]);
      if r.Running? {
        OneCallPermits(cfg, r.m, Run(cfg, n, pieces[0]).m, pieces[1..]);
      }
    }
  }

  function Singletons(data: seq<byte>): seq<seq<byte>> {
    if data == [] then [] else [[data[0]]] + Singletons(data[1..])
  }

  lemma {:induction false} ConcatSingletons(data: seq<byte>)
    ensures Concat(Singletons(data)) == data
  {
    if data == [] {
    } else {
      ConcatSingletons(data[1..]);
      assert Singletons(data)[1..] == Singletons(data[1..]);
    }
  }

  /** A stream that does not pass the scan fails at its hidden byte when it
      arrives byte by byte. */
  lemma {:induction false} DirtyFailsByteByByte(cfg: Config, m: Machine, data: seq<byte>)
    requires !Clean(cfg, m, data)
    ensures Feed(cfg, m, Singletons(data)) == Failed(InvalidHeaderToken)
    decreases |data|
  {
    SkipOnlyPermits(cfg, m, data[0]);
    assert Singletons(data)[1..] == Singletons(data[1..]);
    assert [data[0]][1..] == [];
    var r := Byte(cfg, NewCall(m), data[0]);
    if r.Running? {
      assert Run(cfg, NewCall(m), [data[0]]) == Running(r.m);
      DirtyFailsByteByByte(cfg, r.m, data[1..]);
    }
  }

  // ---------- Bytes that may not stand in a header ----------

  /** A byte is looked at as the first of a line behind the start line. */
  predicate AtField(s: State, ch: byte) {
    s.HeaderFieldStart? || ((s.HeaderValueLws? || s.HeaderValueDiscardLws?) && ch != ' ' && ch != '\t')
  }

  /** A byte that no name or value may hold, where the parser looks for one. */
  predicate BadByte(cfg: Config, m: Machine, ch: byte) {
    && m.f.nread < HTTP_MAX_HEADER_SIZE
    && (|| (AtField(m.f.state, ch) && Token(ch) == '\0' && ch != CR && ch != LF)
        || (m.f.state.HeaderField? && Token(ch) == '\0' && ch != ':')
        || (m.f.state.HeaderValue? && !cfg.lenient && !IsHeaderChar(ch) && !(m.skip && Skips(m.f))))
  }

  /** The first byte that stops the parser is such a byte. */
  predicate MeetsBadByte(cfg: Config, m: Machine, data: seq<byte>)
    decreases |data|
  {
    data != [] && (BadByte(cfg, m, data[0]) ||
                   var r := Byte(cfg, m, data[0]); r.Running? && MeetsBadByte(cfg, r.m, data[1..]))
  }

  predicate NamesNoBytes(s: State) {
    !s.HeaderFieldStart? && !s.HeaderField? && !s.HeaderValue? && !s.HeaderValueLws? && !s.HeaderValueDiscardLws?
  }

  lemma StartLineErrors(f: Fields, ch: byte)
    requires InStartLine(f.state)
    ensures var a := DispatchStartLine(f, ch);
            && (a.Err? ==> a.errno != InvalidHeaderToken) && (a.Again? ==> NamesNoBytes(a.f.state))
  {
    hide MethodString, Reguess, MethodOfLetter;
  }

  lemma OtherErrors(cfg: Config, f: Fields, ch: byte)
    requires NamesNoBytes(f.state)
    ensures var a := Dispatch(cfg, f, false, ch);
            && (a.Err? ==> a.errno != InvalidHeaderToken) && (a.Again? ==> NamesNoBytes(a.f.state))
  {
    hide DispatchStartLine, ParseUrlChar, NewMessage, NeedsEof, HasBody, Unhex;
    if InStartLine(f.state) {
      StartLineErrors(f, ch);
    }
  }

  /** The pass over a byte in a state that looks for names and values. */
  lemma NamePass(cfg: Config, f: Fields, unchecked: bool, ch: byte)
    requires !NamesNoBytes(f.state)
    ensures var a := Dispatch(cfg, f, unchecked, ch);
            && (f.state.HeaderFieldStart? ==>
                  (a == Err(InvalidHeaderToken) <==> Token(ch) == '\0' && ch != CR && ch != LF))
            && (f.state.HeaderField? ==> (a == Err(InvalidHeaderToken) <==> Token(ch) == '\0' && ch != ':'))
            && (f.state.HeaderValue? ==>
                  (a == Err(InvalidHeaderToken) <==> !unchecked && !cfg.lenient && !IsHeaderChar(ch)))
            && (f.state.HeaderValueLws? || f.state.HeaderValueDiscardLws? ==> !a.Err? && (AtField(f.state, ch) ==> a.Again?))
            && (a.Again? ==> if AtField(f.state, ch) && !f.state.HeaderFieldStart? then a.f.state.HeaderFieldStart?
                             else NamesNoBytes(a.f.state) || a.f.state.HeaderValueStart?)
  {
    hide NextValueState, OtherValueState, NextNameState, WithFlag;
  }

  lemma PassOnce(cfg: Config, m: Machine, ch: byte)
    ensures var a, r := Dispatch(cfg, m.f, m.skip && Skips(m.f), ch), Passes(cfg, m, ch);
            && (a.Err? ==> r == Failed(a.errno)) && (a.Stay? || a.Leave? ==> !r.Failed?)
            && (a.Again? ==> r == Passes(cfg, Machine(a.f, false, LogEffect(m.log, a.effect, ch)), ch))
  {
    hide Dispatch, LogEffect;
  }

  lemma {:induction false} BadPass(cfg: Config, m: Machine, ch: byte)
    ensures Passes(cfg, m, ch) == Failed(InvalidHeaderToken) <==>
              || (AtField(m.f.state, ch) && Token(ch) == '\0' && ch != CR && ch != LF)
              || (m.f.state.HeaderField? && Token(ch) == '\0' && ch != ':')
              || (m.f.state.HeaderValue? && !cfg.lenient && !IsHeaderChar(ch) && !(m.skip && Skips(m.f)))
    decreases Rank(m.f.state)
  {
    hide Dispatch, LogEffect, Passes, Token, IsHeaderChar;
    PassOnce(cfg, m, ch);
    var a := Dispatch(cfg, m.f, m.skip && Skips(m.f), ch);
    if NamesNoBytes(m.f.state) {
      OtherErrors(cfg, m.f, ch);
    } else {
      NamePass(cfg, m.f, m.skip && Skips(m.f), ch);
    }
    if a.Again? {
      BadPass(cfg, Machine(a.f, false, LogEffect(m.log, a.effect, ch)), ch);
    }
  }

  lemma BadByteExactly(cfg: Config, m: Machine, ch: byte)
    ensures Byte(cfg, m, ch) == Failed(InvalidHeaderToken) <==> BadByte(cfg, m, ch)
  {
    hide Passes, Token, IsHeaderChar;
    BadPass(cfg, m.(f := Counted(m.f)), ch);
  }

  lemma {:induction false} MeetsExactly(cfg: Config, m: Machine, data: seq<byte>)
    ensures Run(cfg, m, data) == Failed(InvalidHeaderToken) <==> MeetsBadByte(cfg, m, data)
    decreases |data|
  {
    hide Byte, BadByte;
    if data == [] {
    } else {
      BadByteExactly(cfg, m, data[0]);
      var r := Byte(cfg, m, data[0]);
      if r.Running? {
        MeetsExactly(cfg, r.m, data[1..]);
      }
    }
  }

  /** The reference run does the same however a stream is cut, errors included, exactly
      for the streams that pass the scan and for those where one call looks at a bad
      header byte. */
  lemma SegmentationExact(cfg: Config, m: Machine, data: seq<byte>)
    ensures (forall pieces | Concat(pieces) == data :: Agree(Feed(cfg, m, pieces), Run(cfg, NewCall(m), data)))
            <==> (Clean(cfg, m, data) || MeetsBadByte(cfg, NewCall(m), data))
  {
    hide Run, Clean, Feed, MeetsBadByte;
    MeetsExactly(cfg, NewCall(m), data);
    if Clean(cfg, m, data) || MeetsBadByte(cfg, NewCall(m), data) {
      forall pieces | Concat(pieces) == data
        ensures Agree(Feed(cfg, m, pieces), Run(cfg, NewCall(m), data))
      {
        if Clean(cfg, m, data) {
          CleanSegmentation(cfg, m, pieces);
        } else {
          OneCallPermits(cfg, m, NewCall(m), pieces);
        }
      }
    } else {
      DirtyFailsByteByByte(cfg, m, data);
      ConcatSingletons(data);
      assert !Agree(Feed(cfg, m, Singletons(data)), Run(cfg, NewCall(m), data));
    }
  }

  lemma FirstBytes(cfg: Config, f: Fields)
    ensures f.state.HeaderFieldStart? ==>
              Dispatch(cfg, f, false, 'x') ==
              Stay(f.(index := 0, state := HeaderField, headerState := General), MarkTake(Field))
    ensures f.state.HeaderField? ==> Dispatch(cfg, f, false, ':') == Stay(f.(state := HeaderValueDiscardWs), Flush(Field))
  {
  }

  lemma ValueBytes(cfg: Config, f: Fields)
    requires f.headerState.General?
    ensures f.state.HeaderValueDiscardWs? ==>
              Dispatch(cfg, f, false, 'v') == Stay(f.(index := 0, state := HeaderValue), MarkTake(Value))
    ensures f.state.HeaderValue? ==> Dispatch(cfg, f, false, 'a') == Stay(f, Take(Value))
    ensures f.state.HeaderValue? ==> Dispatch(cfg, f, true, 1 as char) == Stay(f, Take(Value))
  {
  }

  lemma NameThenColon(cfg: Config, m: Machine) returns (n: Machine)
    requires m.f.state.HeaderFieldStart? && m.f.nread < 100
    ensures Run(cfg, m, "x" + ":") == Running(n)
    ensures n.f.state.HeaderValueDiscardWs? && n.f.headerState.General? && n.f.nread < 102
  {
    hide Byte, Run, Dispatch;
    var f := Counted(m.f);
    FirstBytes(cfg, f);
    OneStay(cfg, m, 'x', f.(index := 0, state := HeaderField, headerState := General), MarkTake(Field));
    n := Run(cfg, m, "x").m;
    FirstBytes(cfg, Counted(n.f));
    OneStay(cfg, n, ':', Counted(n.f).(state := HeaderValueDiscardWs), Flush(Field));
    RunThen(cfg, m, "x", ":");
    n := Run(cfg, n, ":").m;
  }

  lemma TwoValueBytes(cfg: Config, m: Machine) returns (n: Machine)
    requires m.f.state.HeaderValueDiscardWs? && m.f.headerState.General? && m.f.nread < 102
    ensures Run(cfg, m, "v" + "a") == Running(n)
    ensures n.f.state.HeaderValue? && n.f.headerState.General? && n.f.nread < 104 && n.skip
  {
    hide Byte, Run, Dispatch;
    ValueBytes(cfg, Counted(m.f));
    OneStay(cfg, m, 'v', Counted(m.f).(index := 0, state := HeaderValue), MarkTake(Value));
    n := Run(cfg, m, "v").m;
    ValueBytes(cfg, Counted(n.f));
    OneStay(cfg, n, 'a', Counted(n.f), Take(Value));
    RunThen(cfg, m, "v", "a");
    n := Run(cfg, n, "a").m;
  }

  lemma OneByteFails(cfg: Config, m: Machine, ch: byte)
    requires Byte(cfg, m, ch).Failed?
    ensures Run(cfg, m, [ch]).Failed?
  {
  }

  /** Such a stream exists: the value "va" followed by the byte 1, in a header
      named "x", is accepted in one call and rejected when cut after the 'a'. */
  lemma HiddenControlByte(m: Machine)
    requires m.f.state.HeaderFieldStart? && m.f.nread < 100
    ensures var cfg := Config(false, 0);
            && Run(cfg, NewCall(m), "x:va" + [1 as char]).Running?
            && Feed(cfg, m, ["x:va", [1 as char]]).Failed?
  {
    hide Byte, Run, Dispatch;
    var cfg := Config(false, 0);
    var bad: byte := 1 as char;
    var n := NameThenColon(cfg, NewCall(m));
    n := TwoValueBytes(cfg, n);
    RunThen(cfg, NewCall(m), "x" + ":", "v" + "a");
    var clean: seq<byte> := "x" + ":" + ("v" + "a");
    assert clean == "x:va";
    RunThen(cfg, NewCall(m), clean, [bad]);
    ValueBytes(cfg, Counted(n.f));
    OneStay(cfg, n, bad, Counted(n.f), Take(Value));
    SkipOnlyPermits(cfg, n, bad);
    OneByteFails(cfg, NewCall(n), bad);
    var pieces: seq<seq<byte>> := ["x:va", [bad]];
    assert pieces[1..] == [[bad]];
  }
}
