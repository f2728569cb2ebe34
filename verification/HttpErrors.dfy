/** The errors that calls report. A call counts the bytes of a header value when it
    has scanned them, so where the limit is passed inside a value, an error of a
    later byte of that value can come first. */
module HttpErrors {
  import opened HttpChars
  import opened HttpMachine
  import opened HttpRun
  import opened HttpStretch
  import opened HttpSegments
  import opened HttpNames
  import opened HttpLengths

  /** The scan of a value that has passed the limit: it is told of the limit at the
      line end, at the end of the data or when it skips the rest of the value, unless
      it rejects a byte before. */
  function ScanError(cfg: Config, f: Fields, skip: bool, rest: seq<byte>): Errno
    decreases |rest|
  {
    if rest == [] || rest[0] == CR || rest[0] == LF || (skip && Skips(f)) then HeaderOverflow
    else if !cfg.lenient && !IsHeaderChar(rest[0]) then InvalidHeaderToken
    else
      var a := ValueByte(f, rest[0]);
      if a.Err? then a.errno else ScanError(cfg, a.f, Skips(f), rest[1..])
  }

  /** The fields without the count, which a scan does not look at. */
  function Uncounted(f: Fields): Fields {
    f.(nread := 0)
  }

  predicate Late(m: Machine, scan: bool) {
    scan && m.f.state.HeaderValue? && m.f.nread >= HTTP_MAX_HEADER_SIZE
  }

  /** One call; `scan`: it has read the byte before as a byte of the same value. */
  function Call(cfg: Config, m: Machine, data: seq<byte>, scan: bool): Outcome
    decreases |data|
  {
    if data == [] then Running(m)
    else if Late(m, scan) then Failed(ScanError(cfg, Uncounted(m.f), m.skip, data))
    else
      match Byte(cfg, m, data[0])
      case Running(m') => Call(cfg, m', data[1..], m.f.state.HeaderValue?)
      case Stopped(m', _) => Stopped(m', |data| - 1)
      case Failed(e) => Failed(e)
  }

  /** One call per piece. */
  function CallFeed(cfg: Config, m: Machine, pieces: seq<seq<byte>>): Outcome
    decreases |pieces|
  {
    if pieces == [] then Running(m)
    else
      match Call(cfg, NewCall(m), pieces[0], false)
      case Running(m') => CallFeed(cfg, m', pieces[1..])
      case Stopped(m', left) => Stopped(m', left + |Concat(pieces[1..])|)
      case Failed(e) => Failed(e)
  }

  // ---------- Steps of a call ----------

  function CallResume(cfg: Config, r: Outcome, rest: seq<byte>, scan: bool): Outcome {
    match r
    case Running(m) => Call(cfg, m, rest, scan)
    case Stopped(m, _) => Stopped(m, |rest|)
    case Failed(e) => Failed(e)
  }

  lemma CallCons(cfg: Config, m: Machine, data: seq<byte>, q: nat, scan: bool)
    requires q < |data| && !Late(m, scan)
    ensures Call(cfg, m, data[q..], scan) ==
            CallResume(cfg, Byte(cfg, m, data[q]), data[q + 1..], m.f.state.HeaderValue?)
  {
    hide Byte;
    assert data[q..][1..] == data[q + 1..];
  }

  lemma CallStay(cfg: Config, m: Machine, data: seq<byte>, q: nat, scan: bool, f: Fields, e: Effect)
    requires q < |data| && Counted(m.f).nread <= HTTP_MAX_HEADER_SIZE
    requires Dispatch(cfg, Counted(m.f), m.skip && Skips(m.f), data[q]) == Stay(f, e)
    ensures Call(cfg, m, data[q..], scan) ==
            Call(cfg, Machine(f, Skips(m.f) && f.state.HeaderValue?, LogEffect(m.log, e, data[q])), data[q + 1..],
                 m.f.state.HeaderValue?)
  {
    hide Dispatch, LogEffect, Call;
    CallCons(cfg, m, data, q, scan);
  }

  lemma CallAgain(cfg: Config, m: Machine, data: seq<byte>, q: nat, scan: bool, f: Fields, e: Effect)
    requires q < |data| && Counted(m.f).nread <= HTTP_MAX_HEADER_SIZE
    requires Dispatch(cfg, Counted(m.f), m.skip && Skips(m.f), data[q]) == Again(f, e)
    ensures Call(cfg, m, data[q..], scan) ==
            CallResume(cfg, Passes(cfg, Machine(f, false, LogEffect(m.log, e, data[q])), data[q]), data[q + 1..],
                       m.f.state.HeaderValue?)
  {
    hide Dispatch, LogEffect, Call;
    CallCons(cfg, m, data, q, scan);
  }

  lemma CallErr(cfg: Config, m: Machine, data: seq<byte>, q: nat, scan: bool, e: Errno)
    requires q < |data| && Counted(m.f).nread <= HTTP_MAX_HEADER_SIZE
    requires Dispatch(cfg, Counted(m.f), m.skip && Skips(m.f), data[q]) == Err(e)
    ensures Call(cfg, m, data[q..], scan) == Failed(e)
  {
    hide Dispatch, LogEffect, Call;
    CallCons(cfg, m, data, q, scan);
  }

  lemma CallOverflow(cfg: Config, m: Machine, data: seq<byte>, q: nat, scan: bool)
    requires q < |data| && ParsingHeader(m.f.state) && m.f.nread + 1 > HTTP_MAX_HEADER_SIZE && !Late(m, scan)
    ensures Call(cfg, m, data[q..], scan) == Failed(HeaderOverflow)
  {
    hide Passes, Call;
    CallCons(cfg, m, data, q, scan);
  }

  lemma LateCall(cfg: Config, m: Machine, rest: seq<byte>)
    requires Late(m, true) && rest != []
    ensures Call(cfg, m, rest, true) == Failed(ScanError(cfg, Uncounted(m.f), m.skip, rest))
  {
    hide Byte, ScanError;
  }

  /** The scan goes on only inside a value. */
  lemma ScanMatters(cfg: Config, m: Machine, rest: seq<byte>)
    requires !m.f.state.HeaderValue? || rest == []
    ensures Call(cfg, m, rest, true) == Call(cfg, m, rest, false)
  {
    hide Byte;
  }

  lemma SkipByte(cfg: Config, f: Fields, ch: byte)
    requires Skips(f) && ch != CR && ch != LF
    ensures Dispatch(cfg, f, true, ch) == Stay(f, Take(Value))
  {
  }

  lemma SkipOver(cfg: Config, m: Machine, rest: seq<byte>)
    requires Late(m, true) && m.skip && Skips(m.f) && rest != []
    ensures Call(cfg, m, rest, true) == Failed(HeaderOverflow)
  {
    hide Byte, ValueByte;
  }

  lemma SkipOne(cfg: Config, m: Machine, data: seq<byte>, q: nat)
    requires q < |data| && Skips(m.f) && m.skip && data[q] != CR && data[q] != LF && m.f.nread < HTTP_MAX_HEADER_SIZE
    ensures Counted(m.f) == m.f.(nread := m.f.nread + 1)
    ensures Call(cfg, m, data[q..], true) ==
            Call(cfg, Machine(Counted(m.f), true, Absorb(m.log, Data(Value, [data[q]]))), data[q + 1..], true)
  {
    hide Call, Absorb, Dispatch;
    SkipByte(cfg, Counted(m.f), data[q]);
    CallStay(cfg, m, data, q, true, Counted(m.f), Take(Value));
  }

  /** A stretch without line ends in a header value that is already skipped. */
  lemma {:induction false} CallSkips(cfg: Config, m: Machine, data: seq<byte>, q: nat, r: nat)
    requires q <= r <= |data| && Skips(m.f) && m.skip && LastIs(m.log, Value)
    requires NoLineEnd(data[q..r]) && m.f.nread <= HTTP_MAX_HEADER_SIZE
    ensures Call(cfg, m, data[q..], true) ==
            if m.f.nread + (r - q) > HTTP_MAX_HEADER_SIZE then Failed(HeaderOverflow)
            else Call(cfg, Machine(m.f.(nread := m.f.nread + (r - q)), true, Absorb(m.log, Data(Value, data[q..r]))),
                      data[r..], true)
    decreases r - q
  {
    hide Call, Absorb, LastIs, Dispatch, Counted;
    if q == r {
      assert data[q..r] == [];
      AbsorbNothing(m.log, Value);
      assert Machine(m.f.(nread := m.f.nread + (r - q)), true, m.log) == m;
    } else if m.f.nread == HTTP_MAX_HEADER_SIZE {
      SkipOver(cfg, m, data[q..]);
    } else {
      assert data[q] == data[q..r][0];
      assert data[q] != CR && data[q] != LF;
      var f := Counted(m.f);
      SkipOne(cfg, m, data, q);
      var log := Absorb(m.log, Data(Value, [data[q]]));
      assert LastIs(log, Value) by { AbsorbedLast(m.log, [data[q]]); }
      assert data[q + 1..r] == data[q..r][1..];
      CallSkips(cfg, Machine(f, true, log), data, q + 1, r);
      AbsorbSplit(m.log, Value, [data[q]], data[q + 1..r]);
      assert [data[q]] + data[q + 1..r] == data[q..r];
    }
  }

  /** A stretch of body bytes that does not use up the length. */
  lemma CallBody(cfg: Config, m: Machine, data: seq<byte>, q: nat, r: nat)
    requires q < r <= |data|
    requires m.f.state.BodyIdentityEof? || ((m.f.state.BodyIdentity? || m.f.state.ChunkData?) && r - q < m.f.contentLength)
    ensures var f := if m.f.state.BodyIdentityEof? then m.f else m.f.(contentLength := m.f.contentLength - (r - q));
            Call(cfg, m, data[q..], false) ==
            Call(cfg, Machine(f, false, Absorb(m.log, Data(Body, data[q..r]))), data[r..], false)
  {
    hide Call, Run, ScanAfter, Absorb;
    var f := if m.f.state.BodyIdentityEof? then m.f else m.f.(contentLength := m.f.contentLength - (r - q));
    var n := Machine(f, false, Absorb(m.log, Data(Body, data[q..r])));
    BodyStretch(cfg, m, data[..r], q, r);
    RunNothing(cfg, n);
    assert data[..r][q..] == data[q..r] && data[..r][q..r] == data[q..r] && data[..r][r..] == [];
    CallThen(cfg, m, data[q..r], data[r..], false);
    assert data[q..] == data[q..r] + data[r..];
    ScanMatters(cfg, n, data[r..]);
  }

  // ---------- A call and the reference run ----------

  predicate ScanErrno(e: Errno) {
    e == HeaderOverflow || e == InvalidHeaderToken || e == InvalidContentLength
  }

  lemma ValueErrno(f: Fields, ch: byte)
    ensures ValueByte(f, ch).Err? ==> ValueByte(f, ch).errno == InvalidContentLength
  {
    hide NextValueState, OtherValueState;
  }

  lemma {:induction false} ScanErrors(cfg: Config, f: Fields, skip: bool, rest: seq<byte>)
    ensures ScanErrno(ScanError(cfg, f, skip, rest))
    decreases |rest|
  {
    hide ValueByte, IsHeaderChar, Skips;
    if rest == [] {
    } else {
      ValueErrno(f, rest[0]);
      var a := ValueByte(f, rest[0]);
      if !a.Err? {
        ScanErrors(cfg, a.f, Skips(f), rest[1..]);
      }
    }
  }

  lemma LateOverflows(cfg: Config, m: Machine, ch: byte)
    requires Late(m, true)
    ensures Byte(cfg, m, ch) == Failed(HeaderOverflow)
  {
    hide Passes;
  }

  /** A call does what the reference run does, except that another error of the value
      may come before the overflow. */
  lemma {:induction false} CallIsRun(cfg: Config, m: Machine, data: seq<byte>, scan: bool)
    ensures var r, c := Run(cfg, m, data), Call(cfg, m, data, scan);
            && (r != Failed(HeaderOverflow) ==> c == r)
            && (r == Failed(HeaderOverflow) ==> c.Failed? && ScanErrno(c.errno))
    decreases |data|
  {
    hide Byte, ScanError, ScanErrno, Uncounted;
    if data == [] {
    } else if Late(m, scan) {
      LateOverflows(cfg, m, data[0]);
      ScanErrors(cfg, Uncounted(m.f), m.skip, data);
    } else {
      OverflowErrno();
      var r := Byte(cfg, m, data[0]);
      if r.Running? {
        CallIsRun(cfg, r.m, data[1..], m.f.state.HeaderValue?);
      }
    }
  }

  lemma OverflowErrno()
    ensures ScanErrno(HeaderOverflow)
  {
  }

  lemma {:induction false} CallThen(cfg: Config, m: Machine, a: seq<byte>, b: seq<byte>, scan: bool)
    requires Run(cfg, m, a).Running?
    ensures Call(cfg, m, a + b, scan) == Call(cfg, Run(cfg, m, a).m, b, ScanAfter(cfg, m, a, scan))
    decreases |a|
  {
    hide Byte, ScanError;
    if a == [] {
      assert a + b == b;
    } else {
      assert (a + b)[1..] == a[1..] + b;
      if Late(m, scan) {
        LateOverflows(cfg, m, a[0]);
      } else {
        CallThen(cfg, Byte(cfg, m, a[0]).m, a[1..], b, m.f.state.HeaderValue?);
      }
    }
  }

  /** Whether the last byte of a stretch is one of a value that is being scanned. */
  function ScanAfter(cfg: Config, m: Machine, a: seq<byte>, scan: bool): bool
    decreases |a|
  {
    if a == [] then scan
    else
      var r := Byte(cfg, m, a[0]);
      r.Running? && ScanAfter(cfg, r.m, a[1..], m.f.state.HeaderValue?)
  }

  /** The limit is passed at byte k, while a value is being scanned, and a later byte
      of the value, or this one, is rejected. */
  predicate LateAt(cfg: Config, m: Machine, data: seq<byte>, k: nat) {
    && k < |data|
    && var r := Run(cfg, m, data[..k]);
       && r.Running? && Late(r.m, ScanAfter(cfg, m, data[..k], false))
       && ScanError(cfg, Uncounted(r.m.f), r.m.skip, data[k..]) != HeaderOverflow
  }

  lemma {:induction false} LateFound(cfg: Config, m: Machine, data: seq<byte>, scan: bool) returns (k: nat)
    requires Call(cfg, m, data, scan) != Run(cfg, m, data)
    ensures k < |data| && Run(cfg, m, data[..k]).Running?
    ensures var n := Run(cfg, m, data[..k]).m;
            && Late(n, ScanAfter(cfg, m, data[..k], scan))
            && Call(cfg, m, data, scan) == Failed(ScanError(cfg, Uncounted(n.f), n.skip, data[k..]))
    decreases |data|
  {
    hide Byte, ScanError, Uncounted, Late;
    if Late(m, scan) {
      k := 0;
      assert data[..0] == [] && data[0..] == data;
    } else {
      var n := Byte(cfg, m, data[0]).m;
      k := LateFound(cfg, n, data[1..], m.f.state.HeaderValue?);
      k := k + 1;
      assert data[..k][1..] == data[1..][..k - 1] && data[1..][k - 1..] == data[k..];
    }
  }

  /** A call reports another error than the reference run if and only if the limit is
      passed inside a value that goes on to be rejected. */
  lemma LateExactly(cfg: Config, m: Machine, data: seq<byte>)
    ensures Call(cfg, m, data, false) != Run(cfg, m, data) <==> exists k: nat :: LateAt(cfg, m, data, k)
  {
    hide ScanError, Uncounted, Byte;
    if Call(cfg, m, data, false) != Run(cfg, m, data) {
      var k := LateFound(cfg, m, data, false);
      CallIsRun(cfg, m, data, false);
      assert LateAt(cfg, m, data, k);
    }
    if k: nat :| LateAt(cfg, m, data, k) {
      assert data == data[..k] + data[k..];
      RunThen(cfg, m, data[..k], data[k..]);
      CallThen(cfg, m, data[..k], data[k..], false);
      LateOverflows(cfg, Run(cfg, m, data[..k]).m, data[k]);
    }
  }

  // ---------- How a stream is cut ----------

  lemma {:induction false} MoreScanned(cfg: Config, f: Fields, skip: bool, rest: seq<byte>, more: seq<byte>)
    requires ScanError(cfg, f, skip, rest) != HeaderOverflow
    ensures ScanError(cfg, f, skip, rest + more) == ScanError(cfg, f, skip, rest)
    decreases |rest|
  {
    hide ValueByte, IsHeaderChar;
    var a := ValueByte(f, rest[0]);
    assert (rest + more)[1..] == rest[1..] + more;
    if !a.Err? && (cfg.lenient || IsHeaderChar(rest[0])) {
      MoreScanned(cfg, a.f, Skips(f), rest[1..], more);
    }
  }

  /** A late error is reported whatever follows. */
  lemma {:induction false} LateStays(cfg: Config, m: Machine, data: seq<byte>, more: seq<byte>, scan: bool)
    requires Call(cfg, m, data, scan) != Run(cfg, m, data)
    ensures Call(cfg, m, data + more, scan) == Call(cfg, m, data, scan)
    decreases |data|
  {
    CallIsRun(cfg, m, data, scan);
    hide Byte, ScanError, Uncounted;
    assert (data + more)[1..] == data[1..] + more;
    if Late(m, scan) {
      LateOverflows(cfg, m, data[0]);
      MoreScanned(cfg, Uncounted(m.f), m.skip, data, more);
    } else {
      LateStays(cfg, Byte(cfg, m, data[0]).m, data[1..], more, m.f.state.HeaderValue?);
    }
  }

  /** On a clean stream, a call that begins later reports a late error only if the
      one that goes on does. */
  lemma LateBefore(cfg: Config, m: Machine, data: seq<byte>, more: seq<byte>, scan: bool)
    requires Clean(cfg, m, data) && Call(cfg, NewCall(m), data, false) != Run(cfg, NewCall(m), data)
    ensures Call(cfg, m, data + more, scan) == Call(cfg, NewCall(m), data, false)
  {
    hide Byte, ScanError, Uncounted;
    SkipOnlyPermits(cfg, m, data[0]);
    assert m == m.(skip := false) || m == m.(skip := true);
    assert (data + more)[1..] == data[1..] + more;
    if Late(m, scan) {
      LateOverflows(cfg, NewCall(m), data[0]);
    } else {
      LateStays(cfg, Byte(cfg, m, data[0]).m, data[1..], more, m.f.state.HeaderValue?);
    }
  }

  /** Calls that the reference run does not see overflow do what it does. */
  lemma {:induction false} CallFeedIsFeed(cfg: Config, m: Machine, pieces: seq<seq<byte>>)
    ensures var r, c := Feed(cfg, m, pieces), CallFeed(cfg, m, pieces);
            && (r != Failed(HeaderOverflow) ==> c == r)
            && (r == Failed(HeaderOverflow) ==> c.Failed?)
    decreases |pieces|
  {
    hide Run, Call, ScanErrno;
    if pieces == [] {
    } else {
      CallIsRun(cfg, NewCall(m), pieces[0], false);
      var r := Run(cfg, NewCall(m), pieces[0]);
      if r.Running? {
        CallFeedIsFeed(cfg, r.m, pieces[1..]);
      }
    }
  }

  /** One call more. */
  lemma {:induction false} CallFeedLast(cfg: Config, m: Machine, pieces: seq<seq<byte>>, last: seq<byte>)
    ensures CallFeed(cfg, m, pieces + [last]) ==
            match CallFeed(cfg, m, pieces)
            case Running(n) => Call(cfg, NewCall(n), last, false)
            case Stopped(n, left) => Stopped(n, left + |last|)
            case Failed(e) => Failed(e)
    decreases |pieces|
  {
    hide Call;
    if pieces == [] {
      assert [] + [last] == [last] && [last][1..] == [];
    } else {
      assert (pieces + [last])[1..] == pieces[1..] + [last];
      ConcatLast(pieces[1..], last);
      match Call(cfg, NewCall(m), pieces[0], false)
      case Running(n) => CallFeedLast(cfg, n, pieces[1..], last);
      case Stopped(_, _) =>
      case Failed(_) =>
    }
  }

  lemma ForgetsSkip(cfg: Config, m: Machine, pieces: seq<seq<byte>>)
    ensures Agree(CallFeed(cfg, m, pieces), CallFeed(cfg, NewCall(m), pieces))
    ensures pieces != [] ==> CallFeed(cfg, m, pieces) == CallFeed(cfg, NewCall(m), pieces)
  {
    hide Call;
  }

  /** If one call on a clean stream reports the overflow, so do any calls. */
  lemma {:induction false} OverflowInPieces(cfg: Config, m: Machine, pieces: seq<seq<byte>>, scan: bool)
    requires Clean(cfg, m, Concat(pieces)) && Call(cfg, m, Concat(pieces), scan) == Failed(HeaderOverflow)
    ensures CallFeed(cfg, m, pieces) == Failed(HeaderOverflow)
    decreases |pieces|
  {
    hide Byte, Run, Clean, Call;
    if pieces == [] {
      CallNothing(cfg, m, scan);
    } else {
      var first, rest := pieces[0], Concat(pieces[1..]);
      CleanPrefix(cfg, m, first, rest);
      CleanAgrees(cfg, m, NewCall(m), first);
      CallIsRun(cfg, NewCall(m), first, false);
      var r := Run(cfg, m, first);
      if r.Running? {
        CleanAppend(cfg, m, first, rest);
        CallThen(cfg, m, first, rest, scan);
        OverflowInPieces(cfg, r.m, pieces[1..], ScanAfter(cfg, m, first, scan));
        ForgetsSkip(cfg, r.m, pieces[1..]);
        ForgetsSkip(cfg, Run(cfg, NewCall(m), first).m, pieces[1..]);
      } else {
        RunAppend(cfg, m, first, rest);
        CallIsRun(cfg, m, first + rest, scan);
        if Call(cfg, NewCall(m), first, false) != Run(cfg, NewCall(m), first) {
          LateBefore(cfg, m, first, rest, scan);
        }
      }
    }
  }

  lemma CallNothing(cfg: Config, m: Machine, scan: bool)
    ensures Call(cfg, m, [], scan) == Running(m)
  {
  }

  lemma {:induction false} CleanPrefix(cfg: Config, m: Machine, a: seq<byte>, b: seq<byte>)
    requires Clean(cfg, m, a + b)
    ensures Clean(cfg, m, a)
    decreases |a|
  {
    hide Byte, Hidden;
    if a == [] {
    } else {
      assert (a + b)[1..] == a[1..] + b;
      var r := Byte(cfg, m.(skip := true), a[0]);
      if r.Running? {
        CleanPrefix(cfg, r.m, a[1..], b);
      }
    }
  }

  /** Calls on the pieces of a clean stream do what the reference run does on the whole,
      except for the error that stands in for its overflow. */
  lemma CleanCalls(cfg: Config, m: Machine, pieces: seq<seq<byte>>)
    requires Clean(cfg, m, Concat(pieces))
    ensures var r, c := Run(cfg, NewCall(m), Concat(pieces)), CallFeed(cfg, m, pieces);
            && (r != Failed(HeaderOverflow) ==> Agree(c, r))
            && (r == Failed(HeaderOverflow) ==> c.Failed?)
            && (Call(cfg, NewCall(m), Concat(pieces), false) == r ==> Agree(c, r))
  {
    hide Run, Clean, Call, Feed, CallFeed;
    CleanSegmentation(cfg, m, pieces);
    CallFeedIsFeed(cfg, m, pieces);
    if Call(cfg, NewCall(m), Concat(pieces), false) == Failed(HeaderOverflow) {
      CleanForgetsSkip(cfg, m, Concat(pieces));
      OverflowInPieces(cfg, NewCall(m), pieces, false);
      ForgetsSkip(cfg, m, pieces);
    }
  }

  lemma CleanForgetsSkip(cfg: Config, m: Machine, data: seq<byte>)
    requires Clean(cfg, m, data)
    ensures Clean(cfg, NewCall(m), data)
  {
    hide Byte;
    assert NewCall(m).(skip := true) == m.(skip := true);
  }

  lemma OneByteCall(cfg: Config, m: Machine, ch: byte)
    ensures Call(cfg, m, [ch], false) == Run(cfg, m, [ch])
  {
    hide Byte;
    var data := [ch];
    assert data[1..] == [];
  }

  lemma {:induction false} SingleCalls(cfg: Config, m: Machine, data: seq<byte>)
    ensures CallFeed(cfg, m, Singletons(data)) == Feed(cfg, m, Singletons(data))
    decreases |data|
  {
    hide Byte;
    if data == [] {
    } else {
      assert Singletons(data)[1..] == Singletons(data[1..]) && [data[0]][1..] == [];
      OneByteCall(cfg, NewCall(m), data[0]);
      var r := Run(cfg, NewCall(m), [data[0]]);
      if r.Running? {
        SingleCalls(cfg, r.m, data[1..]);
      }
    }
  }

  /** Cut at the byte that passes the limit, the stream is reported to overflow. */
  lemma CutAtLimit(cfg: Config, m: Machine, data: seq<byte>, k: nat)
    requires k < |data| && Run(cfg, NewCall(m), data[..k]).Running? && Late(Run(cfg, NewCall(m), data[..k]).m, true)
    ensures CallFeed(cfg, m, [data[..k], data[k..]]) == Failed(HeaderOverflow)
    ensures Concat([data[..k], data[k..]]) == data
  {
    hide Run, Byte, ScanErrno;
    var pieces: seq<seq<byte>> := [data[..k], data[k..]];
    var n := Run(cfg, NewCall(m), data[..k]).m;
    CallIsRun(cfg, NewCall(m), data[..k], false);
    LateOverflows(cfg, NewCall(n), data[k]);
    assert pieces[1..] == [data[k..]] && |pieces[1..][1..]| == 0;
    assert Concat(pieces[1..]) == data[k..] && data == data[..k] + data[k..];
  }

  /** What real calls do with a stream does not depend on how it is cut, the errors they
      report included, if and only if it passes the scan or one call rejects a header
      byte of it, and no value of it is rejected behind the limit. */
  lemma CallsExact(cfg: Config, m: Machine, data: seq<byte>)
    ensures (forall pieces | Concat(pieces) == data ::
               Agree(CallFeed(cfg, m, pieces), Call(cfg, NewCall(m), data, false)))
            <==> (Clean(cfg, m, data) || MeetsBadByte(cfg, NewCall(m), data))
                 && !(exists k: nat :: LateAt(cfg, NewCall(m), data, k))
  {
    hide Run, Clean, Call, CallFeed, Feed, MeetsBadByte, LateAt;
    LateExactly(cfg, NewCall(m), data);
    MeetsExactly(cfg, NewCall(m), data);
    if exists k: nat :: LateAt(cfg, NewCall(m), data, k) {
      LateIsCut(cfg, m, data);
    } else if Clean(cfg, m, data) || MeetsBadByte(cfg, NewCall(m), data) {
      forall pieces | Concat(pieces) == data
        ensures Agree(CallFeed(cfg, m, pieces), Call(cfg, NewCall(m), data, false))
      {
        if Clean(cfg, m, data) {
          CleanCalls(cfg, m, pieces);
        } else {
          OneCallPermits(cfg, m, NewCall(m), pieces);
          CallFeedIsFeed(cfg, m, pieces);
        }
      }
    } else {
      DirtyFailsByteByByte(cfg, m, data);
      ConcatSingletons(data);
      SingleCalls(cfg, m, data);
      assert !Agree(CallFeed(cfg, m, Singletons(data)), Call(cfg, NewCall(m), data, false));
    }
  }

  lemma LateIsCut(cfg: Config, m: Machine, data: seq<byte>)
    requires Call(cfg, NewCall(m), data, false) != Run(cfg, NewCall(m), data)
    ensures exists pieces ::
              Concat(pieces) == data && !Agree(CallFeed(cfg, m, pieces), Call(cfg, NewCall(m), data, false))
  {
    hide Run, Call, CallFeed, Concat;
    var k := LateFound(cfg, NewCall(m), data, false);
    CallIsRun(cfg, NewCall(m), data, false);
    LateOverflowsRun(cfg, NewCall(m), data, k);
    CutAtLimit(cfg, m, data, k);
  }

  lemma LateOverflowsRun(cfg: Config, m: Machine, data: seq<byte>, k: nat)
    requires k < |data| && Run(cfg, m, data[..k]).Running? && Late(Run(cfg, m, data[..k]).m, true)
    ensures Run(cfg, m, data) == Failed(HeaderOverflow)
  {
    hide Byte;
    assert data == data[..k] + data[k..];
    RunThen(cfg, m, data[..k], data[k..]);
    LateOverflows(cfg, Run(cfg, m, data[..k]).m, data[k]);
  }

  // ---------- A late error ----------

  function Spaces(n: nat): (s: seq<byte>)
    ensures |s| == n
  {
    seq(n, _ => ' ')
  }

  predicate InLength(f: Fields) {
    f.state.HeaderValue? && (f.headerState.ContentLengthNum? || f.headerState.ContentLengthWs?)
  }

  lemma SpaceInLength(cfg: Config, f: Fields)
    requires InLength(f)
    ensures Dispatch(cfg, f, false, ' ') == Stay(f.(headerState := ContentLengthWs), Take(Value))
    ensures ValueByte(f, ' ') == Stay(f.(headerState := ContentLengthWs), Take(Value))
    ensures ValueByte(f, 'x') == Err(InvalidContentLength) && IsHeaderChar('x') && IsHeaderChar(' ')
  {
    assert f.headerState.ContentLengthWs? ==> f.(headerState := ContentLengthWs) == f;
  }

  lemma {:induction false} SpacesRun(cfg: Config, m: Machine, n: nat, scan: bool)
    requires InLength(m.f) && m.f.nread + n <= HTTP_MAX_HEADER_SIZE
    ensures var r := Run(cfg, m, Spaces(n));
            r.Running? && InLength(r.m.f) && r.m.f.nread == m.f.nread + n
    ensures n > 0 ==> ScanAfter(cfg, m, Spaces(n), scan)
    decreases n
  {
    hide Dispatch, Passes;
    if n == 0 {
      assert Spaces(0) == [];
    } else {
      SpaceInLength(cfg, Counted(m.f));
      var r := Byte(cfg, m, ' ');
      assert r.Running? && InLength(r.m.f) && r.m.f.nread == m.f.nread + 1 by {
        OneStay(cfg, m, ' ', Counted(m.f).(headerState := ContentLengthWs), Take(Value));
      }
      assert Spaces(n)[0] == ' ' && Spaces(n)[1..] == Spaces(n - 1);
      hide Byte;
      SpacesRun(cfg, r.m, n - 1, true);
      if n == 1 {
        assert Spaces(0) == [];
      }
    }
  }

  lemma {:induction false} SpacesScanned(cfg: Config, f: Fields, n: nat)
    requires InLength(f)
    ensures ScanError(cfg, f, false, Spaces(n)) == HeaderOverflow
    ensures ScanError(cfg, f, false, Spaces(n) + "x") == InvalidContentLength
    decreases n
  {
    hide ValueByte, IsHeaderChar;
    SpaceInLength(cfg, f);
    if n == 0 {
      assert Spaces(0) + "x" == "x";
    } else {
      assert Spaces(n)[1..] == Spaces(n - 1) && (Spaces(n) + "x")[1..] == Spaces(n - 1) + "x";
      SpacesScanned(cfg, f.(headerState := ContentLengthWs), n - 1);
    }
  }

  /** A length of one digit, and as many spaces as the limit allows. */
  lemma LengthToLimit(cfg: Config, m: Machine, name: seq<byte>, n: nat) returns (k: Machine)
    requires m.f.state.HeaderFieldStart? && !m.f.flags.contentLength
    requires name != [] && AllTokens(name) && Lowered(name) == "content-length"
    requires 0 < n == HTTP_MAX_HEADER_SIZE - (m.f.nread + |name| + 2)
    ensures var data := name + ":" + "1" + Spaces(n);
            Run(cfg, m, data) == Running(k) && ScanAfter(cfg, m, data, false)
    ensures InLength(k.f) && k.f.nread == HTTP_MAX_HEADER_SIZE && !Skips(k.f)
  {
    hide Run, ScanAfter, Lowered, AllTokens, InLength;
    var a: seq<byte> := name + ":";
    NameRecognised(cfg, m, name);
    k := Run(cfg, m, a).m;
    FirstDigit(cfg, k, '1');
    RunThen(cfg, m, a, "1");
    k := Run(cfg, m, a + "1").m;
    IsInLength(k.f);
    SpacesRun(cfg, k, n, ScanAfter(cfg, m, a + "1", false));
    RunThen(cfg, m, a + "1", Spaces(n));
    ScanThen(cfg, m, a + "1", Spaces(n), false);
    k := Run(cfg, k, Spaces(n)).m;
    LengthNotSkipped(k.f);
  }

  lemma IsInLength(f: Fields)
    requires f.state.HeaderValue? && f.headerState.ContentLengthNum?
    ensures InLength(f)
  {
  }

  lemma LengthNotSkipped(f: Fields)
    requires InLength(f)
    ensures !Skips(f) && f.state.HeaderValue? && InLength(Uncounted(f)) && !Skips(Uncounted(f))
  {
  }

  lemma SkipIdle(cfg: Config, f: Fields, skip: bool, rest: seq<byte>)
    requires !Skips(f)
    ensures ScanError(cfg, f, skip, rest) == ScanError(cfg, f, false, rest)
  {
    hide ValueByte, IsHeaderChar;
  }

  lemma {:induction false} ScanThen(cfg: Config, m: Machine, a: seq<byte>, b: seq<byte>, scan: bool)
    requires Run(cfg, m, a).Running?
    ensures ScanAfter(cfg, m, a + b, scan) == ScanAfter(cfg, Run(cfg, m, a).m, b, ScanAfter(cfg, m, a, scan))
    decreases |a|
  {
    hide Byte;
    if a == [] {
      assert a + b == b;
    } else {
      assert (a + b)[1..] == a[1..] + b;
      ScanThen(cfg, Byte(cfg, m, a[0]).m, a[1..], b, m.f.state.HeaderValue?);
    }
  }

  /** For example, "Content-Length: 1" with so many spaces behind it that they pass the
      limit, and then an "x": one call reports a bad length, but calls that are cut among
      the spaces, at the limit or behind it, report that the header is too long. */
  lemma LateLength(cfg: Config, m: Machine, name: seq<byte>, fit: nat, a: nat, b: nat)
    requires m.f.state.HeaderFieldStart? && !m.f.flags.contentLength
    requires name != [] && AllTokens(name) && Lowered(name) == "content-length"
    requires 0 < fit == HTTP_MAX_HEADER_SIZE - (m.f.nread + |name| + 2)
    ensures var first, second := name + ":" + "1" + Spaces(fit) + Spaces(a), Spaces(b) + "x";
            && Call(cfg, NewCall(m), first + second, false) == Failed(InvalidContentLength)
            && CallFeed(cfg, m, [first, second]) == Failed(HeaderOverflow)
  {
    hide Run, Call, ScanAfter, Lowered, AllTokens, InLength, ScanError, Byte, Skips, Uncounted;
    var k := LengthToLimit(cfg, NewCall(m), name, fit);
    LengthNotSkipped(k.f);
    var fits, second := name + ":" + "1" + Spaces(fit), Spaces(b) + "x";
    var more := Spaces(a) + second;
    assert more == Spaces(a + b) + "x" && fits + Spaces(a) + second == fits + more;
    SkipIdle(cfg, Uncounted(k.f), k.skip, more);
    SkipIdle(cfg, Uncounted(k.f), k.skip, Spaces(a));
    LateCall(cfg, k, more);
    CallThen(cfg, NewCall(m), fits, more, false);
    CallThen(cfg, NewCall(m), fits, Spaces(a), false);
    SpacesScanned(cfg, Uncounted(k.f), a + b);
    SpacesScanned(cfg, Uncounted(k.f), a);
    var pieces: seq<seq<byte>> := [fits + Spaces(a), second];
    if a == 0 {
      assert fits + Spaces(a) == fits && second == second[0..];
      CallIsRun(cfg, NewCall(m), fits, false);
      CallOverflow(cfg, NewCall(k), second, 0, false);
      assert pieces[1..] == [second] && CallFeed(cfg, k, pieces[1..]) == Failed(HeaderOverflow);
    } else {
      LateCall(cfg, k, Spaces(a));
    }
  }
}
