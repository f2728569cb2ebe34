/** http_parser_execute as the program runs it: marks into the present buffer,
    loops that look only for the end of an uninteresting stretch, header bytes
    counted stretch by stretch. Every call does what the reference run does. */
module HttpParser {
  import opened HttpChars
  import opened HttpMachine
  import opened HttpRun
  import opened HttpInvariant
  import opened HttpMarks
  import opened HttpStretch
  import opened HttpErrors
  import opened HttpUpgrade

  /** The field http_errno. */
  datatype HttpErrno = Ok | Error(errno: Errno)

  /** The *_mark variables that are set: where the marked bytes begin. */
  type Marks = map<DataKind, nat>

  /** What the loop does after a pass: next byte, same byte again, return. */
  datatype Next = Advance | Reexecute | Return

  ghost predicate MarksAre(marks: Marks, slot: Slot, p: nat) {
    match slot
    case Unmarked => marks == map[]
    case Marked(k) => marks.Keys == {k} && marks[k] <= p
  }

  /** The callbacks so far together with the bytes marked up to `end`. */
  ghost function Pending(calls: Log, marks: Marks, slot: Slot, data: seq<byte>, end: nat): Log
    requires end <= |data| && MarksAre(marks, slot, end)
  {
    match slot
    case Unmarked => Merged(calls)
    case Marked(k) => Absorb(Merged(calls), Data(k, data[marks[k]..end]))
  }

  /** Fields, callbacks, the marks of the present call and the bytes from `q` on
      together lead where the reference run leads: to `target`. */
  ghost predicate TracksAt(cfg: Config, f: Fields, calls: Log, data: seq<byte>, q: nat, marks: Marks, slot: Slot,
                           skip: bool, target: Outcome)
  {
    && q <= |data| && MarksAre(marks, slot, q) && MarkFits(f.state, slot)
    && Inv(f, false) && LogFits(f.state, Pending(calls, marks, slot, data, q))
    && target == Call(cfg, Machine(f, skip, Pending(calls, marks, slot, data, q)), data[q..], false)
  }

  /** The same in the middle of byte `p`, which has been counted. */
  ghost predicate TracksPassAt(cfg: Config, f: Fields, calls: Log, data: seq<byte>, p: nat, marks: Marks, slot: Slot,
                               target: Outcome)
  {
    && p < |data| && MarksAre(marks, slot, p) && MarkFits(f.state, slot)
    && Inv(f, true) && LogFits(f.state, Pending(calls, marks, slot, data, p)) && !f.state.HeaderValue?
    && target == CallResume(cfg, Passes(cfg, Machine(f, false, Pending(calls, marks, slot, data, p)), data[p]),
                            data[p + 1..], false)
  }

  function StartMarks(s: State): (marks: Marks)
    ensures MarksAre(marks, StartSlot(s), 0)
  {
    match StartSlot(s)
    case Unmarked => map[]
    case Marked(k) => map[k := 0]
  }

  class Parser {
    const cfg: Config
    var f: Fields
    var httpErrno: HttpErrno
    var calls: Log

    ghost function Here(): Machine
      reads this
    {
      Machine(f, false, Merged(calls))
    }

    ghost predicate Valid()
      reads this
    {
      httpErrno.Ok? ==> Reachable(Here())
    }

    constructor (kind: MessageKind, cfg: Config)
      ensures Valid() && httpErrno == Ok && calls == [] && f == Init(kind) && this.cfg == cfg
    {
      this.cfg := cfg;
      f, httpErrno, calls := Init(kind), Ok, [];
      new;
      InitReachable(kind);
    }

    /** CALLBACK_DATA: hand over the marked bytes up to `end` and clear the mark. */
    method CallbackData(k: DataKind, data: seq<byte>, marks: Marks, end: nat, ghost slot: Slot) returns (marks': Marks)
      requires end <= |data| && MarksAre(marks, slot, end) && (slot == Marked(k) || slot == Unmarked)
      modifies this`calls
      ensures marks' == map[] && old(calls) <= calls
      ensures Merged(calls) == Pending(old(calls), marks, slot, data, end)
      ensures slot == Unmarked ==> calls == old(calls)
    {
      if k in marks {
        MergedAppend(calls, Data(k, data[marks[k]..end]));
        calls := calls + [Data(k, data[marks[k]..end])];
      }
      marks' := marks - {k};
    }

    /** CALLBACK_NOTIFY. */
    method CallbackNotify(event: Event)
      modifies this`calls
      ensures Merged(calls) == Absorb(Merged(old(calls)), event) && calls == old(calls) + [event]
    {
      MergedAppend(calls, event);
      calls := calls + [event];
    }

    /** The marks and callbacks part of a pass over data[p]. */
    method Apply(s: State, e: Effect, data: seq<byte>, p: nat, marks: Marks, ghost slot: Slot) returns (marks': Marks)
      requires p < |data| && MarksAre(marks, slot, p) && EffectFits(s, slot, e)
      requires e == Flush(Body) && slot == Unmarked ==> LastIs(Merged(calls), Body)
      modifies this`calls
      ensures MarksAre(marks', SlotAfter(slot, e), p) && old(calls) <= calls
      ensures Pending(calls, marks', SlotAfter(slot, e), data, if e.Take? || e.MarkTake? then p + 1 else p) ==
              LogEffect(Pending(old(calls), marks, slot, data, p), e, data[p])
    {
      hide Absorb, Merged;
      var byteAlone := [data[p]];
      assert [] + byteAlone == byteAlone;
      match e {
        case Quiet => marks' := marks;
        case Notify(event) =>
          CallbackNotify(event);
          NotifyEffect(Merged(old(calls)), event, data[p]);
          marks' := marks;
        case Mark(k) => marks' := SetMark(k, marks, slot, calls, data, p);
        case MarkTake(k) =>
          marks' := SetMark(k, marks, slot, calls, data, p);
          OneMore(calls, marks', k, data, p);
          AbsorbSplit(Pending(calls, marks, slot, data, p), k, [], byteAlone);
        case Take(k) =>
          marks' := marks;
          OneMore(calls, marks, k, data, p);
        case Flush(k) =>
          marks' := CallbackData(k, data, marks, p, slot);
          FlushEffect(old(calls), marks, k, slot, data, p);
        case MarkFlush(k) =>
          marks' := SetMark(k, marks, slot, calls, data, p);
          marks' := CallbackData(k, data, marks', p, Marked(k));
        case MarkTakeFlush(k) =>
          marks' := SetMark(k, marks, slot, calls, data, p);
          OneMore(calls, marks', k, data, p);
          AbsorbSplit(Pending(calls, marks, slot, data, p), k, [], byteAlone);
          marks' := CallbackData(k, data, marks', p + 1, Marked(k));
      }
    }

    ghost predicate Tracks(data: seq<byte>, q: nat, marks: Marks, slot: Slot, skip: bool, target: Outcome)
      reads this
    {
      httpErrno.Ok? && TracksAt(cfg, f, calls, data, q, marks, slot, skip, target)
    }

    ghost predicate TracksPass(data: seq<byte>, p: nat, marks: Marks, slot: Slot, target: Outcome)
      reads this
    {
      httpErrno.Ok? && TracksPassAt(cfg, f, calls, data, p, marks, slot, target)
    }

    /** The call ends as the reference says. */
    ghost predicate EndsAs(target: Outcome, data: seq<byte>, consumed: nat)
      reads this
    {
      match target
      case Running(m) => httpErrno.Ok? && f == m.f && Merged(calls) == m.log && consumed == |data|
      case Stopped(m, left) =>
        httpErrno.Ok? && f == m.f && Merged(calls) == m.log && consumed + left == |data|
      case Failed(e) => httpErrno == Error(e) && consumed < |data|
    }

    /** One pass through the switch, in a state that looks at one byte. */
    method Pass(data: seq<byte>, p: nat, marks: Marks, ghost slot: Slot, ghost target: Outcome)
        returns (marks': Marks, next: Next, ghost slot': Slot)
      requires TracksPass(data, p, marks, slot, target)
      modifies this
      ensures old(calls) <= calls
      ensures next.Advance? ==> Tracks(data, p + 1, marks', slot', false, target)
      ensures next.Reexecute? ==> TracksPass(data, p, marks', slot', target) && Rank(f.state) < Rank(old(f.state))
      ensures next.Return? ==> EndsAs(target, data, if httpErrno.Error? then p else p + 1) && Valid()
    {
      hide Dispatch, Passes, Call, Merged, Absorb, LogEffect, Inv, LogFits, LastIs, MarkFits;
      ghost var m := Machine(f, false, Pending(calls, marks, slot, data, p));
      var a := Dispatch(cfg, f, false, data[p]);
      DispatchInv(cfg, f, false, data[p]);
      DispatchMarks(cfg, f, false, data[p], slot);
      DispatchLog(cfg, m, false, data[p]);
      PassesStep(cfg, m, data[p]);
      ChunkEndLog(f.state, m.log);
      marks', slot' := marks, slot;
      match a {
        case Err(e) =>
          httpErrno, next := Error(e), Return;
        case Stay(g, e) =>
          marks' := Apply(f.state, e, data, p, marks, slot);
          slot', f, next := SlotAfter(slot, e), g, Advance;
        case Again(g, e) =>
          marks' := Apply(f.state, e, data, p, marks, slot);
          slot', f, next := SlotAfter(slot, e), g, Reexecute;
        case Leave(g, e) =>
          marks' := Apply(f.state, e, data, p, marks, slot);
          slot', f, next := SlotAfter(slot, e), g, Return;
      }
    }

    /** The loop over a header name, up to its colon. Byte `start` has been counted. */
    method ScanField(data: seq<byte>, start: nat, marks: Marks, ghost target: Outcome)
        returns (p: nat, marks': Marks, next: Next, ghost slot': Slot)
      requires start < |data| && f.state.HeaderField? && 1 <= f.nread <= HTTP_MAX_HEADER_SIZE && Inv(f, true)
      requires httpErrno.Ok? && MarksAre(marks, Marked(Field), start)
      requires target == Call(cfg, Machine(f.(nread := f.nread - 1), false,
                                           Pending(calls, marks, Marked(Field), data, start)), data[start..], false)
      modifies this
      ensures old(calls) <= calls && start <= p < |data| && !next.Reexecute?
      ensures next.Advance? ==> Tracks(data, p + 1, marks', slot', false, target)
      ensures next.Return? ==> httpErrno.Error? && EndsAs(target, data, p)
    {
      hide Lag, Inv, Token, TracksAt, MarksAre, Pending, MarkFits, LogFits, Call, Merged, Absorb;
      var g: Fields;
      p, g := ScanName(cfg, f, calls, data, start, marks, target);
      marks', slot', next := marks, Marked(Field), Advance;
      var ended := p == |data|;
      var total := g.nread + (if ended then p - 1 - start else p - start);
      LagEnd(cfg, g, calls, marks, data, f.nread - 1, start, p, target);
      if ended {
        p := p - 1;
      }
      if total > HTTP_MAX_HEADER_SIZE {
        httpErrno, next := Error(HeaderOverflow), Return;
      } else if ended {
        f := g.(nread := total);
      } else if data[p] == ':' {
        marks' := CallbackData(Field, data, marks, p, Marked(Field));
        f, slot' := g.(nread := total, state := HeaderValueDiscardWs), Unmarked;
        LagColon(cfg, g, old(calls), calls, marks, data, old(f).nread - 1, start, p, target);
      } else {
        httpErrno, next := Error(InvalidHeaderToken), Return;
      }
    }

    /** The loop over a header value, up to its line end. Byte `start` has been counted. */
    method ScanValue(data: seq<byte>, start: nat, marks: Marks, ghost target: Outcome)
        returns (p: nat, marks': Marks, next: Next, ghost slot': Slot, ghost skip: bool)
      requires start < |data| && f.state.HeaderValue? && 1 <= f.nread <= HTTP_MAX_HEADER_SIZE && Inv(f, true)
      requires httpErrno.Ok? && MarksAre(marks, Marked(Value), start)
      requires target == Call(cfg, Machine(f.(nread := f.nread - 1), false,
                                           Pending(calls, marks, Marked(Value), data, start)), data[start..], false)
      modifies this
      ensures old(calls) <= calls && start <= p < |data|
      ensures next.Advance? ==> Tracks(data, p + 1, marks', slot', skip, target) && (skip ==> p + 1 == |data|)
      ensures next.Reexecute? ==> TracksPass(data, p, marks', slot', target)
      ensures next.Return? ==> httpErrno.Error? && EndsAs(target, data, p)
    {
      hide Lag, Inv, TracksAt, TracksPassAt, MarksAre, Pending, MarkFits, LogFits, Call, Merged;
      var g: Fields, error: HttpErrno;
      p, g, error, skip := ScanValueBytes(cfg, f, calls, data, start, marks, target);
      marks', slot', next := marks, Marked(Value), Advance;
      if error.Error? {
        httpErrno, next := error, Return;
        return;
      }
      ghost var base, skip0 := f.nread - 1, skip;
      LagValueEnd(cfg, g, skip, calls, marks, data, base, start, p, target);
      if p == |data| {
        p := p - 1;
        f := g.(nread := g.nread + (p - start));
        if f.nread > HTTP_MAX_HEADER_SIZE {
          httpErrno, next := Error(HeaderOverflow), Return;
        }
      } else {
        var total := g.nread + (p - start);
        if data[p] == CR {
          marks' := CallbackData(Value, data, marks, p, Marked(Value));
          f, slot', skip := g.(nread := total, state := HeaderAlmostDone), Unmarked, false;
          if total > HTTP_MAX_HEADER_SIZE {
            httpErrno, next := Error(HeaderOverflow), Return;
          } else {
            LagCr(cfg, g, skip0, old(calls), calls, marks, data, base, start, p, target);
          }
        } else if total > HTTP_MAX_HEADER_SIZE {
          httpErrno, next := Error(HeaderOverflow), Return;
        } else {
          marks' := CallbackData(Value, data, marks, p, Marked(Value));
          f, slot', next := g.(nread := total, state := HeaderAlmostDone), Unmarked, Reexecute;
          LagLf(cfg, g, skip0, old(calls), calls, marks, data, base, start, p, target);
        }
      }
    }

    /** Body bytes, as many as the length and the data allow, in one go. */
    method ReadBody(data: seq<byte>, start: nat, marks: Marks, ghost slot: Slot, ghost target: Outcome)
        returns (p: nat, marks': Marks, next: Next, ghost slot': Slot)
      requires start < |data| && Tracks(data, start, marks, slot, false, target)
      requires f.state.BodyIdentity? || f.state.BodyIdentityEof? || f.state.ChunkData?
      modifies this
      ensures old(calls) <= calls && start <= p < |data| && !next.Return?
      ensures next.Advance? ==> Tracks(data, p + 1, marks', slot', false, target)
      ensures next.Reexecute? ==> TracksPass(data, p, marks', slot', target)
    {
      hide TracksAt, TracksPassAt, Inv, MarksAre, Pending, MarkFits, LogFits, Call, Merged, Absorb;
      BodyOpen(cfg, f, calls, data, start, marks, slot, target);
      marks' := SetMark(Body, marks, slot, calls, data, start);
      next, slot' := Advance, Marked(Body);
      if f.state.BodyIdentityEof? {
        p := |data| - 1;
        BodyTracks(cfg, f, calls, data, start, |data|, marks, slot, marks', target);
        return;
      }
      assert f.contentLength != 0 && f.contentLength != ULLONG_MAX;
      var toRead := if f.contentLength < |data| - start then f.contentLength else |data| - start;
      p := start + toRead - 1;
      if toRead < f.contentLength {
        BodyTracks(cfg, f, calls, data, start, start + toRead, marks, slot, marks', target);
        f := f.(contentLength := f.contentLength - toRead);
      } else if f.state.ChunkData? {
        ChunkTracks(cfg, f, calls, data, start, p, marks, slot, marks', target);
        f := f.(contentLength := 0, state := ChunkDataAlmostDone);
      } else {
        ghost var marked := marks';
        assert MarksAre(marked, Marked(Body), p + 1) by { Later(marked, Body, start, p + 1); }
        marks' := CallbackData(Body, data, marks', p + 1, Marked(Body));
        IdentityTracks(cfg, f, old(calls), calls, data, start, p, marks, slot, marked, target);
        f, slot', next := f.(contentLength := 0, state := MessageDone), Unmarked, Reexecute;
      }
    }

    /** The first byte of a body stretch or of a header stretch is handed to the
        loop for it, any other byte to as many passes as it takes. */
    method Consume(data: seq<byte>, start: nat, marks: Marks, ghost slot: Slot, ghost target: Outcome)
        returns (p: nat, marks': Marks, next: Next, ghost slot': Slot, ghost skip: bool)
      requires start < |data| && Tracks(data, start, marks, slot, false, target)
      modifies this
      ensures old(calls) <= calls && start <= p < |data| && !next.Reexecute?
      ensures next.Advance? ==> Tracks(data, p + 1, marks', slot', skip, target) && (skip ==> p + 1 == |data|)
      ensures next.Return? ==> EndsAs(target, data, if httpErrno.Error? then p else p + 1) && Valid()
    {
      hide TracksAt, TracksPassAt, Inv, MarksAre, Pending, MarkFits, LogFits, Call, Merged, Absorb, Reachable;
      p, marks', slot', skip, next := start, marks, slot, false, Advance;
      var s := f.state;
      if ParsingHeader(s) {
        CountOne(cfg, f, calls, data, start, marks, slot, target);
        f := f.(nread := f.nread + 1);
        if f.nread > HTTP_MAX_HEADER_SIZE {
          httpErrno, next := Error(HeaderOverflow), Return;
          return;
        }
      }
      if s.HeaderField? {
        p, marks', next, slot' := ScanField(data, start, marks, target);
      } else if s.HeaderValue? {
        p, marks', next, slot', skip := ScanValue(data, start, marks, target);
      } else if s.BodyIdentity? || s.BodyIdentityEof? || s.ChunkData? {
        p, marks', next, slot' := ReadBody(data, start, marks, slot, target);
      } else {
        OnePassMore(cfg, old(f), calls, data, start, marks, slot, target);
        next := Reexecute;
      }
      while next.Reexecute?
        invariant old(calls) <= calls && start <= p < |data|
        invariant next.Reexecute? ==> TracksPass(data, p, marks', slot', target)
        invariant next.Advance? ==> Tracks(data, p + 1, marks', slot', skip, target) && (skip ==> p + 1 == |data|)
        invariant next.Return? ==> EndsAs(target, data, if httpErrno.Error? then p else p + 1) && Valid()
        decreases next.Reexecute?, Rank(f.state)
      {
        marks', next, slot' := Pass(data, p, marks', slot', target);
        skip := false;
      }
    }

    /** The callbacks for marks that are left when the data ends. */
    method HandOverRest(data: seq<byte>, marks: Marks, ghost slot: Slot)
      requires MarksAre(marks, slot, |data|)
      modifies this`calls
      ensures Merged(calls) == Pending(old(calls), marks, slot, data, |data|) && old(calls) <= calls
    {
      hide Merged, Absorb;
      var rest := marks;
      if Field in rest {
        rest := CallbackData(Field, data, rest, |data|, slot);
      }
      if Value in rest {
        rest := CallbackData(Value, data, rest, |data|, slot);
      }
      if Url in rest {
        rest := CallbackData(Url, data, rest, |data|, slot);
      }
      if Body in rest {
        rest := CallbackData(Body, data, rest, |data|, slot);
      }
      if Status in rest {
        rest := CallbackData(Status, data, rest, |data|, slot);
      }
    }

    /** http_parser_execute. An empty buffer means that the peer closed. */
    method Execute(data: seq<byte>) returns (consumed: nat)
      requires Valid()
      modifies this
      ensures Valid() && old(calls) <= calls
      ensures old(httpErrno).Error? ==> consumed == 0 && f == old(f) && httpErrno == old(httpErrno) && calls == old(calls)
      ensures old(httpErrno).Ok? && data != [] ==> EndsAs(Call(cfg, old(Here()), data, false), data, consumed)
      ensures old(httpErrno).Ok? && data == [] ==>
                f == old(f) &&
                if old(f).state.BodyIdentityEof? then
                  consumed == 0 && httpErrno.Ok? && calls == old(calls) + [MessageComplete]
                else if old(f).state.Dead? || old(f).state.StartReqOrRes? || old(f).state.StartRes? ||
                        old(f).state.StartReq? then
                  consumed == 0 && httpErrno.Ok? && calls == old(calls)
                else consumed == 1 && httpErrno == Error(InvalidEofState) && calls == old(calls)
    {
      hide TracksAt, Inv, MarksAre, Pending, MarkFits, LogFits, Call, Merged, Absorb;
      if httpErrno.Error? {
        return 0;
      }
      if data == [] {
        if f.state.BodyIdentityEof? {
          EofKeeps(Here());
          CallbackNotify(MessageComplete);
          return 0;
        } else if f.state.Dead? || f.state.StartReqOrRes? || f.state.StartRes? || f.state.StartReq? {
          return 0;
        }
        httpErrno := Error(InvalidEofState);
        return 1;
      }
      ghost var target, slot, skip := Call(cfg, Here(), data, false), StartSlot(f.state), false;
      var marks := StartMarks(f.state);
      StartTracks(cfg, Here(), calls, data);
      var p := 0;
      while p < |data|
        invariant p <= |data| && old(calls) <= calls
        invariant Tracks(data, p, marks, slot, skip, target) && (skip ==> p == |data|)
      {
        var next: Next;
        p, marks, next, slot, skip := Consume(data, p, marks, slot, target);
        if next.Return? {
          return if httpErrno.Error? then p else p + 1;
        }
        p := p + 1;
      }
      FinalTracks(cfg, f, calls, data, marks, slot, skip, target);
      AtMostOneMark(marks, slot, p);
      assert |marks| <= 1;
      HandOverRest(data, marks, slot);
      return |data|;
    }

    /** What a client does with the pieces its socket delivers: one call each,
        until one fails or leaves the stream. If the stream passes the scan, the calls
        together do what the reference run does on the whole of it, or one of them
        reports another error of the value in which the limit is passed. */
    method FeedAll(pieces: seq<seq<byte>>) returns (consumed: nat)
      requires Valid() && httpErrno.Ok? && Open(Here())
      requires forall i :: 0 <= i < |pieces| ==> pieces[i] != []
      modifies this
      ensures Valid() && old(calls) <= calls
      ensures FeedEndsAs(CallFeed(cfg, old(Here()), pieces), Concat(pieces), consumed)
      ensures Clean(cfg, old(Here()), Concat(pieces)) ==>
                var r := Run(cfg, old(Here()), Concat(pieces));
                if r != Failed(HeaderOverflow) || Call(cfg, old(Here()), Concat(pieces), false) == r
                then FeedEndsAs(r, Concat(pieces), consumed) else httpErrno.Error?
    {
      hide Run, Call, Merged, Inv, LogFits, Clean, Reachable;
      ghost var m0, target := Here(), CallFeed(cfg, Here(), pieces);
      if Clean(cfg, m0, Concat(pieces)) {
        CleanCalls(cfg, m0, pieces);
      }
      consumed := 0;
      var i := 0;
      assert pieces[0..] == pieces;
      while i < |pieces|
        invariant 0 <= i <= |pieces| && old(calls) <= calls && Valid() && httpErrno.Ok? && Open(Here())
        invariant consumed + |Concat(pieces[i..])| == |Concat(pieces)|
        invariant Agree(target, CallFeed(cfg, Here(), pieces[i..]))
      {
        ghost var m := Here();
        assert pieces[i..][1..] == pieces[i + 1..];
        RunUpgrade(cfg, m, pieces[i]);
        CallIsRun(cfg, m, pieces[i], false);
        FeedForgetsSkip(cfg, Call(cfg, m, pieces[i], false), pieces[i + 1..]);
        var n := Execute(pieces[i]);
        CompletedMerged(calls);
        consumed := consumed + n;
        if httpErrno.Error? || (f.upgrade && |calls| > 0 && calls[|calls| - 1] == MessageComplete) {
          return;
        }
        i := i + 1;
      }
      assert pieces[i..] == [];
    }

    /** What the miner's client does with the pieces its socket delivers: one call
        each, whatever its result, until a message is complete. If the pieces used pass
        the scan, the calls together do what the reference run does on all of them, or
        one reports another error of the value in which the limit is passed. */
    method Receive(pieces: seq<seq<byte>>) returns (used: nat)
      requires Valid() && httpErrno.Ok? && MessageComplete !in calls
      requires forall i :: 0 <= i < |pieces| ==> pieces[i] != []
      modifies this
      ensures Valid() && old(calls) <= calls && used <= |pieces|
      ensures EndedAs(CallFeed(cfg, old(Here()), pieces[..used]))
      ensures Clean(cfg, old(Here()), Concat(pieces[..used])) ==>
                var r := Run(cfg, old(Here()), Concat(pieces[..used]));
                if r != Failed(HeaderOverflow) || Call(cfg, old(Here()), Concat(pieces[..used]), false) == r
                then EndedAs(r) else httpErrno.Error?
      ensures used < |pieces| ==> MessageComplete in calls
      ensures forall k :: 0 <= k < used ==> !Completes(CallFeed(cfg, old(Here()), pieces[..k]))
    {
      hide Run, Call, Merged, Inv, LogFits, Clean, Reachable, CallFeed;
      ghost var m0 := Here();
      used := 0;
      FeedNothing(cfg, m0);
      MergedComplete(calls);
      while used < |pieces| && MessageComplete !in calls
        invariant used <= |pieces| && old(calls) <= calls && Valid()
        invariant EndedAs(CallFeed(cfg, m0, pieces[..used]))
        invariant CallFeed(cfg, m0, pieces[..used]).Stopped? ==> MessageComplete in calls
        invariant forall k :: 0 <= k < used ==> !Completes(CallFeed(cfg, m0, pieces[..k]))
      {
        ghost var before, m := CallFeed(cfg, m0, pieces[..used]), Here();
        MergedComplete(calls);
        CallFeedLast(cfg, m0, pieces[..used], pieces[used]);
        assert pieces[..used + 1] == pieces[..used] + [pieces[used]];
        RunUpgrade(cfg, m, pieces[used]);
        CallIsRun(cfg, m, pieces[used], false);
        var _ := Execute(pieces[used]);
        MergedComplete(calls);
        used := used + 1;
      }
      if Clean(cfg, m0, Concat(pieces[..used])) {
        CleanCalls(cfg, m0, pieces[..used]);
      }
    }

    /** The calls so far lead where the reference run leads. */
    ghost predicate EndedAs(target: Outcome)
      reads this
    {
      match target
      case Running(m) => httpErrno.Ok? && f == m.f && Merged(calls) == m.log
      case Stopped(m, _) => httpErrno.Ok? && f == m.f && Merged(calls) == m.log
      case Failed(e) => httpErrno == Error(e)
    }

    ghost predicate FeedEndsAs(target: Outcome, data: seq<byte>, consumed: nat)
      reads this
    {
      match target
      case Running(m) => httpErrno.Ok? && f == m.f && Merged(calls) == m.log && consumed == |data|
      case Stopped(m, left) =>
        httpErrno.Ok? && f == m.f && Merged(calls) == m.log && consumed + left == |data|
      case Failed(e) => httpErrno == Error(e)
    }
  }

  /** memchr over data[p..p + limit]: the first occurrence of c, or |data|. */
  method MemChr(data: seq<byte>, p: nat, limit: nat, c: byte) returns (r: nat)
    requires p + limit <= |data|
    ensures p <= r <= |data| && c !in data[p..if r < |data| then r else p + limit]
    ensures r < |data| ==> r < p + limit && data[r] == c
  {
    r := p;
    while r < p + limit && data[r] != c
      invariant p <= r <= p + limit && c !in data[p..r]
    {
      r := r + 1;
    }
    if r == p + limit {
      r := |data|;
    }
  }

  /** Where the skip over a general value stops: the first CR or LF within
      `limit` bytes, or the end of the data. */
  method LineEnd(data: seq<byte>, p: nat, limit: nat) returns (r: nat)
    requires p + limit <= |data|
    ensures p <= r <= |data|
    ensures r < |data| ==> r < p + limit && (data[r] == CR || data[r] == LF) && NoLineEnd(data[p..r])
    ensures r == |data| ==> NoLineEnd(data[p..p + limit])
  {
    var cr := MemChr(data, p, limit, CR);
    var lf := MemChr(data, p, limit, LF);
    if cr < |data| {
      if lf < |data| && cr >= lf {
        r := lf;
      } else {
        r := cr;
      }
    } else {
      r := lf;
    }
    if r < |data| {
      assert data[p..r] <= data[p..if cr < |data| then cr else p + limit];
      assert data[p..r] <= data[p..if lf < |data| then lf else p + limit];
    }
  }

  /** The bytes of a header value from `start` on, up to CR, LF, an error or the
      end of the data. A value that interests nobody is skipped with memchr. */
  method ScanValueBytes(cfg: Config, f: Fields, ghost calls: Log, data: seq<byte>, start: nat, ghost marks: Marks,
                        ghost target: Outcome)
      returns (p: nat, g: Fields, error: HttpErrno, ghost skip: bool)
    requires start < |data| && f.state.HeaderValue? && 1 <= f.nread <= HTTP_MAX_HEADER_SIZE && Inv(f, true)
    requires MarksAre(marks, Marked(Value), start)
    requires target == Call(cfg, Machine(f.(nread := f.nread - 1), false,
                                         Pending(calls, marks, Marked(Value), data, start)), data[start..], false)
    ensures start <= p <= |data| && (p == |data| ==> p > start)
    ensures error.Error? ==>
              p < |data| && target == Failed(error.errno)
    ensures error.Ok? ==>
              && (p < |data| ==> data[p] == CR || data[p] == LF)
              && g.state.HeaderValue? && Inv(g, true) && g.nread == f.nread
              && Lag(cfg, g, skip, Value, calls, marks, data, f.nread - 1, start, p, target)
  {
    hide Lag, Inv, ValueByte, MarksAre, Pending, Call, Dispatch, IsHeaderChar;
    p, g, error, skip := start, f, Ok, false;
    ghost var base := f.nread - 1;
    LagStart(cfg, g, Value, calls, marks, data, start, target);
    while p < |data| && data[p] != CR && data[p] != LF
      invariant start <= p <= |data|
      invariant p < |data| && data[p] != CR && data[p] != LF ==> !skip
      invariant g.state.HeaderValue? && Inv(g, true) && g.nread == base + 1
      invariant Lag(cfg, g, skip, Value, calls, marks, data, base, start, p, target)
    {
      if !cfg.lenient && !IsHeaderChar(data[p]) {
        BadValue(cfg, g, data[p], base, start, p);
        BadScanned(cfg, g, data, p);
        LagValueErr(cfg, g, calls, marks, data, base, start, p, target, InvalidHeaderToken);
        error := Error(InvalidHeaderToken);
        return;
      }
      if g.headerState.General? {
        var limit := if |data| - p < HTTP_MAX_HEADER_SIZE then |data| - p else HTTP_MAX_HEADER_SIZE;
        var r := LineEnd(data, p, limit);
        LagSkip(cfg, g, calls, marks, data, base, start, p, limit, r, target);
        p, skip := r, true;
      } else {
        var a := ValueByte(g, data[p]);
        LagValue(cfg, g, calls, marks, data, base, start, p, target);
        if a.Err? {
          error := Error(a.errno);
          return;
        }
        g, p := a.f, p + 1;
      }
    }
  }

  /** The bytes of a header name from `start` on; a name that interests nobody is
      run through by the inner loop. */
  method ScanName(cfg: Config, f: Fields, ghost calls: Log, data: seq<byte>, start: nat, ghost marks: Marks,
                  ghost target: Outcome) returns (p: nat, g: Fields)
    requires start < |data| && f.state.HeaderField? && 1 <= f.nread <= HTTP_MAX_HEADER_SIZE && Inv(f, true)
    requires MarksAre(marks, Marked(Field), start)
    requires target == Call(cfg, Machine(f.(nread := f.nread - 1), false,
                                         Pending(calls, marks, Marked(Field), data, start)), data[start..], false)
    ensures start <= p <= |data| && (p < |data| ==> Token(data[p]) == '\0')
    ensures g.state.HeaderField? && Inv(g, true) && g.nread == f.nread
    ensures Lag(cfg, g, false, Field, calls, marks, data, f.nread - 1, start, p, target)
    ensures p == |data| ==> p > start
  {
    hide Lag, Inv, MatchName, Token, MarksAre, Pending, Call, Merged, Dispatch;
    p, g := start, f;
    ghost var base := f.nread - 1;
    LagStart(cfg, g, Field, calls, marks, data, start, target);
    while p < |data| && Token(data[p]) != '\0'
      invariant start <= p <= |data|
      invariant g.state.HeaderField? && Inv(g, true) && g.nread == base + 1
      invariant Lag(cfg, g, false, Field, calls, marks, data, base, start, p, target)
    {
      LagName(cfg, g, calls, marks, data, base, start, p, target);
      if g.headerState.General? {
        var limit := if |data| - p < HTTP_MAX_HEADER_SIZE then |data| - p else HTTP_MAX_HEADER_SIZE;
        while p + 1 < limit && Token(data[p + 1]) != '\0'
          invariant start <= p < |data|
          invariant Lag(cfg, g, false, Field, calls, marks, data, base, start, p + 1, target)
        {
          p := p + 1;
          LagName(cfg, g, calls, marks, data, base, start, p, target);
        }
      } else {
        g := MatchName(g, data[p], Token(data[p]));
      }
      p := p + 1;
    }
  }

  lemma PassesStep(cfg: Config, m: Machine, ch: byte)
    requires !m.f.state.HeaderValue?
    ensures var a, r := Dispatch(cfg, m.f, false, ch), Passes(cfg, m, ch);
            && (a.Err? ==> r == Failed(a.errno))
            && (a.Stay? ==> r == Running(Machine(a.f, false, LogEffect(m.log, a.effect, ch))))
            && (a.Leave? ==> r == Stopped(Machine(a.f, false, LogEffect(m.log, a.effect, ch)), 0))
            && (a.Again? ==> r == Passes(cfg, Machine(a.f, false, LogEffect(m.log, a.effect, ch)), ch))
            && (a.Again? ==> !a.f.state.HeaderValue?)
  {
    hide Dispatch, LogEffect;
    var a := Dispatch(cfg, m.f, false, ch);
  }

  lemma ChunkEndLog(s: State, log: Log)
    requires LogFits(s, log)
    ensures s.ChunkDataAlmostDone? ==> LastIs(log, Body)
  {
  }

  /** MARK: set a mark unless it is set. */
  method SetMark(k: DataKind, marks: Marks, ghost slot: Slot, ghost calls: Log, ghost data: seq<byte>, p: nat)
      returns (marks': Marks)
    requires p <= |data| && MarksAre(marks, slot, p) && (slot == Unmarked || slot == Marked(k))
    ensures MarksAre(marks', Marked(k), p)
    ensures Pending(calls, marks', Marked(k), data, p) == Absorb(Pending(calls, marks, slot, data, p), Data(k, []))
  {
    marks' := if k in marks then marks else marks[k := p];
    if k in marks {
      AbsorbSplit(Merged(calls), k, data[marks[k]..p], []);
      assert data[marks[k]..p] + [] == data[marks[k]..p];
    } else {
      assert data[p..p] == [];
    }
  }

  lemma OneMore(calls: Log, marks: Marks, k: DataKind, data: seq<byte>, p: nat)
    requires p < |data| && MarksAre(marks, Marked(k), p)
    ensures Pending(calls, marks, Marked(k), data, p + 1) ==
            Absorb(Pending(calls, marks, Marked(k), data, p), Data(k, [data[p]]))
  {
    hide Absorb, Merged;
    AbsorbSplit(Merged(calls), k, data[marks[k]..p], [data[p]]);
    assert data[marks[k]..p] + [data[p]] == data[marks[k]..p + 1];
  }

  lemma FlushEffect(calls: Log, marks: Marks, k: DataKind, slot: Slot, data: seq<byte>, p: nat)
    requires p <= |data| && MarksAre(marks, slot, p) && (slot == Unmarked || slot == Marked(k))
    requires slot == Unmarked ==> LastIs(Merged(calls), k)
    ensures Absorb(Pending(calls, marks, slot, data, p), Data(k, [])) == Pending(calls, marks, slot, data, p)
  {
    hide Merged;
    if slot.Marked? {
      hide Absorb;
      AbsorbSplit(Merged(calls), k, data[marks[k]..p], []);
      assert data[marks[k]..p] + [] == data[marks[k]..p];
    } else {
      AbsorbNothing(Merged(calls), k);
    }
  }

  lemma NotifyEffect(log: Log, event: Event, ch: byte)
    requires !event.Data?
    ensures Absorb(log, event) == LogEffect(log, Notify(event), ch)
  {
  }

  /** Header bytes from `start` on are counted late: the reference, which counts each
      one, is at byte p of data or has already passed the limit, and then looks only for
      a byte of a value that is rejected. */
  ghost predicate Lag(cfg: Config, f: Fields, skip: bool, k: DataKind, calls: Log, marks: Marks, data: seq<byte>,
                      base: nat, start: nat, p: nat, target: Outcome)
  {
    && start <= p <= |data| && MarksAre(marks, Marked(k), p)
    && (base + (p - start) <= HTTP_MAX_HEADER_SIZE ==>
          target == Call(cfg, Machine(f.(nread := base + (p - start)), skip, Pending(calls, marks, Marked(k), data, p)),
                         data[p..], p > start))
    && (base + (p - start) > HTTP_MAX_HEADER_SIZE ==>
          var e := if f.state.HeaderValue? then ScanError(cfg, Uncounted(f), skip, data[p..]) else HeaderOverflow;
          target == Failed(e))
  }

  lemma LagStart(cfg: Config, f: Fields, k: DataKind, calls: Log, marks: Marks, data: seq<byte>,
                 start: nat, target: Outcome)
    requires start <= |data| && MarksAre(marks, Marked(k), start) && 1 <= f.nread <= HTTP_MAX_HEADER_SIZE
    requires target == Call(cfg, Machine(f.(nread := f.nread - 1), false, Pending(calls, marks, Marked(k), data, start)),
                            data[start..], false)
    ensures Lag(cfg, f, false, k, calls, marks, data, f.nread - 1, start, start, target)
  {
  }

  /** The scan of a value takes one more byte. */
  predicate ScanTakes(cfg: Config, f: Fields, ch: byte, f': Fields) {
    && ch != CR && ch != LF && (cfg.lenient || IsHeaderChar(ch))
    && f'.state.HeaderValue? && ValueByte(Uncounted(f), ch) == Stay(Uncounted(f'), Take(Value))
  }

  lemma OneScanned(cfg: Config, f: Fields, data: seq<byte>, p: nat, f': Fields)
    requires p < |data| && f.state.HeaderValue? && ScanTakes(cfg, f, data[p], f')
    ensures ScanError(cfg, Uncounted(f), false, data[p..]) == ScanError(cfg, Uncounted(f'), Skips(f), data[p + 1..])
  {
    hide ValueByte, IsHeaderChar;
    assert data[p..][1..] == data[p + 1..];
  }

  /** The reference takes one more byte of the same stretch. */
  lemma LagTake(cfg: Config, f: Fields, k: DataKind, calls: Log, marks: Marks, data: seq<byte>,
                base: nat, start: nat, p: nat, target: Outcome, f': Fields)
    requires Lag(cfg, f, false, k, calls, marks, data, base, start, p, target) && p < |data|
    requires ParsingHeader(f.state) && f'.state == f.state
    requires f.state.HeaderValue? ==> base < HTTP_MAX_HEADER_SIZE && ScanTakes(cfg, f, data[p], f')
    requires var n := base + (p + 1 - start);
             Dispatch(cfg, f.(nread := n), false, data[p]) == Stay(f'.(nread := n), Take(k))
    ensures Lag(cfg, f', Skips(f), k, calls, marks, data, base, start, p + 1, target)
  {
    hide Dispatch, Merged, Absorb, Call, Passes, ScanError, ScanTakes, ParsingHeader, Byte;
    var n := base + (p - start);
    var m := Machine(f.(nread := n), false, Pending(calls, marks, Marked(k), data, p));
    if n + 1 <= HTTP_MAX_HEADER_SIZE {
      CallStay(cfg, m, data, p, p > start, f'.(nread := n + 1), Take(k));
      OneMore(calls, marks, k, data, p);
      var m' := Machine(f'.(nread := n + 1), Skips(f), Absorb(m.log, Data(k, [data[p]])));
      if !f.state.HeaderValue? {
        ScanMatters(cfg, m', data[p + 1..]);
      }
    } else if !f.state.HeaderValue? {
      if n == HTTP_MAX_HEADER_SIZE {
        CallOverflow(cfg, m, data, p, p > start);
      }
    } else {
      OneScanned(cfg, f, data, p, f');
      if n == HTTP_MAX_HEADER_SIZE {
        LateCall(cfg, m, data[p..]);
      }
    }
  }

  lemma LagName(cfg: Config, f: Fields, calls: Log, marks: Marks, data: seq<byte>,
                base: nat, start: nat, p: nat, target: Outcome)
    requires Lag(cfg, f, false, Field, calls, marks, data, base, start, p, target) && p < |data|
    requires f.state.HeaderField? && Token(data[p]) != '\0'
    requires Inv(f, true)
    ensures var g := MatchName(f, data[p], Token(data[p]));
            && Lag(cfg, g, false, Field, calls, marks, data, base, start, p + 1, target)
            && (f.headerState.General? ==> g == f)
            && g.state.HeaderField? && g.nread == f.nread && Inv(g, true)
  {
    var n := base + (p + 1 - start);
    var g := MatchName(f, data[p], Token(data[p]));
    NameUncounted(cfg, f, data[p], n);
    NameKeepsState(f, data[p]);
    NameMatcher(f, data[p]);
    NameInv(f, data[p]);
    hide Lag, Dispatch, MatchName, Token;
    LagTake(cfg, f, Field, calls, marks, data, base, start, p, target, g);
  }

  lemma NameUncounted(cfg: Config, f: Fields, ch: byte, n: nat)
    requires f.state.HeaderField? && Token(ch) != '\0'
    ensures Dispatch(cfg, f.(nread := n), false, ch) == Stay(MatchName(f, ch, Token(ch)).(nread := n), Take(Field))
  {
    hide Token, Match;
  }

  /** The name loop stops: at the end of the data, or at a byte that is no token. */
  lemma LagEnd(cfg: Config, g: Fields, calls: Log, marks: Marks, data: seq<byte>, base: nat, start: nat, p: nat,
               target: Outcome)
    requires Lag(cfg, g, false, Field, calls, marks, data, base, start, p, target)
    requires g.state.HeaderField? && Inv(g, true) && g.nread == base + 1
    requires p < |data| ==> Token(data[p]) == '\0'
    ensures var total := base + (p - start);
            p == |data| ==>
              && (total <= HTTP_MAX_HEADER_SIZE ==>
                    TracksAt(cfg, g.(nread := total), calls, data, p, marks, Marked(Field), false, target))
              && (total > HTTP_MAX_HEADER_SIZE ==> target == Failed(HeaderOverflow))
    ensures var total := base + (p + 1 - start);
            p < |data| ==>
              && (total > HTTP_MAX_HEADER_SIZE ==> target == Failed(HeaderOverflow))
              && (total <= HTTP_MAX_HEADER_SIZE && data[p] != ':' ==> target == Failed(InvalidHeaderToken))
    ensures MarksAre(marks, Marked(Field), p)
  {
    hide Call, Passes, Merged, Dispatch;
    if base + (p - start) <= HTTP_MAX_HEADER_SIZE {
      var m := Machine(g.(nread := base + (p - start)), false, Pending(calls, marks, Marked(Field), data, p));
      ScanMatters(cfg, m, data[p..]);
      if p == |data| {
      } else if m.f.nread == HTTP_MAX_HEADER_SIZE {
        CallOverflow(cfg, m, data, p, p > start);
      } else if data[p] != ':' {
        BadName(cfg, Counted(m.f), data[p]);
        CallErr(cfg, m, data, p, p > start, InvalidHeaderToken);
      }
    }
  }

  lemma BadName(cfg: Config, f: Fields, ch: byte)
    requires f.state.HeaderField? && Token(ch) == '\0'
    ensures Dispatch(cfg, f, false, ch) ==
            if ch == ':' then Stay(f.(state := HeaderValueDiscardWs), Flush(Field)) else Err(InvalidHeaderToken)
  {
  }

  lemma LeaveStretch(f: Fields, n: nat, counted: bool)
    requires Inv(f, true) && n <= HTTP_MAX_HEADER_SIZE
    ensures f.state.HeaderField? ==> Inv(f.(nread := n, state := HeaderValueDiscardWs), counted)
    ensures f.state.HeaderValue? ==> Inv(f.(nread := n, state := HeaderAlmostDone), counted)
  {
    hide NameState, ValueState, MatcherInRange;
  }

  lemma LagColon(cfg: Config, g: Fields, calls: Log, calls': Log, marks: Marks, data: seq<byte>, base: nat,
                 start: nat, p: nat, target: Outcome)
    requires Lag(cfg, g, false, Field, calls, marks, data, base, start, p, target)
    requires g.state.HeaderField? && Inv(g, true) && g.nread == base + 1
    requires p < |data| && data[p] == ':' && base + (p + 1 - start) <= HTTP_MAX_HEADER_SIZE
    requires Merged(calls') == Pending(calls, marks, Marked(Field), data, p)
    ensures TracksAt(cfg, g.(nread := base + (p + 1 - start), state := HeaderValueDiscardWs), calls', data, p + 1,
                     map[], Unmarked, false, target)
  {
    assert start <= p;
    hide Call, Merged, Inv, Lag, Dispatch;
    LagColonRun(cfg, g, calls, calls', marks, data, base, start, p, target);
    Unmarking(cfg, g.(nread := base + (p + 1 - start), state := HeaderValueDiscardWs), calls', data, p + 1, target);
    LeaveStretch(g, base + (p + 1 - start), false);
  }

  /** Between lines no mark is set and nothing is asked of the log. */
  lemma Unmarking(cfg: Config, f: Fields, calls: Log, data: seq<byte>, q: nat, target: Outcome)
    requires f.state.HeaderValueDiscardWs? || f.state.HeaderAlmostDone?
    requires q <= |data|
    ensures MarksAre(map[], Unmarked, q) && Pending(calls, map[], Unmarked, data, q) == Merged(calls)
    ensures MarkFits(f.state, Unmarked) && LogFits(f.state, Merged(calls))
  {
    hide Merged;
  }

  lemma LagColonRun(cfg: Config, g: Fields, calls: Log, calls': Log, marks: Marks, data: seq<byte>, base: nat,
                    start: nat, p: nat, target: Outcome)
    requires Lag(cfg, g, false, Field, calls, marks, data, base, start, p, target) && g.state.HeaderField?
    requires p < |data| && data[p] == ':' && base + (p + 1 - start) <= HTTP_MAX_HEADER_SIZE
    requires Merged(calls') == Pending(calls, marks, Marked(Field), data, p)
    ensures target == Call(cfg, Machine(g.(nread := base + (p + 1 - start), state := HeaderValueDiscardWs), false,
                                        Merged(calls')), data[p + 1..], false)
  {
    hide Call, Passes, Merged, Dispatch, Absorb, LastIs;
    var m := Machine(g.(nread := base + (p - start)), false, Pending(calls, marks, Marked(Field), data, p));
    BadName(cfg, Counted(m.f), data[p]);
    CallStay(cfg, m, data, p, p > start, Counted(m.f).(state := HeaderValueDiscardWs), Flush(Field));
    FlushEffect(calls, marks, Field, Marked(Field), data, p);
  }

  lemma ValueDispatch(cfg: Config, f: Fields, unchecked: bool, ch: byte)
    requires f.state.HeaderValue?
    ensures var a, done := Dispatch(cfg, f, unchecked, ch), f.(state := HeaderAlmostDone);
            && (ch == CR ==> a == Stay(done, Flush(Value)))
            && (ch == LF ==> a == Again(done, Flush(Value)))
            && (ch != CR && ch != LF && (unchecked || cfg.lenient || IsHeaderChar(ch)) ==> a == ValueByte(f, ch))
            && (ch != CR && ch != LF && !(unchecked || cfg.lenient || IsHeaderChar(ch)) ==> a == Err(InvalidHeaderToken))
  {
    hide ValueByte;
  }

  lemma BadValue(cfg: Config, f: Fields, ch: byte, base: nat, start: nat, p: nat)
    requires f.state.HeaderValue? && ch != CR && ch != LF && !cfg.lenient && !IsHeaderChar(ch) && start <= p
    ensures Dispatch(cfg, f.(nread := base + (p + 1 - start)), false, ch) == Err(InvalidHeaderToken)
  {
    ValueDispatch(cfg, f.(nread := base + (p + 1 - start)), false, ch);
    hide Dispatch;
  }

  lemma ValueUncounted(f: Fields, ch: byte, n: nat)
    requires Inv(f, true) && f.state.HeaderValue?
    ensures var a, b := ValueByte(f, ch), ValueByte(f.(nread := n), ch);
            && (a.Err? ==> b == a)
            && (!a.Err? ==> a.Stay? && a.effect == Take(Value) && b == Stay(a.f.(nread := n), Take(Value)))
            && (!a.Err? ==> a.f.state.HeaderValue? && a.f.nread == f.nread && Inv(a.f, true))
            && (!a.Err? && f.headerState.General? ==> a.f == f)
  {
    ValueInv(f, ch);
    ValueShape(f, ch, n);
    hide ValueByte;
  }

  lemma ValueShape(f: Fields, ch: byte, n: nat)
    requires f.state.HeaderValue?
    ensures var a, b := ValueByte(f, ch), ValueByte(f.(nread := n), ch);
            && (a.Err? ==> b == a)
            && (!a.Err? ==> a.Stay? && a.effect == Take(Value) && b == Stay(a.f.(nread := n), Take(Value)))
            && (!a.Err? ==> a.f.state.HeaderValue? && a.f.nread == f.nread)
            && (!a.Err? && f.headerState.General? ==> a.f == f)
  {
    hide Match, Token, WithFlag;
  }

  /** A byte that the scan rejects is what the call reports, late or not. */
  lemma LagValueErr(cfg: Config, g: Fields, calls: Log, marks: Marks, data: seq<byte>, base: nat, start: nat, p: nat,
                    target: Outcome, e: Errno)
    requires Lag(cfg, g, false, Value, calls, marks, data, base, start, p, target) && p < |data|
    requires base < HTTP_MAX_HEADER_SIZE && g.state.HeaderValue?
    requires Dispatch(cfg, g.(nread := base + (p + 1 - start)), false, data[p]) == Err(e)
    requires ScanError(cfg, Uncounted(g), false, data[p..]) == e
    ensures target == Failed(e)
  {
    hide Call, Passes, Merged, Dispatch, ScanError;
    var m := Machine(g.(nread := base + (p - start)), false, Pending(calls, marks, Marked(Value), data, p));
    if m.f.nread < HTTP_MAX_HEADER_SIZE {
      CallErr(cfg, m, data, p, p > start, e);
    } else if m.f.nread == HTTP_MAX_HEADER_SIZE {
      LateCall(cfg, m, data[p..]);
    }
  }

  lemma BadScanned(cfg: Config, g: Fields, data: seq<byte>, p: nat)
    requires p < |data| && data[p] != CR && data[p] != LF
    ensures !cfg.lenient && !IsHeaderChar(data[p]) ==>
              ScanError(cfg, Uncounted(g), false, data[p..]) == InvalidHeaderToken
    ensures (cfg.lenient || IsHeaderChar(data[p])) && ValueByte(Uncounted(g), data[p]).Err? ==>
              ScanError(cfg, Uncounted(g), false, data[p..]) == ValueByte(Uncounted(g), data[p]).errno
  {
    hide ValueByte, IsHeaderChar;
  }

  lemma LagValue(cfg: Config, g: Fields, calls: Log, marks: Marks, data: seq<byte>, base: nat, start: nat, p: nat,
                 target: Outcome)
    requires Lag(cfg, g, false, Value, calls, marks, data, base, start, p, target) && p < |data|
    requires g.state.HeaderValue? && Inv(g, true) && data[p] != CR && data[p] != LF && base < HTTP_MAX_HEADER_SIZE
    requires cfg.lenient || IsHeaderChar(data[p])
    ensures var a := ValueByte(g, data[p]);
            && (a.Err? ==> target == Failed(a.errno))
            && (!a.Err? ==> Lag(cfg, a.f, Skips(g), Value, calls, marks, data, base, start, p + 1, target))
            && (!a.Err? ==> a.f.state.HeaderValue? && a.f.nread == g.nread && Inv(a.f, true))
            && (!a.Err? && g.headerState.General? ==> a.f == g)
  {
    hide Call, Passes, Merged, Dispatch, ValueByte, Inv, Pending, IsHeaderChar, Absorb, ScanError;
    var a := ValueByte(g, data[p]);
    var n := base + (p + 1 - start);
    ValueDispatch(cfg, g.(nread := n), false, data[p]);
    ValueUncounted(g, data[p], n);
    ValueUncounted(g, data[p], 0);
    hide Lag;
    if a.Err? {
      BadScanned(cfg, g, data, p);
      LagValueErr(cfg, g, calls, marks, data, base, start, p, target, a.errno);
    } else {
      LagTake(cfg, g, Value, calls, marks, data, base, start, p, target, a.f);
    }
  }

  /** The skip: the reference run tests the first byte only, then takes the rest
      of the stretch. If memchr's limit was reached, it overflows. */
  lemma LagSkip(cfg: Config, g: Fields, calls: Log, marks: Marks, data: seq<byte>, base: nat, start: nat, p: nat,
                limit: nat, r: nat, target: Outcome)
    requires Lag(cfg, g, false, Value, calls, marks, data, base, start, p, target) && p < |data|
    requires g.state.HeaderValue? && Inv(g, true) && data[p] != CR && data[p] != LF && Skips(g)
    requires (cfg.lenient || IsHeaderChar(data[p])) && base < HTTP_MAX_HEADER_SIZE
    requires limit == if |data| - p < HTTP_MAX_HEADER_SIZE then |data| - p else HTTP_MAX_HEADER_SIZE
    requires p <= r <= |data|
    requires r < |data| ==> r < p + limit && (data[r] == CR || data[r] == LF) && NoLineEnd(data[p..r])
    requires r == |data| ==> NoLineEnd(data[p..p + limit])
    ensures r > p && Lag(cfg, g, true, Value, calls, marks, data, base, start, r, target)
  {
    assert start <= p && p < r;
    hide Lag, Inv, IsHeaderChar, Skips;
    var scanned := if r < |data| then r else p + limit;
    LagSkipped(cfg, g, calls, marks, data, base, start, p, scanned, target);
    if scanned < r {
      LagOver(cfg, g, calls, marks, data, base, start, p, scanned, target);
    }
  }

  lemma LagSkipped(cfg: Config, g: Fields, calls: Log, marks: Marks, data: seq<byte>, base: nat, start: nat, p: nat,
                   r: nat, target: Outcome)
    requires Lag(cfg, g, false, Value, calls, marks, data, base, start, p, target) && p < r <= |data|
    requires g.state.HeaderValue? && Inv(g, true) && data[p] != CR && data[p] != LF && Skips(g)
    requires (cfg.lenient || IsHeaderChar(data[p])) && NoLineEnd(data[p..r]) && base < HTTP_MAX_HEADER_SIZE
    ensures Lag(cfg, g, true, Value, calls, marks, data, base, start, r, target)
  {
    assert start <= p;
    hide Lag, Inv, IsHeaderChar;
    hide ValueByte, NoLineEnd;
    LagValue(cfg, g, calls, marks, data, base, start, p, target);
    hide Skips;
    RestNoLineEnd(data, p, r);
    LagStretch(cfg, g, calls, marks, data, base, start, p + 1, r, target);
  }

  lemma RestNoLineEnd(data: seq<byte>, p: nat, r: nat)
    requires p < r <= |data| && NoLineEnd(data[p..r])
    ensures NoLineEnd(data[p + 1..r])
  {
    assert data[p + 1..r] == data[p..r][1..];
  }

  lemma LagStretch(cfg: Config, g: Fields, calls: Log, marks: Marks, data: seq<byte>, base: nat, start: nat, q: nat,
                   r: nat, target: Outcome)
    requires Lag(cfg, g, true, Value, calls, marks, data, base, start, q, target) && start < q <= r <= |data|
    requires Skips(g) && NoLineEnd(data[q..r])
    ensures Lag(cfg, g, true, Value, calls, marks, data, base, start, r, target)
  {
    hide Call, Merged, Absorb, ScanError;
    SkipErrno(cfg, g, data[q..]);
    SkipErrno(cfg, g, data[r..]);
    if base + (q - start) <= HTTP_MAX_HEADER_SIZE {
      var log := Pending(calls, marks, Marked(Value), data, q);
      var m := Machine(g.(nread := base + (q - start)), true, log);
      AbsorbedLast(Merged(calls), data[marks[Value]..q]);
      CallSkips(cfg, m, data, q, r);
      AbsorbSplit(Merged(calls), Value, data[marks[Value]..q], data[q..r]);
      assert data[marks[Value]..q] + data[q..r] == data[marks[Value]..r];
    }
  }

  lemma SkipErrno(cfg: Config, f: Fields, rest: seq<byte>)
    requires Skips(f)
    ensures ScanError(cfg, Uncounted(f), true, rest) == HeaderOverflow
  {
  }

  lemma LagOver(cfg: Config, g: Fields, calls: Log, marks: Marks, data: seq<byte>, base: nat, start: nat, p: nat,
                q: nat, target: Outcome)
    requires Lag(cfg, g, true, Value, calls, marks, data, base, start, q, target)
    requires start <= p && q == p + HTTP_MAX_HEADER_SIZE < |data| && Skips(g)
    ensures Lag(cfg, g, true, Value, calls, marks, data, base, start, |data|, target)
  {
    hide Call, Merged, ScanError;
    SkipErrno(cfg, g, data[q..]);
    SkipErrno(cfg, g, data[|data|..]);
    if base + (q - start) <= HTTP_MAX_HEADER_SIZE {
      var m := Machine(g.(nread := base + (q - start)), true, Pending(calls, marks, Marked(Value), data, q));
      LateCall(cfg, m, data[q..]);
    }
  }

  /** The value loop stops without an error. */
  lemma LagValueEnd(cfg: Config, g: Fields, skip: bool, calls: Log, marks: Marks, data: seq<byte>, base: nat,
                    start: nat, p: nat, target: Outcome)
    requires Lag(cfg, g, skip, Value, calls, marks, data, base, start, p, target)
    requires g.state.HeaderValue? && Inv(g, true) && g.nread == base + 1 && base < HTTP_MAX_HEADER_SIZE
    requires p < |data| ==> data[p] == CR || data[p] == LF
    ensures MarksAre(marks, Marked(Value), p)
    ensures var total := base + (p - start);
            p == |data| ==>
              && (total <= HTTP_MAX_HEADER_SIZE ==>
                    TracksAt(cfg, g.(nread := total), calls, data, p, marks, Marked(Value), skip, target))
              && (total > HTTP_MAX_HEADER_SIZE ==> target == Failed(HeaderOverflow))
    ensures p < |data| && base + (p + 1 - start) > HTTP_MAX_HEADER_SIZE ==> target == Failed(HeaderOverflow)
  {
    hide Call, Passes, Merged, Dispatch, ScanError;
    var m := Machine(g.(nread := base + (p - start)), skip, Pending(calls, marks, Marked(Value), data, p));
    ScanEnds(cfg, g, skip, data[p..]);
    if p == |data| {
      ScanMatters(cfg, m, data[p..]);
    } else if m.f.nread == HTTP_MAX_HEADER_SIZE {
      LateCall(cfg, m, data[p..]);
    }
  }

  lemma ScanEnds(cfg: Config, f: Fields, skip: bool, rest: seq<byte>)
    requires rest == [] || rest[0] == CR || rest[0] == LF
    ensures ScanError(cfg, Uncounted(f), skip, rest) == HeaderOverflow
  {
  }

  lemma LagCr(cfg: Config, g: Fields, skip: bool, calls: Log, calls': Log, marks: Marks, data: seq<byte>, base: nat,
              start: nat, p: nat, target: Outcome)
    requires Lag(cfg, g, skip, Value, calls, marks, data, base, start, p, target)
    requires g.state.HeaderValue? && Inv(g, true) && g.nread == base + 1
    requires p < |data| && data[p] == CR && base + (p + 1 - start) <= HTTP_MAX_HEADER_SIZE
    requires Merged(calls') == Pending(calls, marks, Marked(Value), data, p)
    ensures TracksAt(cfg, g.(nread := base + (p + 1 - start), state := HeaderAlmostDone), calls', data, p + 1,
                     map[], Unmarked, false, target)
  {
    assert start <= p;
    hide Call, Merged, Inv, Lag, Dispatch;
    LagCrRun(cfg, g, skip, calls, calls', marks, data, base, start, p, target);
    Unmarking(cfg, g.(nread := base + (p + 1 - start), state := HeaderAlmostDone), calls', data, p + 1, target);
    LeaveStretch(g, base + (p + 1 - start), false);
  }

  lemma LagCrRun(cfg: Config, g: Fields, skip: bool, calls: Log, calls': Log, marks: Marks, data: seq<byte>,
                 base: nat, start: nat, p: nat, target: Outcome)
    requires Lag(cfg, g, skip, Value, calls, marks, data, base, start, p, target) && g.state.HeaderValue?
    requires p < |data| && data[p] == CR && base + (p + 1 - start) <= HTTP_MAX_HEADER_SIZE
    requires Merged(calls') == Pending(calls, marks, Marked(Value), data, p)
    ensures target == Call(cfg, Machine(g.(nread := base + (p + 1 - start), state := HeaderAlmostDone), false,
                                        Merged(calls')), data[p + 1..], false)
  {
    hide Call, Passes, Merged, Dispatch, Absorb, LastIs, ScanError, ValueByte, IsHeaderChar;
    var m := Machine(g.(nread := base + (p - start)), skip, Pending(calls, marks, Marked(Value), data, p));
    ValueDispatch(cfg, Counted(m.f), m.skip && Skips(m.f), data[p]);
    CallStay(cfg, m, data, p, p > start, Counted(m.f).(state := HeaderAlmostDone), Flush(Value));
    FlushEffect(calls, marks, Value, Marked(Value), data, p);
    ScanMatters(cfg, Machine(Counted(m.f).(state := HeaderAlmostDone), false, Merged(calls')), data[p + 1..]);
  }

  lemma LagLf(cfg: Config, g: Fields, skip: bool, calls: Log, calls': Log, marks: Marks, data: seq<byte>, base: nat,
              start: nat, p: nat, target: Outcome)
    requires Lag(cfg, g, skip, Value, calls, marks, data, base, start, p, target)
    requires g.state.HeaderValue? && Inv(g, true) && g.nread == base + 1
    requires p < |data| && data[p] == LF && base + (p + 1 - start) <= HTTP_MAX_HEADER_SIZE
    requires Merged(calls') == Pending(calls, marks, Marked(Value), data, p)
    ensures TracksPassAt(cfg, g.(nread := base + (p + 1 - start), state := HeaderAlmostDone), calls', data, p,
                         map[], Unmarked, target)
  {
    assert start <= p;
    hide Call, Merged, Inv, Lag, Dispatch, Passes;
    LagLfRun(cfg, g, skip, calls, calls', marks, data, base, start, p, target);
    Unmarking(cfg, g.(nread := base + (p + 1 - start), state := HeaderAlmostDone), calls', data, p, target);
    LeaveStretch(g, base + (p + 1 - start), true);
  }

  lemma LagLfRun(cfg: Config, g: Fields, skip: bool, calls: Log, calls': Log, marks: Marks, data: seq<byte>,
                 base: nat, start: nat, p: nat, target: Outcome)
    requires Lag(cfg, g, skip, Value, calls, marks, data, base, start, p, target) && g.state.HeaderValue?
    requires p < |data| && data[p] == LF && base + (p + 1 - start) <= HTTP_MAX_HEADER_SIZE
    requires Merged(calls') == Pending(calls, marks, Marked(Value), data, p)
    ensures target ==
            CallResume(cfg, Passes(cfg, Machine(g.(nread := base + (p + 1 - start), state := HeaderAlmostDone), false,
                                                Merged(calls')), data[p]), data[p + 1..], false)
  {
    hide Call, Passes, Merged, Dispatch, Absorb, LastIs;
    var m := Machine(g.(nread := base + (p - start)), skip, Pending(calls, marks, Marked(Value), data, p));
    ValueDispatch(cfg, Counted(m.f), m.skip && Skips(m.f), data[p]);
    CallAgain(cfg, m, data, p, p > start, Counted(m.f).(state := HeaderAlmostDone), Flush(Value));
    FlushEffect(calls, marks, Value, Marked(Value), data, p);
    LineDone(cfg, Machine(Counted(m.f).(state := HeaderAlmostDone), false, Merged(calls')), data[p + 1..]);
  }

  lemma LineStep(cfg: Config, f: Fields)
    requires f.state.HeaderAlmostDone?
    ensures Dispatch(cfg, f, false, LF) == Stay(f.(state := HeaderValueLws), Quiet)
  {
  }

  lemma LineDone(cfg: Config, m: Machine, rest: seq<byte>)
    requires m.f.state.HeaderAlmostDone?
    ensures CallResume(cfg, Passes(cfg, m, LF), rest, true) == CallResume(cfg, Passes(cfg, m, LF), rest, false)
  {
    hide Call, Passes;
    PassesStep(cfg, m, LF);
    ScanMatters(cfg, Machine(m.f.(state := HeaderValueLws), false, m.log), rest);
    LineStep(cfg, m.f);
    hide Dispatch;
  }

  /** What a body state guarantees when its bytes are about to be read. */
  lemma BodyOpen(cfg: Config, f: Fields, calls: Log, data: seq<byte>, q: nat, marks: Marks, slot: Slot, target: Outcome)
    requires TracksAt(cfg, f, calls, data, q, marks, slot, false, target)
    requires f.state.BodyIdentity? || f.state.BodyIdentityEof? || f.state.ChunkData?
    ensures MarksAre(marks, slot, q) && (slot == Unmarked || slot == Marked(Body))
    ensures !f.state.BodyIdentityEof? ==> 0 < f.contentLength < ULLONG_MAX
  {
  }

  lemma Later(marks: Marks, k: DataKind, p: nat, q: nat)
    requires MarksAre(marks, Marked(k), p) && p <= q
    ensures MarksAre(marks, Marked(k), q)
  {
  }

  ghost predicate Reopened(calls: Log, data: seq<byte>, q: nat, marks: Marks, slot: Slot, marks': Marks)
  {
    && q <= |data| && MarksAre(marks, slot, q) && MarksAre(marks', Marked(Body), q)
    && Pending(calls, marks', Marked(Body), data, q) == Absorb(Pending(calls, marks, slot, data, q), Data(Body, []))
  }

  lemma Extended(calls: Log, data: seq<byte>, q: nat, r: nat, marks: Marks, slot: Slot, marks': Marks)
    requires Reopened(calls, data, q, marks, slot, marks') && q <= r <= |data|
    ensures MarksAre(marks', Marked(Body), r)
    ensures Pending(calls, marks', Marked(Body), data, r) ==
            Absorb(Pending(calls, marks, slot, data, q), Data(Body, data[q..r]))
  {
    hide Merged, Absorb;
    var at := marks'[Body];
    AbsorbSplit(Merged(calls), Body, data[at..q], data[q..r]);
    assert data[at..q] + data[q..r] == data[at..r];
    AbsorbSplit(Pending(calls, marks, slot, data, q), Body, [], data[q..r]);
    assert [] + data[q..r] == data[q..r];
  }

  /** A stretch of body that leaves some of the length. */
  lemma BodyTracks(cfg: Config, f: Fields, calls: Log, data: seq<byte>, q: nat, r: nat, marks: Marks, slot: Slot,
                   marks': Marks, target: Outcome)
    requires TracksAt(cfg, f, calls, data, q, marks, slot, false, target) && q < r <= |data|
    requires Reopened(calls, data, q, marks, slot, marks')
    requires f.state.BodyIdentityEof? || ((f.state.BodyIdentity? || f.state.ChunkData?) && r - q < f.contentLength)
    ensures TracksAt(cfg, if f.state.BodyIdentityEof? then f else f.(contentLength := f.contentLength - (r - q)), calls,
                     data, r, marks', Marked(Body), false, target)
  {
    hide Call, Merged, Absorb, MatcherInRange, Reopened;
    CallBody(cfg, Machine(f, false, Pending(calls, marks, slot, data, q)), data, q, r);
    Extended(calls, data, q, r, marks, slot, marks');
  }

  /** All but the last byte of a body stretch that uses up the length. */
  lemma AllButLast(cfg: Config, f: Fields, calls: Log, data: seq<byte>, q: nat, p: nat, marks: Marks, slot: Slot,
                   marks': Marks, target: Outcome) returns (log: Log)
    requires TracksAt(cfg, f, calls, data, q, marks, slot, false, target) && q <= p < |data|
    requires Reopened(calls, data, q, marks, slot, marks')
    requires (f.state.BodyIdentity? || f.state.ChunkData?) && p + 1 - q == f.contentLength
    ensures MarksAre(marks', Marked(Body), p)
    ensures target == Call(cfg, Machine(f.(contentLength := 1), false, log), data[p..], false)
    ensures MarksAre(marks', Marked(Body), p + 1)
    ensures Pending(calls, marks', Marked(Body), data, p + 1) == Absorb(log, Data(Body, [data[p]]))
  {
    hide Call, Merged, Absorb, Inv, Pending;
    log := Pending(calls, marks, slot, data, q);
    Extended(calls, data, q, p, marks, slot, marks');
    Extended(calls, data, q, p + 1, marks, slot, marks');
    hide Reopened;
    if q < p {
      CallBody(cfg, Machine(f, false, log), data, q, p);
      AbsorbSplit(log, Body, data[q..p], [data[p]]);
      assert data[q..p] + [data[p]] == data[q..p + 1];
      log := Absorb(log, Data(Body, data[q..p]));
    } else {
      assert data[q..p + 1] == [data[p]];
    }
    assert f.(contentLength := 1) == f.(contentLength := f.contentLength - (p - q));
    assert target == Call(cfg, Machine(f.(contentLength := 1), false, log), data[p..], false);
  }

  lemma LastChunkByte(cfg: Config, f: Fields, ch: byte)
    requires f.state.ChunkData? && Inv(f, false)
    ensures var done := f.(contentLength := 0, state := ChunkDataAlmostDone);
            && Dispatch(cfg, f.(contentLength := 1), false, ch) == Stay(done, MarkTake(Body))
            && Inv(done, false) && f.nread <= HTTP_MAX_HEADER_SIZE
  {
    hide NameState, ValueState, MatcherInRange;
  }

  lemma LastIdentityDispatch(cfg: Config, f: Fields, ch: byte)
    requires f.state.BodyIdentity? && Inv(f, false)
    ensures var done := f.(contentLength := 0, state := MessageDone);
            && Dispatch(cfg, f.(contentLength := 1), false, ch) == Again(done, MarkTakeFlush(Body))
            && Inv(done, true) && f.nread <= HTTP_MAX_HEADER_SIZE
  {
    hide NameState, ValueState, MatcherInRange;
  }

  lemma ChunkTracks(cfg: Config, f: Fields, calls: Log, data: seq<byte>, q: nat, p: nat, marks: Marks, slot: Slot,
                    marks': Marks, target: Outcome)
    requires TracksAt(cfg, f, calls, data, q, marks, slot, false, target) && q <= p < |data|
    requires Reopened(calls, data, q, marks, slot, marks')
    requires f.state.ChunkData? && p + 1 - q == f.contentLength
    ensures TracksAt(cfg, f.(contentLength := 0, state := ChunkDataAlmostDone), calls, data, p + 1, marks',
                     Marked(Body), false, target)
  {
    hide TracksAt, Call, Merged, Absorb, Reopened, Pending, MarksAre;
    BodyLengthKnown(cfg, f, calls, data, q, marks, slot, target);
    var log := AllButLast(cfg, f, calls, data, q, p, marks, slot, marks', target);
    LastChunkTracks(cfg, f, log, calls, data, p, marks', target);
  }

  lemma LastChunkTracks(cfg: Config, f: Fields, log: Log, calls: Log, data: seq<byte>, p: nat, marks: Marks,
                        target: Outcome)
    requires f.state.ChunkData? && Inv(f, false) && p < |data| && MarksAre(marks, Marked(Body), p + 1)
    requires target == Call(cfg, Machine(f.(contentLength := 1), false, log), data[p..], false)
    requires Pending(calls, marks, Marked(Body), data, p + 1) == Absorb(log, Data(Body, [data[p]]))
    ensures TracksAt(cfg, f.(contentLength := 0, state := ChunkDataAlmostDone), calls, data, p + 1, marks,
                     Marked(Body), false, target)
  {
    LastChunkByte(cfg, f, data[p]);
    hide Call, Merged, Dispatch, Passes, Inv, MarksAre, Pending;
    CallStay(cfg, Machine(f.(contentLength := 1), false, log), data, p, false,
             f.(contentLength := 0, state := ChunkDataAlmostDone), MarkTake(Body));
  }

  lemma IdentityTracks(cfg: Config, f: Fields, calls: Log, calls': Log, data: seq<byte>, q: nat, p: nat, marks: Marks,
                       slot: Slot, marks': Marks, target: Outcome)
    requires TracksAt(cfg, f, calls, data, q, marks, slot, false, target) && q <= p < |data|
    requires Reopened(calls, data, q, marks, slot, marks')
    requires f.state.BodyIdentity? && p + 1 - q == f.contentLength
    requires MarksAre(marks', Marked(Body), p + 1)
    requires Merged(calls') == Pending(calls, marks', Marked(Body), data, p + 1)
    ensures TracksPassAt(cfg, f.(contentLength := 0, state := MessageDone), calls', data, p, map[], Unmarked, target)
  {
    hide TracksAt, TracksPassAt, Call, Merged, Absorb, Reopened, Pending, MarksAre;
    BodyLengthKnown(cfg, f, calls, data, q, marks, slot, target);
    var log := AllButLast(cfg, f, calls, data, q, p, marks, slot, marks', target);
    LastIdentityByte(cfg, f, log, calls', data, p, target);
  }

  lemma BodyLengthKnown(cfg: Config, f: Fields, calls: Log, data: seq<byte>, q: nat, marks: Marks, slot: Slot,
                        target: Outcome)
    requires TracksAt(cfg, f, calls, data, q, marks, slot, false, target)
    ensures Inv(f, false)
  {
  }

  lemma LastIdentityByte(cfg: Config, f: Fields, log: Log, calls: Log, data: seq<byte>, p: nat, target: Outcome)
    requires f.state.BodyIdentity? && Inv(f, false) && p < |data|
    requires target == Call(cfg, Machine(f.(contentLength := 1), false, log), data[p..], false)
    requires Merged(calls) == Absorb(log, Data(Body, [data[p]]))
    ensures TracksPassAt(cfg, f.(contentLength := 0, state := MessageDone), calls, data, p, map[], Unmarked, target)
  {
    LastIdentityDispatch(cfg, f, data[p]);
    hide Call, Merged, Absorb, Dispatch, Passes, Inv;
    CallAgain(cfg, Machine(f.(contentLength := 1), false, log), data, p, false,
              f.(contentLength := 0, state := MessageDone), MarkTakeFlush(Body));
  }

  /** Counting a header byte: it overflows as in the reference run, or a stretch
      loop may start here. */
  lemma CountOne(cfg: Config, f: Fields, calls: Log, data: seq<byte>, q: nat, marks: Marks, slot: Slot, target: Outcome)
    requires TracksAt(cfg, f, calls, data, q, marks, slot, false, target) && q < |data| && ParsingHeader(f.state)
    ensures f.nread + 1 > HTTP_MAX_HEADER_SIZE ==> target == Failed(HeaderOverflow)
    ensures f.nread + 1 <= HTTP_MAX_HEADER_SIZE ==> Inv(f.(nread := f.nread + 1), true)
    ensures MarksAre(marks, slot, q)
    ensures f.state.HeaderField? ==> slot == Marked(Field)
    ensures f.state.HeaderValue? ==> slot == Marked(Value)
    ensures target == Call(cfg, Machine(f, false, Pending(calls, marks, slot, data, q)), data[q..], false)
  {
    hide Call, Merged, MatcherInRange, NameState, ValueState, LogFits;
    if f.nread + 1 > HTTP_MAX_HEADER_SIZE {
      CallOverflow(cfg, Machine(f, false, Pending(calls, marks, slot, data, q)), data, q, false);
    }
  }

  lemma OnePassMore(cfg: Config, f: Fields, calls: Log, data: seq<byte>, q: nat, marks: Marks, slot: Slot,
                    target: Outcome)
    requires TracksAt(cfg, f, calls, data, q, marks, slot, false, target) && q < |data|
    requires (ParsingHeader(f.state) ==> f.nread < HTTP_MAX_HEADER_SIZE) && !f.state.HeaderValue?
    ensures TracksPassAt(cfg, Counted(f), calls, data, q, marks, slot, target)
  {
    hide Call, Merged, MatcherInRange, NameState, ValueState, Passes;
    CallCons(cfg, Machine(f, false, Pending(calls, marks, slot, data, q)), data, q, false);
  }

  lemma EofKeeps(m: Machine)
    requires Reachable(m) && m.f.state.BodyIdentityEof?
    ensures Reachable(m.(log := Absorb(m.log, MessageComplete)))
  {
  }

  lemma StartTracks(cfg: Config, m: Machine, calls: Log, data: seq<byte>)
    requires Reachable(m) && m.log == Merged(calls) && !m.skip && data != []
    ensures TracksAt(cfg, m.f, calls, data, 0, StartMarks(m.f.state), StartSlot(m.f.state), false,
                     Call(cfg, m, data, false))
  {
    hide Call, Inv, Merged, Absorb;
    assert data[0..] == data && data[0..0] == [];
    if StartSlot(m.f.state).Marked? {
      AbsorbNothing(m.log, StartSlot(m.f.state).kind);
    }
  }

  /** A message has been completed. */
  predicate Completes(r: Outcome) {
    !r.Failed? && MessageComplete in r.m.log
  }

  lemma FeedNothing(cfg: Config, m: Machine)
    ensures CallFeed(cfg, m, []) == Running(m)
  {
  }

  lemma {:induction false} MergedComplete(raw: Log)
    ensures MessageComplete in Merged(raw) <==> MessageComplete in raw
  {
    if raw == [] {
    } else {
      var n := |raw| - 1;
      MergedComplete(raw[..n]);
      AbsorbComplete(Merged(raw[..n]), raw[n]);
      assert raw == raw[..n] + [raw[n]];
    }
  }

  lemma AbsorbComplete(log: Log, e: Event)
    ensures MessageComplete in Absorb(log, e) <==> MessageComplete in log || e == MessageComplete
  {
    if |log| > 0 {
      assert log == log[..|log| - 1] + [log[|log| - 1]];
    }
  }

  lemma AtMostOneMark(marks: Marks, slot: Slot, p: nat)
    requires MarksAre(marks, slot, p)
    ensures |marks| <= 1
  {
  }

  /** At the end of the data the left-over mark, if any, is handed over. */
  lemma FinalTracks(cfg: Config, f: Fields, calls: Log, data: seq<byte>, marks: Marks, slot: Slot, skip: bool,
                    target: Outcome)
    requires TracksAt(cfg, f, calls, data, |data|, marks, slot, skip, target)
    ensures MarksAre(marks, slot, |data|)
    ensures target == Running(Machine(f, skip, Pending(calls, marks, slot, data, |data|)))
    ensures Reachable(target.m)
  {
    hide Inv, Merged, Absorb;
    assert data[|data|..] == [];
  }

  lemma FeedForgetsSkip(cfg: Config, r: Outcome, pieces: seq<seq<byte>>)
    ensures r.Running? ==> Agree(CallFeed(cfg, r.m, pieces), CallFeed(cfg, NewCall(r.m), pieces))
  {
    hide Call;
  }
}
