/** Marks and callbacks: which mark can be set in which state, that at most one
    is, and that the last callback before a data state is of its own kind. */
module HttpMarks {
  import opened HttpChars
  import opened HttpMachine
  import opened HttpRun
  import opened HttpInvariant

  datatype Slot = Unmarked | Marked(kind: DataKind)

  /** The mark that can be set between two bytes of one call. Body states may be
      entered without one: the byte that enters them is not body. */
  predicate MarkFits(s: State, slot: Slot) {
    if s.HeaderField? then slot == Marked(Field)
    else if s.HeaderValue? then slot == Marked(Value)
    else if s.ResStatus? then slot == Marked(Status)
    else if InUrl(s) then slot == Marked(Url)
    else if s.ChunkData? || s.ChunkDataAlmostDone? || s.BodyIdentity? || s.BodyIdentityEof? then
      slot == Unmarked || slot == Marked(Body)
    else slot == Unmarked
  }

  /** The mark an effect leaves. */
  function SlotAfter(slot: Slot, e: Effect): Slot {
    match e
    case Quiet => slot
    case Notify(_) => slot
    case Mark(k) => Marked(k)
    case MarkTake(k) => Marked(k)
    case Take(k) => Marked(k)
    case Flush(_) => Unmarked
    case MarkFlush(_) => Unmarked
    case MarkTakeFlush(_) => Unmarked
  }

  /** An effect meets a mark of its own kind or, where it may set one, none; only
      the flush of a chunk's end may find its mark gone (a new call began). */
  predicate EffectFits(s: State, slot: Slot, e: Effect) {
    match e
    case Quiet => true
    case Notify(event) => slot == Unmarked && !event.Data?
    case Take(k) => slot == Marked(k)
    case Flush(k) => slot == Marked(k) || (slot == Unmarked && k == Body && s.ChunkDataAlmostDone?)
    case Mark(k) => slot == Unmarked || slot == Marked(k)
    case MarkTake(k) => slot == Unmarked || slot == Marked(k)
    case MarkFlush(k) => slot == Unmarked || slot == Marked(k)
    case MarkTakeFlush(k) => slot == Unmarked || slot == Marked(k)
  }

  /** When a byte is finished, it belongs to the marked bytes or nothing is marked. */
  predicate TakesLast(slot: Slot, e: Effect) {
    SlotAfter(slot, e).Marked? ==> e.Take? || e.MarkTake?
  }

  predicate ActFits(s: State, slot: Slot, a: Act) {
    match a
    case Err(_) => true
    case Stay(f, e) =>
      && EffectFits(s, slot, e) && MarkFits(f.state, SlotAfter(slot, e)) && TakesLast(slot, e)
      && (f.state.ChunkDataAlmostDone? ==> e == MarkTake(Body))
    case Again(f, e) =>
      && EffectFits(s, slot, e) && MarkFits(f.state, SlotAfter(slot, e)) && !e.Take? && !e.MarkTake?
      && !f.state.ChunkDataAlmostDone?
    case Leave(f, e) =>
      && EffectFits(s, slot, e) && SlotAfter(slot, e) == Unmarked
      && (f.state.StartReq? || f.state.StartRes? || f.state.Dead?)
  }

  lemma StatusLineMarks(f: Fields, ch: byte, slot: Slot)
    requires InStartLine(f.state) && MarkFits(f.state, slot)
    requires !(f.state.StartReq? || f.state.ReqMethod? || f.state.StartReqOrRes? || f.state.StartRes?)
    ensures ActFits(f.state, slot, DispatchStartLine(f, ch))
  {
    if BehindVersion(f.state) {
      hide DispatchStartLine, ActFits, MarkFits;
      CodeMarks(f, ch, slot);
    } else {
      hide MethodString, Reguess, MethodOfLetter;
    }
  }

  lemma CodeMarks(f: Fields, ch: byte, slot: Slot)
    requires BehindVersion(f.state) && MarkFits(f.state, slot)
    ensures ActFits(f.state, slot, DispatchStartLine(f, ch))
  {
    hide MethodString, Reguess, MethodOfLetter;
  }

  lemma StartLineMarks(f: Fields, ch: byte, slot: Slot)
    requires InStartLine(f.state) && MarkFits(f.state, slot)
    ensures ActFits(f.state, slot, DispatchStartLine(f, ch))
  {
    hide MethodString, Reguess, MethodOfLetter;
    if !(f.state.StartReq? || f.state.ReqMethod? || f.state.StartReqOrRes? || f.state.StartRes?) {
      hide ActFits, DispatchStartLine;
      StatusLineMarks(f, ch, slot);
    }
  }

  lemma UrlMarks(f: Fields, ch: byte, slot: Slot)
    requires InUrl(f.state) && slot == Marked(Url)
    ensures ActFits(f.state, slot, UrlByte(f, ch))
  {
    hide ParseUrlChar;
  }

  lemma RequestLineMarks(f: Fields, ch: byte, slot: Slot)
    requires InRequestLine(f.state) && MarkFits(f.state, slot)
    ensures ActFits(f.state, slot, DispatchRequestLine(f, ch))
  {
    hide ParseUrlChar, UrlByte;
    if InUrl(f.state) {
      hide ActFits;
      UrlMarks(f, ch, slot);
    }
  }

  lemma ValueMarks(f: Fields, ch: byte, slot: Slot)
    requires f.state.HeaderValue? && slot == Marked(Value)
    ensures ActFits(f.state, slot, ValueByte(f, ch))
  {
    hide Token, Match, WithFlag;
  }

  lemma ValueStartMarks(f: Fields, ch: byte, slot: Slot)
    requires slot == Unmarked
    ensures ActFits(f.state, slot, ValueStart(f, ch))
  {
  }

  lemma NameKeepsState(f: Fields, ch: byte)
    ensures MatchName(f, ch, Token(ch)).state == f.state
  {
    hide Token, Match;
  }

  lemma EndMarks(cfg: Config, f: Fields, ch: byte)
    ensures ActFits(f.state, Unmarked, EndOfHeaders(cfg, f, ch)) && ActFits(f.state, Unmarked, StartBody(f, ch))
  {
    hide NewMessage, NeedsEof;
  }

  lemma ValuePassMarks(cfg: Config, f: Fields, unchecked: bool, ch: byte, slot: Slot)
    requires f.state.HeaderValue? || f.state.HeaderValueStart? || f.state.HeaderValueDiscardWs?
    requires MarkFits(f.state, slot)
    ensures ActFits(f.state, slot, DispatchHeaders(cfg, f, unchecked, ch))
  {
    hide ValueByte, ValueStart, IsHeaderChar;
    if f.state.HeaderValue? {
      ValueMarks(f, ch, slot);
    } else {
      ValueStartMarks(f, ch, slot);
    }
  }

  lemma LineMarks(cfg: Config, f: Fields, unchecked: bool, ch: byte, slot: Slot)
    requires InHeaders(f.state) && MarkFits(f.state, slot)
    requires !(f.state.HeaderValue? || f.state.HeaderValueStart? || f.state.HeaderValueDiscardWs?)
    requires !(f.state.HeadersAlmostDone? || f.state.HeadersDone?)
    ensures ActFits(f.state, slot, DispatchHeaders(cfg, f, unchecked, ch))
  {
    NameKeepsState(f, ch);
    hide MatchName, Token, ValueByte, ValueStart, WithFlag, FirstNameState;
  }

  lemma HeadersMarks(cfg: Config, f: Fields, unchecked: bool, ch: byte, slot: Slot)
    requires InHeaders(f.state) && MarkFits(f.state, slot)
    ensures ActFits(f.state, slot, DispatchHeaders(cfg, f, unchecked, ch))
  {
    if f.state.HeaderValue? || f.state.HeaderValueStart? || f.state.HeaderValueDiscardWs? {
      hide ActFits, DispatchHeaders;
      ValuePassMarks(cfg, f, unchecked, ch, slot);
    } else if f.state.HeadersAlmostDone? || f.state.HeadersDone? {
      hide ActFits, EndOfHeaders, StartBody;
      EndMarks(cfg, f, ch);
    } else {
      hide ActFits, DispatchHeaders;
      LineMarks(cfg, f, unchecked, ch, slot);
    }
  }

  lemma BodyMarks(f: Fields, ch: byte, slot: Slot)
    requires InBody(f.state) && MarkFits(f.state, slot)
    ensures ActFits(f.state, slot, DispatchBody(f, ch))
  {
    hide NewMessage, Unhex;
  }

  lemma DispatchMarks(cfg: Config, f: Fields, unchecked: bool, ch: byte, slot: Slot)
    requires MarkFits(f.state, slot)
    ensures ActFits(f.state, slot, Dispatch(cfg, f, unchecked, ch))
  {
    hide ActFits, DispatchStartLine, DispatchRequestLine, DispatchHeaders, DispatchBody, MarkFits;
    if InStartLine(f.state) {
      StartLineMarks(f, ch, slot);
    } else if InRequestLine(f.state) {
      RequestLineMarks(f, ch, slot);
    } else if InHeaders(f.state) {
      HeadersMarks(cfg, f, unchecked, ch, slot);
    } else {
      BodyMarks(f, ch, slot);
    }
  }

  /** The mark that a new call sets for the state it finds. */
  function StartSlot(s: State): Slot {
    if s.HeaderField? then Marked(Field)
    else if s.HeaderValue? then Marked(Value)
    else if s.ResStatus? then Marked(Status)
    else if InUrl(s) then Marked(Url)
    else Unmarked
  }

  /** In a state whose mark a new call would set, or at the end of a chunk's
      data, the log already ends with data of that kind. */
  predicate LogFits(s: State, log: Log) {
    && (StartSlot(s).Marked? ==> LastIs(log, StartSlot(s).kind))
    && (s.ChunkDataAlmostDone? ==> LastIs(log, Body))
  }

  /** A pass keeps that, whatever mark the present call still holds: if a data
      state is entered or kept, the effect was one on data of that kind. */
  lemma DispatchLog(cfg: Config, m: Machine, unchecked: bool, ch: byte)
    requires LogFits(m.f.state, m.log)
    ensures var a := Dispatch(cfg, m.f, unchecked, ch);
            !a.Err? ==> LogFits(a.f.state, LogEffect(m.log, a.effect, ch))
  {
    hide Dispatch, Absorb;
    var slot := if m.f.state.ChunkDataAlmostDone? then Marked(Body) else StartSlot(m.f.state);
    DispatchMarks(cfg, m.f, unchecked, ch, slot);
    var a := Dispatch(cfg, m.f, unchecked, ch);
  }

  // ---------- Whole bytes and whole runs ----------

  ghost predicate Reachable(m: Machine) {
    Inv(m.f, false) && LogFits(m.f.state, m.log)
  }

  /** The conditions that http_parser_execute asserts in the state it is in. */
  predicate AssertionsHold(f: Fields, ch: byte) {
    && (f.state.HeaderField? && Token(ch) != '\0' ==> NameState(f.headerState))
    && (f.state.HeaderValue? ==> !f.headerState.Connection? && !f.headerState.TransferEncoding?)
    && (f.state.BodyIdentity? || f.state.ChunkData? ==> f.contentLength != 0 && f.contentLength != ULLONG_MAX)
    && (f.state.ChunkSizeStart? ==> f.nread == 1)
    && (f.state.ChunkDataAlmostDone? ==> f.contentLength == 0)
    && (InBody(f.state) && !f.state.BodyIdentity? && !f.state.BodyIdentityEof? && !f.state.MessageDone? ==>
          f.flags.chunked)
  }

  /** The *_mark variables that are set after an effect. */
  function MarksAfter(marks: set<DataKind>, e: Effect): set<DataKind> {
    match e
    case Quiet => marks
    case Notify(_) => marks
    case Take(_) => marks
    case Mark(k) => marks + {k}
    case MarkTake(k) => marks + {k}
    case Flush(k) => marks - {k}
    case MarkFlush(k) => marks - {k}
    case MarkTakeFlush(k) => marks - {k}
  }

  function MarksOf(slot: Slot): (marks: set<DataKind>)
    ensures |marks| <= 1
  {
    if slot.Marked? then {slot.kind} else {}
  }

  lemma OneMark(s: State, slot: Slot, e: Effect)
    requires EffectFits(s, slot, e)
    ensures MarksAfter(MarksOf(slot), e) == MarksOf(SlotAfter(slot, e))
  {
  }

  /** The assertions hold in every pass over a byte, and at most one mark is set. */
  predicate SafeByte(cfg: Config, m: Machine, marks: set<DataKind>, ch: byte)
    decreases Rank(m.f.state)
  {
    && AssertionsHold(m.f, ch) && |marks| <= 1
    && var a := Dispatch(cfg, m.f, m.skip && Skips(m.f), ch);
       (a.Again? ==>
          SafeByte(cfg, Machine(a.f, false, LogEffect(m.log, a.effect, ch)), MarksAfter(marks, a.effect), ch))
  }

  /** The marks when a byte is done. */
  function MarksPast(cfg: Config, m: Machine, marks: set<DataKind>, ch: byte): set<DataKind>
    decreases Rank(m.f.state)
  {
    match Dispatch(cfg, m.f, m.skip && Skips(m.f), ch)
    case Err(_) => marks
    case Stay(_, e) => MarksAfter(marks, e)
    case Leave(_, e) => MarksAfter(marks, e)
    case Again(f, e) => MarksPast(cfg, Machine(f, false, LogEffect(m.log, e, ch)), MarksAfter(marks, e), ch)
  }

  lemma InvAsserts(f: Fields, ch: byte)
    requires Inv(f, true)
    ensures AssertionsHold(f, ch)
  {
    hide Token, MatcherInRange;
  }

  lemma {:induction false} PassesKeep(cfg: Config, m: Machine, slot: Slot, ch: byte) returns (slot': Slot)
    requires Inv(m.f, true) && LogFits(m.f.state, m.log) && MarkFits(m.f.state, slot)
    ensures var r := Passes(cfg, m, ch); !r.Failed? ==> Reachable(r.m)
    ensures Passes(cfg, m, ch).Running? ==>
              MarkFits(Passes(cfg, m, ch).m.f.state, slot') && MarksPast(cfg, m, MarksOf(slot), ch) == MarksOf(slot')
    ensures SafeByte(cfg, m, MarksOf(slot), ch)
    decreases Rank(m.f.state)
  {
    hide Dispatch, Inv, LogFits, LogEffect, AssertionsHold, MarkFits, MarksOf, MarksAfter;
    InvAsserts(m.f, ch);
    DispatchInv(cfg, m.f, m.skip && Skips(m.f), ch);
    DispatchLog(cfg, m, m.skip && Skips(m.f), ch);
    DispatchMarks(cfg, m.f, m.skip && Skips(m.f), ch, slot);
    var a := Dispatch(cfg, m.f, m.skip && Skips(m.f), ch);
    if a.Err? {
      slot' := slot;
    } else {
      slot' := SlotAfter(slot, a.effect);
      OneMark(m.f.state, slot, a.effect);
      if a.Again? {
        slot' := PassesKeep(cfg, Machine(a.f, false, LogEffect(m.log, a.effect, ch)), slot', ch);
      }
    }
  }

  lemma ByteKeeps(cfg: Config, m: Machine, slot: Slot, ch: byte) returns (slot': Slot)
    requires Reachable(m) && MarkFits(m.f.state, slot)
    ensures var r := Byte(cfg, m, ch);
            && (!r.Failed? ==> Reachable(r.m))
            && (r.Running? ==>
                  MarkFits(r.m.f.state, slot') &&
                  MarksPast(cfg, m.(f := Counted(m.f)), MarksOf(slot), ch) == MarksOf(slot'))
    ensures Counted(m.f).nread <= HTTP_MAX_HEADER_SIZE ==> SafeByte(cfg, m.(f := Counted(m.f)), MarksOf(slot), ch)
  {
    hide Passes, SafeByte, MarksPast, MarksOf, MatcherInRange, NameState, ValueState;
    slot' := slot;
    if Counted(m.f).nread <= HTTP_MAX_HEADER_SIZE {
      slot' := PassesKeep(cfg, m.(f := Counted(m.f)), slot, ch);
    }
  }

  /** No assertion fails anywhere in a call, and it ends with at most one mark set. */
  predicate SafeRun(cfg: Config, m: Machine, marks: set<DataKind>, data: seq<byte>)
    decreases |data|
  {
    if data == [] then |marks| <= 1
    else
      && (Counted(m.f).nread <= HTTP_MAX_HEADER_SIZE ==> SafeByte(cfg, m.(f := Counted(m.f)), marks, data[0]))
      && var r := Byte(cfg, m, data[0]);
         (r.Running? ==> SafeRun(cfg, r.m, MarksPast(cfg, m.(f := Counted(m.f)), marks, data[0]), data[1..]))
  }

  lemma {:induction false} RunKeeps(cfg: Config, m: Machine, slot: Slot, data: seq<byte>)
    requires Reachable(m) && MarkFits(m.f.state, slot)
    ensures SafeRun(cfg, m, MarksOf(slot), data)
    ensures var r := Run(cfg, m, data); !r.Failed? ==> Reachable(r.m)
    decreases |data|
  {
    hide Byte, SafeByte, Reachable, MarksPast, MarkFits;
    if data == [] {
    } else {
      var slot' := ByteKeeps(cfg, m, slot, data[0]);
      var r := Byte(cfg, m, data[0]);
      if r.Running? {
        RunKeeps(cfg, r.m, slot', data[1..]);
      }
    }
  }

  /** Every call is safe, from the state it finds, with the mark it sets for that state. */
  predicate SafeFeed(cfg: Config, m: Machine, pieces: seq<seq<byte>>)
    decreases |pieces|
  {
    pieces == [] ||
    (&& SafeRun(cfg, NewCall(m), MarksOf(StartSlot(m.f.state)), pieces[0])
     && var r := Run(cfg, NewCall(m), pieces[0]);
        (r.Running? ==> SafeFeed(cfg, r.m, pieces[1..])))
  }

  lemma StartFits(s: State)
    ensures MarkFits(s, StartSlot(s))
  {
  }

  /** In any sequence of calls from a fresh parser, or from any state such calls
      reach, no assertion fails, and every call ends with at most one mark set. */
  lemma {:induction false} FeedKeeps(cfg: Config, m: Machine, pieces: seq<seq<byte>>)
    requires Reachable(m)
    ensures SafeFeed(cfg, m, pieces)
    ensures var r := Feed(cfg, m, pieces); !r.Failed? ==> Reachable(r.m)
    decreases |pieces|
  {
    hide Run, SafeRun, Inv, LogFits, MarkFits, MarksOf;
    if pieces == [] {
    } else {
      StartFits(m.f.state);
      RunKeeps(cfg, NewCall(m), StartSlot(m.f.state), pieces[0]);
      var r := Run(cfg, NewCall(m), pieces[0]);
      if r.Running? {
        FeedKeeps(cfg, r.m, pieces[1..]);
      }
    }
  }

  lemma InitReachable(kind: MessageKind)
    ensures Reachable(Machine(Init(kind), false, []))
  {
    InitInv(kind);
  }
}
