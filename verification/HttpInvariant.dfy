/** What holds in every reachable state of the parser, and that none of the
    assertions in http_parser_execute can fail. */
module HttpInvariant {
  import opened HttpChars
  import opened HttpMachine

  /** Header states while the name is read and until its value begins. */
  predicate NameState(h: HeaderState) {
    h.General? || h.HC? || h.HCO? || h.HCON? || h.MatchingConnection? || h.MatchingProxyConnection? ||
    h.MatchingContentLength? || h.MatchingTransferEncoding? || h.MatchingUpgrade? ||
    h.Connection? || h.ContentLength? || h.TransferEncoding? || h.Upgrade?
  }

  /** Header states from the first byte of a value on. */
  predicate ValueState(h: HeaderState) {
    h.General? || h.ContentLengthNum? || h.ContentLengthWs? || h.MatchingTransferEncodingChunked? ||
    h.MatchingTokenStart? || h.MatchingKeepAlive? || h.MatchingClose? || h.MatchingUpgradeToken? ||
    h.MatchingToken? || h.TransferEncodingChunked? || h.ConnectionKeepAlive? || h.ConnectionClose? ||
    h.ConnectionUpgrade?
  }

  /** The matcher's index points at a character it has compared, before the last. */
  predicate MatcherInRange(h: HeaderState, i: nat) {
    && (h.HC? || h.MatchingTokenStart? ==> i == 0)
    && (h.HCO? ==> i == 1)
    && (h.HCON? ==> i == 2)
    && (h.MatchingConnection? ==> 3 <= i < |CONNECTION| - 1)
    && (h.MatchingContentLength? ==> 3 <= i < |CONTENT_LENGTH| - 1)
    && (h.MatchingProxyConnection? ==> i < |PROXY_CONNECTION| - 1)
    && (h.MatchingTransferEncoding? ==> i < |TRANSFER_ENCODING| - 1)
    && (h.MatchingUpgrade? || h.MatchingUpgradeToken? ==> i < |UPGRADE| - 1)
    && (h.MatchingTransferEncodingChunked? ==> i < |CHUNKED| - 1)
    && (h.MatchingKeepAlive? ==> i < |KEEP_ALIVE| - 1)
    && (h.MatchingClose? ==> i < |CLOSE| - 1)
  }

  /** A message has begun but no header has been seen. */
  predicate BeforeHeaders(s: State) {
    InRequestLine(s) || (InStartLine(s) && !(s.Dead? || s.StartReqOrRes? || s.StartRes? || s.StartReq?))
  }

  predicate HeaderStateFits(f: Fields) {
    && ((f.state.HeaderField? || f.state.HeaderValueDiscardWs? || f.state.HeaderValueDiscardWsAlmostDone?
         || f.state.HeaderValueDiscardLws?) ==> NameState(f.headerState))
    && ((f.state.HeaderValueStart? || f.state.HeaderValue? || f.state.HeaderAlmostDone?
         || f.state.HeaderValueLws?) ==> ValueState(f.headerState))
    && (f.state.HeaderField? || f.state.HeaderValue? ==> MatcherInRange(f.headerState, f.index))
  }

  predicate LengthFits(f: Fields) {
    && ((f.state.ChunkSizeStart? || f.state.ChunkSize? || f.state.ChunkParameters? || f.state.ChunkSizeAlmostDone?
         || f.state.ChunkData? || f.state.ChunkDataAlmostDone? || f.state.ChunkDataDone?) ==> f.flags.chunked)
    && (f.state.ChunkSize? || f.state.ChunkParameters? || f.state.ChunkSizeAlmostDone? ==>
          f.contentLength < ULLONG_MAX)
    && (f.state.ChunkData? || f.state.BodyIdentity? ==> 0 < f.contentLength < ULLONG_MAX)
    && (f.state.ChunkDataAlmostDone? || f.state.ChunkDataDone? ==> f.contentLength == 0)
    && (f.state.BodyIdentityEof? ==> f.contentLength == ULLONG_MAX && !f.flags.chunked)
  }

  /** The fields in a reachable state (the 7-bit matcher index stays far below
      its limit, the content length within 64 bits); `counted` tells whether the byte about to
      be looked at has already been added to nread. */
  predicate Inv(f: Fields, counted: bool) {
    && HeaderStateFits(f) && LengthFits(f)
    && (f.state.ReqMethod? ==> 1 <= f.index <= |MethodString(f.verb)|)
    && f.index <= 20 && f.statusCode <= 999 && f.contentLength <= ULLONG_MAX && f.nread <= HTTP_MAX_HEADER_SIZE
    && (f.state.ChunkSizeStart? ==> f.nread == if counted then 1 else 0)
    && (f.flags.trailing ==> f.flags.chunked)
    && (BeforeHeaders(f.state) ==> f.flags == NO_FLAGS && f.contentLength == ULLONG_MAX)
    && (InHeaders(f.state) && !f.flags.trailing ==> (f.flags.contentLength <==> f.contentLength != ULLONG_MAX))
  }

  lemma InitInv(kind: MessageKind)
    ensures Inv(Init(kind), false)
  {
  }

  predicate Continues(a: Act) {
    match a
    case Err(_) => true
    case Again(f, _) => Inv(f, true) && !f.state.ChunkSizeStart?
    case Stay(f, _) => Inv(f, false)
    case Leave(f, _) => Inv(f, false)
  }

  predicate BehindVersion(s: State) {
    s.ResHttpEnd? || s.ResFirstStatusCode? || s.ResStatusCode? || s.ResStatusStart? || s.ResStatus? ||
    s.ResLineAlmostDone?
  }

  lemma CodeInv(f: Fields, ch: byte)
    requires Inv(f, true) && BehindVersion(f.state)
    ensures Continues(DispatchStartLine(f, ch))
  {
    hide MatcherInRange, NameState, ValueState, Reguess, MethodOfLetter, MethodString;
  }

  lemma StatusLineInv(f: Fields, ch: byte)
    requires Inv(f, true) && InStartLine(f.state)
    requires !(f.state.StartReqOrRes? || f.state.StartRes? || f.state.StartReq? || f.state.ReqMethod?)
    ensures Continues(DispatchStartLine(f, ch))
  {
    if BehindVersion(f.state) {
      hide DispatchStartLine, Inv, Continues;
      CodeInv(f, ch);
    } else {
      hide MatcherInRange, NameState, ValueState, Reguess, MethodOfLetter;
    }
  }

  lemma StartLineInv(f: Fields, ch: byte)
    requires Inv(f, true) && InStartLine(f.state)
    ensures Continues(DispatchStartLine(f, ch))
  {
    hide MatcherInRange, NameState, ValueState, Reguess;
    if f.state.ReqMethod? {
      MethodIndex(f, ch);
    } else if f.state.StartReqOrRes? || f.state.StartRes? || f.state.StartReq? {
    } else {
      StatusLineInv(f, ch);
    }
  }

  /** The method matcher never reads past the end of its string. */
  lemma MethodIndex(f: Fields, ch: byte)
    requires f.state.ReqMethod? && 1 <= f.index <= |MethodString(f.verb)|
    ensures var a := DispatchStartLine(f, ch);
            && |MethodString(f.verb)| <= 11
            && (a.Stay? && a.f.state.ReqMethod? ==> 1 <= a.f.index <= |MethodString(a.f.verb)|)
  {
  }

  lemma UrlInv(f: Fields, ch: byte)
    requires Inv(f, true) && InUrl(f.state)
    ensures Continues(UrlByte(f, ch))
  {
    hide MatcherInRange, NameState, ValueState, ParseUrlChar;
  }

  lemma RequestLineInv(f: Fields, ch: byte)
    requires Inv(f, true) && InRequestLine(f.state)
    ensures Continues(DispatchRequestLine(f, ch))
  {
    hide MatcherInRange, NameState, ValueState, UrlByte, ParseUrlChar;
    if InUrl(f.state) {
      hide Inv, Continues;
      UrlInv(f, ch);
    } else if !f.state.ReqSpacesBeforeUrl? {
      hide Inv, Continues;
    }
  }

  /** A matcher goes on only before the last character of its string. */
  lemma MatchInRange(s: string, i: nat, c: byte, here: HeaderState, found: HeaderState, lost: HeaderState)
    requires 0 < i < |s|
    ensures var h := Match(s, i, c, here, found, lost);
            h == found || h == lost || (h == here && i < |s| - 1)
  {
  }

  lemma NameFrame(f: Fields, ch: byte, c: byte)
    ensures var g := MatchName(f, ch, c);
            g == f.(headerState := g.headerState, index := g.index) && (f.headerState.General? ==> g == f)
  {
    hide Match;
  }

  lemma NameMatcher(f: Fields, ch: byte)
    requires NameState(f.headerState) && MatcherInRange(f.headerState, f.index) && f.index <= 20
    ensures var g := MatchName(f, ch, Token(ch));
            && NameState(g.headerState) && MatcherInRange(g.headerState, g.index) && g.index <= 20
            && (f.headerState.General? ==> g == f)
            && g == f.(headerState := g.headerState, index := g.index)
  {
    hide Token, Match;
    NameFrame(f, ch, Token(ch));
    var i, c := f.index + 1, Token(ch);
    match f.headerState
    case MatchingConnection => MatchInRange(CONNECTION, i, c, MatchingConnection, Connection, General);
    case MatchingProxyConnection =>
      MatchInRange(PROXY_CONNECTION, i, c, MatchingProxyConnection, Connection, General);
    case MatchingContentLength => MatchInRange(CONTENT_LENGTH, i, c, MatchingContentLength, ContentLength, General);
    case MatchingTransferEncoding =>
      MatchInRange(TRANSFER_ENCODING, i, c, MatchingTransferEncoding, TransferEncoding, General);
    case MatchingUpgrade => MatchInRange(UPGRADE, i, c, MatchingUpgrade, Upgrade, General);
    case _ =>
  }

  lemma NameInv(f: Fields, ch: byte)
    requires Inv(f, true) && f.state.HeaderField?
    ensures Inv(MatchName(f, ch, Token(ch)), false)
  {
    hide Token, MatchName, NameState, MatcherInRange;
    NameMatcher(f, ch);
  }

  predicate SameBodyFlags(a: Flags, b: Flags) {
    a.chunked == b.chunked && a.trailing == b.trailing && a.contentLength == b.contentLength
  }

  lemma TokenFrame(f: Fields, ch: byte)
    ensures var a := TokenEnd(f, ch);
            && a.Stay? && SameFlags(a.f.flags, f.flags, f.headerState)
            && a.f == f.(headerState := a.f.headerState, index := a.f.index, flags := a.f.flags)
  {
    hide WithFlag;
  }

  predicate SameFlags(g: Flags, flags: Flags, h: HeaderState) {
    g == flags || g == WithFlag(flags, h)
  }

  lemma ValueFlags(f: Fields, ch: byte)
    requires ValueState(f.headerState)
    requires !f.headerState.ContentLengthNum? && !f.headerState.ContentLengthWs?
    ensures var a := ValueByte(f, ch);
            && a.Stay?
            && (a.f.flags == f.flags || (Completed(f.headerState) && a.f.flags == WithFlag(f.flags, f.headerState)))
            && a.f == f.(headerState := a.f.headerState, index := a.f.index, flags := a.f.flags)
  {
    hide LengthDigit, NextValueState, OtherValueState, WithFlag, TokenEnd;
    TokenFrame(f, ch);
  }

  predicate Completed(h: HeaderState) {
    h.ConnectionKeepAlive? || h.ConnectionClose? || h.ConnectionUpgrade?
  }

  lemma CompletedFlag(flags: Flags, h: HeaderState)
    requires Completed(h)
    ensures SameBodyFlags(WithFlag(flags, h), flags)
  {
  }

  lemma ValueFrame(f: Fields, ch: byte)
    requires ValueState(f.headerState)
    requires !f.headerState.ContentLengthNum? && !f.headerState.ContentLengthWs?
    ensures var a := ValueByte(f, ch);
            && a.Stay?
            && SameBodyFlags(a.f.flags, f.flags)
            && a.f == f.(headerState := a.f.headerState, index := a.f.index, flags := a.f.flags)
  {
    hide ValueByte, WithFlag, Completed, ValueState;
    ValueFlags(f, ch);
    if Completed(f.headerState) {
      CompletedFlag(f.flags, f.headerState);
    }
  }

  lemma NextValueFits(h: HeaderState, i: nat, c: byte)
    requires MatchingValue(h) && i > 0 && MatcherInRange(h, i - 1)
    ensures var g := NextValueState(h, i, c); ValueState(g) && MatcherInRange(g, i) && i <= 20
  {
    hide Match;
    if h.MatchingTransferEncodingChunked? {
      MatchInRange(CHUNKED, i, c, h, TransferEncodingChunked, General);
    } else if h.MatchingKeepAlive? {
      MatchInRange(KEEP_ALIVE, i, c, h, ConnectionKeepAlive, MatchingToken);
    } else if h.MatchingClose? {
      MatchInRange(CLOSE, i, c, h, ConnectionClose, MatchingToken);
    } else {
      MatchInRange(UPGRADE, i, c, h, ConnectionUpgrade, MatchingToken);
    }
  }

  lemma OtherValueFits(h: HeaderState, ch: byte, i: nat)
    requires ValueState(h) && MatcherInRange(h, i)
    ensures var g := OtherValueState(h, ch); ValueState(g) && MatcherInRange(g, i)
  {
    hide Lower, Token;
  }

  lemma ValueMatcher(f: Fields, ch: byte)
    requires ValueState(f.headerState) && MatcherInRange(f.headerState, f.index) && f.index <= 20
    requires !f.headerState.ContentLengthNum? && !f.headerState.ContentLengthWs?
    ensures var a := ValueByte(f, ch);
            && a.Stay?
            && ValueState(a.f.headerState) && MatcherInRange(a.f.headerState, a.f.index) && a.f.index <= 20
            && SameBodyFlags(a.f.flags, f.flags)
            && a.f == f.(headerState := a.f.headerState, index := a.f.index, flags := a.f.flags)
  {
    hide LengthDigit, NextValueState, OtherValueState, WithFlag, SameBodyFlags;
    ValueFrame(f, ch);
    if MatchingValue(f.headerState) {
      NextValueFits(f.headerState, f.index + 1, Lower(ch));
    } else {
      OtherValueFits(f.headerState, ch, f.index);
    }
  }

  lemma ValueInv(f: Fields, ch: byte)
    requires Inv(f, true) && f.state.HeaderValue?
    ensures Continues(ValueByte(f, ch))
  {
    if f.headerState.ContentLengthNum? || f.headerState.ContentLengthWs? {
      hide LengthDigit, NameState, Token;
    } else {
      hide NameState, ValueState, MatcherInRange, ValueByte;
      ValueMatcher(f, ch);
    }
  }

  lemma ValueStartInv(f: Fields, ch: byte)
    requires Inv(f, true) && (f.state.HeaderValueStart? || f.state.HeaderValueDiscardWs?)
    ensures Continues(ValueStart(f, ch))
  {
    if !f.headerState.ContentLength? {
      hide NameState, ValueState, MatcherInRange, ValueStart;
    }
  }

  lemma EndInv(cfg: Config, f: Fields, ch: byte)
    requires Inv(f, true) && f.state.HeadersAlmostDone?
    ensures Continues(EndOfHeaders(cfg, f, ch))
  {
    hide MatcherInRange, NameState, ValueState, Inv;
    EndedInv(f);
  }

  lemma EndedInv(f: Fields)
    requires Inv(f, true) && f.state.HeadersAlmostDone?
    ensures f.flags.trailing ==> Inv(f.(state := MessageDone), true)
    ensures forall u: bool, s: bool {:trigger f.(state := HeadersDone, upgrade := u, flags := f.flags.(skipBody := s))} ::
              Inv(f.(state := HeadersDone, upgrade := u, flags := f.flags.(skipBody := s)), true)
  {
    hide MatcherInRange, NameState, ValueState;
  }

  lemma StartBodyInv(f: Fields, ch: byte)
    requires Inv(f, true) && f.state.HeadersDone?
    ensures Continues(StartBody(f, ch))
  {
    MessageEndInv(f);
    hide NeedsEof, NewMessage;
    BodyBeginInv(f);
    hide Inv;
  }

  lemma MessageEndInv(f: Fields)
    requires Inv(f, true) && f.state.HeadersDone?
    ensures Inv(f.(nread := 0, state := NewMessage(f.(nread := 0))), false)
  {
    hide NewMessage, MatcherInRange, NameState, ValueState, MethodString;
  }

  lemma BodyBeginInv(f: Fields)
    requires Inv(f, true) && f.state.HeadersDone?
    ensures f.flags.chunked ==> Inv(f.(nread := 0, state := ChunkSizeStart), false)
    ensures !f.flags.chunked && f.contentLength > 0 ==>
              Inv(f.(nread := 0, state := if 0 < f.contentLength < ULLONG_MAX then BodyIdentity else BodyIdentityEof), false)
  {
    hide MatcherInRange, NameState, ValueState, MethodString;
  }

  lemma WithFlagInv(flags: Flags, h: HeaderState)
    ensures var g := WithFlag(flags, h);
            g.trailing == flags.trailing && g.contentLength == flags.contentLength && (flags.chunked ==> g.chunked)
  {
  }

  lemma FieldStartInv(cfg: Config, f: Fields, unchecked: bool, ch: byte)
    requires Inv(f, true) && f.state.HeaderFieldStart?
    ensures Continues(DispatchHeaders(cfg, f, unchecked, ch))
  {
    hide MatchName, ValueByte, ValueStart, EndOfHeaders, StartBody, Token;
  }

  /** A finished value sets at most one flag, and the fields stay in range. */
  lemma FlaggedInv(f: Fields)
    requires Inv(f, true) && (f.state.HeaderValueLws? || f.state.HeaderValueDiscardLws?)
    ensures Inv(f.(flags := WithFlag(f.flags, f.headerState), state := HeaderFieldStart), true)
  {
    hide NameState, ValueState, MatcherInRange, WithFlag;
    WithFlagInv(f.flags, f.headerState);
  }

  lemma BetweenHeadersInv(cfg: Config, f: Fields, unchecked: bool, ch: byte)
    requires Inv(f, true)
    requires f.state.HeaderAlmostDone? || f.state.HeaderValueLws? ||
             f.state.HeaderValueDiscardWsAlmostDone? || f.state.HeaderValueDiscardLws?
    ensures Continues(DispatchHeaders(cfg, f, unchecked, ch))
  {
    hide MatchName, ValueByte, ValueStart, EndOfHeaders, StartBody, Token;
    hide NameState, ValueState, MatcherInRange, WithFlag, LengthFits, BeforeHeaders;
    if f.state.HeaderValueLws? || f.state.HeaderValueDiscardLws? {
      FlaggedInv(f);
    }
    if f.state.HeaderAlmostDone? {
      MoveInv(f, HeaderValueLws, false);
    } else if f.state.HeaderValueLws? {
      MoveInv(f, HeaderValueStart, true);
    } else if f.state.HeaderValueDiscardWsAlmostDone? {
      MoveInv(f, HeaderValueDiscardLws, false);
    } else {
      MoveInv(f, HeaderValueDiscardWs, false);
    }
    hide Inv;
  }

  /** The steps between two lines, or two parts of a value. */
  predicate Moves(s: State, t: State) {
    || (s.HeaderAlmostDone? && t.HeaderValueLws?) || (s.HeaderValueLws? && t.HeaderValueStart?)
    || (s.HeaderValueDiscardWsAlmostDone? && t.HeaderValueDiscardLws?)
    || (s.HeaderValueDiscardLws? && t.HeaderValueDiscardWs?)
  }

  lemma MoveInv(f: Fields, t: State, counted: bool)
    requires Inv(f, true) && Moves(f.state, t)
    ensures Inv(f.(state := t), counted)
  {
    hide NameState, ValueState, MatcherInRange, MethodString;
  }

  lemma BlankInv(f: Fields, t: State)
    requires Inv(f, true) && f.state.HeaderValueDiscardWs?
    requires t.HeaderValueDiscardWs? || t.HeaderValueDiscardWsAlmostDone? || t.HeaderValueDiscardLws?
    ensures Inv(f.(state := t), false)
  {
    hide NameState, ValueState, MatcherInRange, MethodString;
  }

  lemma NamePassInv(cfg: Config, f: Fields, unchecked: bool, ch: byte)
    requires Inv(f, true) && f.state.HeaderField?
    ensures Continues(DispatchHeaders(cfg, f, unchecked, ch))
  {
    NameInv(f, ch);
    hide MatchName, Token, NameState, ValueState, MatcherInRange;
  }

  lemma ValuePassInv(cfg: Config, f: Fields, unchecked: bool, ch: byte)
    requires Inv(f, true) && f.state.HeaderValue?
    ensures Continues(DispatchHeaders(cfg, f, unchecked, ch))
  {
    hide ValueByte, IsHeaderChar, NameState, ValueState, MatcherInRange, MatchName, Token, ValueStart, StartBody,
      EndOfHeaders, FirstNameState, AfterValueLine, AfterEmptyLine;
    ValueInv(f, ch);
  }

  lemma StartPassInv(cfg: Config, f: Fields, unchecked: bool, ch: byte)
    requires Inv(f, true) && (f.state.HeaderValueStart? || f.state.HeaderValueDiscardWs?)
    ensures Continues(DispatchHeaders(cfg, f, unchecked, ch))
  {
    ValueStartInv(f, ch);
    if f.state.HeaderValueDiscardWs? {
      BlankInv(f, HeaderValueDiscardWs);
      BlankInv(f, HeaderValueDiscardWsAlmostDone);
      BlankInv(f, HeaderValueDiscardLws);
      assert f.(state := HeaderValueDiscardWs) == f;
    }
    hide ValueStart, Inv;
  }

  lemma HeadersInv(cfg: Config, f: Fields, unchecked: bool, ch: byte)
    requires Inv(f, true) && InHeaders(f.state)
    ensures Continues(DispatchHeaders(cfg, f, unchecked, ch))
  {
    if f.state.HeaderField? {
      hide Inv, Continues, DispatchHeaders;
      NamePassInv(cfg, f, unchecked, ch);
    } else if f.state.HeaderValue? {
      hide Inv, Continues, DispatchHeaders;
      ValuePassInv(cfg, f, unchecked, ch);
    } else if f.state.HeaderValueStart? || f.state.HeaderValueDiscardWs? {
      hide Inv, Continues, DispatchHeaders;
      StartPassInv(cfg, f, unchecked, ch);
    } else if f.state.HeadersAlmostDone? {
      hide Inv, Continues, EndOfHeaders;
      EndInv(cfg, f, ch);
    } else if f.state.HeadersDone? {
      hide Inv, Continues, StartBody;
      StartBodyInv(f, ch);
    } else if f.state.HeaderFieldStart? {
      hide Inv, Continues, DispatchHeaders;
      FieldStartInv(cfg, f, unchecked, ch);
    } else {
      hide Inv, Continues, DispatchHeaders;
      BetweenHeadersInv(cfg, f, unchecked, ch);
    }
  }

  lemma ChunkStartInv(f: Fields, ch: byte)
    requires Inv(f, true) && (f.state.ChunkSizeStart? || f.state.ChunkParameters?)
    ensures Continues(DispatchBody(f, ch))
  {
    hide MatcherInRange, NameState, ValueState, NewMessage;
  }

  lemma ChunkSizeInv(f: Fields, ch: byte)
    requires Inv(f, true) && f.state.ChunkSize?
    ensures Continues(DispatchBody(f, ch))
  {
    hide MatcherInRange, NameState, ValueState, NewMessage;
  }

  lemma ChunkLineInv(f: Fields, ch: byte)
    requires Inv(f, true) && (f.state.ChunkSizeAlmostDone? || f.state.ChunkDataDone?)
    ensures Continues(DispatchBody(f, ch))
  {
    hide MatcherInRange, NameState, ValueState, NewMessage, Unhex;
  }

  lemma ChunkDataInv(f: Fields, ch: byte)
    requires Inv(f, true) && (f.state.ChunkData? || f.state.ChunkDataAlmostDone?)
    ensures Continues(DispatchBody(f, ch))
  {
    hide MatcherInRange, NameState, ValueState, NewMessage, Unhex;
  }

  lemma BodyInv(f: Fields, ch: byte)
    requires Inv(f, true) && InBody(f.state)
    ensures Continues(DispatchBody(f, ch))
  {
    hide MatcherInRange, NameState, ValueState, NewMessage, Unhex;
    if f.state.ChunkSizeStart? || f.state.ChunkParameters? {
      hide Inv, Continues, DispatchBody;
      ChunkStartInv(f, ch);
    } else if f.state.ChunkSize? {
      hide Inv, Continues, DispatchBody;
      ChunkSizeInv(f, ch);
    } else if f.state.BodyIdentity? || f.state.BodyIdentityEof? || f.state.MessageDone? {
    } else if f.state.ChunkData? || f.state.ChunkDataAlmostDone? {
      hide Inv, Continues, DispatchBody;
      ChunkDataInv(f, ch);
    } else {
      hide Inv, Continues, DispatchBody;
      ChunkLineInv(f, ch);
    }
  }

  lemma DispatchInv(cfg: Config, f: Fields, unchecked: bool, ch: byte)
    requires Inv(f, true)
    ensures Continues(Dispatch(cfg, f, unchecked, ch))
  {
    hide Continues, DispatchStartLine, DispatchRequestLine, DispatchHeaders, DispatchBody, Inv;
    if InStartLine(f.state) {
      StartLineInv(f, ch);
    } else if InRequestLine(f.state) {
      RequestLineInv(f, ch);
    } else if InHeaders(f.state) {
      HeadersInv(cfg, f, unchecked, ch);
    } else {
      BodyInv(f, ch);
    }
  }
}
