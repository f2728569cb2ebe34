/** The state machine of http_parser_execute, one pass through its switch at a
    time. A pass says what happens to the parser's fields and, as an
    `Effect`, what happens to the marks and which callbacks fire. */
module HttpMachine {
  import opened HttpChars

  datatype State =
    | Dead
    | StartReqOrRes | ResOrRespH
    | StartRes | ResH | ResHT | ResHTT | ResHTTP
    | ResHttpMajor | ResHttpDot | ResHttpMinor | ResHttpEnd
    | ResFirstStatusCode | ResStatusCode | ResStatusStart | ResStatus | ResLineAlmostDone
    | StartReq | ReqMethod
    | ReqSpacesBeforeUrl | ReqSchema | ReqSchemaSlash | ReqSchemaSlashSlash
    | ReqServerStart | ReqServer | ReqServerWithAt | ReqPath
    | ReqQueryStringStart | ReqQueryString | ReqFragmentStart | ReqFragment
    | ReqHttpStart | ReqHttpH | ReqHttpHT | ReqHttpHTT | ReqHttpHTTP
    | ReqHttpMajor | ReqHttpDot | ReqHttpMinor | ReqHttpEnd | ReqLineAlmostDone
    | HeaderFieldStart | HeaderField
    | HeaderValueDiscardWs | HeaderValueDiscardWsAlmostDone | HeaderValueDiscardLws
    | HeaderValueStart | HeaderValue | HeaderValueLws | HeaderAlmostDone
    | ChunkSizeStart | ChunkSize | ChunkParameters | ChunkSizeAlmostDone
    | HeadersAlmostDone | HeadersDone
    | ChunkData | ChunkDataAlmostDone | ChunkDataDone
    | BodyIdentity | BodyIdentityEof
    | MessageDone

  datatype HeaderState =
    | General | HC | HCO | HCON
    | MatchingConnection | MatchingProxyConnection | MatchingContentLength
    | MatchingTransferEncoding | MatchingUpgrade
    | Connection | ContentLength | ContentLengthNum | ContentLengthWs | TransferEncoding | Upgrade
    | MatchingTransferEncodingChunked | MatchingTokenStart
    | MatchingKeepAlive | MatchingClose | MatchingUpgradeToken | MatchingToken
    | TransferEncodingChunked | ConnectionKeepAlive | ConnectionClose | ConnectionUpgrade

  datatype Method =
    | DELETE | GET | HEAD | POST | PUT | CONNECT | OPTIONS | TRACE
    | COPY | LOCK | MKCOL | MOVE | PROPFIND | PROPPATCH | SEARCH | UNLOCK | BIND | REBIND | UNBIND | ACL
    | REPORT | MKACTIVITY | CHECKOUT | MERGE
    | MSEARCH | NOTIFY | SUBSCRIBE | UNSUBSCRIBE
    | PATCH | PURGE | MKCALENDAR | LINK | UNLINK | SOURCE

  datatype Errno =
    | CbHeadersComplete | InvalidEofState | HeaderOverflow | ClosedConnection | InvalidVersion
    | InvalidStatus | InvalidMethod | InvalidUrl | LfExpected | InvalidHeaderToken
    | InvalidContentLength | UnexpectedContentLength | InvalidChunkSize | InvalidConstant | Strict

  datatype MessageKind = Request | Response | Both

  datatype Flags = Flags(
    chunked: bool, keepAlive: bool, close: bool, connectionUpgrade: bool,
    trailing: bool, upgrade: bool, skipBody: bool, contentLength: bool)

  const NO_FLAGS := Flags(false, false, false, false, false, false, false, false)

  /** The fields of struct http_parser that the state machine reads and writes. */
  datatype Fields = Fields(
    kind: MessageKind, flags: Flags, state: State, headerState: HeaderState, index: nat, nread: nat,
    contentLength: nat, httpMajor: nat, httpMinor: nat, statusCode: nat, verb: Method, upgrade: bool)

  /** What the embedder chooses: the lenient bit and the answer of its
      headers-complete callback (0 go on, 1 no body, 2 no body and upgrade,
      anything else an error). Every other callback answers 0. */
  datatype Config = Config(lenient: bool, headersReply: int)

  datatype DataKind = Url | Status | Field | Value | Body

  /** One callback, with what it is shown. */
  datatype Event =
    | MessageBegin
    | Data(kind: DataKind, bytes: seq<byte>)
    | HeadersComplete(statusCode: nat, verb: Method, upgrade: bool, contentLength: nat)
    | ChunkHeader(size: nat)
    | ChunkComplete
    | MessageComplete

  /** What a pass does to the mark of one kind of data and to the callbacks:
      set the mark if it is unset, let the current byte join the marked bytes,
      hand the marked bytes over and clear the mark, or run a notify callback. */
  datatype Effect =
    | Quiet
    | Mark(kind: DataKind)
    | MarkTake(kind: DataKind)
    | Take(kind: DataKind)
    | Flush(kind: DataKind)
    | MarkFlush(kind: DataKind)
    | MarkTakeFlush(kind: DataKind)
    | Notify(event: Event)

  /** How a pass ends: the byte is consumed; the same byte is looked at again in
      a new state; the byte is consumed and the call returns early; an error. */
  datatype Act =
    | Stay(f: Fields, effect: Effect)
    | Again(f: Fields, effect: Effect)
    | Leave(f: Fields, effect: Effect)
    | Err(errno: Errno)

  // ---------- Parser initialisation and end-of-message decisions ----------

  function Init(kind: MessageKind): Fields {
    Fields(kind, NO_FLAGS,
           if kind == Request then StartReq else if kind == Response then StartRes else StartReqOrRes,
           General, 0, 0, 0, 0, 0, 0, DELETE, false)
  }

  function ParsingHeader(s: State): bool {
    !(s.ChunkData? || s.ChunkDataAlmostDone? || s.ChunkDataDone? || s.BodyIdentity? || s.BodyIdentityEof? ||
    s.MessageDone?)
  }

  function StartState(f: Fields): State {
    if f.kind == Request then StartReq else StartRes
  }

  predicate NeedsEof(f: Fields) {
    && f.kind != Request
    && !(f.statusCode / 100 == 1 || f.statusCode == 204 || f.statusCode == 304 || f.flags.skipBody)
    && !(f.flags.chunked || f.contentLength != ULLONG_MAX)
  }

  predicate ShouldKeepAlive(f: Fields) {
    && (if f.httpMajor > 0 && f.httpMinor > 0 then !f.flags.close else f.flags.keepAlive)
    && !NeedsEof(f)
  }

  function NewMessage(f: Fields): (s: State)
    ensures s.StartReq? || s.StartRes? || s.Dead?
  {
    if ShouldKeepAlive(f) then StartState(f) else Dead
  }

  function MethodString(m: Method): string {
    match m
    case DELETE => "DELETE" case GET => "GET" case HEAD => "HEAD" case POST => "POST" case PUT => "PUT"
    case CONNECT => "CONNECT" case OPTIONS => "OPTIONS" case TRACE => "TRACE" case COPY => "COPY"
    case LOCK => "LOCK" case MKCOL => "MKCOL" case MOVE => "MOVE" case PROPFIND => "PROPFIND"
    case PROPPATCH => "PROPPATCH" case SEARCH => "SEARCH" case UNLOCK => "UNLOCK" case BIND => "BIND"
    case REBIND => "REBIND" case UNBIND => "UNBIND" case ACL => "ACL" case REPORT => "REPORT"
    case MKACTIVITY => "MKACTIVITY" case CHECKOUT => "CHECKOUT" case MERGE => "MERGE"
    case MSEARCH => "M-SEARCH" case NOTIFY => "NOTIFY" case SUBSCRIBE => "SUBSCRIBE"
    case UNSUBSCRIBE => "UNSUBSCRIBE" case PATCH => "PATCH" case PURGE => "PURGE"
    case MKCALENDAR => "MKCALENDAR" case LINK => "LINK" case UNLINK => "UNLINK" case SOURCE => "SOURCE"
  }

  datatype MethodGuess = NoMethod | Guess(verb: Method)

  /** The first guess a request line's first letter gives. */
  function MethodOfLetter(c: byte): MethodGuess {
    match c
    case 'A' => Guess(ACL) case 'B' => Guess(BIND) case 'C' => Guess(CONNECT) case 'D' => Guess(DELETE)
    case 'G' => Guess(GET) case 'H' => Guess(HEAD) case 'L' => Guess(LOCK) case 'M' => Guess(MKCOL)
    case 'N' => Guess(NOTIFY) case 'O' => Guess(OPTIONS) case 'P' => Guess(POST) case 'R' => Guess(REPORT)
    case 'S' => Guess(SUBSCRIBE) case 'T' => Guess(TRACE) case 'U' => Guess(UNLOCK)
    case _ => NoMethod
  }

  /** The switch that corrects the guess when a letter does not fit it. */
  function Reguess(m: Method, i: nat, c: byte): MethodGuess {
    if m == POST && i == 1 then
      if c == 'U' then Guess(PUT) else if c == 'A' then Guess(PATCH) else if c == 'R' then Guess(PROPFIND) else NoMethod
    else if m == PUT && i == 2 && c == 'R' then Guess(PURGE)
    else if m == CONNECT && i == 1 && c == 'H' then Guess(CHECKOUT)
    else if m == CONNECT && i == 2 && c == 'P' then Guess(COPY)
    else if m == MKCOL && i == 1 then
      if c == 'O' then Guess(MOVE) else if c == 'E' then Guess(MERGE) else if c == '-' then Guess(MSEARCH) else NoMethod
    else if m == MKCOL && i == 2 && c == 'A' then Guess(MKACTIVITY)
    else if m == MKCOL && i == 3 && c == 'A' then Guess(MKCALENDAR)
    else if m == SUBSCRIBE && i == 1 && c == 'E' then Guess(SEARCH)
    else if m == SUBSCRIBE && i == 1 && c == 'O' then Guess(SOURCE)
    else if m == REPORT && i == 2 && c == 'B' then Guess(REBIND)
    else if m == PROPFIND && i == 4 && c == 'P' then Guess(PROPPATCH)
    else if m == LOCK && i == 1 && c == 'I' then Guess(LINK)
    else if m == UNLOCK && i == 2 && c == 'S' then Guess(UNSUBSCRIBE)
    else if m == UNLOCK && i == 2 && c == 'B' then Guess(UNBIND)
    else if m == UNLOCK && i == 3 && c == 'I' then Guess(UNLINK)
    else NoMethod
  }

  // ---------- Start lines ----------

  predicate InStartLine(s: State) {
    s.Dead? || s.StartReqOrRes? || s.ResOrRespH? || s.StartRes? || s.ResH? || s.ResHT? || s.ResHTT? ||
    s.ResHTTP? || s.ResHttpMajor? || s.ResHttpDot? || s.ResHttpMinor? || s.ResHttpEnd? ||
    s.ResFirstStatusCode? || s.ResStatusCode? || s.ResStatusStart? || s.ResStatus? || s.ResLineAlmostDone? ||
    s.StartReq? || s.ReqMethod?
  }

  function Go(f: Fields, s: State): Act {
    Stay(f.(state := s), Quiet)
  }

  function Expect(f: Fields, ok: bool, s: State, e: Errno): Act {
    if ok then Go(f, s) else Err(e)
  }

  function DispatchStartLine(f: Fields, ch: byte): (a: Act)
    requires InStartLine(f.state)
    ensures a.Again? ==> Rank(a.f.state) < Rank(f.state)
  {
    match f.state
    case Dead =>
      if ch == CR || ch == LF then Stay(f, Quiet) else Err(ClosedConnection)
    case StartReqOrRes =>
      if ch == CR || ch == LF then Stay(f, Quiet)
      else
        var f := f.(flags := NO_FLAGS, contentLength := ULLONG_MAX);
        if ch == 'H' then Stay(f.(state := ResOrRespH), Notify(MessageBegin))
        else Again(f.(kind := Request, state := StartReq), Quiet)
    case ResOrRespH =>
      if ch == 'T' then Go(f.(kind := Response), ResHT)
      else if ch != 'E' then Err(InvalidConstant)
      else Go(f.(kind := Request, verb := HEAD, index := 2), ReqMethod)
    case StartRes =>
      if ch == CR || ch == LF then Stay(f, Quiet)
      else if ch != 'H' then Err(InvalidConstant)
      else Stay(f.(flags := NO_FLAGS, contentLength := ULLONG_MAX, state := ResH), Notify(MessageBegin))
    case ResH => Expect(f, ch == 'T', ResHT, Strict)
    case ResHT => Expect(f, ch == 'T', ResHTT, Strict)
    case ResHTT => Expect(f, ch == 'P', ResHTTP, Strict)
    case ResHTTP => Expect(f, ch == '/', ResHttpMajor, Strict)
    case ResHttpMajor =>
      if IsNum(ch) then Go(f.(httpMajor := Digit(ch)), ResHttpDot) else Err(InvalidVersion)
    case ResHttpDot => Expect(f, ch == '.', ResHttpMinor, InvalidVersion)
    case ResHttpMinor =>
      if IsNum(ch) then Go(f.(httpMinor := Digit(ch)), ResHttpEnd) else Err(InvalidVersion)
    case ResHttpEnd => Expect(f, ch == ' ', ResFirstStatusCode, InvalidVersion)
    case ResFirstStatusCode =>
      if IsNum(ch) then Go(f.(statusCode := Digit(ch)), ResStatusCode)
      else Expect(f, ch == ' ', ResFirstStatusCode, InvalidStatus)
    case ResStatusCode =>
      if IsNum(ch) then
        var code := f.statusCode * 10 + Digit(ch);
        if code > 999 then Err(InvalidStatus) else Stay(f.(statusCode := code), Quiet)
      else if ch == ' ' then Go(f, ResStatusStart)
      else if ch == CR || ch == LF then Again(f.(state := ResStatusStart), Quiet)
      else Err(InvalidStatus)
    case ResStatusStart =>
      var f := f.(state := ResStatus, index := 0);
      if ch == CR || ch == LF then Again(f, Mark(Status)) else Stay(f, MarkTake(Status))
    case ResStatus =>
      if ch == CR then Stay(f.(state := ResLineAlmostDone), Flush(Status))
      else if ch == LF then Stay(f.(state := HeaderFieldStart), Flush(Status))
      else Stay(f, Take(Status))
    case ResLineAlmostDone => Expect(f, ch == LF, HeaderFieldStart, Strict)
    case StartReq =>
      if ch == CR || ch == LF then Stay(f, Quiet)
      else if MethodOfLetter(ch).NoMethod? then Err(InvalidMethod)
      else
        Stay(f.(flags := NO_FLAGS, contentLength := ULLONG_MAX, verb := MethodOfLetter(ch).verb,
                index := 1, state := ReqMethod),
             Notify(MessageBegin))
    case ReqMethod =>
      var matcher := MethodString(f.verb);
      if ch == '\0' then Err(InvalidMethod)
      else if ch == ' ' && At(matcher, f.index) == '\0' then Go(f.(index := f.index + 1), ReqSpacesBeforeUrl)
      else if ch == At(matcher, f.index) then Stay(f.(index := f.index + 1), Quiet)
      else
        match Reguess(f.verb, f.index, ch)
        case Guess(m) => Stay(f.(verb := m, index := f.index + 1), Quiet)
        case NoMethod => Err(InvalidMethod)
  }

  // ---------- Request line ----------

  predicate InUrl(s: State) {
    s.ReqSchema? || s.ReqSchemaSlash? || s.ReqSchemaSlashSlash? || s.ReqServerStart? || s.ReqServer? ||
    s.ReqServerWithAt? || s.ReqPath? || s.ReqQueryStringStart? || s.ReqQueryString? || s.ReqFragmentStart? ||
    s.ReqFragment?
  }

  predicate InRequestLine(s: State) {
    InUrl(s) || s.ReqSpacesBeforeUrl? || s.ReqHttpStart? || s.ReqHttpH? || s.ReqHttpHT? || s.ReqHttpHTT? ||
    s.ReqHttpHTTP? || s.ReqHttpMajor? || s.ReqHttpDot? || s.ReqHttpMinor? || s.ReqHttpEnd? ||
    s.ReqLineAlmostDone?
  }

  /** parse_url_char: the next URL state, or Dead for a byte that does not fit. */
  function ParseUrlChar(s: State, ch: byte): (s': State)
    ensures s' == Dead || InUrl(s')
  {
    if ch == ' ' || ch == CR || ch == LF || ch == '\t' || ch == 12 as char then Dead
    else if s.ReqSpacesBeforeUrl? then
      if ch == '/' || ch == '*' then ReqPath else if IsAlpha(ch) then ReqSchema else Dead
    else if s.ReqSchema? then if IsAlpha(ch) then ReqSchema else if ch == ':' then ReqSchemaSlash else Dead
    else if s.ReqSchemaSlash? then if ch == '/' then ReqSchemaSlashSlash else Dead
    else if s.ReqSchemaSlashSlash? then if ch == '/' then ReqServerStart else Dead
    else if s.ReqServerWithAt? && ch == '@' then Dead
    else if s.ReqServerStart? || s.ReqServer? || s.ReqServerWithAt? then ParseServerChar(ch)
    else if s.ReqPath? then
      if IsUrlChar(ch) then ReqPath else if ch == '?' then ReqQueryStringStart
      else if ch == '#' then ReqFragmentStart else Dead
    else if s.ReqQueryStringStart? || s.ReqQueryString? then ParseQueryChar(ch)
    else if s.ReqFragmentStart? || s.ReqFragment? then
      if IsUrlChar(ch) || ch == '?' then ReqFragment else if ch == '#' then s else Dead
    else Dead
  }

  function ParseServerChar(ch: byte): (s': State) {
    if ch == '/' then ReqPath
    else if ch == '?' then ReqQueryStringStart
    else if ch == '@' then ReqServerWithAt
    else if IsUserinfoChar(ch) || ch == '[' || ch == ']' then ReqServer
    else Dead
  }

  function ParseQueryChar(ch: byte): (s': State) {
    if IsUrlChar(ch) || ch == '?' then ReqQueryString else if ch == '#' then ReqFragmentStart else Dead
  }

  /** A byte inside the request target. */
  function UrlByte(f: Fields, ch: byte): (a: Act)
    requires InUrl(f.state)
    ensures !a.Again?
  {
    var mayEnd := !(f.state.ReqSchema? || f.state.ReqSchemaSlash? || f.state.ReqSchemaSlashSlash? ||
                    f.state.ReqServerStart?);
    if mayEnd && ch == ' ' then Stay(f.(state := ReqHttpStart), Flush(Url))
    else if mayEnd && (ch == CR || ch == LF) then
      Stay(f.(httpMajor := 0, httpMinor := 9, state := if ch == CR then ReqLineAlmostDone else HeaderFieldStart),
           Flush(Url))
    else
      var s := ParseUrlChar(f.state, ch);
      if s == Dead then Err(InvalidUrl) else Stay(f.(state := s), Take(Url))
  }

  function DispatchRequestLine(f: Fields, ch: byte): (a: Act)
    requires InRequestLine(f.state)
    ensures !a.Again?
  {
    if InUrl(f.state) then UrlByte(f, ch)
    else
    match f.state
    case ReqSpacesBeforeUrl =>
      if ch == ' ' then Stay(f, Quiet)
      else
        var s := ParseUrlChar(if f.verb == CONNECT then ReqServerStart else ReqSpacesBeforeUrl, ch);
        if s == Dead then Err(InvalidUrl) else Stay(f.(state := s), MarkTake(Url))
    case ReqHttpStart =>
      if ch == 'H' then Go(f, ReqHttpH) else if ch == ' ' then Stay(f, Quiet) else Err(InvalidConstant)
    case ReqHttpH => Expect(f, ch == 'T', ReqHttpHT, Strict)
    case ReqHttpHT => Expect(f, ch == 'T', ReqHttpHTT, Strict)
    case ReqHttpHTT => Expect(f, ch == 'P', ReqHttpHTTP, Strict)
    case ReqHttpHTTP => Expect(f, ch == '/', ReqHttpMajor, Strict)
    case ReqHttpMajor =>
      if IsNum(ch) then Go(f.(httpMajor := Digit(ch)), ReqHttpDot) else Err(InvalidVersion)
    case ReqHttpDot => Expect(f, ch == '.', ReqHttpMinor, InvalidVersion)
    case ReqHttpMinor =>
      if IsNum(ch) then Go(f.(httpMinor := Digit(ch)), ReqHttpEnd) else Err(InvalidVersion)
    case ReqHttpEnd =>
      if ch == CR then Go(f, ReqLineAlmostDone) else Expect(f, ch == LF, HeaderFieldStart, InvalidVersion)
    case ReqLineAlmostDone => Expect(f, ch == LF, HeaderFieldStart, LfExpected)
  }

  // ---------- Header fields ----------

  predicate InHeaders(s: State) {
    s.HeaderFieldStart? || s.HeaderField? || s.HeaderValueDiscardWs? || s.HeaderValueDiscardWsAlmostDone? ||
    s.HeaderValueDiscardLws? || s.HeaderValueStart? || s.HeaderValue? || s.HeaderValueLws? ||
    s.HeaderAlmostDone? || s.HeadersAlmostDone? || s.HeadersDone?
  }

  /** One comparison of the nested matcher: `index` has moved to the current
      byte `c` (in lower case); `found` is reached at the last byte of `name`. */
  function Match(name: string, index: nat, c: byte, matching: HeaderState, found: HeaderState,
                 lost: HeaderState): (h: HeaderState)
    ensures h == matching || h == found || h == lost
  {
    if index > |name| || c != At(name, index) then lost
    else if index == |name| - 1 then found
    else matching
  }

  predicate MatchingName(h: HeaderState) {
    h.HC? || h.HCO? || h.HCON? || h.MatchingConnection? || h.MatchingProxyConnection? ||
    h.MatchingContentLength? || h.MatchingTransferEncoding? || h.MatchingUpgrade?
  }

  /** The name matcher, with its index moved to the byte c (in lower case). */
  function NextNameState(h: HeaderState, i: nat, c: byte): HeaderState {
    if h.HC? then if c == 'o' then HCO else General
    else if h.HCO? then if c == 'n' then HCON else General
    else if h.HCON? then
      if c == 'n' then MatchingConnection else if c == 't' then MatchingContentLength else General
    else if h.MatchingConnection? then Match(CONNECTION, i, c, h, Connection, General)
    else if h.MatchingProxyConnection? then Match(PROXY_CONNECTION, i, c, h, Connection, General)
    else if h.MatchingContentLength? then Match(CONTENT_LENGTH, i, c, h, ContentLength, General)
    else if h.MatchingTransferEncoding? then Match(TRANSFER_ENCODING, i, c, h, TransferEncoding, General)
    else Match(UPGRADE, i, c, h, Upgrade, General)
  }

  /** Header-name matching, one token byte: ch is the byte, c its lower case. */
  function MatchName(f: Fields, ch: byte, c: byte): Fields {
    var h := f.headerState;
    if MatchingName(h) then f.(index := f.index + 1, headerState := NextNameState(h, f.index + 1, c))
    else if ch != ' ' && (h.Connection? || h.ContentLength? || h.TransferEncoding? || h.Upgrade?) then
      f.(headerState := General)
    else f
  }

  function FirstNameState(c: byte): HeaderState {
    if c == 'c' then HC
    else if c == 'p' then MatchingProxyConnection
    else if c == 't' then MatchingTransferEncoding
    else if c == 'u' then MatchingUpgrade
    else General
  }

  /** The first byte of a header value (s_header_value_start). */
  function ValueStart(f: Fields, ch: byte): (a: Act)
    ensures !a.Again?
  {
    var c := Lower(ch);
    var f := f.(state := HeaderValue, index := 0);
    var effect := MarkTake(Value);
    var h := f.headerState;
    if h.Upgrade? then Stay(f.(flags := f.flags.(upgrade := true), headerState := General), effect)
    else if h.ContentLength? then
      if !IsNum(ch) then Err(InvalidContentLength)
      else if f.flags.contentLength then Err(UnexpectedContentLength)
      else Stay(f.(flags := f.flags.(contentLength := true), contentLength := Digit(ch),
                   headerState := ContentLengthNum), effect)
    else Stay(f.(headerState := FirstValueState(h, c)), effect)
  }

  function FirstValueState(h: HeaderState, c: byte): HeaderState {
    if h.TransferEncoding? then if c == 'c' then MatchingTransferEncodingChunked else General
    else if h.Connection? then
      if c == 'k' then MatchingKeepAlive else if c == 'c' then MatchingClose
      else if c == 'u' then MatchingUpgradeToken else MatchingToken
    else if h.MatchingTokenStart? then h
    else General
  }

  /** The flag a finished header value sets. */
  function WithFlag(flags: Flags, hs: HeaderState): Flags {
    if hs.ConnectionKeepAlive? then flags.(keepAlive := true)
    else if hs.ConnectionClose? then flags.(close := true)
    else if hs.ConnectionUpgrade? then flags.(connectionUpgrade := true)
    else if hs.TransferEncodingChunked? then flags.(chunked := true)
    else flags
  }

  /** A byte of a header value other than CR and LF, in a state that reads it. */
  function ValueByte(f: Fields, ch: byte): (a: Act)
    ensures !a.Again?
  {
    var h := f.headerState;
    if h.ContentLengthNum? || (h.ContentLength? && ch != ' ') then LengthDigit(f, ch)
    else if h.ContentLengthWs? && ch != ' ' then Err(InvalidContentLength)
    else if MatchingValue(h) then
      Stay(f.(index := f.index + 1, headerState := NextValueState(h, f.index + 1, Lower(ch))), Take(Value))
    else if h.ConnectionKeepAlive? || h.ConnectionClose? || h.ConnectionUpgrade? then TokenEnd(f, ch)
    else if h.MatchingToken? && ch == ',' then
      Stay(f.(headerState := MatchingTokenStart, index := 0), Take(Value))
    else Stay(f.(headerState := OtherValueState(h, ch)), Take(Value))
  }

  predicate MatchingValue(h: HeaderState) {
    h.MatchingTransferEncodingChunked? || h.MatchingKeepAlive? || h.MatchingClose? || h.MatchingUpgradeToken?
  }

  /** The value matcher, with its index moved to the byte c (in lower case). */
  function NextValueState(h: HeaderState, i: nat, c: byte): HeaderState {
    if h.MatchingTransferEncodingChunked? then Match(CHUNKED, i, c, h, TransferEncodingChunked, General)
    else if h.MatchingKeepAlive? then Match(KEEP_ALIVE, i, c, h, ConnectionKeepAlive, MatchingToken)
    else if h.MatchingClose? then Match(CLOSE, i, c, h, ConnectionClose, MatchingToken)
    else Match(UPGRADE, i, c, h, ConnectionUpgrade, MatchingToken)
  }

  /** The states that look at a single byte of a value. */
  function OtherValueState(h: HeaderState, ch: byte): HeaderState {
    var c := Lower(ch);
    if h.MatchingTokenStart? then
      if c == 'k' then MatchingKeepAlive else if c == 'c' then MatchingClose
      else if c == 'u' then MatchingUpgradeToken else if Token(c) != '\0' then MatchingToken
      else if c == ' ' || c == '\t' then MatchingTokenStart else General
    else if h.ContentLength? || h.ContentLengthWs? || h.MatchingToken? || (h.TransferEncodingChunked? && ch == ' ')
    then h
    else General
  }

  function TokenEnd(f: Fields, ch: byte): (a: Act)
    ensures !a.Again?
  {
    if ch == ',' then
      Stay(f.(flags := WithFlag(f.flags, f.headerState), headerState := MatchingTokenStart, index := 0),
           Take(Value))
    else Stay(f.(headerState := if ch != ' ' then MatchingToken else f.headerState), Take(Value))
  }

  /** A digit of a Content-Length value, with its conservative overflow test. */
  function LengthDigit(f: Fields, ch: byte): (a: Act)
    ensures !a.Again?
  {
    if ch == ' ' then Stay(f.(headerState := ContentLengthWs), Take(Value))
    else if !IsNum(ch) then Err(InvalidContentLength)
    else if (ULLONG_MAX - 10) / 10 < f.contentLength then Err(InvalidContentLength)
    else Stay(f.(headerState := ContentLengthNum, contentLength := f.contentLength * 10 + Digit(ch)), Take(Value))
  }

  /** The byte after a value's line: a blank continues the value. */
  function AfterValueLine(f: Fields, ch: byte): (a: Act)
    ensures a.Again? ==> Rank(a.f.state) < 4
  {
    if ch == ' ' || ch == '\t' then Again(f.(state := HeaderValueStart), Quiet)
    else Again(f.(flags := WithFlag(f.flags, f.headerState), state := HeaderFieldStart), Quiet)
  }

  /** The byte after a line that ended before any value byte. */
  function AfterEmptyLine(f: Fields, ch: byte): (a: Act)
    ensures a.Again? ==> Rank(a.f.state) < 4
  {
    if ch == ' ' || ch == '\t' then Go(f, HeaderValueDiscardWs)
    else Again(f.(flags := WithFlag(f.flags, f.headerState), state := HeaderFieldStart),
               MarkFlush(Value))
  }

  /** `unchecked`: the byte lies in a stretch that the skip over an uninteresting
      header value jumped across, so its character class is not tested. */
  function DispatchHeaders(cfg: Config, f: Fields, unchecked: bool, ch: byte): (a: Act)
    requires InHeaders(f.state)
    ensures a.Again? ==> Rank(a.f.state) < Rank(f.state)
  {
    match f.state
    case HeaderFieldStart =>
      if ch == CR then Go(f, HeadersAlmostDone)
      else if ch == LF then Again(f.(state := HeadersAlmostDone), Quiet)
      else if Token(ch) == '\0' then Err(InvalidHeaderToken)
      else Stay(f.(index := 0, state := HeaderField, headerState := FirstNameState(Token(ch))),
                MarkTake(Field))
    case HeaderField =>
      if Token(ch) != '\0' then Stay(MatchName(f, ch, Token(ch)), Take(Field))
      else if ch == ':' then Stay(f.(state := HeaderValueDiscardWs), Flush(Field))
      else Err(InvalidHeaderToken)
    case HeaderValueDiscardWs =>
      if ch == ' ' || ch == '\t' then Stay(f, Quiet)
      else if ch == CR then Go(f, HeaderValueDiscardWsAlmostDone)
      else if ch == LF then Go(f, HeaderValueDiscardLws)
      else ValueStart(f, ch)
    case HeaderValueStart => ValueStart(f, ch)
    case HeaderValue =>
      if ch == CR then Stay(f.(state := HeaderAlmostDone), Flush(Value))
      else if ch == LF then Again(f.(state := HeaderAlmostDone), Flush(Value))
      else if !unchecked && !cfg.lenient && !IsHeaderChar(ch) then Err(InvalidHeaderToken)
      else ValueByte(f, ch)
    case HeaderAlmostDone => Expect(f, ch == LF, HeaderValueLws, LfExpected)
    case HeaderValueLws => AfterValueLine(f, ch)
    case HeaderValueDiscardWsAlmostDone => Expect(f, ch == LF, HeaderValueDiscardLws, Strict)
    case HeaderValueDiscardLws => AfterEmptyLine(f, ch)
    case HeadersAlmostDone => EndOfHeaders(cfg, f, ch)
    case HeadersDone => StartBody(f, ch)
  }

  function EndOfHeaders(cfg: Config, f: Fields, ch: byte): (a: Act)
    ensures a.Again? ==> Rank(a.f.state) < 2
  {
    if ch != LF then Err(Strict)
    else if f.flags.trailing then Again(f.(state := MessageDone), Notify(ChunkComplete))
    else if f.flags.chunked && f.flags.contentLength then Err(UnexpectedContentLength)
    else
      var upgrade := if f.flags.upgrade && f.flags.connectionUpgrade
                     then f.kind == Request || f.statusCode == 101 else f.verb == CONNECT;
      var effect := Notify(HeadersComplete(f.statusCode, f.verb, upgrade, f.contentLength));
      var f := f.(state := HeadersDone, upgrade := upgrade);
      if cfg.headersReply == 0 then Again(f, effect)
      else if cfg.headersReply == 1 then Again(f.(flags := f.flags.(skipBody := true)), effect)
      else if cfg.headersReply == 2 then Again(f.(upgrade := true, flags := f.flags.(skipBody := true)), effect)
      else Err(CbHeadersComplete)
  }

  predicate HasBody(f: Fields) {
    f.flags.chunked || (f.contentLength > 0 && f.contentLength != ULLONG_MAX)
  }

  function StartBody(f: Fields, ch: byte): (a: Act)
    ensures a.Again? ==> Rank(a.f.state) < 2
  {
    if ch != LF then Err(Strict)
    else
      var f := f.(nread := 0);
      var ended := f.(state := NewMessage(f));
      if f.upgrade && (f.verb == CONNECT || f.flags.skipBody || !HasBody(f)) then
        Leave(ended, Notify(MessageComplete))
      else if f.flags.skipBody then Stay(ended, Notify(MessageComplete))
      else if f.flags.chunked then Go(f, ChunkSizeStart)
      else if f.contentLength == 0 then Stay(ended, Notify(MessageComplete))
      else if f.contentLength != ULLONG_MAX then Go(f, BodyIdentity)
      else if !NeedsEof(f) then Stay(ended, Notify(MessageComplete))
      else Go(f, BodyIdentityEof)
  }

  // ---------- Bodies ----------

  predicate InBody(s: State) {
    s.ChunkSizeStart? || s.ChunkSize? || s.ChunkParameters? || s.ChunkSizeAlmostDone? || s.ChunkData? ||
    s.ChunkDataAlmostDone? || s.ChunkDataDone? || s.BodyIdentity? || s.BodyIdentityEof? || s.MessageDone?
  }

  /** Body states. For the two bulk states, which the loop copies in one go,
      this is what one byte of the copied stretch amounts to. */
  function DispatchBody(f: Fields, ch: byte): (a: Act)
    requires InBody(f.state)
    ensures a.Again? ==> Rank(a.f.state) < Rank(f.state)
  {
    match f.state
    case BodyIdentity =>
      if f.contentLength <= 1 then
        Again(f.(contentLength := 0, state := MessageDone), MarkTakeFlush(Body))
      else Stay(f.(contentLength := f.contentLength - 1), MarkTake(Body))
    case BodyIdentityEof => Stay(f, MarkTake(Body))
    case MessageDone =>
      var f := f.(state := NewMessage(f));
      if f.upgrade then Leave(f, Notify(MessageComplete)) else Stay(f, Notify(MessageComplete))
    case ChunkSizeStart =>
      if Unhex(ch) == -1 then Err(InvalidChunkSize)
      else Go(f.(contentLength := Unhex(ch)), ChunkSize)
    case ChunkSize =>
      if ch == CR then Go(f, ChunkSizeAlmostDone)
      else if Unhex(ch) == -1 then Expect(f, ch == ';' || ch == ' ', ChunkParameters, InvalidChunkSize)
      else if (ULLONG_MAX - 16) / 16 < f.contentLength then Err(InvalidContentLength)
      else Stay(f.(contentLength := f.contentLength * 16 + Unhex(ch)), Quiet)
    case ChunkParameters => if ch == CR then Go(f, ChunkSizeAlmostDone) else Stay(f, Quiet)
    case ChunkSizeAlmostDone =>
      if ch != LF then Err(Strict)
      else
        var effect := Notify(ChunkHeader(f.contentLength));
        if f.contentLength == 0 then
          Stay(f.(nread := 0, flags := f.flags.(trailing := true), state := HeaderFieldStart), effect)
        else Stay(f.(nread := 0, state := ChunkData), effect)
    case ChunkData =>
      if f.contentLength <= 1 then
        Stay(f.(contentLength := 0, state := ChunkDataAlmostDone), MarkTake(Body))
      else Stay(f.(contentLength := f.contentLength - 1), MarkTake(Body))
    case ChunkDataAlmostDone =>
      if ch == CR then Stay(f.(state := ChunkDataDone), Flush(Body)) else Err(Strict)
    case ChunkDataDone =>
      if ch == LF then Stay(f.(nread := 0, state := ChunkSizeStart), Notify(ChunkComplete)) else Err(Strict)
  }

  // ---------- One byte ----------

  /** One pass through the switch of http_parser_execute. */
  function Dispatch(cfg: Config, f: Fields, unchecked: bool, ch: byte): (a: Act)
    ensures a.Again? ==> Rank(a.f.state) < Rank(f.state)
  {
    if InStartLine(f.state) then DispatchStartLine(f, ch)
    else if InRequestLine(f.state) then DispatchRequestLine(f, ch)
    else if InHeaders(f.state) then DispatchHeaders(cfg, f, unchecked, ch)
    else DispatchBody(f, ch)
  }

  /** Every jump back to the switch with the same byte lowers this rank. */
  function Rank(s: State): nat {
    if s.HeaderValue? then 6
    else if s.HeaderAlmostDone? then 5
    else if s.HeaderValueLws? || s.HeaderValueDiscardLws? then 4
    else if s.HeaderFieldStart? then 3
    else if s.HeadersAlmostDone? || s.ResStatusCode? then 2
    else if s.HeadersDone? || s.StartReqOrRes? || s.ResStatusStart? || s.BodyIdentity? then 1
    else 0
  }
}
