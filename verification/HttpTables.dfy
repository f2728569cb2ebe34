/** The tables and limits of the HTTP parser, stated without their definitions. */
module HttpTables {
  import opened HttpChars
  import opened HttpMachine
  import opened HttpRun
  import Texts

  /** The characters of a token (section 3.2.6 of RFC 7230): any visible character that
      is no delimiter. A capital letter becomes its small one. */
  lemma TokenExactly(c: byte)
    ensures Token(c) != 0 as char <==> '!' <= c <= '~' && c !in "\"(),/:;<=>?@[\\]{}"
    ensures Token(c) != 0 as char ==>
              if 'A' <= c <= 'Z' then Texts.Cases(c, Token(c)) else Token(c) == c
  {
  }

  /** The hexadecimal digits by their places; every byte from 0x80 up is a zero. */
  lemma UnhexExactly(c: byte, n: nat)
    ensures Unhex(c) == n <==> Texts.StandsFor(c, n) || (n == 0 && c >= 128 as char)
  {
  }

  lemma DigitExactly(c: byte, n: nat)
    requires n < 10
    ensures IsNum(c) && Digit(c) == n <==> c == "0123456789"[n]
  {
  }

  /** The macro LOWER finds a small letter exactly in the two cases of that letter. */
  lemma LowerExactly(c: byte, d: byte)
    requires 'a' <= d <= 'z'
    ensures Lower(c) == d <==> Texts.SameLetter(c, d)
  {
  }

  /** Blanks, visible characters and bytes from 0x80 up (section 3.2 of RFC 7230), and
      line ends. */
  lemma HeaderCharExactly(c: byte)
    ensures IsHeaderChar(c) <==> c as int in {9, 10, 13} || 32 <= c as int <= 126 || 128 <= c as int <= 255
  {
  }

  /** The 81921st byte of a message's headers is refused, and none before it is for
      their size. */
  lemma HeaderLimit(cfg: Config, m: Machine, ch: byte)
    ensures ParsingHeader(m.f.state) && m.f.nread >= 81920 ==> Byte(cfg, m, ch) == Failed(HeaderOverflow)
    ensures ParsingHeader(m.f.state) && m.f.nread < 81920 ==>
              Byte(cfg, m, ch) == Passes(cfg, m.(f := m.f.(nread := m.f.nread + 1)), ch)
  {
    hide Passes;
  }

  /** The words that headers are searched for. */
  lemma Words()
    ensures CONNECTION == "connection" && PROXY_CONNECTION == "proxy-connection" && UPGRADE == "upgrade"
    ensures CONTENT_LENGTH == "content-length" && TRANSFER_ENCODING == "transfer-encoding"
    ensures CHUNKED == "chunked" && KEEP_ALIVE == "keep-alive" && CLOSE == "close"
  {
  }

  /** The names of the methods. */
  lemma CommonNames()
    ensures MethodString(DELETE) == "DELETE" && MethodString(GET) == "GET"
    ensures MethodString(HEAD) == "HEAD" && MethodString(POST) == "POST"
    ensures MethodString(PUT) == "PUT" && MethodString(CONNECT) == "CONNECT"
    ensures MethodString(OPTIONS) == "OPTIONS" && MethodString(TRACE) == "TRACE"
  {
  }

  /** Distributed authoring. */
  lemma DavNames()
    ensures MethodString(COPY) == "COPY" && MethodString(LOCK) == "LOCK"
    ensures MethodString(MKCOL) == "MKCOL" && MethodString(MOVE) == "MOVE"
    ensures MethodString(PROPFIND) == "PROPFIND" && MethodString(PROPPATCH) == "PROPPATCH"
  {
  }

  /** Search, bindings and access control. */
  lemma BindNames()
    ensures MethodString(SEARCH) == "SEARCH" && MethodString(UNLOCK) == "UNLOCK"
    ensures MethodString(BIND) == "BIND" && MethodString(REBIND) == "REBIND"
    ensures MethodString(UNBIND) == "UNBIND" && MethodString(ACL) == "ACL"
  {
  }

  /** Versioning. */
  lemma DeltaNames()
    ensures MethodString(REPORT) == "REPORT" && MethodString(MKACTIVITY) == "MKACTIVITY"
    ensures MethodString(CHECKOUT) == "CHECKOUT" && MethodString(MERGE) == "MERGE"
  {
  }

  /** Notification. */
  lemma NoticeNames()
    ensures MethodString(MSEARCH) == "M-SEARCH" && MethodString(NOTIFY) == "NOTIFY"
    ensures MethodString(SUBSCRIBE) == "SUBSCRIBE" && MethodString(UNSUBSCRIBE) == "UNSUBSCRIBE"
  {
  }

  /** The rest. */
  lemma OtherNames()
    ensures MethodString(PATCH) == "PATCH" && MethodString(PURGE) == "PURGE"
    ensures MethodString(MKCALENDAR) == "MKCALENDAR" && MethodString(LINK) == "LINK"
    ensures MethodString(UNLINK) == "UNLINK" && MethodString(SOURCE) == "SOURCE"
  {
  }
}
