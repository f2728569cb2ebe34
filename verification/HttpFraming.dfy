/** Which messages have a body that ends with the connection, and which let another
    message follow (sections 3.3.3 and 6.3 of RFC 7230). */
module HttpFraming {
  import opened HttpMachine

  /** The content length of a message that gives none: 2^64 - 1. */
  const NO_LENGTH: nat := 18446744073709551615

  /** Responses with these codes never have a body. */
  predicate Bodiless(status: nat) {
    100 <= status <= 199 || status == 204 || status == 304
  }

  /** The body goes on to the end of the connection: a response that may have a body,
      and says neither how long it is nor that it comes in chunks. */
  predicate ToClose(f: Fields) {
    && !f.kind.Request? && !Bodiless(f.statusCode) && !f.flags.skipBody
    && !f.flags.chunked && f.contentLength == NO_LENGTH
  }

  /** The connection goes on: unless it is to be closed where both numbers of the version
      are at least 1, otherwise only if it is to be kept; and never behind a body that
      has no other end. */
  predicate Persists(f: Fields) {
    && (if f.httpMajor >= 1 && f.httpMinor >= 1 then !f.flags.close else f.flags.keepAlive)
    && !ToClose(f)
  }

  /** What is accepted behind a message. */
  function Following(f: Fields): State {
    if !Persists(f) then Dead else if f.kind.Request? then StartReq else StartRes
  }

  /** http_message_needs_eof, http_should_keep_alive and NEW_MESSAGE decide so. */
  lemma FramingExactly(f: Fields)
    ensures NeedsEof(f) <==> ToClose(f)
    ensures ShouldKeepAlive(f) <==> Persists(f)
    ensures NewMessage(f) == Following(f)
  {
  }
}
