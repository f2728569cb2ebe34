/** Character classes and matcher strings of the HTTP parser, in its default
    strict build (HTTP_PARSER_STRICT is 1). A byte is a char below 256. */
module HttpChars {
  type byte = c: char | c < 256 as char witness 'a'

  const CR: byte := '\r'
  const LF: byte := '\n'

  // The largest uint64; as a content length it means "no length known".
  const ULLONG_MAX: nat := 0xFFFF_FFFF_FFFF_FFFF
  const HTTP_MAX_HEADER_SIZE: nat := 80 * 1024

  /** The macro LOWER: the byte with bit 5 set, which lower-cases letters and
      moves other bytes too (a tab becomes ')'). */
  function Lower(c: byte): byte {
    if (c as int / 32) % 2 == 1 then c else (c as int + 32) as char
  }

  predicate IsAlpha(c: byte) {
    'a' <= Lower(c) <= 'z'
  }

  predicate IsNum(c: byte) {
    '0' <= c <= '9'
  }

  function Digit(c: byte): (d: nat)
    requires IsNum(c)
    ensures d <= 9
  {
    c as int - '0' as int
  }

  predicate IsAlphaNum(c: byte) {
    IsAlpha(c) || IsNum(c)
  }

  predicate IsHex(c: byte) {
    IsNum(c) || 'a' <= Lower(c) <= 'f'
  }

  predicate IsUserinfoChar(c: byte) {
    IsAlphaNum(c) || c in "-_.!~*'()" || c in "%;:&=+$,"
  }

  /** The table `tokens`: a header-name byte in lower case, or NUL for a byte
      that may not occur in one. Bytes from 0x80 up are not listed, hence NUL. */
  function Token(c: byte): byte {
    if 'A' <= c <= 'Z' then (c as int + 32) as char
    else if 'a' <= c <= 'z' || IsNum(c) || c in "!#$%&'*+-.^_`|~" then c
    else '\0'
  }

  /** The table `normal_url_char`: printable ASCII but '#' and '?'. */
  predicate IsUrlChar(c: byte) {
    '!' <= c <= '~' && c != '#' && c != '?'
  }

  predicate IsHeaderChar(c: byte) {
    c == CR || c == LF || c == '\t' || (c > 31 as char && c != 127 as char)
  }

  /** The table `unhex`: -1 for a byte that is no hexadecimal digit. Only its
      first 128 entries are written down, so the others are zero and a byte
      from 0x80 up reads as the digit zero. */
  function Unhex(c: byte): (v: int)
    ensures -1 <= v <= 15
  {
    if IsNum(c) then c as int - '0' as int
    else if 'A' <= c <= 'F' then c as int - 'A' as int + 10
    else if 'a' <= c <= 'f' then c as int - 'a' as int + 10
    else if c < 128 as char then -1
    else 0
  }

  /** The character at `i` of a C string: NUL at its end. */
  function At(s: string, i: nat): char {
    if i < |s| then s[i] else '\0'
  }

  const CONNECTION := "connection"
  const PROXY_CONNECTION := "proxy-connection"
  const CONTENT_LENGTH := "content-length"
  const TRANSFER_ENCODING := "transfer-encoding"
  const UPGRADE := "upgrade"
  const CHUNKED := "chunked"
  const KEEP_ALIVE := "keep-alive"
  const CLOSE := "close"
}
