# Verification of the miner's protocol code

A Dafny model of the parts of this miner that carry its correctness: the
incremental HTTP parser it feeds with `recv` slices, the embedded web server's
WebSocket, pattern, registry, queue and URI code, the JSON printer and parser,
streaming SHA-512, the work and share encodings, and the protocol between the
miner and its hashers. `dafny verify dfyconfig.toml` checks everything.

Bytes are characters below 256 in the text components and numbers below 256 (or
8-bit vectors, in SHA-512) in the binary ones. Code that changes state in place is
a class or a method with loops; each is proved equal to a specification function,
and the properties are lemmas about those functions. Fixed widths and wraps are
written out where they matter.

## What is modelled

* `HttpChars`, `HttpMachine`: character classes, and one dispatch step of
  `http_parser_execute` for every state, in the strict build, with all callbacks
  set. Callbacks answer 0, except `on_headers_complete`, whose answer is a
  parameter. `HttpRun` runs bytes and calls and keeps an event log in which
  adjacent data callbacks of one kind are merged. `HttpParser` is the parser object
  with its loops, marks, `memchr` skips and callbacks; `HttpUrl` takes a request
  target apart, and `HttpTargets` says what targets put together from their parts give.
  `HttpTables` states the tables and limits without their definitions.
* `HttpSegments`, `HttpInvariant`, `HttpMarks`, `HttpUpgrade`, `HttpLengths`,
  `HttpNames`: properties of all runs of that machine. `HttpErrors`: which error a call
  reports, as it counts the bytes of a header value after it has scanned them.
* `HttpHeaders`, `HttpConnection`, `HttpHeaderLines`: what a header line makes the
  parser report and note, with values that are empty or go on over several lines, and
  with lists of connection options, lengths, or the word "chunked".
* `HttpFraming`: which responses have a body up to the end of the connection, and behind
  which messages another is accepted.
* `HttpChunked`, `HttpStartLines`, `HttpMessages`: what whole messages, one after the
  other, make the parser report, for every method, target, version and status, with
  header lines in any order and a body framed as they say: by length, in chunks, to the
  end of the connection, or not at all.
* `WebSocketFrames`, `WebSocketReader`, `WebSocketRoundTrip`: frame writers, mask,
  reader, and that what is written is delivered. Reads may return any number of
  bytes; a failing connection is the end of the incoming stream.
* `Glob`, `Handlers`, `SocketQueue`, `UrlText`, `Forms`: `match_prefix`, the linked
  list of handlers, the ring of accepted sockets, URI decoding and clean-up, form
  encoding and retrieval.
* `JsonText`, `JsonParser`, `JsonRoundTrip`: values without floating-point numbers.
  `JsonGrammar`: what is read in texts of the JSON grammar, whoever wrote them.
* `Sha512Standard`, `Sha512`: FIPS 180-4, and the streaming class. `Sha512Words`: its
  constants as roots of primes, and its functions on words.
* `Texts`: letter case and digits.
* `Bytes`, `Hex`, `Base64`, `Shares`: encodings of work, and which hashes are shares.
  Argon2 is an arbitrary function from base and nonce to 32 bytes.
* `MiningState`, `MiningProtocol`, `MiningSafety`: the locked regions of a hasher, the
  miner's main loop and any number of worker threads as one transition system, and
  what holds after every interleaving. `MiningCeilings`: when a submitted hash misses
  the difficulty of the time.

## Findings

* Segmentation does not matter, except for the bytes that the `h_general` skip jumps
  over: inside one call they are not checked as header characters.
  `HttpSegments.HiddenControlByte` is a request that one slicing accepts and another
  rejects; `HttpSegments.SegmentationExact` is the exact condition for the reference run,
  which counts every byte as it reads it.
* A call counts the bytes of a header value after it has scanned them. It reports another
  error than the reference run if and only if the header limit is passed inside a value
  that goes on to be rejected, before its line end and before the rest of it is skipped
  (`HttpErrors.LateExactly`): "Content-Length: 1", spaces that pass the limit and an "x"
  are a bad length in one call, and too long a header in calls cut among the spaces
  (`HttpErrors.LateLength`). `HttpErrors.CallsExact` is the exact condition for calls to
  do and report the same however a stream is cut.
* The table `unhex` has 128 initialisers for 256 entries, so bytes from 0x80 up count
  as the digit 0 of a chunk size (`HttpLengths.HighByteIsZero`). What is accepted is
  hexadecimal if and only if it holds no such byte (`HttpLengths.SizeAccepted`).
* The conservative overflow tests reject the largest few lengths: a Content-Length
  above 2^64 - 7 and a chunk size above 2^64 - 17.
* `LOWER` sets bit 5, so a tab behind a comma of a Connection header is not skipped as
  white space, and the rest of the list is lost: "a,<tab>close" does not close
  (`HttpConnection.TabBehindComma`). Blanks behind a comma are skipped if and only if
  there is no tab among them (`HttpConnection.BlanksBehindComma`). A tab behind an
  option, an option that begins with '_', and a mere beginning of a known option right
  in front of a comma ("c,close") have similar effects, for one option or for all that
  follow. For every list, the flags it sets are those of the words in visible entries
  (`HttpConnection.ListIsShown`), and they are the flags that section 6.1 of RFC 7230
  gives it if and only if every word of the list is set already or visible
  (`HttpConnection.StandardExactly`).
* A target whose fragment stands right behind the authority, such as `http://a#b`, is
  refused (`HttpTargets.FragmentBehindHost`), though section 3 of RFC 3986 allows it. Of
  all targets put together from valid parts, these and the ones with a port above 65535
  are the only ones refused (`HttpTargets.TargetParsed`).
* SHA-512's length field is 32 bits: the padding is the standard's if and only if the
  message is shorter than 2^29 bytes (`Sha512.PaddingExact`).
* A JSON number that is a whole text is not read back (`JsonRoundTrip.BareNumber`), and
  an object whose keys are not in escaped form changes when printed and loaded;
  `JsonRoundTrip.DumpThenLoad` says that these are the only exceptions.
* A unicode escape in a JSON string stays as it is written (`JsonGrammar.UnicodeKept`). A
  string is read as the characters that its text denotes if and only if there is none in
  it (`JsonGrammar.UnicodeExactly`).
* Hexadecimal text with small letters is decoded wrongly: "0a" gives 42
  (`Hex.SmallDigit`). The result is right if and only if no second digit of a pair is a
  small letter (`Hex.DecodesExactly`); `Hex.EncodeTo` writes capital ones.
* A form field can be found under a name that spans several fields
  (`Forms.NameAcrossFields`). Retrieval is right if and only if the name does not read
  like neighbouring fields up to the name of the last (`Forms.RetrievedExactly`).
* A hash is submitted if its checksum is the miner's current one, even if it misses the
  current difficulty (`MiningCeilings.StaleExample`). For every list of published
  answers, that can happen if and only if the difficulty rises from one to a later one
  with the same checksum, whether or not they tell the workers to pause
  (`MiningCeilings.StaleExactly`): a worker tests for a pause in one locked region and
  takes its input in another, and it runs before the first answer is published.

## Model

| member | source | states |
|---|---|---|
| HttpParser.Parser.Execute | http/http_parser/http_parser.c:634-2053 | one call, with its marks, skips and inner loops, leaves the fields, the merged callbacks and the unread bytes that running its bytes one by one leaves, and fails if and only if that fails, with the error of `HttpErrors.Call` |
| HttpParser.Parser.FeedAll | http/http_parser/http_parser.c:634-2053 | one call for every slice, until one fails or leaves the stream, does what running the slices one by one does, with the same error; for a clean stream what one run over the whole does, unless one of the calls meets a late error |
| HttpParser.Parser.Receive | http/http.cpp:243-268 | the client's loop, which ignores results and stops at the first completed message: the same for the slices it uses, and no message is complete before the last of them |
| HttpParser.Parser.Consume | http/http_parser/http_parser.c:704-2020 | one turn of the byte loop, including every stretch it takes at once, equals the run over the bytes taken |
| HttpParser.Parser.ScanField | http/http_parser/http_parser.c:1228-1364 | the header-name loop equals the run over its bytes, byte counts included |
| HttpParser.Parser.ScanValue | http/http_parser/http_parser.c:1444-1646 | the header-value loop, with its memchr skip, equals the run over its bytes |
| HttpParser.Parser.ReadBody | http/http_parser/http_parser.c:1836-1883 | a stretch of body taken at once equals the run over its bytes |
| HttpParser.LineEnd | http/http_parser/http_parser.c:1473-1494 | the skip finds the first CR or LF, or the end |
| HttpRun.RunAppend | http/http_parser/http_parser.c:634-2053 | running a concatenation is running its parts |
| HttpRun.AbsorbSplit | http/http_parser/http_parser.c:103-140 | a data callback split in two is absorbed into the log like one |
| HttpRun.CleanAgrees | http/http_parser/http_parser.c:1465-1494 | without bad bytes in skips, a call that may skip and one that may not do the same |
| HttpSegments.CleanSegmentation | http/http.cpp:255-262 | run byte by byte, any slicing of a clean stream gives the same fields and merged log, or the same error |
| HttpSegments.SegmentationExact | http/http_parser/http_parser.c:634-2053 | run byte by byte, all slicings agree with one call, errors included, if and only if the stream is clean or one call looks at a byte that no header may hold |
| HttpSegments.MeetsExactly | http/http_parser/http_parser.c:1178-1504 | a run fails with an invalid header token if and only if the first byte that stops it is, where a name or value is looked for, one that the tables do not allow there |
| HttpErrors.CallIsRun | http/http_parser/http_parser.c:1444-1646 | a call does what the run byte by byte does; only where that overflows it may report one of two other errors |
| HttpErrors.LateExactly | http/http_parser/http_parser.c:1444-1646 | it does so if and only if the limit is passed at a byte inside the value being scanned, and that byte or a later one of the value is rejected before the line end and before a skip |
| HttpErrors.LateLength | http/http_parser/http_parser.c:1537-1546 | a Content-Length of one digit, spaces beyond the limit and an "x" fail with a bad length in one call, with an overflow when cut among the spaces |
| HttpErrors.CleanCalls | http/http.cpp:255-262 | real calls on the slices of a clean stream do what one run over the whole does, late errors apart |
| HttpErrors.CallsExact | http/http_parser/http_parser.c:634-2053 | real calls do and report the same however a stream is cut, if and only if the condition of SegmentationExact holds and no value is rejected behind the limit |
| HttpSegments.HiddenControlByte | http/http_parser/http_parser.c:1465-1494 | a stream whose acceptance depends on the slicing |
| HttpInvariant.DispatchInv | http/http_parser/http_parser.c:704-2020 | every step keeps: chunk states have the chunked flag, body-data states a known non-zero length, `nread` is 1 at a chunk size's start, matchers stay inside their strings |
| HttpMarks.DispatchMarks | http/http_parser/http_parser.c:134-138 | every step sets and uses marks as the state says |
| HttpMarks.RunKeeps | http/http_parser/http_parser.c:1498-1500 | no assertion of the parser fails in any run, and at most one mark is set in every pass |
| HttpMarks.FeedKeeps | http/http_parser/http_parser.c:2033-2037 | nor in any call of any sequence of calls; at most one mark is pending at the end of each |
| HttpMarks.InitReachable | http/http_parser/http_parser.c:2117-2126 | the initial parser satisfies the invariant |
| HttpUpgrade.RunUpgrade | http/http_parser/http_parser.c:1795-1892 | a call stops early without error if and only if the message is an upgrade and has just been completed |
| HttpLengths.ContentLengthExact | http/http_parser/http_parser.c:1507-1535 | a Content-Length of any number of digits is accepted if and only if its value is at most 2^64 - 7, and stored exactly |
| HttpLengths.ChunkSizeExact | http/http_parser/http_parser.c:1894-1945 | the same for chunk sizes and 2^64 - 17 |
| HttpLengths.HighByteIsZero | http/http_parser/http_parser.c:222-231 | the byte 0x80 is taken as the size 0 |
| HttpLengths.SizeAccepted | http/http_parser/http_parser.c:1894-1945 | up to the end of the digits, exactly those bytes are accepted that the table knows and that stay within 2^64 - 17; they are hexadecimal digits if and only if none is 0x80 or above |
| HttpNames.NameRecognised | http/http_parser/http_parser.c:1233-1327 | after the colon the header state is the one of the lower-cased name, for every name |
| HttpHeaders.HeaderRun | http/http_parser/http_parser.c:1178-1724 | a header of any name but a length, its value empty or continued on more lines, is reported with blank lines and leading blanks dropped; an uninterpreted one changes no flag, an Upgrade header with a value that flag only |
| HttpConnection.BlanksBehindComma | http/http_parser/http_parser.c:1554-1570 | behind a comma, blanks leave the matcher ready if and only if they hold no tab; otherwise the list is lost |
| HttpConnection.TabBehindComma | http/http_parser/http_parser.c:1554-1570 | the list "a,<tab>close" leaves the close flag unset, "a, close" sets it |
| HttpConnection.ReadyAgain | http/http_parser/http_parser.c:1554-1632 | the matcher is ready behind an option and its comma if and only if no tab stands before it, no underscore begins it, and it is no mere beginning of a word right before the comma |
| HttpConnection.SeenExactly | http/http_parser/http_parser.c:1571-1632 | an option sets its flag if and only if it is one of the three words, in any case, with no tab around it |
| HttpConnection.LostStaysLost | http/http_parser/http_parser.c:1465-1494 | once the list is lost, no further option sets a flag |
| HttpConnection.OptionsRun | http/http_parser/http_parser.c:1364-1690 | a Connection header is reported as it was written and sets the flags of its list, read option by option |
| HttpConnection.ListIsShown | http/http_parser/http_parser.c:1554-1690 | for every list, the flags it adds are those of the words in visible entries: met while ready for an option, with no tab around them |
| HttpConnection.StandardExactly | http/http_parser/http_parser.c:1554-1690 | they are the flags of all its words if and only if each word of it is set already or held by a visible entry |
| HttpConnection.ClearIsStandard | http/http_parser/http_parser.c:1554-1690 | so for every list without the traps that ClearAt names entry by entry |
| HttpConnection.TrappedLists | http/http_parser/http_parser.c:1554-1632 | a list with each kind of trap, whose last option is not seen |
| HttpHeaderLines.NotedLine | http/http_parser/http_parser.c:1178-1724 | a line of any kind is reported, and exactly what it means is noted: an upgrade, options, a length, or chunks |
| HttpHeaderLines.NotedLines | http/http_parser/http_parser.c:1178-1724 | any lines in any order, with at most one length, likewise |
| HttpChunked.ChunkedRoundTrip | http/http_parser/http_parser.c:1894-2012 | decoding any chunked body with parameters and trailers hands over exactly the payloads, completes once, and leaves the parser where the message ends |
| HttpStartLines.CodeRun | http/http_parser/http_parser.c:839-876 | a status code of any number of digits is accepted if and only if its value is at most 999, and stored exactly |
| HttpStartLines.StatusLineRead | http/http_parser/http_parser.c:759-914 | a status line of any version, spaces, code and reason, none included, with either line end, sets exactly these fields and reports the reason |
| HttpStartLines.Guessed | http/http_parser/http_parser.c:916-1010 | guessing letter by letter ends at the method, for all 34 methods |
| HttpStartLines.MethodRun | http/http_parser/http_parser.c:916-1010 | a method and a space set the method and begin the message |
| HttpStartLines.TargetRun | http/http_parser/http_parser.c:1012-1083 | the request machine moves over a target as http_parser_parse_url's first pass does, and reports its bytes |
| HttpStartLines.RequestLineRead | http/http_parser/http_parser.c:916-1176 | a request line of any method, spaces, target that may end, and version, none included, with either line end, sets exactly these fields and reports the target |
| HttpFraming.FramingExactly | http/http_parser/http_parser.c:2056-2098 | a message needs the end of the connection if and only if it is a response with a status outside 100..199, 204 and 304, not told to skip its body, not chunked and without a length; another message is accepted behind it if and only if it does not, and close is unset where both numbers of the version are positive, keep-alive set otherwise |
| HttpMessages.BodyToEnd | http/http_parser/http_parser.c:1786-1838 | behind the headers of a response without chunks and without a length, the body goes on to the end of the connection if and only if the status is outside 100..199, 204 and 304 and the body is not skipped; otherwise the message is complete at once |
| HttpMessages.NextMessage | http/http_parser/http_parser.c:1842-1892 | behind a body with a length, version and flags alone decide whether another message is accepted |
| HttpMessages.HeadersEnd | http/http_parser/http_parser.c:1726-1838 | the empty line reports the headers complete and, for every answer, opens the body that the headers frame, completes the message, hands the connection over, or fails |
| HttpMessages.IdentityBody | http/http_parser/http_parser.c:1842-1892 | a body with a length is handed over whole, and the message is complete at its last byte; an upgrade stops the call there |
| HttpMessages.ContentRead | http/http_parser/http_parser.c:1178-2012 | headers in any order and a body framed as they say give exactly these events and leave the parser ready for the next message, dead, waiting for the end, or stopped |
| HttpMessages.BodyIntact | http/http.cpp:16-32 | the body bytes of those events are the payload, and completion is reported once, or not before the connection ends |
| HttpMessages.ResponseRead | http/http_parser/http_parser.c:634-2053 | a whole response is reported as it was written, its body intact, and completed once |
| HttpMessages.ResponsesRead | http/http_parser/http_parser.c:634-2053 | any number of responses that keep the connection are reported one after the other, and the parser is ready for the next |
| HttpMessages.RequestRead | http/http_parser/http_parser.c:634-2053 | a whole request likewise; one that hands the connection over stops the parser behind its last byte |
| HttpUrl.UrlStruct.Fill | http/http_parser/http_parser.c:2315-2435 | the filled struct is the specification's, and a decomposition |
| HttpUrl.UrlStruct.FillHost | http/http_parser/http_parser.c:2228-2307 | the host loop equals the specification's second pass |
| HttpUrl.UrlStruct.FillPort | http/http_parser/http_parser.c:2408-2432 | the port is the value of its digits, or the call fails if that exceeds 65535 |
| HttpUrl.Transition | http/http_parser/http_parser.c:486-632 | target states go up one scale; fields are left and entered by the right bytes |
| HttpUrl.ScanPlaced | http/http_parser/http_parser.c:2331-2387 | after every prefix, fields are non-empty, ordered, disjoint runs with the right delimiters |
| HttpUrl.HostStepPlaced | http/http_parser/http_parser.c:2145-2287 | the same for user, host and port inside the authority |
| HttpUrl.UrlDecomposed | http/http_parser/http_parser.c:2315-2435 | success means disjoint slices in the order schema, user, host, port, path, query, fragment; a host with a schema; a 16-bit port; host and port only for CONNECT |
| HttpTargets.TargetParsed | http/http_parser/http_parser.c:2315-2435 | a target put together from any valid scheme, user, host or bracketed address, port, path, query and fragment is taken apart into exactly these, where they stand, unless its port is above 65535 or its fragment stands right behind the authority; then it is refused |
| HttpTargets.ConnectParsed | http/http_parser/http_parser.c:2315-2435 | an authority is accepted for CONNECT if and only if it has a port, at most 65535, and no user |
| HttpTargets.AuthorityParsed | http/http_parser/http_parser.c:2228-2307 | the host loop takes every valid authority apart into user, host and port |
| HttpTargets.SameClasses | http/http_parser/http_parser.c:412-440 | the characters of user, host, zone and path are those of RFC 3986, and letters, digits and hexadecimal digits in both cases |
| HttpTargets.FragmentBehindHost | http/http_parser/http_parser.c:554-590 | `http://a#b` is refused |
| HttpTables.TokenExactly | http/http_parser/http_parser.c:187-220 | a header name may hold exactly the visible characters that are no delimiters, and capital letters become small ones |
| HttpTables.UnhexExactly | http/http_parser/http_parser.c:222-231 | exactly the hexadecimal digits of both cases have their values, every byte from 0x80 up is zero, all others have none |
| HttpTables.HeaderLimit | http/http_parser/http_parser.c:140-159 | the 81921st header byte is refused for its size, and none before it |
| WebSocketFrames.MaskData | http/civetweb/civetweb.c:8962-8986 | word-wise and byte-wise masking both give section 5.3's result |
| WebSocketFrames.MaskedWord | http/civetweb/civetweb.c:8968-8974 | a masked word is four masked bytes |
| WebSocketFrames.MaskTwice | http/civetweb/civetweb.c:8848-8853 | unmasking undoes masking |
| WebSocketFrames.FillHeader | http/civetweb/civetweb.c:8904-8935 | the header is laid out as section 5.2 says, for all three lengths |
| WebSocketFrames.Writer.WriteExec | http/civetweb/civetweb.c:8897-8950 | header and data are sent, and the last write's count returned |
| WebSocketFrames.Writer.ServerWrite | http/civetweb/civetweb.c:8952-8959 | an unmasked frame is sent |
| WebSocketFrames.Writer.ClientWrite | http/civetweb/civetweb.c:8988-9013 | a masked frame is sent, for a zero key an unmasked one |
| Bytes.XorBits | http/civetweb/civetweb.c:8962-8986 | a bit of a masked number is set if and only if it is in one of the two |
| WebSocketReader.Connection.ReadHead | http/civetweb/civetweb.c:8768-8784 | the header branches find exactly the complete heads |
| WebSocketReader.Connection.TakePayload | http/civetweb/civetweb.c:8804-8846 | payload and rest of the stream are right in the overflow case and in the memmove case |
| WebSocketReader.Connection.TakeFrame | http/civetweb/civetweb.c:8786-8875 | one frame is delivered and removed, or the reader fails |
| WebSocketReader.Connection.Read | http/civetweb/civetweb.c:8729-8894 | under any fragmentation the messages delivered are those of the stream; the request in front of the queue stays |
| WebSocketRoundTrip.HeaderRead | http/civetweb/civetweb.c:8768-8784 | the reader finds in a header where it ends and how long the payload is, as the writer put it there |
| WebSocketRoundTrip.MaskRead | http/civetweb/civetweb.c:8804-8853 | and the masking key |
| WebSocketRoundTrip.WrittenIsDelivered | http/civetweb/civetweb.c:8729-9013 | any list of written messages is delivered unchanged and in order |
| WebSocketRoundTrip.Exchange | http/civetweb/civetweb.c:8729-9013 | the writers' calls and the reader's loop together: what one end writes the other delivers, all of it or up to the first refusal or close, however the bytes are cut up |
| WebSocketRoundTrip.AnyFrame | http/civetweb/civetweb.c:8768-8875 | a frame with any first byte, unfinished or with reserved bits, delivers that byte and its payload by itself |
| WebSocketRoundTrip.ClosedByOpcode | http/civetweb/civetweb.c:8855-8875 | if the handler always goes on, opcode 8 and no other ends the reader, behind that message |
| WebSocketRoundTrip.WrittenUpToStop | http/civetweb/civetweb.c:8855-8875 | up to the first refusal or close frame, which leaves the rest of the stream |
| Glob.MatchPrefix | http/civetweb/civetweb.c:2159-2199 | equals the specification, recursion on shorter patterns |
| Glob.GreedyIsBest | http/civetweb/civetweb.c:2173-2197 | -1 if and only if nothing matches; otherwise the match whose star lengths are the greatest, the first star first |
| Glob.ReachExact | http/civetweb/civetweb.c:2179-2186 | a star may take exactly the texts without a slash, a double star any |
| Glob.MatchIsFirst | http/civetweb/civetweb.c:2166-2172 | among alternatives, the first with a positive result, or the last one's result |
| Handlers.Registry.SetHandlerType | http/civetweb/civetweb.c:9424-9569 | the linked list stays acyclic with unique keys, and holds the updated list |
| Handlers.Registry.Remove | http/civetweb/civetweb.c:9520-9524 | unlinking a node leaves the others in order |
| Handlers.Registry.GetRequestHandler | http/civetweb/civetweb.c:9638-9731 | returns the entry that the lookup function names |
| Handlers.UpdatedKeepsKeys | http/civetweb/civetweb.c:9498-9569 | keys stay unique |
| Handlers.UpdatedIsUpdate | http/civetweb/civetweb.c:9498-9569 | an accepted call updates or removes its key and leaves other entries and their order |
| Handlers.LookupPriority | http/civetweb/civetweb.c:9660-9731 | exact before slash-prefix before pattern, then the oldest; nothing only if nothing fits |
| Handlers.LookupAfterUpdate | http/civetweb/civetweb.c:9424-9731 | a registered uri finds its handler, and other registered uris still find theirs |
| Handlers.AcceptedExactly | http/civetweb/civetweb.c:9440-9492 | a registration is accepted if and only if it gives a callback of its kind and none of another, a removal also if it gives none |
| Handlers.RegistrationTakesEffect | http/civetweb/civetweb.c:9424-9569 | every call registers what it gives under its key, or leaves nothing under the key that it removes, and leaves all others alone |
| SocketQueue.Queue.Produce | http/civetweb/civetweb.c:12481-12506 | appends to the bounded queue, or drops when full and stopping |
| SocketQueue.Queue.Consume | http/civetweb/civetweb.c:12320-12356 | takes the oldest socket; the wrap-around keeps contents and order |
| SocketQueue.WindowGrows | http/civetweb/civetweb.c:12495-12500 | a store behind the head changes no queued socket |
| SocketQueue.WindowWraps | http/civetweb/civetweb.c:12341-12345 | subtracting the ring's size from both ends changes nothing |
| UrlText.DecodeEncode | http/civetweb/CivetServer.cpp:426-450 | urlDecode undoes urlEncode in both modes |
| UrlText.DecodesExactly | http/civetweb/CivetServer.cpp:426-450 | every text is decoded to what it says and nothing else: a character is itself, '%' and two digits in either case a byte, '+' a blank in forms |
| UrlText.EncodedIsSafe | http/civetweb/CivetServer.cpp:550-572 | an encoded text holds no blank, no control but NUL, and no character that delimits anything in a URI or a form |
| UrlText.UrlEncode | http/civetweb/CivetServer.cpp:550-572 | the loop appends the encoding |
| UrlText.UrlDecode | http/civetweb/CivetServer.cpp:426-450 | the loop computes the decoding |
| UrlText.MgUrlDecode | http/civetweb/civetweb.c:4420-4448 | decoding into any buffer, the source's own included, gives the decoding, cut off with -1 if it does not fit |
| UrlText.CleanUp | http/civetweb/civetweb.c:4987-5008 | the in-place pass computes the cleaned path |
| UrlText.CleanedExactly | http/civetweb/civetweb.c:4985-4986 | the result has no separator before a separator or two dots; tidy paths, and only those, stay; cleaning is idempotent |
| UrlText.CleanedIsOnly | http/civetweb/civetweb.c:4987-5008 | the cleaned path is the only tidy one that lacks nothing but separators behind separators and pairs of dots |
| UrlText.CleanedIsSubsequence | http/civetweb/civetweb.c:4987-5008 | characters are only removed |
| Forms.GetParam | http/civetweb/CivetServer.cpp:504-538 | the loop equals the scan of the specification |
| Forms.Retrieved | http/civetweb/CivetServer.cpp:504-538 | from any list of fields, in any spelling that holds no '&', the decoded value of the k-th match in either case, or nothing |
| Forms.RetrievedExactly | http/civetweb/CivetServer.cpp:504-538 | for every name, that holds if and only if the name does not read like several neighbouring fields |
| Forms.NameAcrossFields | http/civetweb/CivetServer.cpp:516-521 | a name with '&' can match across two fields |
| JsonText.JsonEscape | http/simplejson/json.h:28-42 | the loop escapes character by character |
| JsonText.DumpText | http/simplejson/json.h:337-378 | the recursive printer equals the specification |
| JsonText.InsertIsUpdate | http/simplejson/json.h:235-237 | an assignment to a key is the update of an ordered map |
| JsonParser.Parser.ReadNext | http/simplejson/json.h:618-634 | value and offset are the specification's, or a read is out of bounds or a float is met |
| JsonParser.Parser.ReadObject | http/simplejson/json.h:441-475 | the same for objects |
| JsonParser.Parser.ReadArray | http/simplejson/json.h:477-504 | the same for arrays |
| JsonParser.Parser.ReadString | http/simplejson/json.h:506-542 | the same for strings, with the kept unicode escapes |
| JsonParser.Parser.ReadNumber | http/simplejson/json.h:544-592 | the same for integers, with strtoull's sign and saturation |
| JsonGrammar.StringSpelled | http/simplejson/json.h:506-542 | every spelling of a string, each character as itself or by an escape of section 7 of RFC 8259, is read as the string, up to its quote |
| JsonGrammar.TreeRead | http/simplejson/json.h:441-635 | every text of the grammar, with any blanks between tokens and any spelling of its strings, is read as what it says, up to its end |
| JsonGrammar.Loaded | http/simplejson/json.h:618-634 | a whole text with blanks around it is loaded as what it says; a number, if a blank follows |
| JsonGrammar.LastCounts | http/simplejson/json.h:441-475 | of several members with one key, the last is the one that counts |
| JsonGrammar.UnicodeExactly | http/simplejson/json.h:520-533 | a string has the codes that its text denotes if and only if no code is written as a unicode escape |
| JsonGrammar.UnicodeKept | http/simplejson/json.h:520-533 | a unicode escape for A is read as its six characters |
| JsonRoundTrip.EscapeUnescape | http/simplejson/json.h:28-42 | escaped keys are exactly what json_escape produces |
| JsonRoundTrip.StringRead | http/simplejson/json.h:506-542 | an escaped string is read as the string |
| JsonRoundTrip.ValueRead | http/simplejson/json.h:441-635 | a printed value is read wherever it stands in a text |
| JsonRoundTrip.LoadedGood | http/simplejson/json.h:441-635 | loaded values have ordered fields, 64-bit numbers and escaped keys |
| JsonRoundTrip.DumpThenLoad | http/simplejson/json.h:337-635 | Load(dump(v)) is v if and only if v is no number and its keys are escaped, for every depth and blank tab |
| JsonRoundTrip.BareNumber | http/simplejson/json.h:577-580 | a lone number is loaded as null |
| JsonRoundTrip.LoadThenDumpThenLoad | http/simplejson/json.h:337-635 | for every text that loads, printing and loading again gives the same value unless it is a lone number |
| Sha512.Hasher.Init | crypt/sha512.cpp:87-99 | the empty message's state |
| Sha512.Hasher.Transform | crypt/sha512.cpp:49-85 | the fold of the standard's compression over the blocks |
| Sha512.Hasher.TransformOne | crypt/sha512.cpp:57-83 | one block's schedule, rounds and addition are section 6.4.2's |
| Sha512.Hasher.Update | crypt/sha512.cpp:101-122 | keeps: the hash is the fold over the complete blocks, the buffer starts with the rest; the bytes are appended |
| Sha512.Hasher.Final | crypt/sha512.cpp:124-141 | the digest of all bytes given, the standard's below 2^29 bytes |
| Sha512.Hash512 | crypt/sha512.cpp:143-152 | one-shot hashing is the same |
| Sha512.HashAppend | crypt/sha512.cpp:49-85 | hashing blocks in parts is hashing them at once |
| Sha512.PaddingExact | crypt/sha512.cpp:130-136 | the written padding is the standard's if and only if the message is shorter than 2^29 bytes |
| Sha512Words.RoundConstant | crypt/sha512.cpp:7-47 | the constant of every round is the first 64 bits of the fraction of the cube root of its prime |
| Sha512Words.InitialWord | crypt/sha512.cpp:87-99 | the words of the initial value are those of the square roots of the first eight primes |
| Sha512Words.Sum0Places | crypt/sha512.h:32-39 | rotations by 28, 34 and 39 bits |
| Sha512Words.ChChooses | crypt/sha512.h:34 | one word chooses between two |
| Sha512Words.MajAgrees | crypt/sha512.h:35 | two of three words decide |
| Sha512Words.PackOrder | crypt/sha512.h:47-68 | octets are packed most significant first |
| Base64.EncodeTo | crypt/base64.cpp:18-56 | the loop writes section 4 of RFC 4648's encoding |
| Base64.DecodeTo | crypt/base64.cpp:58-102 | the decoding, or -1 exactly when it does not fit |
| Base64.DecodeEncode | crypt/base64.cpp:18-102 | decoding undoes encoding |
| Base64.EncodedIsStandard | crypt/base64.cpp:18-56 | the encoding is section 4 of RFC 4648's, group by group, with the alphabet by position and its padding |
| Hex.EncodeTo | crypt/hex.cpp:9-20 | the loop writes the text and its terminator |
| Hex.DecodeTo | crypt/hex.cpp:22-30 | the loop writes the bytes, a stray last character included |
| Hex.DecodeEncode | crypt/hex.cpp:9-30 | decoding undoes encoding |
| Hex.EncodedSays | crypt/hex.cpp:9-20 | the text has two capital digits for every byte, by their positions |
| Hex.DecodesExactly | crypt/hex.cpp:22-30 | a text of digits in any case is decoded to the bytes it says if and only if no second digit of a pair is a small letter |
| Hex.SmallDigit | crypt/hex.cpp:25-27 | "0a" is decoded to 42 |
| Shares.CalcHashCeil | miner/miner.cpp:169-183 | the text of two zeros and the complement of the difficulty |
| Shares.CheckHash | hash/argon2/argon2.cpp:207-219 | the scan compares numbers, missing bytes of the ceiling counting as 0xff |
| Shares.ShareTest | hash/argon2/argon2.cpp:85-101 | a hash is accepted if and only if its first ten bytes are at most 2^64 - 1 - difficulty |
| Shares.HarderIsFewer | miner/miner.cpp:169-183 | acceptance is antitone in the difficulty |
| Shares.MakeBase | hash/hasher.cpp:210-224 | the base is the hexadecimal text of both decoded parts |
| Shares.BasePipeline | hash/argon2/argon2.cpp:51-53 | decoding the base of two encoded byte strings gives their concatenation |
| Shares.EncodeHashes | hash/argon2/argon2.cpp:85-131 | one result for every accepted hash, in order, with its own nonce |
| MiningState.Hasher.SetInputLocked | hash/hasher.cpp:70-81 | all input fields change together |
| MiningState.Hasher.SetNewInput | hash/hasher.cpp:70-93 | both locked regions together: the new input, and for a new height a closed round, of which the last twenty are kept |
| MiningState.Hasher.StoreHashLocked | hash/hasher.cpp:154-171 | results are appended and counted |
| MiningState.Hasher.GetHashesLocked | hash/hasher.cpp:145-152 | all results are handed over and forgotten |
| MiningState.MinerObject.UpdatePoolData | miner/miner.cpp:185-226 | new data are taken with their ceiling, a failure means pause |
| MiningSafety.AgreementKept | miner/miner.cpp:139-150 | every step keeps that hashers reached by the publication loop have the miner's data |
| MiningSafety.SnapshotsKept | hash/hasher.cpp:70-112 | every hasher has the data of the answer that the publication has brought to it, and a worker's checksum, ceiling and base are those of one answer |
| MiningSafety.AllSharesKept | hash/cpu/cpu_hasher.cpp:190-206 | what is stored is a share for that answer, and what is handled a share of an answer published before |
| MiningSafety.DrainedOnceKept | hash/hasher.cpp:145-171 | stored results are drained once and in order |
| MiningSafety.HandledOnceKept | miner/miner.cpp:113-137 | drained results are handled once and in order, submitted if and only if current, and recorded as expired, accepted or refused |
| MiningSafety.RunInv | miner/miner.cpp:78-159 | all of this after every interleaving of the main thread, from the constructor on, and workers that have been started before |
| MiningSafety.SubmittedAreShares | miner/miner.cpp:113-124 | a submitted hash has the checksum current at submission, and is a share of an answer published before |
| MiningSafety.RoundsKept | hash/hasher.cpp:83-92 | closing a round keeps: a hasher has the counts of its last twenty closed rounds, and all it counted is in closed rounds or the present one |
| MiningSafety.RoundsCounted | hash/hasher.cpp:83-92 | so after every interleaving |
| MiningSafety.NothingLost | miner/miner.cpp:113-137 | no result is lost or repeated; confirmed counts the submissions that the pool accepted, rejected those it refused |
| MiningSafety.AnswerRecorded | miner/miner.cpp:121-136 | the pool's answer to a submission is what is recorded of it, acceptance and refusal apart |
| MiningSafety.AnswerTaken | miner/miner.cpp:185-226 | the pool's answer to a request for work is what the miner has; a failure keeps the old data and pauses |
| MiningSafety.BlocksCounted | miner/miner.cpp:139-150 | the miner has counted one block, and one more for every answer published later that does not pause |
| MiningSafety.AllAgree | miner/miner.cpp:78-150 | once the first answer has been published, and outside later publications, every hasher has the miner's height, checksum, solver, ceiling and pause |
| MiningCeilings.StaleNeedsRise | miner/miner.cpp:113-124 | a submitted hash that misses the current difficulty needs a rise of the difficulty under one checksum |
| MiningCeilings.RiseGivesStale | miner/miner.cpp:185-226 | for every list of answers with such a rise, some run publishes it and submits such a hash |
| MiningCeilings.StaleExactly | miner/miner.cpp:113-150 | so this can happen if and only if there is one |
| MiningCeilings.StaleExample | miner/miner.cpp:113-150 | a block that goes from difficulty 1 to difficulty 2, paused or not |

## Left out

* Sockets, TLS, CGI, SSI, file serving, authentication and Windows code: input and output.
* Argument parsing, reports, logging and autotuning: no algorithm to specify. The proxy: disabled in the program.
* BLAKE2 and the Argon2 block filler: not part of this model; the hash is any function.
* Hash-rate arithmetic and times: floating point without an exact promise.
* Selection of GPU hashers and filters: a choice of devices that the protocol does not depend on.
- HttpParser.Parser.Execute: callbacks that pause the parser, or answer otherwise than 0 (headers complete excepted), are not modelled; `nread` is not cut to 32 bits, which matters only for a call of 4 GiB. After a failure, the fields, the callbacks made by the failing call and the exact count it returns are not stated.
- HttpHeaders.HeaderRun: values hold header characters only, as they must for a strict parser that starts to read them; `HttpSegments` says what the skip lets through.
- HttpConnection.OptionsRun: lists without empty elements, on one line.
- HttpHeaderLines.NotedLine: Transfer-Encoding values other than "chunked", and lengths and codings continued on another line, are not among the kinds of lines.
- HttpChunked.ChunkedRoundTrip: trailers may be of any name and value, but a length among them must be one that the parser can read, and the only one; otherwise it fails.
- HttpStartLines.StatusLineRead: line ends in front of a start line, which the parser skips, are not part of it; nor for HttpStartLines.RequestLineRead.
- HttpMessages.ContentRead: like HttpHeaderLines.NotedLine, for the messages that the parser accepts, with header lines and trailers of the kinds described; `HttpMessages.HeadersEnd` says where two ways of framing or the callback's answer make it fail.
- HttpUrl.UrlStruct.Fill: targets are at most 65535 bytes, because offsets and lengths are 16-bit.
- WebSocketReader.Connection.Read: memory can be allocated up to a limit below 2^31, as the code casts lengths to int; a stop flag set from outside is not modelled.
- WebSocketFrames.Writer.WriteExec: the peer takes all bytes written.
- Glob.MatchPrefix: the pattern is not read behind its length.
- Handlers.Registry.SetHandlerType: allocation does not fail.
- SocketQueue.Queue.Produce: waiting is the precondition that the wait is over.
- JsonParser.Parser.ReadNumber: texts in which a floating-point number would be formed are set apart as one outcome, together with reads behind the terminating zero.
- Sha512.Hasher.Update: one message is shorter than 2^31 bytes, as the code shifts an int.
- Hex.DecodeTo: the output buffer is large enough; the code does not look at its size.
- Shares.MakeBase: both parts fit their buffers together; the code does not check.
- MiningState.Hasher.SetInputLocked: the work's parts fit, as for MakeBase.
- MiningSafety.RunInv: threads interleave at their locked regions; the running flags are read and written atomically.
