# Verified models of the instant-messaging servers

This project models, in Dafny, the parts of the C++ instant-messaging servers whose correctness is
least visible from the code, and proves what they are for:

- **HTTP parser** (`HttpTypes`, `HttpSwitch`, `HttpSpec`, `HttpExecute`, `HttpTrace`, `HttpBody`,
  `HttpLength`, `HttpHeaders`, `HttpFields`, `HttpFraming`, `HttpLines`, `HttpRequest`,
  `HttpResponse`, `HttpMessages`, `HttpMethod`, `HttpBoth`, `HttpRefusals`). `HttpSpec.Run` is a
  reference semantics that reads one byte at a time and knows neither buffers nor marks.
  `HttpExecute.HttpParser.Execute` is the loop of `http_parser_execute` with its marks, re-executed
  bytes and bulk body reads; it is proved to refine the reference. Each failed `assert` of the source
  is an `Abort` outcome that is proved unreachable. What the reference does is pinned from the text:
  request lines, status lines, headers, bodies and whole pipelines of messages come out as they were
  written (`HttpMessages.Pipeline`), and every other byte is refused with its error
  (`HttpRefusals.RunRefuses`). `Rfc2616` states message length as section 4.4 of RFC 2616 orders it,
  from the status and the text of the header fields alone, and the parser is compared with it.
- **URL parser** (`HttpUrl`, `UrlGrammar`, `HostGrammar`, `UrlText`): the two passes of
  `http_parser_parse_url` over their character machines, and the URLs they accept and the fields they
  cut as statements about text alone.
- **PDU transport** (`Bytes`, `SimpleBuffers`, `Pdus`, `ImConns`): the growing buffer, the 16-byte
  header, partial sends, reassembly, and a sender and a receiver joined by a network.
- **Offline file transfer** (`OfflineHeaders`, `TransferTask`): the 1024-byte file header, upload, MD5
  check, restart, interrupted downloads.
- **Login and online counts** (`UserIndex`, `UserWaiters`, `OnlineCount`, `OnlineSystem`): the message
  server's two user indexes, what becomes of connections that wait for validation, the counting
  protocol between message servers and a login server, and the two joined in one system.
- **Database proxy** (`ProxyRouting`) and **connection pools** (`ConnPool`): machines of atomic steps
  over every interleaving, and the code that performs the steps.
- **Codecs** (`Base64`, `AesEnvelope`, `IdUrl`), **route master and back-off** (`RouteMaster`), and the
  **list of unacknowledged messages** (`AckList`).

Code that updates fields or buffers in place is a class whose methods are proved against functions on
values; the properties are then lemmas about those functions, over every input, run or reachable
state. In the machines, connections and users are named by numbers that are never reused, while
socket handles, uuids and ids are what the code compares.

Assumptions, where the code needs them: the parser is the default strict build and callbacks return
0; a URL is at most 65535 bytes and is followed by a NUL; buffer totals keep the 32-bit sum in
`Extend` from wrapping (`SimpleBuffers.Fits`); a login name is nonempty and has one nonzero user id
during a run; a connection is closed once; the operating system hands out unused handles; clocks do
not go back; the MD5 text of an upload, which the code passes to `sprintf` as a format string for 64
bytes, is shorter than 64 bytes and has no '%'.

Where the code and its documentation, the standard or its apparent intent differ, the model follows
the code, and the exact condition under which they agree is proved:

- The 64-bit overflow test accepts some lengths that wrapped (`HttpLength.OverflowAccepted`,
  `HttpLength.ChunkOverflowAccepted`); a length or a chunk size is read exactly if and only if it is
  below 2^64 - 1 (`HttpLength.LengthExact`, `HttpLength.SizeExact`).
- Section 4.4 of RFC 2616 ends a 1xx, 204 or 304 response at the empty line whatever its headers say,
  sends a message in chunks if any transfer coding but "identity" is applied, and ignores a
  Content-Length received with a Transfer-Encoding. The parser looks at the codings and the length
  first, and knows only a Transfer-Encoding whose first line is the one word "chunked". It frames a
  message as the RFC does if and only if the text of the message conforms (`HttpFraming.Conforms`, a
  condition on status and header text) and switches no protocol (`HttpFraming.HeadFraming`,
  `HttpResponse.ResponseHead`). Three inputs on which they part: a 204 response with Content-Length 5,
  `Transfer-Encoding: gzip, chunked` with a Content-Length, and `chunked` on a continuation line
  (`HttpResponse.NoContentWithBody`, `HttpResponse.GzipChunked`, `HttpResponse.FoldedChunked`). For
  heads as an ordinary sender writes them only the first kind and self-delimiting byte ranges remain
  (`HttpResponse.OrdinaryConforms`).
- Connections persist by default since HTTP/1.1 (section 8.1.2.1 of RFC 2616). The parser asks for both
  version numbers to be positive, so it agrees on every version but those after 1 whose second number
  is 0 (`HttpFraming.VersionOrder`). The bytes of a trailer still count against the header limit of
  the next message (`HttpMessages.Pipelined`), and a status line that ends in a bare LF is not
  notified (`HttpResponse.StatusLineRun`).
- The table of hexadecimal digits leaves the bytes from 0x80 on at zero, so they are read as the digit
  0 of a chunk size and can end a body (`HttpLength.HighBytesEndBody`).
- An upload whose MD5 differs or cannot be computed, and whose file cannot be removed, is reported as
  failed but served to a receiver (`TransferTask.UnverifiedServed`).
- A user is deleted as soon as one of its connections closes, or is refused, while it has no other
  open connection, or when it is merged into another user of the same id; connections still waiting
  under its name are then forgotten, and the database's positive answer for them changes nothing
  (`UserWaiters.WaiterForgotten`). From a login on, a positive answer opens the connection if and only
  if no such event came between (`UserWaiters.AnswerOpens`).
- A task id of 128 bytes or more runs into the next field of the file header. It is read back if and
  only if it is shorter, or the bytes it lost are those of the next field; user ids of 2^31 and more
  are read back if and only if the C library's `atoi` wraps (`OfflineHeaders.HeaderBack`,
  `OfflineHeaders.DecimalBack`, `TransferTask.Restart`).
- `idtourl` doubles a 32-bit id, so an id comes back if and only if its top bit is clear
  (`IdUrl.IdRoundTrip`).
- The AES envelope keeps the length of its Base64 text in 32 bits; a plaintext comes back if and only
  if that length does not wrap, which holds up to 2^31 bytes (`AesEnvelope.RoundTrip`).
- Frames of length 1 to 15 are accepted although they are shorter than the header, and their body
  length wraps (`Pdus.ShortFrame`); round trips are stated for PDUs built by `SetPBMsg`.
- `ChangePullState` may return true for a transition it refuses; the contract is about the state.
- Two connections of the proxy share a uuid if and only if a multiple of 2^32 - 1 connections lies
  between them (`ProxyRouting.UuidCollision`); routing is proved for runs with no more than that.

## Model

| member | source | states |
|---|---|---|
| HttpSwitch.ReexecutionDescends | base/http_parser.cpp:572-1863 | every `goto reexecute_byte` moves to a state of lower rank, so a byte is re-executed finitely often |
| HttpSpec.GoodDispatch | base/http_parser.cpp:640-1835 | one byte through the switch with all its re-executions trips no assert, keeps the state invariant, and opens or closes the one mark in step with the state |
| HttpSpec.GoodStep | base/http_parser.cpp:632-1835 | one byte from a good record: no assert fails; either the record stays good or an error is set |
| HttpSpec.NoAssertFails | base/http_parser.cpp:1342-1845 | over every input from any reachable record no assert of the parser fails: nread is 1 at a chunk size, content_length is neither 0 nor max inside a body, no unexpected header state |
| HttpSpec.RunSplit | base/http_parser.cpp:572-1863 | the reference run over a + b is the run over a followed by the run over b |
| HttpExecute.OpsRefine | base/http_parser.cpp:60-124 | the MARK and CALLBACK operations of a byte add to the trace, pending text included, exactly the bytes and notifications the reference gives that byte |
| HttpExecute.BodyRun | base/http_parser.cpp:1662-1811 | reading n body bytes one by one equals one bulk read of n bytes |
| HttpExecute.ReadBody | base/http_parser.cpp:1662-1811 | the bulk read of min(content_length, rest of buffer) bytes refines the reference run over those bytes |
| HttpExecute.ReadByte | base/http_parser.cpp:632-1835 | the header-size check and the switch, with marks, refine one reference step |
| HttpExecute.FlushAllSeen | base/http_parser.cpp:1838-1860 | at the end of a buffer at most one mark is live, and flushing the four marks delivers exactly what was pending |
| HttpExecute.HttpParser.Execute | base/http_parser.cpp:572-1863 | a call is `Executed`: record, return value and flattened trace equal those of the reference run; on an error the delivered trace is a prefix; no assert fails; a record in error is left alone |
| HttpExecute.HttpParser.ExecuteEof | base/http_parser.cpp:590-610 | an empty buffer completes a body that runs to end of stream, is ignored between messages, and otherwise is an error |
| HttpExecute.HttpParser.constructor | base/http_parser.cpp:1916-1925 | http_parser_init gives a record that satisfies the invariant |
| HttpTrace.SameTrace | base/http_parser.cpp:60-124 | two callback traces agree after merging adjacent data callbacks and dropping empty ones if and only if they flatten to the same bytes and notifications |
| HttpTrace.SplitInvariance | base/http_parser.cpp:572-1863 | if executing a + b, and executing a and then b, are calls of the parser and a does not end in an upgrade, both end in the same record, with the same merged trace if no error occurs |
| HttpTrace.AnySegmentation | base/http_parser.cpp:572-1863 | the same for a stream cut into any number of buffers, errors included |
| HttpTrace.ExecuteAll | base/http_parser.cpp:572-1863 | a parser object given nonempty buffers one by one goes through exactly such calls |
| HttpBody.StepBalanced | base/http_parser.cpp:1570-1826 | every byte keeps "delivered + still due = announced" and completes a message only when the announced body was delivered |
| HttpBody.BodyConserved | base/http_parser.cpp:1619-1826 | over every input from http_parser_init, a message completes with exactly Content-Length bytes delivered, or the sum of its chunk sizes |
| HttpLength.LengthRun | base/http_parser.cpp:1410-1487 | a run of decimal digits in a Content-Length value leaves its number in content_length when that is below 2^64 - 1 |
| HttpLength.LengthExact | base/http_parser.cpp:1410-1487 | a Content-Length value is read exactly if and only if it is below 2^64 - 1 |
| HttpLength.OverflowAccepted | base/http_parser.cpp:1466-1487 | a digit after any spelling of 3 * 10^18 wraps and is accepted |
| HttpLength.SizeRun | base/http_parser.cpp:1710-1761 | a chunk size is read as the number its bytes stand for in the digit table when that is below 2^64 - 1; a larger one that is not refused is read as a smaller number |
| HttpLength.HexSize | base/http_parser.cpp:180-189 | for hexadecimal digits that is the number they denote |
| HttpLength.HighBytesEndBody | base/http_parser.cpp:180-189 | bytes from 0x80 on are accepted as a chunk size of zero and end the body |
| HttpLength.SizeExact | base/http_parser.cpp:1710-1761 | a chunk size is read as the number it stands for if and only if that is below 2^64 - 1 |
| HttpLength.ChunkOverflowAccepted | base/http_parser.cpp:1742-1761 | a zero after any spelling of 0x1F00000000000000 wraps and is accepted |
| HttpLength.ChunkRun | base/http_parser.cpp:1710-1826 | one encoded chunk delivers its data and returns to the chunk-size state |
| HttpLength.ChunkedRoundTrip | base/http_parser.cpp:1710-1826 | any list of nonempty chunks in the coding of section 3.6.1 of RFC 2616 is delivered as their concatenation, and the message completes exactly at the end |
| HttpHeaders.NameRun | base/http_parser.cpp:1191-1345 | after any header name of token characters the header state says exactly which of the five known names it is, begins, or is not, without regard to case |
| HttpHeaders.ValueRun | base/http_parser.cpp:1371-1530 | after any value the header state says exactly whether it is, begins or is not "chunked", "keep-alive" or "close" |
| HttpHeaders.LengthTextRun | base/http_parser.cpp:1405-1487 | a Content-Length value of digits with spaces between or after them is read as the number its digits denote |
| HttpHeaders.FoldedLines | base/http_parser.cpp:1558-1568 | continuation lines set no flag; those of a Content-Length each replace the length, up to the first empty one |
| HttpHeaders.HeaderRun | base/http_parser.cpp:1191-1568 | a header with any continuation lines, each ending in CRLF or a bare LF, is accepted and sets a flag if and only if its whole name and the first line of its value, without regard to case, call for it; it announces a length if and only if it is a Content-Length; a name without a colon is let pass; nothing else in the record changes |
| HttpHeaders.HeaderBlock | base/http_parser.cpp:1191-1568 | over any number of headers the flags are the combination of what each says and the last announced length counts |
| HttpFraming.EmptyLine | base/http_parser.cpp:1570-1660 | the empty line, CRLF or bare LF, after any headers: the record's chunked flag, length, kind and status decide in this order, the notifications are exactly those of that framing, the record is otherwise kept, and a bodiless message ends in the start state that version and flags call for; a protocol switch leaves the loop |
| HttpFraming.UpgradeExit | base/http_parser.cpp:1570-1632 | a protocol switch ends the message with its headers; a response whose body the end of the stream would end closes the connection |
| HttpFraming.FlagsSay | base/http_parser.cpp:1535-1556 | after a header block the chunked, upgrade, close and keep-alive flags are exactly what the text of its fields says |
| HttpFraming.Agreement | base/http_parser.cpp:1619-1660 | the framing of RFC 2616, from status and header text, equals the parser's if and only if the text conforms |
| HttpFraming.HeadFraming | base/http_parser.cpp:1191-1660 | for every request or response from the start of its headers: the parser frames the body as RFC 2616 says if and only if the text conforms and no protocol is switched; otherwise it takes the framing its own reading of the text gives; names and values are delivered, then the notifications |
| HttpFraming.NextFrom | base/http_parser.cpp:1866-1909 | the start state of the next message, from version numbers and the text of the headers: kept open unless "close" is asked for when both numbers are positive, closed unless "keep-alive" is asked for otherwise |
| HttpFraming.VersionOrder | base/http_parser.cpp:1866-1889 | that default agrees with the order of versions in RFC 2616 if and only if the version is not one after 1 whose second number is 0 |
| HttpFields.BlockDelivers | base/http_parser.cpp:1191-1568 | over any number of headers, exactly the names and the values without the blanks before them are delivered, in order, continuation lines included |
| Rfc2616.Classes | base/http_parser.cpp:145-395 | the token characters are visible ASCII without the separators of RFC 2616; user information and path characters by listing what is excluded or allowed |
| HttpLines.CountRun | base/http_parser.cpp:1103-1178 | a number of a start line is accepted if and only if it is at most 999 (and the major version of a request does not begin with 0), and is then the value its digits denote |
| HttpLines.VersionRun | base/http_parser.cpp:1069-1178 | "HTTP/" and any two such numbers with a dot between leave those numbers as the version |
| HttpRequest.UrlRun | base/http_parser.cpp:996-1067 | the URL of a request line is delivered byte by byte as far as the URL machine accepts it, and refused where it does not |
| HttpRequest.TargetExact | base/http_parser.cpp:996-1067 | a method, a space, any text without spaces and line ends and another space are accepted if and only if the text is a URL in the grammar that may stand in a request line, for CONNECT or not |
| HttpRequest.RequestLineRun | base/http_parser.cpp:872-1190 | every request line from its first byte: any of the 26 methods, further spaces, any URL of the grammar, any version up to 999.999 or none, ended by CRLF or a bare LF; the method is the one named, the version the one the digits denote (0.9 if none), the URL is delivered, and the headers begin |
| HttpRequest.RequestHead | base/http_parser.cpp:572-1660 | every request head from its first byte: the exact trace; framed as RFC 2616 says if and only if the text conforms and no protocol is switched; the next message is awaited or the connection dead as version text and headers say |
| HttpResponse.StatusLineRun | base/http_parser.cpp:694-870 | every status line from its first byte, with version and status numbers up to 999, further spaces, any reason phrase or none, ended by CRLF or a bare LF: version and status are the numbers the digits denote, and the end is notified exactly if it is a CRLF |
| HttpResponse.ResponseHead | base/http_parser.cpp:572-1660 | every response head from its first byte: the exact trace; the parser frames the body as RFC 2616 says if and only if the text conforms and there is no Upgrade header; the next start state from version text and headers |
| HttpMessages.ChunkLeads | base/http_parser.cpp:1710-1826 | one chunk with its size in any hexadecimal spelling and any extension delivers exactly its data |
| HttpMessages.PayloadLeads | base/http_parser.cpp:1662-1826 | behind the empty line a body of the announced length, or chunks with extensions, a last chunk and a trailer of any headers, are delivered exactly and complete the message; the trailer counts for keeping the connection open |
| HttpMessages.MessageRun | base/http_parser.cpp:572-1863 | every whole message, request or response, not ended by the end of the stream: the parser delivers exactly its URL, names, values and body in order with their notifications, and awaits the next message if the connection lasts |
| HttpMessages.Pipeline | base/http_parser.cpp:572-1863 | over any number of messages on one connection the trace is the concatenation of what each message says, and the parser ends where the last one leaves it |
| HttpMessages.AfterClose | base/http_parser.cpp:640-650 | a byte behind a message that closes the connection is refused with CLOSED_CONNECTION unless it belongs to a line end |
| HttpBoth.BothSame | base/http_parser.cpp:634-722 | a parser of either kind does what a request parser does, or what a response parser does if the message begins with "HT" |
| HttpRefusals.StepRefuses | base/http_parser.cpp:572-1863 | in every state a byte is refused exactly when the table of accepted bytes says so, with the error it names, nothing delivered and nothing consumed |
| HttpRefusals.RunRefuses | base/http_parser.cpp:572-1863 | over every input, the parser fails exactly at the first byte the table refuses; its error is the one named there and the bytes consumed are those before it |
| HttpResponse.OrdinaryConforms | base/http_parser.cpp:1191-1660 | with chunked as the only coding on one line and one plain length at most, the text conforms unless a 1xx, 204 or 304 response announces a body or a response leaves its length to byte ranges |
| HttpResponse.NoContentWithBody | base/http_parser.cpp:1619-1660 | a 204 response with Content-Length 5: no body by the RFC, five bytes for the parser |
| HttpResponse.GzipChunked | base/http_parser.cpp:1488-1500 | `Transfer-Encoding: gzip, chunked` with Content-Length 5: chunks by the RFC, five bytes for the parser |
| HttpResponse.FoldedChunked | base/http_parser.cpp:1371-1392 | `chunked` on a continuation line: chunks by the RFC, the end of the stream for the parser |
| HttpResponse.NoContentRun | base/http_parser.cpp:572-1660 | the 204 response as bytes makes the parser wait for a body |
| HttpResponse.GzipRun | base/http_parser.cpp:572-1660 | the gzip response as bytes makes the parser take the length |
| HttpMethod.SwitchSpells | base/http_parser.cpp:913-994 | a mid-token method switch keeps the bytes already read and the new byte |
| HttpMethod.TrieSound | base/http_parser.cpp:677-994 | over every input, the bytes of a method token spell the first `index` bytes of the current guess, and all of `method_strings[method]` when the method state is left |
| HttpMethod.TrieComplete | base/http_parser.cpp:872-994 | at the start of any request the name of each of the 26 methods and a space are accepted as that method |
| HttpUrl.FloorRises | base/http_parser.cpp:425-570 | parse_url_char never goes back to an earlier URL field |
| HttpUrl.SplitRuns | base/http_parser.cpp:2078-2146 | the first pass succeeds exactly on URLs the character machine accepts, and each span holds exactly the bytes of its field |
| HttpUrl.ParseHost | base/http_parser.cpp:2004-2075 | the host run is accepted exactly when the host machine accepts it, and is cut exactly into user information, host and port |
| HttpUrl.PortDigits | base/http_parser.cpp:1990-2044 | the port field is digits up to the end of the host run |
| HttpUrl.SplitUrl | base/http_parser.cpp:2078-2160 | the two passes succeed exactly where both character machines accept; the second pass runs on exactly the bytes the first gives to the host, with user information exactly if an '@' was seen; set fields are nonempty, disjoint and in URL order |
| UrlGrammar.ToldAll | base/http_parser.cpp:425-570 | over the text of every URL of the grammar, each byte belongs to the field whose part it lies in and delimiters to none, and the machine ends in the state the text tells |
| UrlGrammar.HasForm | base/http_parser.cpp:425-570 | every text the machine does not refuse is a URL of the grammar or the beginning of one, and the form tells the state |
| HostGrammar.ToldAll | base/http_parser.cpp:1939-1998 | over the text of every host of the grammar, `[userinfo "@"] (name / "[" v6 "]") [":" port]`, each byte belongs to the part it lies in, and the end is accepted |
| HostGrammar.HostAccepted | base/http_parser.cpp:1939-2075 | a text is accepted as a host if and only if it has that form |
| UrlText.Stands | base/http_parser.cpp:2078-2146 | the text at the span of each field is the part it is named after |
| UrlText.ParseUrl | base/http_parser.cpp:2078-2174 | a URL is accepted if and only if its text is empty or has the form `[schema "://" authority] path ["?" query] ["#" fragment]` with an authority `[userinfo "@"] host [":" port]`, a port of at most 65535 and, for CONNECT, nothing but host and port; of every such form the fields are exactly the nonempty parts at their offsets, and port is the number |
| Bytes.Round16 | base/UtilPdu.cpp:93-121 | a 16-bit value is read back from its two bytes |
| Bytes.Round32 | base/UtilPdu.cpp:105-137 | a 32-bit value is read back from its four bytes |
| SimpleBuffers.SimpleBuffer.Extend | base/UtilPdu.cpp:32-38 | reallocation by a quarter more keeps the contents |
| SimpleBuffers.SimpleBuffer.Write | base/UtilPdu.cpp:40-55 | contents grow by the written bytes |
| SimpleBuffers.SimpleBuffer.Read | base/UtilPdu.cpp:57-69 | bytes are taken from the front, the rest moves down |
| Pdus.ReadBack | base/ImPduBase.cpp:100-157 | an encoded PDU followed by anything is read back with its header fields and body |
| Pdus.ZeroBreaks | base/ImPduBase.cpp:139-157 | a length field of zero at the front breaks the connection, and the bytes stay in the buffer |
| Pdus.ShortFrame | base/ImPduBase.cpp:38-43 | a frame shorter than its header is produced if and only if sixteen bytes are there and the length field is 1 to 15; its body length then wraps |
| Pdus.PartialWaits | base/ImPduBase.cpp:139-157 | a proper prefix of a PDU is never taken for a frame |
| Pdus.ParseResumes | base/imconn.cpp:141-163 | for any byte stream, parsing a prefix and later its tail with more bytes finds the frames of parsing everything |
| Pdus.ParsePrefix | base/imconn.cpp:141-163 | every prefix of a stream of PDUs yields exactly the PDUs it wholly contains, up to the first whose handler throws, and keeps the rest; the connection breaks exactly if a handler throws |
| Pdus.ImPdu.WriteHeader | base/ImPduBase.cpp:45-56 | the header bytes become the big-endian length and fields; the body is untouched |
| Pdus.ImPdu.SetPbMsg | base/ImPduBase.cpp:159-175 | the buffer becomes the encoding of the header and the body |
| Pdus.ImPdu.Set | base/ImPduBase.cpp:58-98 | a setter turns the encoding of a PDU into the encoding with that one field changed |
| ImConns.Conn.Send | base/imconn.cpp:80-121 | on an idle connection exactly the bytes the kernel's answers carry go out, at most MAX_SOCKET_BUF a call, and the rest joins the backlog; on a busy one all bytes join it; busy holds exactly when the backlog is nonempty |
| ImConns.Conn.OnWrite | base/imconn.cpp:166-191 | exactly the bytes the kernel's answers carry leave the front of the backlog for the wire, and busy still means a nonempty backlog |
| ImConns.CarriedStops | base/imconn.cpp:171-185 | a backlog remains only if the kernel gave an answer that was not positive, or every one of its answers was used up |
| ImConns.WillingCarries | base/imconn.cpp:171-185 | answers that accept every piece carry everything |
| ImConns.Conn.Receive | base/imconn.cpp:123-143 | the receive loop appends exactly the bytes the kernel's answers hand over, at most READ_BUF_SIZE a call |
| ImConns.Conn.HandleAll | base/imconn.cpp:141-163 | the loop hands over the frames of the buffer; a zero length or a throwing handler closes and leaves the rest in the buffer |
| ImConns.Conn.OnRead | base/imconn.cpp:123-164 | the frames handled are those of parsing old and new bytes together; a zero length or a throwing handler closes |
| ImConns.Link.Framing | base/imconn.cpp:80-191 | in every reachable state of a sender and a receiver, the frames handled are exactly the PDUs wholly received, a prefix of those sent with identical header fields and bodies, up to the first whose handler throws; the connection closed exactly if one did |
| ImConns.Link.SendPdu | base/imconn.cpp:80-121 | sending keeps the link invariant behind Framing |
| ImConns.Link.Writable | base/imconn.cpp:166-191 | draining keeps the link invariant and takes exactly the bytes carried off the backlog |
| ImConns.Link.Readable | base/imconn.cpp:123-164 | receiving keeps the link invariant, only adds handled frames, and takes exactly the bytes handed over unless the connection has closed |
| ImConns.Drive | base/imconn.cpp:80-191 | over every sequence of send, writable and readable steps, whatever the kernels do in each, the frames handled are exactly the PDUs wholly received, up to the first whose handler throws |
| ImConns.Settle | base/imconn.cpp:80-191 | from any state of a link, one writable and one readable event with willing kernels bring every PDU sent to its handler, up to the first that throws |
| ImConns.DriveToEnd | base/imconn.cpp:80-191 | whatever happened before, after such a pair of events all PDUs sent have been handled, up to the first whose handler throws; all of them if none does |
| TransferTask.BlocksTile | file_server/transfer_task.h:313-335 | segment blocks are nonempty, adjoin and end exactly at the file size; the 32-bit offset does not wrap |
| OfflineHeaders.DecimalBack | base/util.cpp:157-160 | a printed uint32_t is read back if and only if it is below 2^31 or the C library's atoi wraps |
| OfflineHeaders.HeaderBack | file_server/transfer_task.h:46-115 | every field of a header that fits is read back, the task id if and only if it leaves room for its terminator or the bytes it lost are those of the next field |
| OfflineHeaders.FillHeader | file_server/transfer_task.cpp:427-439 | the zeroed struct after the setters is the seven fields, each padded with NULs to its width |
| TransferTask.Task.ChangePullState | file_server/transfer_task.cpp:299-363 | which requests move the state to waiting; a refused one leaves it alone; a new download starts at segment 0 |
| TransferTask.Task.RecvData | file_server/transfer_task.cpp:386-498 | the file is the header and the accepted blocks in order; 1 is returned exactly when all bytes are there and their MD5 was computed and matches; otherwise the file is removed, or left behind unverified if it cannot be; a complete upload is never changed |
| TransferTask.Task.PullData | file_server/transfer_task.cpp:500-733 | a served block is the uploaded bytes at its offset; 1 is returned only with the last block, and then exactly the uploaded file, or the announced size of one left behind unverified, was handed out |
| TransferTask.LoadFromDisk | file_server/transfer_task.cpp:262-292 | a task is loaded exactly when the file's length agrees with its header |
| TransferTask.Restart | file_server/transfer_task.cpp:262-292 | after a restart a completed upload is always found; it is the same task, serving the same bytes, if and only if id and users survive the header |
| TransferTask.SendAll | file_server/transfer_task.cpp:386-498 | in-order full-size blocks of any file end verified, removed or left behind, exactly as MD5 and file system decide |
| TransferTask.ReceiveAll | file_server/transfer_task.cpp:500-733 | from any state of a task with a full file a new login and in-order pulls hand out exactly the uploaded bytes and end the download |
| TransferTask.UploadRestartDownload | file_server/transfer_task.cpp:262-733 | upload, restart, arbitrary interrupted pulls, download: the first task ends verified, the loaded one ends its download having handed out the uploaded bytes |
| TransferTask.TransferFile | file_server/transfer_task.cpp:262-733 | the same starting from nothing, for every file of 1 byte to 2 GiB less one segment |
| TransferTask.UnverifiedServed | file_server/transfer_task.cpp:457-486 | a file of the wrong MD5 that cannot be removed is handed out to a receiver |
| UserIndex.LoginInv | msg_server/MsgConn.cpp:424-485 | a login request keeps the index agreement and opens nothing |
| UserIndex.AcceptInv | msg_server/DBServConn.cpp:295-360 | a successful validation opens exactly the waiting connection under the database's id, merges two users of one id, reports one increment and keeps the agreement |
| UserIndex.CloseInv | msg_server/MsgConn.cpp:175-226 | closing removes exactly that connection from both indexes, deletes emptied users, and reports a decrement if and only if it was open |
| UserIndex.ApplyAgreed | msg_server/DBServConn.cpp:285-400 | every handler keeps index agreement and increments minus decrements equal to the open connections |
| UserIndex.IndexAgreement | msg_server/ImUser.cpp:212-280 | over every run, each open connection is the one found under its own user id and handle, every user in the id map has a connection, and the updates sent add up to the open connections |
| UserWaiters.ConnsExact | msg_server/DBServConn.cpp:285-400 | after every event exactly one closing connection is gone and one accepted is there; a first login request names its connection, a positive answer opens the waiting one as the user of its name, and no other connection changes |
| UserWaiters.CloseKept | msg_server/MsgConn.cpp:183-200 | closing a connection forgets the waiters of a name if and only if it is the last connection of the user of that name |
| UserWaiters.StepKept | msg_server/DBServConn.cpp:295-330 | every event keeps a connection waiting unless it forgets its name: a close, refusal or merge of the last connection of its user |
| UserWaiters.AnswerOpens | msg_server/DBServConn.cpp:295-360 | from a login on, whatever happens meanwhile, a positive answer opens the connection if and only if no event in between forgot its name; otherwise the answer changes nothing |
| UserWaiters.WaiterForgotten | msg_server/DBServConn.cpp:295-306 | a reachable run in which the positive answer for a live waiting connection changes nothing |
| UserIndex.MsgServer.HandleLogin | msg_server/MsgConn.cpp:424-485 | the handler performs the login step, or closes when another server is missing |
| UserIndex.MsgServer.HandleValidate | msg_server/DBServConn.cpp:285-400 | the handler performs the validation step of the machine |
| UserIndex.MsgServer.FindWaiting | msg_server/ImUser.cpp:32-43 | finds a waiting connection with the handle if there is one |
| UserIndex.MsgServer.CloseConn | msg_server/MsgConn.cpp:175-200 | Close performs the closing step |
| UserIndex.MsgServer.RemoveImUser | msg_server/ImUser.cpp:272-280 | the user leaves both maps |
| UserIndex.CountOpen | msg_server/ImUser.cpp:62-75 | counts the open connections under a user's handles |
| UserIndex.MsgServer.GetUserConnCnt | msg_server/ImUser.cpp:320-334 | the total over validated users is the number of open connections |
| OnlineCount.OnMsgTotal | login_server/LoginConn.cpp:142-184 | a first Info, an increment or a decrement keeps the total equal to the sum over servers modulo 2^32 |
| OnlineCount.OnCloseTotal | login_server/LoginConn.cpp:53-76 | closing a server's link keeps the total equal to the sum |
| OnlineCount.DeliverGood | login_server/LoginConn.cpp:142-184 | delivery moves the head of the queue into the count without wrapping; the snapshot arrives first and once |
| OnlineCount.ApplyInv | msg_server/LoginServConn.cpp:77-148 | every step of the protocol keeps the invariant |
| OnlineCount.CountConservation | login_server/LoginConn.cpp:53-184 | over every run, on a live link count plus updates in flight equals the open connections, no delivery under- or overflows, the stored maximum is the announced one, and the total is the sum over servers |
| OnlineCount.Settled | login_server/LoginConn.cpp:164-184 | when a live link has delivered everything the login server's count is exact |
| OnlineSystem.HandlerCounts | msg_server/MsgConn.cpp:121-173 | a handler of the message server sends nothing, one increment or one decrement, exactly as it leaves alone, opens or closes a connection |
| OnlineSystem.OnlineUsersCounted | msg_server/LoginServConn.cpp:77-148 | over every run of message servers with their indexes, links and a login server: count plus updates in flight equals the connections open in the message server's own index, no delivery wraps, and the total is the sum over servers |
| OnlineCount.LoginServer.HandleMsgServInfo | login_server/LoginConn.cpp:142-162 | performs the Info step of the machine |
| OnlineCount.LoginServer.HandleUserCntUpdate | login_server/LoginConn.cpp:164-184 | performs the update step in 32-bit arithmetic |
| OnlineCount.LoginServer.Close | login_server/LoginConn.cpp:53-76 | performs the close step |
| OnlineCount.LoginServer.HandleMsgServRequest | login_server/LoginConn.cpp:186-249 | picks a server of least load among those with room, and none only if all are full |
| ProxyRouting.UuidForm | db_proxy_server/ProxyConn.cpp:103-111 | the n-th connection's uuid is n modulo 2^32 - 1, plus one |
| ProxyRouting.UuidCollision | db_proxy_server/ProxyConn.cpp:103-111 | two connections share a uuid if and only if a multiple of 2^32 - 1 connections lies between them |
| ProxyRouting.ApplyInv | db_proxy_server/ProxyConn.cpp:91-128 | every atomic step keeps the maps, queues, responses and uuids consistent |
| ProxyRouting.ResponseRouting | db_proxy_server/ProxyConn.cpp:199-264 | over every interleaving with handle reuse, a response reaches only the connection whose request produced it, and workers start tasks in the order pushed |
| ProxyRouting.RunsAtMostOnce | base/ThreadPool.cpp:37-66 | no request occurs twice in all that was pushed to the workers |
| ProxyRouting.Completeness | db_proxy_server/ProxyConn.cpp:199-264 | over every interleaving of at most 2^32 - 1 connections: every request read is queued or was started, in order; every response made was handled, is in hand or waits, in order; every handled response with a payload was delivered exactly once, in order, to its origin, unless that was closed before |
| ProxyRouting.DeliverEffect | db_proxy_server/ProxyConn.cpp:244-258 | delivering the response in hand sends its payload to its origin if that is open, closes the origin if there is no payload, and drops the response if the origin has closed |
| ProxyRouting.RequestAnswered | db_proxy_server/ProxyConn.cpp:199-264 | a request read from an open connection, run by an idle worker and answered, reaches that connection on its own handle |
| ProxyRouting.Proxy.NewConn | db_proxy_server/ProxyConn.cpp:103-142 | constructor and OnConnect perform the accept step |
| ProxyRouting.Proxy.CloseConn | db_proxy_server/ProxyConn.cpp:118-128 | Close erases handle and uuid |
| ProxyRouting.Proxy.HandlePduBuf | db_proxy_server/ProxyConn.cpp:199-215 | a request becomes a task carrying the connection's uuid at the back of one worker's queue |
| ProxyRouting.Proxy.WorkerStep | base/ThreadPool.cpp:37-58 | a worker performs the take, respond or finish step |
| ProxyRouting.Proxy.SendResponses | db_proxy_server/ProxyConn.cpp:236-264 | the drain loop, with workers running whenever the lock is free, continues the run so far and ends with the list empty: every response in the list at entry was handled, in order, and all that is due has been delivered |
| ConnPool.ApplyAgrees | db_proxy_server/DBPool.cpp:342-390 | every step keeps each created connection either free once or held by one caller, and the count within its bound |
| ConnPool.ApplyWakeup | db_proxy_server/DBPool.cpp:342-390 | while a caller is blocked unsignalled there are at least as many wake-ups in flight as free connections |
| ConnPool.PoolSafety | db_proxy_server/CachePool.cpp:585-649 | over every schedule: exclusive ownership, count at most max(2, configured maximum), no lost wake-up, and a caller is blocked unsignalled only while the count has reached that bound |
| ConnPool.ConnectionPool.constructor | db_proxy_server/DBPool.cpp:321-336 | Init leaves two free connections |
| ConnPool.ConnectionPool.GetConn | db_proxy_server/DBPool.cpp:342-371 | a caller waits if and only if nothing is free and the count has reached the maximum; it gets nothing if and only if nothing is free, there is room and Init fails; otherwise it gets the front of the free list, or a new connection with the count one higher exactly if the list was empty |
| ConnPool.ConnectionPool.ReleaseConn | db_proxy_server/DBPool.cpp:373-390 | the connection goes to the back of the free list unless it is there already, and one waiter is signalled |
| Base64.Encode | base/Base64.cpp:32-65 | for nonempty input the output is the encoding of section 4 of RFC 4648, of length 4 * ceil(n / 3), with all writes in bounds despite the wrapping accumulator |
| Base64.Decode | base/Base64.cpp:67-91 | the output is the bytes of the six-bit values of the characters not skipped, empty on an invalid character |
| Base64.RoundTrip | base/Base64.cpp:32-91 | decoding an encoding returns the input |
| Base64.SkipsAnywhere | base/Base64.cpp:67-91 | inserting whitespace or '=' anywhere does not change the decode |
| Base64.StrangerEmpties | base/Base64.cpp:67-91 | a character outside the alphabet that is not skipped empties the result, wherever it stands |
| AesEnvelope.TrailerClear | base/EncDec.cpp:23-57 | the length trailer never overlaps the data and no block is wasted |
| AesEnvelope.Encrypt | base/EncDec.cpp:23-57 | returns the sealed form: padding, trailer, block-wise encryption, Base64, cut to a 32-bit length |
| AesEnvelope.Decrypt | base/EncDec.cpp:59-97 | returns the opened text, or -1 exactly for an empty input, -2 exactly for one that decodes to nothing, -3 exactly for one that decodes to no whole number of blocks; otherwise only a trailer that does not fit gives -4 |
| AesEnvelope.RoundTrip | base/EncDec.cpp:23-97 | with an invertible block map, opening a sealed text returns it if and only if the length of its Base64 text fits in 32 bits, so for every text of 1 to 2^31 bytes |
| IdUrl.IdToUrl | base/UtilPdu.cpp:299-318 | a version digit and the packed id in base 36 |
| IdUrl.UrlToId | base/UtilPdu.cpp:320-342 | the 32-bit number read after the version digit, unpacked |
| IdUrl.IdRoundTrip | base/UtilPdu.cpp:299-342 | an id comes back if and only if it is below 2^31 |
| RouteMaster.OldestElected | msg_server/RouteServConn.cpp:97-112 | the scan finds nothing exactly when nothing is open, and otherwise an open connection of minimum connect time |
| RouteMaster.ReconnectsAfter | base/ServInfo.h:38-68 | a closed slot reconnects on exactly the timer tick its back-off count says |
| RouteMaster.BackOffAfter | base/ServInfo.h:55-68 | after a confirm, successive closes without another give back-offs of 4, 8, 16, 32, 64 ticks and then 4 again |
| RouteMaster.ReconnectsOnTime | base/ServInfo.h:38-68 | after a close the timer connects on exactly the tick that is twice the last back-off, or 4 after 64 |
| RouteMaster.ConfirmShortens | msg_server/RouteServConn.cpp:166-175 | after a confirm and a close the timer connects again on the fourth tick |
| RouteMaster.MasterElection | msg_server/RouteServConn.cpp:149-175 | after every run of confirms, closes and ticks the master is right and every back-off is a power of two in [2, 64] |
| RouteMaster.OldestIsMaster | msg_server/RouteServConn.cpp:97-175 | over every run the master is an open connection confirmed no later than any other that is open, by the history of confirms and closes, and there is none only if nothing is open |
| RouteMaster.RouteServers.constructor | base/ServInfo.h:26-36 | serv_init |
| RouteMaster.RouteServers.CheckReconnect | base/ServInfo.h:38-53 | performs the timer step on every slot |
| RouteMaster.RouteServers.UpdateMaster | msg_server/RouteServConn.cpp:97-112 | the loop returns the first oldest open slot |
| RouteMaster.RouteServers.CloseConn | msg_server/RouteServConn.cpp:149-164 | resets the slot and elects again if the master closed |
| RouteMaster.RouteServers.OnConfirm | msg_server/RouteServConn.cpp:166-175 | opens the slot and elects if there was no master |
| AckList.SweptExact | msg_server/MsgConn.cpp:278-290 | with ordered time stamps the early exit removes exactly the expired entries |
| AckList.WaitingMembers | msg_server/MsgConn.cpp:278-290 | an entry stays if and only if it has not expired |
| AckList.Position | msg_server/MsgConn.cpp:973-984 | the first entry with the message's id and sender, or none |
| AckList.AckFirst | msg_server/MsgConn.cpp:973-984 | an acknowledgement takes out the first entry with its id and sender and keeps the order of the others; without one nothing changes |
| AckList.Conserved | msg_server/MsgConn.cpp:961-984 | over every run, entries added = acknowledged + missed + pending |
| AckList.SendList.Add | msg_server/MsgConn.cpp:961-971 | appends and counts |
| AckList.SendList.Acknowledge | msg_server/MsgConn.cpp:973-984 | removes the first matching entry only |
| AckList.SendList.Sweep | msg_server/MsgConn.cpp:278-290 | the loop leaves exactly the entries not expired and counts every other as missed |

## Left out

- epoll, kqueue and select loops, socket options, timers, pthread wrappers and logging: the kernel appears only as arbitrary return values, threads as atomic steps.
- MySQL, Redis, curl, JSON and protobuf: message bodies are opaque bytes and database answers are inputs.
- The AES and MD5 rounds: any invertible map on 16-byte blocks and any hash function.
- HTTP callbacks that return nonzero, F_SKIPBODY (which only such a callback sets), `http_parser_pause` and the non-strict build.
- HttpHeaders.HeaderRun: continuation lines after a name without a colon, and Content-Length values that are refused, are executed by the model and covered by the trace and assert theorems only.
- HttpMessages.MessageRun: messages that end with the stream, whose last byte only ExecuteEof completes, and messages that switch protocols, which leave the loop; ResponseHead and RequestHead frame both.
- HttpFraming.HeadFraming: responses to HEAD, which the parser cannot tell without a callback; field values too large for 64 bits, which it refuses.
- UrlText.ParseUrl: assumes a zeroed result, at most 65535 bytes and a NUL behind the buffer for strtoul.
- HttpTrace.SplitInvariance: the trace is compared only for runs without an error, because text pending under a mark is dropped on an error.
- SimpleBuffers.SimpleBuffer.Extend: totals for which the 32-bit size arithmetic would wrap are excluded, because the code then allocates too little.
- ImConns.Conn.OnRead: what handlers do is not modelled, only whether they throw.
- Base64.Encode: the empty input is excluded, because the closing assert of the code fails on it.
- Base64.Decode: isspace on negative char values is taken as false.
- TransferTask.Task.PullData: the mobile download path, which shares the index of the PC path and does not keep these properties.
- TransferTask.Task.RecvData: the caller's buffer holds at least the next block; an MD5 text that overruns or reformats its header field is excluded, because the code then writes outside the struct.
- OfflineHeaders.HeaderBack: the last field read without a terminator ends with the struct; the code would read on.
- AesEnvelope.Encrypt: plaintexts for which the 32-bit buffer size wraps are excluded, because the code then overruns its buffer.
- The online transfer task, the FileManager cache and the msfs file store.
- UserIndex.AcceptInv: kicking out other clients of the same type and the messages to the route server and the client are not modelled; they do not touch the indexes.
- OnlineCount.ApplyInv: one login server; several are independent copies, since every update goes to every open link.
- OnlineCount.CountConservation: a second Info on one link, which the message server never sends, would add to the total without an entry.
- ConnPool.PoolSafety: a failing Init of the first two connections, after which the server does not start.
- ProxyRouting.ResponseRouting: heartbeats and packets without a handler, which create no task; at most 2^32 - 1 connections per process.
- RouteMaster.MasterElection: ticks below 2^64 - 1; the role message sent to the new master.
- Liveness of the random retry in get_db_server_conn_in_range, group chat, push and HTTP relays, robot clients, configuration and start-up code.
