/** The parser record, its enumerations and its character tables
    (base/http_parser.h, base/http_parser.cpp:117-395), for the default strict build. */
module HttpTypes {

  const MAX64: nat := 0xFFFF_FFFF_FFFF_FFFF
  const TWO64: nat := 0x1_0000_0000_0000_0000
  const MAX_HEADER_SIZE: nat := 80 * 1024

  const CR: char := '\r'
  const LF: char := '\n'

  datatype ParserType = Request | Response | Both

  datatype Method =
    | DELETE | GET | HEAD | POST | PUT | CONNECT | OPTIONS | TRACE | COPY | LOCK | MKCOL | MOVE
    | PROPFIND | PROPPATCH | SEARCH | UNLOCK | REPORT | MKACTIVITY | CHECKOUT | MERGE | MSEARCH
    | NOTIFY | SUBSCRIBE | UNSUBSCRIBE | PATCH | PURGE

  // The parser states, grouped by the part of the message they belong to.

  datatype StartState = Dead | StartReqOrRes | ResOrRespH | StartRes | StartReq

  datatype StatusState =
    | ResH | ResHT | ResHTT | ResHTTP | ResFirstMajor | ResMajor | ResFirstMinor | ResMinor
    | ResFirstStatus | ResStatusCode | ResStatus | ResLineAlmostDone

  /** UrlDead is s_dead as returned by parse_url_char. */
  datatype UrlState =
    | UrlDead | ReqSpacesBeforeUrl | ReqSchema | ReqSchemaSlash | ReqSchemaSlashSlash | ReqServerStart
    | ReqServer | ReqServerWithAt | ReqPath | ReqQueryStart | ReqQuery | ReqFragmentStart | ReqFragment

  datatype VersionState =
    | ReqHttpStart | ReqHttpH | ReqHttpHT | ReqHttpHTT | ReqHttpHTTP
    | ReqFirstMajor | ReqMajor | ReqFirstMinor | ReqMinor | ReqLineAlmostDone

  datatype HeaderPos =
    | HeaderFieldStart | HeaderField | HeaderValueStart | HeaderValue | HeaderValueLws | HeaderAlmostDone

  datatype DoneState = HeadersAlmostDone | HeadersDone | MessageDone

  datatype ChunkState =
    | ChunkSizeStart | ChunkSize | ChunkParameters | ChunkSizeAlmostDone | ChunkDataAlmostDone | ChunkDataDone

  /** The states that consume as many body bytes as the buffer holds. */
  datatype BodyState = ChunkData | BodyIdentity | BodyIdentityEof

  datatype State =
    | InStart(start: StartState)
    | InStatusLine(line: StatusState)
    | InMethod
    | InUrl(url: UrlState)
    | InVersion(version: VersionState)
    | InHeader(header: HeaderPos)
    | InDone(done: DoneState)
    | InChunk(chunk: ChunkState)
    | InBody(body: BodyState)

  datatype HeaderState =
    | HGeneral | HC | HCO | HCON
    | HMatchConnection | HMatchProxyConnection | HMatchContentLength | HMatchTransferEncoding | HMatchUpgrade
    | HConnection | HContentLength | HTransferEncoding | HUpgrade
    | HMatchChunked | HMatchKeepAlive | HMatchClose
    | HChunked | HKeepAlive | HClose

  datatype Errno =
    | OK
    | INVALID_EOF_STATE | HEADER_OVERFLOW | CLOSED_CONNECTION | INVALID_VERSION | INVALID_STATUS
    | INVALID_METHOD | INVALID_URL | LF_EXPECTED | INVALID_HEADER_TOKEN | INVALID_CONTENT_LENGTH
    | INVALID_CHUNK_SIZE | INVALID_CONSTANT | STRICT

  datatype Flags = Flags(chunked: bool, keepAlive: bool, close: bool, trailing: bool, upgrade: bool, skipBody: bool)

  const NO_FLAGS := Flags(false, false, false, false, false, false)

  datatype Parser = Parser(
    kind: ParserType, flags: Flags, state: State, headerState: HeaderState, index: nat,
    nread: nat, contentLength: nat,
    major: nat, minor: nat, status: nat, verb: Method, errno: Errno, upgrade: bool)

  /** http_parser_init: everything zero, the start state chosen by the type. */
  function Init(t: ParserType): (p: Parser) {
    var s := match t case Request => StartReq case Response => StartRes case Both => StartReqOrRes;
    Parser(t, NO_FLAGS, InStart(s), HGeneral, 0, 0, 0, 0, 0, 0, DELETE, OK, false)
  }

  /** The PARSING_HEADER macro: every state up to s_headers_done. */
  predicate ParsingHeader(s: State) {
    !s.InBody? && s != InChunk(ChunkDataAlmostDone) && s != InChunk(ChunkDataDone) && s != InDone(MessageDone)
  }

  // ---- Character classes (strict build) ----

  predicate IsNum(c: char) { '0' <= c <= '9' }

  predicate IsAlpha(c: char) { 'a' <= c <= 'z' || 'A' <= c <= 'Z' }

  predicate IsHex(c: char) { IsNum(c) || 'a' <= c <= 'f' || 'A' <= c <= 'F' }

  predicate IsMark(c: char) {
    c == '-' || c == '_' || c == '.' || c == '!' || c == '~' || c == '*' || c == '\'' || c == '(' || c == ')'
  }

  predicate IsUserinfo(c: char) {
    IsAlpha(c) || IsNum(c) || IsMark(c) || c == '%' || c == ';' || c == ':' || c == '&' || c == '=' ||
    c == '+' || c == '$' || c == ','
  }

  predicate IsHostChar(c: char) { IsAlpha(c) || IsNum(c) || c == '.' || c == '-' }

  /** normal_url_char: printable ASCII without space, '#', '?'. */
  predicate IsUrlChar(c: char) { '!' <= c <= '~' && c != '#' && c != '?' }

  /** The tokens table maps a byte to zero exactly when it is not a token character. */
  predicate IsToken(c: char) {
    IsAlpha(c) || IsNum(c) || c == '!' || c == '#' || c == '$' || c == '%' || c == '&' || c == '\'' ||
    c == '*' || c == '+' || c == '-' || c == '.' || c == '^' || c == '_' || c == '`' || c == '|' || c == '~'
  }

  /** The LOWER macro, c | 0x20, as a character code. On token characters that are letters the
      tokens table folds case in the same way. */
  function Lower(c: char): int {
    var n := c as int;
    if n / 32 % 2 == 1 then n else n + 32
  }

  /** The tokens table entry of a token character: letters folded, others unchanged. */
  function TokenCode(c: char): int {
    if 'A' <= c <= 'Z' then c as int + 32 else c as int
  }

  /** The value of a hexadecimal digit; -1 for any other byte. */
  function HexValue(c: char): (v: int)
    ensures -1 <= v <= 15
    ensures v == -1 <==> !IsHex(c)
  {
    if '0' <= c <= '9' then c as int - '0' as int
    else if 'a' <= c <= 'f' then c as int - 'a' as int + 10
    else if 'A' <= c <= 'F' then c as int - 'A' as int + 10
    else -1
  }

  /** The unhex table. It has 256 entries but spells out only 128: the bytes from 0x80 on read as the digit 0. */
  function Unhex(c: char): (v: int)
    ensures -1 <= v <= 15
    ensures v == -1 <==> !IsHex(c) && c as int < 128
  {
    if c as int >= 128 then 0 else HexValue(c)
  }

  function Digit(c: char): (d: nat)
    requires IsNum(c)
    ensures d <= 9
  {
    c as int - '0' as int
  }

  function MethodString(m: Method): (s: string)
    ensures 3 <= |s| <= 11
  {
    match m
    case DELETE => "DELETE" case GET => "GET" case HEAD => "HEAD" case POST => "POST" case PUT => "PUT"
    case CONNECT => "CONNECT" case OPTIONS => "OPTIONS" case TRACE => "TRACE" case COPY => "COPY"
    case LOCK => "LOCK" case MKCOL => "MKCOL" case MOVE => "MOVE" case PROPFIND => "PROPFIND"
    case PROPPATCH => "PROPPATCH" case SEARCH => "SEARCH" case UNLOCK => "UNLOCK" case REPORT => "REPORT"
    case MKACTIVITY => "MKACTIVITY" case CHECKOUT => "CHECKOUT" case MERGE => "MERGE"
    case MSEARCH => "M-SEARCH" case NOTIFY => "NOTIFY" case SUBSCRIBE => "SUBSCRIBE"
    case UNSUBSCRIBE => "UNSUBSCRIBE" case PATCH => "PATCH" case PURGE => "PURGE"
  }

  /** Reading a C string literal at i, its terminating NUL included. */
  function At(s: string, i: nat): int {
    if i < |s| then s[i] as int else 0
  }
}
