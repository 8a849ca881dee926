/** One execution of the switch in http_parser_execute, without the three states that consume
    body bytes in bulk. Each case of the source is a branch here. A failed assert of the source
    is the outcome Abort, so that "no assert fails" is a theorem and not a precondition. */
module HttpSwitch {
  import opened Wrappers
  import opened HttpTypes

  datatype DataKind = Url | Field | Value | Body

  datatype Note = MessageBegin | StatusComplete | HeadersComplete | MessageComplete

  /** What a case does besides updating the record: set a mark (MARK), deliver the bytes since a
      mark (CALLBACK_DATA), or run a notification callback (CALLBACK_NOTIFY). */
  datatype Op = Mark(kind: DataKind) | Flush(kind: DataKind) | Notify(note: Note)

  datatype Ops = Nil | Cons(head: Op, tail: Ops)

  function Just(op: Op): Ops { Cons(op, Nil) }

  function Append(a: Ops, b: Ops): Ops {
    match a case Nil => b case Cons(op, rest) => Cons(op, Append(rest, b))
  }

  /** How a case ends: `break`, `goto reexecute_byte`, `goto error`, the early return after an
      upgrade, or a failed assert. */
  datatype Next = Advance | Reexecute | Fail | Leave | Abort

  datatype Outcome = Outcome(parser: Parser, ops: Ops, next: Next)

  function Stay(p: Parser): Outcome { Outcome(p, Nil, Advance) }

  function Goto(p: Parser, s: State): Outcome { Outcome(p.(state := s), Nil, Advance) }

  function Err(p: Parser, e: Errno): Outcome { Outcome(p.(errno := e), Nil, Fail) }

  /** http_message_needs_eof: must the end of the message be the end of the stream? */
  predicate NeedsEof(p: Parser) {
    !p.kind.Request? &&
    !(p.status / 100 == 1 || p.status == 204 || p.status == 304 || p.flags.skipBody) &&
    !(p.flags.chunked || p.contentLength != MAX64)
  }

  /** http_should_keep_alive. */
  predicate KeepAlive(p: Parser) {
    (if p.major > 0 && p.minor > 0 then !p.flags.close else p.flags.keepAlive) && !NeedsEof(p)
  }

  /** NEW_MESSAGE: the next message starts, or the connection is to be closed. */
  function NewMessage(p: Parser): (s: State)
    ensures s.InStart? && !s.start.ResOrRespH?
  {
    InStart(if !KeepAlive(p) then Dead else if p.kind.Request? then StartReq else StartRes)
  }

  function Complete(p: Parser): Outcome {
    Outcome(p.(state := NewMessage(p)), Just(Notify(MessageComplete)), Advance)
  }

  // ---- Start of a message ----

  function SwitchStart(p: Parser, ch: char): (o: Outcome)
    requires p.state.InStart?
    ensures o.next == Reexecute ==> p.state == InStart(StartReqOrRes) && o.parser.state == InStart(StartReq)
  {
    match p.state.start
    case Dead =>
      if ch == CR || ch == LF then Stay(p) else Err(p, CLOSED_CONNECTION)
    case StartReqOrRes =>
      if ch == CR || ch == LF then Stay(p)
      else
        var q := p.(flags := NO_FLAGS, contentLength := MAX64);
        if ch == 'H' then Outcome(q.(state := InStart(ResOrRespH)), Just(Notify(MessageBegin)), Advance)
        else Outcome(q.(kind := Request, state := InStart(StartReq)), Nil, Reexecute)
    case ResOrRespH =>
      if ch == 'T' then Goto(p.(kind := Response), InStatusLine(ResHT))
      else if ch != 'E' then Err(p, INVALID_CONSTANT)
      else Goto(p.(kind := Request, verb := HEAD, index := 2), InMethod)
    case StartRes =>
      var q := p.(flags := NO_FLAGS, contentLength := MAX64);
      if ch == 'H' then Outcome(q.(state := InStatusLine(ResH)), Just(Notify(MessageBegin)), Advance)
      else if ch == CR || ch == LF then Outcome(q, Just(Notify(MessageBegin)), Advance)
      else Err(q, INVALID_CONSTANT)
    case StartReq =>
      if ch == CR || ch == LF then Stay(p)
      else
        var q := p.(flags := NO_FLAGS, contentLength := MAX64);
        if !IsAlpha(ch) then Err(q, INVALID_METHOD)
        else
          var r := q.(verb := DELETE, index := 1);
          match FirstMethod(ch)
          case None => Err(r, INVALID_METHOD)
          case Some(m) => Outcome(r.(verb := m, state := InMethod), Just(Notify(MessageBegin)), Advance)
  }

  function FirstMethod(ch: char): Option<Method> {
    if ch == 'C' then Some(CONNECT) else if ch == 'D' then Some(DELETE) else if ch == 'G' then Some(GET)
    else if ch == 'H' then Some(HEAD) else if ch == 'L' then Some(LOCK) else if ch == 'M' then Some(MKCOL)
    else if ch == 'N' then Some(NOTIFY) else if ch == 'O' then Some(OPTIONS) else if ch == 'P' then Some(POST)
    else if ch == 'R' then Some(REPORT) else if ch == 'S' then Some(SUBSCRIBE) else if ch == 'T' then Some(TRACE)
    else if ch == 'U' then Some(UNLOCK) else None
  }

  // ---- Response line ----

  function Expect(p: Parser, ch: char, want: char, s: State): Outcome {
    if ch != want then Err(p, STRICT) else Goto(p, s)
  }

  function SwitchStatusLine(p: Parser, ch: char): (o: Outcome)
    requires p.state.InStatusLine?
    ensures o.next != Reexecute
  {
    match p.state.line
    case ResH => Expect(p, ch, 'T', InStatusLine(ResHT))
    case ResHT => Expect(p, ch, 'T', InStatusLine(ResHTT))
    case ResHTT => Expect(p, ch, 'P', InStatusLine(ResHTTP))
    case ResHTTP => Expect(p, ch, '/', InStatusLine(ResFirstMajor))
    case ResFirstMajor =>
      if !IsNum(ch) then Err(p, INVALID_VERSION) else Goto(p.(major := Digit(ch)), InStatusLine(ResMajor))
    case ResMajor =>
      if ch == '.' then Goto(p, InStatusLine(ResFirstMinor))
      else if !IsNum(ch) then Err(p, INVALID_VERSION)
      else
        var q := p.(major := p.major * 10 + Digit(ch));
        if q.major > 999 then Err(q, INVALID_VERSION) else Stay(q)
    case ResFirstMinor =>
      if !IsNum(ch) then Err(p, INVALID_VERSION) else Goto(p.(minor := Digit(ch)), InStatusLine(ResMinor))
    case ResMinor =>
      if ch == ' ' then Goto(p, InStatusLine(ResFirstStatus))
      else if !IsNum(ch) then Err(p, INVALID_VERSION)
      else
        var q := p.(minor := p.minor * 10 + Digit(ch));
        if q.minor > 999 then Err(q, INVALID_VERSION) else Stay(q)
    case ResFirstStatus =>
      if !IsNum(ch) then (if ch == ' ' then Stay(p) else Err(p, INVALID_STATUS))
      else Goto(p.(status := Digit(ch)), InStatusLine(ResStatusCode))
    case ResStatusCode =>
      if !IsNum(ch) then
        if ch == ' ' then Goto(p, InStatusLine(ResStatus))
        else if ch == CR then Goto(p, InStatusLine(ResLineAlmostDone))
        else if ch == LF then Goto(p, InHeader(HeaderFieldStart))
        else Err(p, INVALID_STATUS)
      else
        var q := p.(status := p.status * 10 + Digit(ch));
        if q.status > 999 then Err(q, INVALID_STATUS) else Stay(q)
    case ResStatus =>
      if ch == CR then Goto(p, InStatusLine(ResLineAlmostDone))
      else if ch == LF then Goto(p, InHeader(HeaderFieldStart))
      else Stay(p)
    case ResLineAlmostDone =>
      if ch != LF then Err(p, STRICT)
      else Outcome(p.(state := InHeader(HeaderFieldStart)), Just(Notify(StatusComplete)), Advance)
  }

  // ---- Request line ----

  /** The mid-token switch of method when the byte does not continue the current method's name. */
  function OtherMethod(m: Method, index: nat, ch: char): Option<Method> {
    if m.CONNECT? then
      if index == 1 && ch == 'H' then Some(CHECKOUT)
      else if index == 2 && ch == 'P' then Some(COPY)
      else None
    else if m.MKCOL? then
      if index == 1 && ch == 'O' then Some(MOVE)
      else if index == 1 && ch == 'E' then Some(MERGE)
      else if index == 1 && ch == '-' then Some(MSEARCH)
      else if index == 2 && ch == 'A' then Some(MKACTIVITY)
      else None
    else if m.SUBSCRIBE? then
      if index == 1 && ch == 'E' then Some(SEARCH) else None
    else if index == 1 && m.POST? then
      if ch == 'R' then Some(PROPFIND)
      else if ch == 'U' then Some(PUT)
      else if ch == 'A' then Some(PATCH)
      else None
    else if index == 2 then
      if m.PUT? then (if ch == 'R' then Some(PURGE) else None)
      else if m.UNLOCK? then (if ch == 'S' then Some(UNSUBSCRIBE) else None)
      else None
    else if index == 4 && m.PROPFIND? && ch == 'P' then Some(PROPPATCH)
    else None
  }

  function SwitchMethod(p: Parser, ch: char): (o: Outcome)
    requires p.state.InMethod?
    ensures o.next != Reexecute
  {
    if ch == '\0' then Err(p, INVALID_METHOD)
    else
      var want := At(MethodString(p.verb), p.index);
      var next := p.(index := p.index + 1);
      if ch == ' ' && want == 0 then Goto(next, InUrl(ReqSpacesBeforeUrl))
      else if ch as int == want then Stay(next)
      else
        match OtherMethod(p.verb, p.index, ch)
        case None => Err(p, INVALID_METHOD)
        case Some(m) => Stay(next.(verb := m))
  }

  /** parse_url_char, shared by the request line and http_parser_parse_url. */
  function ParseUrlChar(s: UrlState, ch: char): (u: UrlState)
    ensures !u.ReqSpacesBeforeUrl?
  {
    if ch == ' ' || ch == CR || ch == LF || ch == '\t' || ch == 12 as char then UrlDead
    else
      match s
      case ReqSpacesBeforeUrl =>
        if ch == '/' || ch == '*' then ReqPath else if IsAlpha(ch) then ReqSchema else UrlDead
      case ReqSchema =>
        if IsAlpha(ch) then ReqSchema else if ch == ':' then ReqSchemaSlash else UrlDead
      case ReqSchemaSlash => if ch == '/' then ReqSchemaSlashSlash else UrlDead
      case ReqSchemaSlashSlash => if ch == '/' then ReqServerStart else UrlDead
      case ReqServerWithAt => if ch == '@' then UrlDead else ParseServerChar(ch)
      case ReqServerStart => ParseServerChar(ch)
      case ReqServer => ParseServerChar(ch)
      case ReqPath =>
        if IsUrlChar(ch) then ReqPath else if ch == '?' then ReqQueryStart
        else if ch == '#' then ReqFragmentStart else UrlDead
      case ReqQueryStart => ParseQueryChar(ch)
      case ReqQuery => ParseQueryChar(ch)
      case ReqFragmentStart =>
        if IsUrlChar(ch) || ch == '?' then ReqFragment else if ch == '#' then ReqFragmentStart else UrlDead
      case ReqFragment =>
        if IsUrlChar(ch) || ch == '?' || ch == '#' then ReqFragment else UrlDead
      case _ => UrlDead
  }

  function ParseServerChar(ch: char): UrlState {
    if ch == '/' then ReqPath else if ch == '?' then ReqQueryStart else if ch == '@' then ReqServerWithAt
    else if IsUserinfo(ch) || ch == '[' || ch == ']' then ReqServer else UrlDead
  }

  function ParseQueryChar(ch: char): UrlState {
    if IsUrlChar(ch) || ch == '?' then ReqQuery else if ch == '#' then ReqFragmentStart else UrlDead
  }

  function UrlStep(p: Parser, from: UrlState, ch: char, ops: Ops): Outcome {
    var u := ParseUrlChar(from, ch);
    if u.UrlDead? then Err(p.(state := InStart(Dead)), INVALID_URL)
    else Outcome(p.(state := InUrl(u)), ops, Advance)
  }

  function SwitchUrl(p: Parser, ch: char): (o: Outcome)
    requires p.state.InUrl?
    ensures o.next != Reexecute
  {
    match p.state.url
    case ReqSpacesBeforeUrl =>
      if ch == ' ' then Stay(p)
      else UrlStep(p, if p.verb.CONNECT? then ReqServerStart else ReqSpacesBeforeUrl, ch, Just(Mark(Url)))
    case ReqSchema | ReqSchemaSlash | ReqSchemaSlashSlash | ReqServerStart =>
      if ch == ' ' || ch == CR || ch == LF then Err(p, INVALID_URL) else UrlStep(p, p.state.url, ch, Nil)
    case _ =>
      if ch == ' ' then Outcome(p.(state := InVersion(ReqHttpStart)), Just(Flush(Url)), Advance)
      else if ch == CR || ch == LF then
        var s := if ch == CR then InVersion(ReqLineAlmostDone) else InHeader(HeaderFieldStart);
        Outcome(p.(major := 0, minor := 9, state := s), Just(Flush(Url)), Advance)
      else UrlStep(p, p.state.url, ch, Nil)
  }

  function SwitchVersion(p: Parser, ch: char): (o: Outcome)
    requires p.state.InVersion?
    ensures o.next != Reexecute
  {
    match p.state.version
    case ReqHttpStart =>
      if ch == 'H' then Goto(p, InVersion(ReqHttpH)) else if ch == ' ' then Stay(p) else Err(p, INVALID_CONSTANT)
    case ReqHttpH => Expect(p, ch, 'T', InVersion(ReqHttpHT))
    case ReqHttpHT => Expect(p, ch, 'T', InVersion(ReqHttpHTT))
    case ReqHttpHTT => Expect(p, ch, 'P', InVersion(ReqHttpHTTP))
    case ReqHttpHTTP => Expect(p, ch, '/', InVersion(ReqFirstMajor))
    case ReqFirstMajor =>
      if !('1' <= ch <= '9') then Err(p, INVALID_VERSION) else Goto(p.(major := Digit(ch)), InVersion(ReqMajor))
    case ReqMajor =>
      if ch == '.' then Goto(p, InVersion(ReqFirstMinor))
      else if !IsNum(ch) then Err(p, INVALID_VERSION)
      else
        var q := p.(major := p.major * 10 + Digit(ch));
        if q.major > 999 then Err(q, INVALID_VERSION) else Stay(q)
    case ReqFirstMinor =>
      if !IsNum(ch) then Err(p, INVALID_VERSION) else Goto(p.(minor := Digit(ch)), InVersion(ReqMinor))
    case ReqMinor =>
      if ch == CR then Goto(p, InVersion(ReqLineAlmostDone))
      else if ch == LF then Goto(p, InHeader(HeaderFieldStart))
      else if !IsNum(ch) then Err(p, INVALID_VERSION)
      else
        var q := p.(minor := p.minor * 10 + Digit(ch));
        if q.minor > 999 then Err(q, INVALID_VERSION) else Stay(q)
    case ReqLineAlmostDone =>
      if ch != LF then Err(p, LF_EXPECTED) else Goto(p, InHeader(HeaderFieldStart))
  }

  // ---- Header fields and values ----

  /** Advance the index and compare with the literal: a mismatch gives up, the last character
      completes the match. */
  function Match(p: Parser, code: int, literal: string, done: HeaderState): (q: Parser)
    ensures q == p.(index := p.index + 1, headerState := q.headerState)
    ensures p.index < |literal| - 1 ==>
              q.headerState == HGeneral || q.headerState == done ||
              (q.headerState == p.headerState && q.index < |literal| - 1)
  {
    var i := p.index + 1;
    if i > |literal| || code != At(literal, i) then p.(index := i, headerState := HGeneral)
    else if i == |literal| - 1 then p.(index := i, headerState := done)
    else p.(index := i)
  }

  function FirstFieldState(code: int): HeaderState {
    if code == 'c' as int then HC else if code == 'p' as int then HMatchProxyConnection
    else if code == 't' as int then HMatchTransferEncoding else if code == 'u' as int then HMatchUpgrade
    else HGeneral
  }

  function FieldMatch(p: Parser, code: int): (q: Parser)
    ensures q == p.(index := q.index, headerState := q.headerState)
  {
    match p.headerState
    case HMatchConnection => Match(p, code, "connection", HConnection)
    case HMatchProxyConnection => Match(p, code, "proxy-connection", HConnection)
    case HMatchContentLength => Match(p, code, "content-length", HContentLength)
    case HMatchTransferEncoding => Match(p, code, "transfer-encoding", HTransferEncoding)
    case HMatchUpgrade => Match(p, code, "upgrade", HUpgrade)
    case _ => p
  }

  function FieldByte(p: Parser, code: int): (o: Outcome)
    ensures o.next != Reexecute
  {
    match p.headerState
    case HGeneral => Stay(p)
    case HC => Stay(p.(index := p.index + 1, headerState := if code == 'o' as int then HCO else HGeneral))
    case HCO => Stay(p.(index := p.index + 1, headerState := if code == 'n' as int then HCON else HGeneral))
    case HCON =>
      var h := if code == 'n' as int then HMatchConnection
               else if code == 't' as int then HMatchContentLength else HGeneral;
      Stay(p.(index := p.index + 1, headerState := h))
    case HMatchConnection | HMatchProxyConnection | HMatchContentLength | HMatchTransferEncoding | HMatchUpgrade =>
      Stay(FieldMatch(p, code))
    // A token byte is never a space in the strict build, so the match is always abandoned.
    case HConnection | HContentLength | HTransferEncoding | HUpgrade => Stay(p.(headerState := HGeneral))
    case _ => Outcome(p, Nil, Abort)
  }

  function FirstValueByte(p: Parser, ch: char): (o: Outcome)
    ensures o.next != Reexecute
  {
    var c := Lower(ch);
    var mark := Just(Mark(Value));
    match p.headerState
    case HUpgrade => Outcome(p.(flags := p.flags.(upgrade := true), headerState := HGeneral), mark, Advance)
    case HTransferEncoding =>
      Outcome(p.(headerState := if c == 'c' as int then HMatchChunked else HGeneral), mark, Advance)
    case HContentLength =>
      if !IsNum(ch) then Err(p, INVALID_CONTENT_LENGTH)
      else Outcome(p.(contentLength := Digit(ch)), mark, Advance)
    case HConnection =>
      var h := if c == 'k' as int then HMatchKeepAlive else if c == 'c' as int then HMatchClose else HGeneral;
      Outcome(p.(headerState := h), mark, Advance)
    case _ => Outcome(p.(headerState := HGeneral), mark, Advance)
  }

  /** A further digit of a length: 64-bit arithmetic with the overflow test of the source. */
  function Accumulate(p: Parser, base: nat, digit: nat, e: Errno): (o: Outcome)
    requires e != OK
    ensures o == Err(p, e) || (o == Stay(p.(contentLength := o.parser.contentLength)) && o.parser.contentLength < MAX64)
  {
    var t := (p.contentLength * base + digit) % TWO64;
    if t < p.contentLength || t == MAX64 then Err(p, e) else Stay(p.(contentLength := t))
  }

  function ValueMatch(p: Parser, code: int): (q: Parser)
    ensures q == p.(index := q.index, headerState := q.headerState)
  {
    match p.headerState
    case HMatchChunked => Match(p, code, "chunked", HChunked)
    case HMatchKeepAlive => Match(p, code, "keep-alive", HKeepAlive)
    case HMatchClose => Match(p, code, "close", HClose)
    case _ => p
  }

  function ValueByte(p: Parser, ch: char): (o: Outcome)
    ensures o.next != Reexecute
  {
    var c := Lower(ch);
    match p.headerState
    case HGeneral => Stay(p)
    case HConnection | HTransferEncoding => Outcome(p, Nil, Abort)
    case HContentLength =>
      if ch == ' ' then Stay(p)
      else if !IsNum(ch) then Err(p, INVALID_CONTENT_LENGTH)
      else Accumulate(p, 10, Digit(ch), INVALID_CONTENT_LENGTH)
    case HMatchChunked | HMatchKeepAlive | HMatchClose => Stay(ValueMatch(p, c))
    case HChunked | HKeepAlive | HClose =>
      Stay(if ch != ' ' then p.(headerState := HGeneral) else p)
    case _ => Stay(p.(headerState := HGeneral))
  }

  function SwitchFieldStart(p: Parser, ch: char): Outcome {
    if ch == CR then Goto(p, InDone(HeadersAlmostDone))
    else if ch == LF then Outcome(p.(state := InDone(HeadersAlmostDone)), Nil, Reexecute)
    else if !IsToken(ch) then Err(p, INVALID_HEADER_TOKEN)
    else
      Outcome(p.(index := 0, state := InHeader(HeaderField), headerState := FirstFieldState(TokenCode(ch))),
              Just(Mark(Field)), Advance)
  }

  function SwitchField(p: Parser, ch: char): Outcome {
    if IsToken(ch) then FieldByte(p, TokenCode(ch))
    else if ch == ':' then Outcome(p.(state := InHeader(HeaderValueStart)), Just(Flush(Field)), Advance)
    else if ch == CR then Outcome(p.(state := InHeader(HeaderAlmostDone)), Just(Flush(Field)), Advance)
    else if ch == LF then Outcome(p.(state := InHeader(HeaderFieldStart)), Just(Flush(Field)), Advance)
    else Err(p, INVALID_HEADER_TOKEN)
  }

  function SwitchValueStart(p: Parser, ch: char): Outcome {
    if ch == ' ' || ch == '\t' then Stay(p)
    else
      var q := p.(state := InHeader(HeaderValue), index := 0);
      var empty := Cons(Mark(Value), Just(Flush(Value)));
      if ch == CR then Outcome(q.(headerState := HGeneral, state := InHeader(HeaderAlmostDone)), empty, Advance)
      else if ch == LF then Outcome(q.(state := InHeader(HeaderFieldStart)), empty, Advance)
      else FirstValueByte(q, ch)
  }

  function SwitchValue(p: Parser, ch: char): Outcome {
    if ch == CR then Outcome(p.(state := InHeader(HeaderAlmostDone)), Just(Flush(Value)), Advance)
    else if ch == LF then Outcome(p.(state := InHeader(HeaderAlmostDone)), Just(Flush(Value)), Reexecute)
    else ValueByte(p, ch)
  }

  function SwitchHeaderEnd(p: Parser, ch: char): Outcome {
    if ch != LF then Err(p, STRICT)
    else
      var f := match p.headerState
        case HKeepAlive => p.flags.(keepAlive := true)
        case HClose => p.flags.(close := true)
        case HChunked => p.flags.(chunked := true)
        case _ => p.flags;
      Goto(p.(flags := f), InHeader(HeaderValueLws))
  }

  function SwitchHeader(p: Parser, ch: char): Outcome
    requires p.state.InHeader?
  {
    match p.state.header
    case HeaderFieldStart => SwitchFieldStart(p, ch)
    case HeaderField => SwitchField(p, ch)
    case HeaderValueStart => SwitchValueStart(p, ch)
    case HeaderValue => SwitchValue(p, ch)
    case HeaderAlmostDone => SwitchHeaderEnd(p, ch)
    case HeaderValueLws =>
      if ch == ' ' || ch == '\t' then Goto(p, InHeader(HeaderValueStart))
      else Outcome(p.(state := InHeader(HeaderFieldStart)), Nil, Reexecute)
  }

  // ---- End of headers, end of message ----

  function SwitchDone(p: Parser, ch: char): (o: Outcome)
    requires p.state.InDone?
    ensures o.next == Reexecute ==> p.state == InDone(HeadersAlmostDone) && o.parser.state == InDone(HeadersDone)
  {
    match p.state.done
    case HeadersAlmostDone =>
      if ch != LF then Err(p, STRICT)
      else if p.flags.trailing then Complete(p)
      else
        Outcome(p.(state := InDone(HeadersDone), upgrade := p.flags.upgrade || p.verb.CONNECT?),
                Just(Notify(HeadersComplete)), Reexecute)
    case HeadersDone =>
      if ch != LF then Err(p, STRICT)
      else
        var q := p.(nread := 0);
        if q.upgrade then Complete(q).(next := Leave)
        else if q.flags.skipBody then Complete(q)
        else if q.flags.chunked then Goto(q, InChunk(ChunkSizeStart))
        else if q.contentLength == 0 then Complete(q)
        else if q.contentLength != MAX64 then Goto(q, InBody(BodyIdentity))
        else if q.kind.Request? || !NeedsEof(q) then Complete(q)
        else Goto(q, InBody(BodyIdentityEof))
    case MessageDone => Complete(p)
  }

  // ---- Chunk framing ----

  function SwitchChunk(p: Parser, ch: char): (o: Outcome)
    requires p.state.InChunk?
    ensures o.next != Reexecute
  {
    if !p.flags.chunked then Outcome(p, Nil, Abort)
    else
      match p.state.chunk
      case ChunkSizeStart =>
        if p.nread != 1 then Outcome(p, Nil, Abort)
        else if Unhex(ch) == -1 then Err(p, INVALID_CHUNK_SIZE)
        else Goto(p.(contentLength := Unhex(ch)), InChunk(ChunkSize))
      case ChunkSize =>
        if ch == CR then Goto(p, InChunk(ChunkSizeAlmostDone))
        else if Unhex(ch) == -1 then
          if ch == ';' || ch == ' ' then Goto(p, InChunk(ChunkParameters)) else Err(p, INVALID_CHUNK_SIZE)
        else Accumulate(p, 16, Unhex(ch), INVALID_CONTENT_LENGTH)
      case ChunkParameters =>
        if ch == CR then Goto(p, InChunk(ChunkSizeAlmostDone)) else Stay(p)
      case ChunkSizeAlmostDone =>
        if ch != LF then Err(p, STRICT)
        else
          var q := p.(nread := 0);
          if q.contentLength == 0 then Goto(q.(flags := q.flags.(trailing := true)), InHeader(HeaderFieldStart))
          else Goto(q, InBody(ChunkData))
      case ChunkDataAlmostDone =>
        if p.contentLength != 0 then Outcome(p, Nil, Abort)
        else if ch != CR then Err(p, STRICT)
        else Outcome(p.(state := InChunk(ChunkDataDone)), Just(Flush(Body)), Advance)
      case ChunkDataDone =>
        if ch != LF then Err(p, STRICT) else Goto(p.(nread := 0), InChunk(ChunkSizeStart))
  }

  // ---- The whole switch, and the re-execution loop ----

  function Switch(p: Parser, ch: char): Outcome
    requires !p.state.InBody?
  {
    match p.state
    case InStart(_) => SwitchStart(p, ch)
    case InStatusLine(_) => SwitchStatusLine(p, ch)
    case InMethod => SwitchMethod(p, ch)
    case InUrl(_) => SwitchUrl(p, ch)
    case InVersion(_) => SwitchVersion(p, ch)
    case InHeader(_) => SwitchHeader(p, ch)
    case InDone(_) => SwitchDone(p, ch)
    case InChunk(_) => SwitchChunk(p, ch)
  }

  /** How many more times a byte can be re-executed from a state. */
  function Rank(s: State): nat {
    match s
    case InStart(StartReqOrRes) => 1
    case InHeader(HeaderValueLws) => 3
    case InHeader(HeaderFieldStart) => 2
    case InHeader(HeaderValue) => 1
    case InDone(HeadersAlmostDone) => 1
    case _ => 0
  }

  lemma ReexecutionDescends(p: Parser, ch: char)
    requires !p.state.InBody? && Switch(p, ch).next == Reexecute
    ensures var q := Switch(p, ch).parser; !q.state.InBody? && Rank(q.state) < Rank(p.state)
  {
  }

  /** The switch followed by every `goto reexecute_byte`, operations in order. */
  function Dispatch(p: Parser, ch: char): Outcome
    requires !p.state.InBody?
    decreases Rank(p.state)
  {
    var o := Switch(p, ch);
    if o.next != Reexecute then o
    else
      ReexecutionDescends(p, ch);
      var r := Dispatch(o.parser, ch);
      Outcome(r.parser, Append(o.ops, r.ops), r.next)
  }
}
