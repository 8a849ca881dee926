/** What the parser refuses, and with which error: every case of http_parser_execute that goes to `error`
    (base/http_parser.cpp:595-1922). */
module HttpRefusals {
  import opened Wrappers
  import opened HttpTypes
  import opened HttpSwitch
  import opened HttpSpec
  import HttpMethod

  function Unless(ok: bool, e: Errno): Option<Errno> { if ok then None else Some(e) }

  predicate Break(ch: char) { ch == CR || ch == LF }

  function RefusedStart(s: StartState, ch: char): Option<Errno> {
    match s
    case Dead => Unless(Break(ch), CLOSED_CONNECTION)
    case StartReqOrRes | StartReq => Unless(Break(ch) || ch in "CDGHLMNOPRSTU", INVALID_METHOD)
    case ResOrRespH => Unless(ch == 'T' || ch == 'E', INVALID_CONSTANT)
    case StartRes => Unless(Break(ch) || ch == 'H', INVALID_CONSTANT)
  }

  /** A further digit makes the number greater than 999. */
  function RefusedNumber(n: nat, stops: string, ch: char, e: Errno): Option<Errno> {
    Unless(ch in stops || (IsNum(ch) && n * 10 + Digit(ch) <= 999), e)
  }

  function RefusedStatus(p: Parser, s: StatusState, ch: char): Option<Errno> {
    match s
    case ResH | ResHT => Unless(ch == 'T', STRICT)
    case ResHTT => Unless(ch == 'P', STRICT)
    case ResHTTP => Unless(ch == '/', STRICT)
    case ResFirstMajor | ResFirstMinor => Unless(IsNum(ch), INVALID_VERSION)
    case ResMajor => RefusedNumber(p.major, ".", ch, INVALID_VERSION)
    case ResMinor => RefusedNumber(p.minor, " ", ch, INVALID_VERSION)
    case ResFirstStatus => Unless(IsNum(ch) || ch == ' ', INVALID_STATUS)
    case ResStatusCode => RefusedNumber(p.status, " \r\n", ch, INVALID_STATUS)
    case ResStatus => None
    case ResLineAlmostDone => Unless(ch == LF, STRICT)
  }

  /** A byte of a method must continue some name that begins with the bytes read. */
  function RefusedMethod(p: Parser, ch: char): Option<Errno> {
    var name := MethodString(p.verb);
    Unless(ch != '\0' &&
           ((p.index < |name| && ch == name[p.index]) || (p.index == |name| && ch == ' ') ||
            OtherMethod(p.verb, p.index, ch).Some?), INVALID_METHOD)
  }

  function RefusedUrl(s: UrlState, isConnect: bool, ch: char): Option<Errno> {
    var early := s.ReqSchema? || s.ReqSchemaSlash? || s.ReqSchemaSlashSlash? || s.ReqServerStart?;
    var from := if s.ReqSpacesBeforeUrl? && isConnect then ReqServerStart else s;
    Unless(if ch == ' ' then !early
           else if Break(ch) then !early && !s.ReqSpacesBeforeUrl?
           else !ParseUrlChar(from, ch).UrlDead?, INVALID_URL)
  }

  function RefusedVersion(p: Parser, s: VersionState, ch: char): Option<Errno> {
    match s
    case ReqHttpStart => Unless(ch == 'H' || ch == ' ', INVALID_CONSTANT)
    case ReqHttpH | ReqHttpHT => Unless(ch == 'T', STRICT)
    case ReqHttpHTT => Unless(ch == 'P', STRICT)
    case ReqHttpHTTP => Unless(ch == '/', STRICT)
    case ReqFirstMajor => Unless(IsNum(ch) && ch != '0', INVALID_VERSION)
    case ReqMajor => RefusedNumber(p.major, ".", ch, INVALID_VERSION)
    case ReqFirstMinor => Unless(IsNum(ch), INVALID_VERSION)
    case ReqMinor => RefusedNumber(p.minor, "\r\n", ch, INVALID_VERSION)
    case ReqLineAlmostDone => Unless(ch == LF, LF_EXPECTED)
  }

  /** A length wraps round to a smaller number, or to the number that stands for none. */
  predicate Wraps(n: nat, base: nat, digit: nat) {
    var t := (n * base + digit) % TWO64; t < n || t == MAX64
  }

  function RefusedHeader(p: Parser, s: HeaderPos, ch: char): Option<Errno> {
    match s
    case HeaderFieldStart => Unless(Break(ch) || IsToken(ch), INVALID_HEADER_TOKEN)
    case HeaderField => Unless(Break(ch) || IsToken(ch) || ch == ':', INVALID_HEADER_TOKEN)
    case HeaderValueStart =>
      Unless(p.headerState.HContentLength? ==> IsNum(ch) || Break(ch) || ch == ' ' || ch == '\t', INVALID_CONTENT_LENGTH)
    case HeaderValue =>
      Unless(p.headerState.HContentLength? ==>
               Break(ch) || ch == ' ' || (IsNum(ch) && !Wraps(p.contentLength, 10, Digit(ch))), INVALID_CONTENT_LENGTH)
    case HeaderAlmostDone => Unless(ch == LF, STRICT)
    case HeaderValueLws => Unless(Break(ch) || IsToken(ch) || ch == ' ' || ch == '\t', INVALID_HEADER_TOKEN)
  }

  function RefusedChunk(p: Parser, s: ChunkState, ch: char): Option<Errno> {
    match s
    case ChunkSizeStart => Unless(Unhex(ch) != -1, INVALID_CHUNK_SIZE)
    case ChunkSize =>
      if Unhex(ch) == -1 then Unless(ch == CR || ch == ';' || ch == ' ', INVALID_CHUNK_SIZE)
      else Unless(!Wraps(p.contentLength, 16, Unhex(ch)), INVALID_CONTENT_LENGTH)
    case ChunkParameters => None
    case ChunkDataAlmostDone => Unless(ch == CR, STRICT)
    case ChunkSizeAlmostDone | ChunkDataDone => Unless(ch == LF, STRICT)
  }

  /** The error a byte causes; none if it is accepted. */
  function Refusal(p: Parser, ch: char): Option<Errno> {
    if ParsingHeader(p.state) && p.nread >= MAX_HEADER_SIZE then Some(HEADER_OVERFLOW)
    else
      match p.state
      case InStart(s) => RefusedStart(s, ch)
      case InStatusLine(s) => RefusedStatus(p, s, ch)
      case InMethod => RefusedMethod(p, ch)
      case InUrl(s) => RefusedUrl(s, p.verb.CONNECT?, ch)
      case InVersion(s) => RefusedVersion(p, s, ch)
      case InHeader(s) => RefusedHeader(p, s, ch)
      case InDone(_) => Unless(ch == LF, STRICT)
      case InChunk(s) => RefusedChunk(p, s, ch)
      case InBody(_) => None
  }

  /** An outcome is an error exactly as foretold. */
  predicate Foretold(o: Outcome, e: Option<Errno>) {
    (o.next == Fail <==> e.Some?) && (e.Some? ==> o.parser.errno == e.value)
  }

  lemma StartRefuses(p: Parser, ch: char)
    requires p.state.InStart?
    ensures Foretold(Dispatch(p, ch), RefusedStart(p.state.start, ch))
  {
    hide MethodString;
    if p.state.start.StartReqOrRes? && !Break(ch) && ch != 'H' {
      var q := p.(flags := NO_FLAGS, contentLength := MAX64, kind := Request, state := InStart(StartReq));
      assert Switch(p, ch) == Outcome(q, Nil, Reexecute);
      ReexecutionDescends(p, ch);
      assert Dispatch(q, ch) == Switch(q, ch);
      RequestRefuses(q, ch);
    } else if p.state.start.StartReq? {
      RequestRefuses(p, ch);
    }
  }

  lemma RequestRefuses(p: Parser, ch: char)
    requires p.state == InStart(StartReq)
    ensures Foretold(SwitchStart(p, ch), RefusedStart(StartReq, ch)) && SwitchStart(p, ch).next != Reexecute
  {
  }

  lemma StatusRefuses(p: Parser, ch: char)
    requires p.state.InStatusLine?
    ensures Foretold(SwitchStatusLine(p, ch), RefusedStatus(p, p.state.line, ch))
  {
  }

  lemma MethodRefuses(p: Parser, ch: char)
    requires p.state.InMethod? && p.index <= |MethodString(p.verb)|
    ensures Foretold(SwitchMethod(p, ch), RefusedMethod(p, ch))
  {
    hide MethodString, OtherMethod;
    if p.index < |MethodString(p.verb)| {
      HttpMethod.PlainLetters(p.verb, p.index);
    }
  }

  lemma UrlRefuses(p: Parser, ch: char)
    requires p.state.InUrl? && !p.state.url.UrlDead?
    ensures Foretold(SwitchUrl(p, ch), RefusedUrl(p.state.url, p.verb.CONNECT?, ch))
  {
    hide ParseUrlChar;
    SpaceDead(if p.state.url.ReqSpacesBeforeUrl? && p.verb.CONNECT? then ReqServerStart else p.state.url, ch);
  }

  lemma SpaceDead(s: UrlState, ch: char)
    ensures ch == ' ' || Break(ch) ==> ParseUrlChar(s, ch).UrlDead?
  {
  }

  lemma VersionRefuses(p: Parser, ch: char)
    requires p.state.InVersion?
    ensures Foretold(SwitchVersion(p, ch), RefusedVersion(p, p.state.version, ch))
  {
  }

  lemma DoneRefuses(p: Parser, ch: char)
    requires p.state.InDone? && !p.state.done.MessageDone?
    ensures Foretold(Dispatch(p, ch), Unless(ch == LF, STRICT))
  {
    hide NewMessage;
    if Switch(p, ch).next == Reexecute {
      ReexecutionDescends(p, ch);
      assert Dispatch(Switch(p, ch).parser, ch) == Switch(Switch(p, ch).parser, ch);
    }
  }

  lemma ChunkRefuses(p: Parser, ch: char)
    requires Inv(p, 1) && p.state.InChunk?
    ensures Foretold(SwitchChunk(p, ch), RefusedChunk(p, p.state.chunk, ch))
  {
    hide Unhex;
  }

  lemma FieldRefuses(p: Parser, ch: char)
    requires Inv(p, 1) && p.state == InHeader(HeaderField)
    ensures Foretold(SwitchField(p, ch), RefusedHeader(p, HeaderField, ch))
  {
    hide FieldMatch, TokenCode, FieldState;
    GoodField(p, ch);
  }

  lemma ValueStartRefuses(p: Parser, ch: char)
    requires p.state == InHeader(HeaderValueStart)
    ensures Foretold(SwitchValueStart(p, ch), RefusedHeader(p, HeaderValueStart, ch))
    ensures SwitchValueStart(p, ch).next != Reexecute
  {
    hide Lower;
  }

  lemma ValueByteRefuses(p: Parser, ch: char)
    requires Inv(p, 1) && p.state == InHeader(HeaderValue) && !Break(ch)
    ensures Foretold(ValueByte(p, ch), RefusedHeader(p, HeaderValue, ch)) && ValueByte(p, ch).next != Reexecute
  {
    hide ValueMatch, Lower;
  }

  lemma ValueRefuses(p: Parser, ch: char)
    requires Inv(p, 1) && p.state == InHeader(HeaderValue)
    ensures Foretold(Dispatch(p, ch), RefusedHeader(p, HeaderValue, ch))
  {
    if ch == LF {
      hide ValueMatch, Lower, ValueByte;
      assert Dispatch(Switch(p, ch).parser, ch) == Switch(Switch(p, ch).parser, ch);
    } else if ch != CR {
      ValueByteRefuses(p, ch);
      hide ValueByte;
    }
  }

  lemma FieldStartRefuses(p: Parser, ch: char)
    requires p.state == InHeader(HeaderFieldStart)
    ensures Foretold(Dispatch(p, ch), RefusedHeader(p, HeaderFieldStart, ch))
  {
    hide SwitchDone, FirstFieldState, TokenCode, IsToken;
    if ch == LF {
      assert !IsToken(LF) by { LineFeedNoToken(); }
      ReexecutionDescends(p, ch);
      DoneRefuses(p.(state := InDone(HeadersAlmostDone)), ch);
    }
  }

  lemma LineFeedNoToken()
    ensures !IsToken(LF) && !IsToken(CR)
  {
  }

  lemma LwsRefuses(p: Parser, ch: char)
    requires p.state == InHeader(HeaderValueLws)
    ensures Foretold(Dispatch(p, ch), RefusedHeader(p, HeaderValueLws, ch))
  {
    hide SwitchFieldStart, IsToken;
    if ch != ' ' && ch != '\t' {
      ReexecutionDescends(p, ch);
      FieldStartRefuses(p.(state := InHeader(HeaderFieldStart)), ch);
    }
  }

  lemma HeaderRefuses(p: Parser, ch: char)
    requires Inv(p, 1) && p.state.InHeader?
    ensures Foretold(Dispatch(p, ch), RefusedHeader(p, p.state.header, ch))
  {
    hide RefusedHeader, SwitchField, SwitchValueStart, SwitchValue, SwitchFieldStart, Inv;
    match p.state.header
    case HeaderFieldStart => FieldStartRefuses(p, ch);
    case HeaderField => FieldRefuses(p, ch); FieldOnce(p, ch);
    case HeaderValueStart => ValueStartRefuses(p, ch);
    case HeaderValue => ValueRefuses(p, ch);
    case HeaderAlmostDone => EndRefuses(p, ch);
    case HeaderValueLws => LwsRefuses(p, ch);
  }

  lemma FieldOnce(p: Parser, ch: char)
    ensures SwitchField(p, ch).next != Reexecute
  {
    hide FieldMatch, TokenCode, IsToken;
  }

  lemma EndRefuses(p: Parser, ch: char)
    requires p.state == InHeader(HeaderAlmostDone)
    ensures Foretold(Dispatch(p, ch), RefusedHeader(p, HeaderAlmostDone, ch))
  {
  }

  /** The states a parser can be in between two bytes, apart from what Inv says. */
  predicate Reading(p: Parser) {
    Inv(p, 0) && (p.state.InMethod? ==> p.index <= |MethodString(p.verb)|) && p.state != InUrl(UrlDead)
  }

  /** A byte is refused exactly when the table says so, with the error it names; nothing is then consumed. */
  lemma StepRefuses(p: Parser, ch: char)
    requires Reading(p)
    ensures var r, e := Step(p, ch), Refusal(p, ch);
            (r.exit == Failed <==> e.Some?) && (e.Some? ==> r.parser.errno == e.value && r.consumed == 0 && r.atoms == [])
  {
    hide Dispatch, RefusedStart, RefusedStatus, RefusedMethod, RefusedUrl, RefusedVersion, RefusedHeader, RefusedChunk,
         MethodString;
    var q := Count(p);
    if ParsingHeader(p.state) && p.nread >= MAX_HEADER_SIZE {
      assert q.nread > MAX_HEADER_SIZE;
    } else if !p.state.InBody? {
      DispatchRefuses(p, q, ch);
    }
  }

  lemma DispatchRefuses(p: Parser, q: Parser, ch: char)
    requires Reading(p) && q == Count(p) && !p.state.InBody? && !(ParsingHeader(p.state) && p.nread >= MAX_HEADER_SIZE)
    ensures Foretold(Dispatch(q, ch), Refusal(p, ch)) && Notes(Nil) == []
    ensures Dispatch(q, ch).next == Fail ==> Dispatch(q, ch).ops == Nil
  {
    hide SwitchStart, SwitchStatusLine, SwitchMethod, SwitchUrl, SwitchVersion, SwitchHeader, SwitchDone, SwitchChunk,
         RefusedStart, RefusedStatus, RefusedMethod, RefusedUrl, RefusedVersion, RefusedHeader, RefusedChunk, MethodString;
    GoodDispatch(q, ch);
    match p.state
    case InStart(_) => StartRefuses(q, ch);
    case InStatusLine(_) => StatusRefuses(q, ch); SameNumbers(p, q, ch);
    case InMethod => MethodRefuses(q, ch); SameNumbers(p, q, ch);
    case InUrl(_) => UrlRefuses(q, ch);
    case InVersion(_) => VersionRefuses(q, ch); SameNumbers(p, q, ch);
    case InHeader(_) => HeaderRefuses(q, ch); SameNumbers(p, q, ch);
    case InDone(_) => DoneRefuses(q, ch);
    case InChunk(_) => ChunkRefuses(q, ch); SameNumbers(p, q, ch);
  }

  lemma SameNumbers(p: Parser, q: Parser, ch: char)
    requires q == p.(nread := q.nread)
    ensures p.state.InStatusLine? ==> RefusedStatus(q, q.state.line, ch) == RefusedStatus(p, p.state.line, ch)
    ensures RefusedMethod(q, ch) == RefusedMethod(p, ch)
    ensures p.state.InVersion? ==> RefusedVersion(q, q.state.version, ch) == RefusedVersion(p, p.state.version, ch)
    ensures p.state.InHeader? ==> RefusedHeader(q, q.state.header, ch) == RefusedHeader(p, p.state.header, ch)
    ensures p.state.InChunk? ==> RefusedChunk(q, q.state.chunk, ch) == RefusedChunk(p, p.state.chunk, ch)
  {
    hide MethodString, OtherMethod, IsToken, Unhex, Wraps;
  }

  // ---- Over whole runs ----

  lemma UrlAlive(p: Parser, ch: char)
    requires p.state != InUrl(UrlDead) && Step(p, ch).exit == Running
    ensures Step(p, ch).parser.state != InUrl(UrlDead)
  {
    hide Dispatch;
    if !p.state.InBody? {
      DispatchAlive(Count(p), ch);
    }
  }

  lemma {:induction false} DispatchAlive(p: Parser, ch: char)
    requires !p.state.InBody? && p.state != InUrl(UrlDead)
    ensures Dispatch(p, ch).next == Advance ==> Dispatch(p, ch).parser.state != InUrl(UrlDead)
    decreases Rank(p.state)
  {
    hide Switch;
    SwitchAlive(p, ch);
    if Switch(p, ch).next == Reexecute {
      ReexecutionDescends(p, ch);
      DispatchAlive(Switch(p, ch).parser, ch);
    }
  }

  lemma SwitchAlive(p: Parser, ch: char)
    requires !p.state.InBody? && p.state != InUrl(UrlDead)
    ensures var o := Switch(p, ch); o.next == Advance || o.next == Reexecute ==> o.parser.state != InUrl(UrlDead)
  {
    hide HttpMethod.Stays, SwitchStatusLine, SwitchVersion, SwitchHeader, SwitchDone, SwitchChunk, ParseUrlChar, OtherMethod,
         MethodString, FirstMethod, NewMessage;
    match p.state
    case InStatusLine(_) => OthersAlive(p, ch);
    case InVersion(_) => OthersAlive(p, ch);
    case InHeader(_) => OthersAlive(p, ch);
    case InDone(_) => OthersAlive(p, ch);
    case InChunk(_) => OthersAlive(p, ch);
    case _ =>
  }

  lemma OthersAlive(p: Parser, ch: char)
    requires p.state.InStatusLine? || p.state.InVersion? || p.state.InHeader? || p.state.InDone? || p.state.InChunk?
    ensures var o := Switch(p, ch); o.next == Advance || o.next == Reexecute ==> !o.parser.state.InUrl?
  {
    hide IsToken, TokenCode, Lower, Unhex, FieldMatch, ValueMatch, FirstFieldState, Accumulate, KeepAlive, IsNum, Digit;
  }

  lemma {:induction false} AlwaysReading(t: ParserType, data: string)
    ensures var r := Run(Init(t), data); r.exit == Running ==> Reading(r.parser)
  {
    hide Run, Step, Inv, MethodString, HttpMethod.Token;
    InitGood(t);
    NoAssertFails(Init(t), data);
    HttpMethod.TrieSound(t, data);
    NeverDead(t, data);
  }

  lemma InitGood(t: ParserType)
    ensures Inv(Init(t), 0)
  {
  }

  lemma {:induction false} NeverDead(t: ParserType, data: string)
    ensures var r := Run(Init(t), data); r.exit == Running ==> r.parser.state != InUrl(UrlDead)
  {
    hide Step;
    if data != [] {
      var n := |data| - 1;
      NeverDead(t, data[..n]);
      RunNext(Init(t), data, n);
      assert data[..n + 1] == data;
      if Run(Init(t), data).exit == Running {
        UrlAlive(Run(Init(t), data[..n]).parser, data[n]);
      }
    }
  }

  /** The i-th byte is the first one the table refuses, with this error. */
  predicate RefusedAt(t: ParserType, data: string, i: nat, e: Errno) {
    i < |data| && Run(Init(t), data[..i]).exit == Running && Refusal(Run(Init(t), data[..i]).parser, data[i]) == Some(e)
  }

  /** A stream fails exactly at the first byte the table refuses: the error is the one named there, and the bytes
      consumed are those before it. */
  lemma {:induction false} RunRefuses(t: ParserType, data: string)
    ensures var r := Run(Init(t), data);
            (r.exit == Failed <==> exists i: nat, e :: RefusedAt(t, data, i, e)) &&
            (r.exit == Failed ==> RefusedAt(t, data, r.consumed, r.parser.errno))
  {
    hide Step, Refusal;
    if data == [] {
      RunEmpty(Init(t));
    } else {
      var n := |data| - 1;
      var front, r := Run(Init(t), data[..n]), Run(Init(t), data);
      RunRefuses(t, data[..n]);
      RunNext(Init(t), data, n);
      assert data[..n + 1] == data;
      hide Run;
      FrontRefusals(t, data, n);
      if front.exit == Running {
        AlwaysReading(t, data[..n]);
        StepRefuses(front.parser, data[n]);
        RunAll(t, data[..n]);
        LastRefusal(t, data, n);
        assert r.exit == Failed ==> r.consumed == n && RefusedAt(t, data, n, r.parser.errno);
      } else {
        assert forall e :: !RefusedAt(t, data, n, e);
        assert r == front;
        assert r.exit == Failed ==> RefusedAt(t, data, r.consumed, r.parser.errno);
      }
    }
  }

  lemma LastRefusal(t: ParserType, data: string, n: nat)
    requires |data| == n + 1 && Run(Init(t), data[..n]).exit == Running
    ensures forall e :: RefusedAt(t, data, n, e) <==> Refusal(Run(Init(t), data[..n]).parser, data[n]) == Some(e)
  {
    hide Run, Refusal;
  }

  /** A refusal in a front of the stream is one of the stream. */
  lemma FrontRefusals(t: ParserType, data: string, n: nat)
    requires |data| == n + 1
    ensures forall i: nat, e :: RefusedAt(t, data, i, e) <==>
              RefusedAt(t, data[..n], i, e) || (i == n && RefusedAt(t, data, n, e))
  {
    hide Run, Refusal;
    forall i: nat, e
      ensures RefusedAt(t, data, i, e) <==> RefusedAt(t, data[..n], i, e) || (i == n && RefusedAt(t, data, n, e))
    {
      if i < n {
        assert data[..n][..i] == data[..i];
      }
    }
  }

  lemma {:induction false} RunAll(t: ParserType, data: string)
    ensures Run(Init(t), data).exit == Running ==> Run(Init(t), data).consumed == |data|
  {
    hide Run, Inv;
    InitGood(t);
    NoAssertFails(Init(t), data);
  }
}
