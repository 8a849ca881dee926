/** Whole response heads, from their first byte: status line, headers, empty line (base/http_parser.cpp:694-870 and
    1191-1660), and the inputs on which the parser and RFC 2616 part. */
module HttpResponse {
  import opened Wrappers
  import opened HttpTypes
  import opened HttpSwitch
  import opened HttpSpec
  import opened HttpLength
  import opened HttpHeaders
  import opened Rfc2616
  import opened HttpFraming
  import opened HttpLines
  import HttpFields

  // ---- The status line ----

  /** A status line (section 6.1 of RFC 2616). Further spaces before the status are passed over, and the reason may be
      missing together with its space. */
  datatype Answer =
    Answer(major: string, minor: string, gap: nat, status: string, reason: Option<string>, eol: Eol)

  function ReasonText(r: Option<string>): string { match r case Some(s) => [' '] + s case None => [] }

  /** What stands behind the version. */
  function StatusText(a: Answer): string { [' '] + Blanks(a.gap) + a.status + (ReasonText(a.reason) + End(a.eol)) }

  function Line(a: Answer): string { ['H'] + VersionBytes(1, a.major, a.minor) + StatusText(a) }

  /** Each number is at most 999. */
  predicate LegalAnswer(a: Answer) {
    Numeral(a.major) && Fits(ResponseMajor, a.major) && Numeral(a.minor) && Fits(ResponseMinor, a.minor) &&
    Numeral(a.status) && Fits(StatusCode, a.status) && (a.reason.Some? ==> Plain(a.reason.value))
  }

  /** The record at the start of the headers, behind a status line of n bytes. */
  function AfterAnswer(p: Parser, n: nat, major: nat, minor: nat, status: nat): Parser {
    p.(flags := NO_FLAGS, contentLength := MAX64, nread := p.nread + n, state := InHeader(HeaderFieldStart),
       major := major, minor := minor, status := status)
  }

  /** The end of a status line is notified only if it is a CRLF. */
  function AnswerAtoms(a: Answer): seq<Atom> { [Event(MessageBegin)] + EndAtoms(a.eol) }

  function EndAtoms(e: Eol): seq<Atom> { if e.CrLf? then [Event(StatusComplete)] else [] }

  lemma StatusBegins(p: Parser)
    requires p.state == InStart(StartRes) && p.nread < MAX_HEADER_SIZE
    ensures Leads(p, ['H'], On(p, InStatusLine(ResH)).(flags := NO_FLAGS, contentLength := MAX64), [Event(MessageBegin)])
  {
    hide Run;
    RunByte(p, 'H');
  }

  /** Any text without CR and LF is a reason phrase. */
  lemma {:induction false} ReasonRun(p: Parser, s: string)
    requires p.state == InStatusLine(ResStatus) && Plain(s) && p.nread + |s| <= MAX_HEADER_SIZE
    ensures Leads(p, s, p.(nread := p.nread + |s|), [])
  {
    hide Leads, Run, Step;
    if s == [] {
      NoText(p);
    } else {
      var n := |s| - 1;
      ReasonRun(p, s[..n]);
      var q := p.(nread := p.nread + n);
      Quiet(q, s[n], On(q, p.state));
      ChainQuiet(p, s[..n], q, [s[n]], On(q, p.state));
      assert s == s[..n] + [s[n]];
    }
  }

  lemma CodeEnds(p: Parser)
    requires p.state == InStatusLine(ResStatusCode) || p.state == InStatusLine(ResStatus)
    ensures var q := p.(nread := p.nread + 1);
            Switch(q, CR) == Outcome(On(p, InStatusLine(ResLineAlmostDone)), Nil, Advance) &&
            Switch(q, LF) == Outcome(On(p, InHeader(HeaderFieldStart)), Nil, Advance)
  {
  }

  lemma AlmostDone(p: Parser)
    requires p.state == InStatusLine(ResLineAlmostDone) && p.nread < MAX_HEADER_SIZE
    ensures Leads(p, [LF], On(p, InHeader(HeaderFieldStart)), [Event(StatusComplete)])
  {
    hide Leads;
    LineStep(p, LF);
    assert Notes(Just(Notify(StatusComplete))) == [Event(StatusComplete)];
    assert [] + [Event(StatusComplete)] == [Event(StatusComplete)];
  }

  lemma StatusEnd(p: Parser, e: Eol)
    requires p.state == InStatusLine(ResStatusCode) || p.state == InStatusLine(ResStatus)
    requires p.nread + |End(e)| <= MAX_HEADER_SIZE
    ensures Leads(p, End(e), p.(nread := p.nread + |End(e)|, state := InHeader(HeaderFieldStart)), EndAtoms(e))
  {
    hide Leads, Step, Run, Switch;
    CodeEnds(p);
    if e.CrLf? {
      var q := On(p, InStatusLine(ResLineAlmostDone));
      Quiet(p, CR, q);
      AlmostDone(q);
      assert [] + [Event(StatusComplete)] == [Event(StatusComplete)];
      Chain(p, [CR], q, [], [LF], On(q, InHeader(HeaderFieldStart)), [Event(StatusComplete)]);
      assert [CR] + [LF] == End(e);
    } else {
      Quiet(p, LF, On(p, InHeader(HeaderFieldStart)));
    }
  }

  lemma ReasonEnd(p: Parser, reason: Option<string>, e: Eol)
    requires p.state == InStatusLine(ResStatusCode) && (reason.Some? ==> Plain(reason.value))
    requires p.nread + |ReasonText(reason) + End(e)| <= MAX_HEADER_SIZE
    ensures var text := ReasonText(reason) + End(e);
            Leads(p, text, p.(nread := p.nread + |text|, state := InHeader(HeaderFieldStart)), EndAtoms(e))
  {
    hide Leads, Run, Step, End, EndAtoms;
    match reason
    case None =>
      StatusEnd(p, e);
      assert ReasonText(reason) + End(e) == End(e);
    case Some(s) =>
      var q := On(p, InStatusLine(ResStatus));
      Quiet(p, ' ', q);
      ReasonRun(q, s);
      var r := q.(nread := q.nread + |s|);
      StatusEnd(r, e);
      ChainQuiet(p, [' '], q, s, r);
      Chain(p, [' '] + s, r, [], End(e), r.(nread := r.nread + |End(e)|, state := InHeader(HeaderFieldStart)), EndAtoms(e));
      assert [] + EndAtoms(e) == EndAtoms(e);
  }

  lemma StatusRun(p: Parser, a: Answer)
    requires p.state == InStatusLine(ResMinor) && LegalAnswer(a) && p.nread + |StatusText(a)| <= MAX_HEADER_SIZE
    ensures var text := StatusText(a);
            Leads(p, text,
                  p.(nread := p.nread + |text|, state := InHeader(HeaderFieldStart), status := Number(10, a.status)),
                  EndAtoms(a.eol))
  {
    hide Leads, Run, Step, Number, End, EndAtoms, ReasonText, Plain;
    var q := On(p, InStatusLine(ResFirstStatus));
    Quiet(p, ' ', q);
    BlanksRun(q, a.gap);
    var r := q.(nread := q.nread + a.gap);
    CountRun(StatusCode, r, a.status);
    var s := Counted(StatusCode, r, |a.status|, Number(10, a.status));
    ReasonEnd(s, a.reason, a.eol);
    var y := ReasonText(a.reason) + End(a.eol);
    ChainQuiet(p, [' '], q, Blanks(a.gap), r);
    ChainQuiet(p, [' '] + Blanks(a.gap), r, a.status, s);
    Chain(p, [' '] + Blanks(a.gap) + a.status, s, [], y,
          s.(nread := s.nread + |y|, state := InHeader(HeaderFieldStart)), EndAtoms(a.eol));
    assert [] + EndAtoms(a.eol) == EndAtoms(a.eol);
  }

  /** Every status line with numbers of at most 999: version and status are the numbers the digits denote. */
  lemma StatusLineRun(p: Parser, a: Answer)
    requires p.state == InStart(StartRes) && LegalAnswer(a) && p.nread + |Line(a)| <= MAX_HEADER_SIZE
    ensures Leads(p, Line(a), AfterAnswer(p, |Line(a)|, Number(10, a.major), Number(10, a.minor), Number(10, a.status)),
                  AnswerAtoms(a))
  {
    hide Leads, Run, Step, Number, VersionBytes, StatusText, EndAtoms, Plain;
    var v, t := VersionBytes(1, a.major, a.minor), StatusText(a);
    StatusBegins(p);
    var q := On(p, InStatusLine(ResH)).(flags := NO_FLAGS, contentLength := MAX64);
    VersionRun(q, false, a.major, a.minor);
    var r := q.(nread := q.nread + |v|, state := InStatusLine(ResMinor), major := Number(10, a.major),
                minor := Number(10, a.minor));
    StatusRun(r, a);
    var s := r.(nread := r.nread + |t|, state := InHeader(HeaderFieldStart), status := Number(10, a.status));
    Chain(p, ['H'], q, [Event(MessageBegin)], v, r, []);
    assert [Event(MessageBegin)] + [] == [Event(MessageBegin)];
    Chain(p, ['H'] + v, r, [Event(MessageBegin)], t, s, EndAtoms(a.eol));
  }

  // ---- The whole head ----

  /** Every response head, from its first byte: its trace and what follows it. What follows is what RFC 2616 says if and
      only if the text conforms and it has no Upgrade header. */
  lemma ResponseHead(p: Parser, a: Answer, headers: seq<Header>, last: Eol)
    requires p.state == InStart(StartRes) && p.kind.Response? && !p.verb.CONNECT? && LegalAnswer(a) && AllWellFormed(headers)
    requires p.nread + |Line(a)| + |Block(headers)| + 2 <= MAX_HEADER_SIZE
    ensures var m := Message(false, Number(10, a.status), headers);
            var q := WithHeaders(AfterAnswer(p, |Line(a)|, Number(10, a.major), Number(10, a.minor), m.status), headers);
            var r := Run(p, HeadBytes(Line(a), headers, last));
            var next := InStart(if KeptOpen(Number(10, a.major), Number(10, a.minor), headers) then StartRes else Dead);
            (Framed(q, r, FramingOf(m)) <==> Conforms(m) && !SaysUpgrade(headers)) &&
            (if SaysUpgrade(headers)
             then r.exit == Upgraded && r.parser.state == if TakenFrom(m) == ToEof then InStart(Dead) else next
             else Framed(q, r, TakenFrom(m))) &&
            NextStart(q) == next &&
            r.atoms == AnswerAtoms(a) + HttpFields.BlockAtoms(headers) +
              DoneAtoms(if SaysUpgrade(headers) then NoBody else TakenFrom(m))
  {
    hide Run, Step, Framed, AllWellFormed, Block, BlockMeans, BlockAnnounces, TakenFrom, Conforms, FramingOf,
         SaysUpgrade, SaysChunked, Line, LegalAnswer, Asks, AnswerAtoms, HttpFields.BlockAtoms, DoneAtoms, Number, NextStart;
    AnswerNumbers(a);
    StatusLineRun(p, a);
    var q := AfterAnswer(p, |Line(a)|, Number(10, a.major), Number(10, a.minor), Number(10, a.status));
    HeadFraming(q, headers, last);
    NextFrom(q, headers);
    HeadAfter(p, Line(a), q, AnswerAtoms(a), headers, last);
  }

  lemma AnswerNumbers(a: Answer)
    requires LegalAnswer(a)
    ensures Digits(10, a.major) && Digits(10, a.minor) && Digits(10, a.status)
  {
  }

  // ---- The heads an ordinary sender writes ----

  /** A list without a comma has one element. */
  lemma OneElement(s: string)
    requires ',' !in s
    ensures Elements(s) == [Trim(s)]
  {
    assert Find(s, ',') < |s| ==> s[Find(s, ',')] in s;
  }

  lemma TrimPlain(s: string)
    requires s != [] ==> s[0] != ' ' && s[0] != '\t' && s[|s| - 1] != ' ' && s[|s| - 1] != '\t'
    ensures Trim(s) == s
  {
  }

  lemma {:induction false} TrimSpaces(w: string, spaces: string)
    requires w != [] && w[0] != ' ' && w[0] != '\t' && w[|w| - 1] != ' ' && w[|w| - 1] != '\t' && Spaces(spaces)
    ensures TrimRight(w + spaces) == w
  {
    if spaces == [] {
      assert w + spaces == w;
    } else {
      var n := |spaces| - 1;
      TrimSpaces(w, spaces[..n]);
      assert (w + spaces)[..|w + spaces| - 1] == w + spaces[..n];
    }
  }

  /** Chunked is the only transfer coding, named on one line; a length is given at most once, in digits on one line. */
  ghost predicate Ordinary(headers: seq<Header>) {
    |LengthValues(headers)| <= 1 &&
    forall i :: 0 <= i < |headers| ==> OrdinaryField(headers[i])
  }

  predicate OrdinaryField(h: Header) {
    (Names(h, "transfer-encoding") ==> h.more == [] && Says(Folded(h.first.text), ChunkedWord)) &&
    (Names(h, "content-length") ==> h.more == [] && h.first.text != [] && Digits(10, h.first.text))
  }

  lemma SaidElement(v: string)
    requires Says(v, ChunkedWord)
    ensures Elements(v) == ["chunked"]
  {
    var spaces := v[7..];
    assert v == "chunked" + spaces;
    forall i | 0 <= i < |v|
      ensures v[i] != ','
    {
      assert i >= 7 ==> v[i] == spaces[i - 7];
    }
    OneElement(v);
    assert v[0] == 'c';
    TrimSpaces("chunked", spaces);
  }

  lemma {:induction false} OrdinaryCodings(headers: seq<Header>)
    requires forall i :: 0 <= i < |headers| ==> OrdinaryField(headers[i])
    ensures forall i :: 0 <= i < |Codings(headers)| ==> Codings(headers)[i] == "chunked"
    ensures HasCoding(headers) <==> Codings(headers) != []
  {
    hide Says, Elements, Folded;
    CodedHas(headers);
    if headers != [] {
      var h, rest := headers[0], headers[1..];
      assert OrdinaryField(h);
      forall i | 0 <= i < |rest|
        ensures OrdinaryField(rest[i])
      {
        assert rest[i] == headers[i + 1];
      }
      OrdinaryCodings(rest);
      if Names(h, "transfer-encoding") {
        SaidElement(Folded(h.first.text));
      } else if HasCoding(headers) {
        var i :| 0 <= i < |headers| && Names(headers[i], "transfer-encoding");
        assert rest[i - 1] == headers[i];
      }
    }
  }

  lemma {:induction false} SqueezedPlain(s: string)
    requires Digits(10, s)
    ensures Squeezed(s) == s && Folded(s) == s
  {
    if s != [] {
      var n := |s| - 1;
      SqueezedPlain(s[..n]);
      assert 0 <= HexValue(s[n]) < 10;
      assert s == s[..n] + [s[n]];
      FoldNext(s[..n], s[n]);
    }
  }

  /** A Content-Length on one line: what is sent is what is taken. */
  lemma PlainLength(h: Header, length: nat)
    requires WellFormed(h) && Names(h, "content-length") && OrdinaryField(h)
    ensures Announces(length, h) == Number(10, h.first.text) < MAX64 && Trim(FieldValue(h)) == h.first.text
  {
    hide Folded, Tokens;
    var text := h.first.text;
    AnnouncesFirst(length, h);
    SqueezedPlain(text);
    assert 0 <= HexValue(text[0]) < 10 && 0 <= HexValue(text[|text| - 1]) < 10;
    TrimPlain(text);
    SqueezedDigits(text);
  }

  lemma {:induction false} OrdinaryLength(headers: seq<Header>)
    requires AllWellFormed(headers) && Ordinary(headers)
    ensures SentLength(headers) ==
            if LengthTaken(headers) == MAX64 then Absent else Decimal(LengthTaken(headers))
  {
    if LengthValues(headers) == [] {
      NoLength(headers);
    } else {
      var n := |headers| - 1;
      var front, last := headers[..n], headers[n];
      assert headers == front + [last];
      LengthsSplit(front, last);
      assert OrdinaryField(last) && WellFormed(last);
      hide WellFormed, OrdinaryField, Announces, Names, Trim, FieldValue, Number, Digits;
      if Names(last, "content-length") {
        NoLength(front);
        PlainLength(last, MAX64);
        DigitsOf(last);
      } else {
        assert forall i :: 0 <= i < n ==> front[i] == headers[i];
        OrdinaryLength(front);
        NotLength(last);
        AnnouncesNothing(LengthTaken(front), last);
      }
    }
  }

  lemma NotLength(h: Header)
    requires !Names(h, "content-length")
    ensures !IsLength(h)
  {
  }

  lemma DigitsOf(h: Header)
    requires Names(h, "content-length") && OrdinaryField(h)
    ensures h.FieldLine? && h.first.text != [] && Digits(10, h.first.text)
  {
  }

  /** The head of an ordinary message is framed as the RFC says unless a 1xx, 204 or 304 response announces a body, or
      a response leaves its length to a body of byte ranges. */
  lemma OrdinaryConforms(m: Message)
    requires AllWellFormed(m.headers) && Ordinary(m.headers)
    ensures Conforms(m) <==>
              if Bodiless(m) then !HasCoding(m.headers) && (SentLength(m.headers).Decimal? ==> SentLength(m.headers).n == 0)
              else m.isRequest || HasCoding(m.headers) || SentLength(m.headers).Decimal? || !Byteranges(m.headers)
  {
    OrdinaryCodings(m.headers);
    OrdinaryLength(m.headers);
    OrdinarySays(m.headers);
    hide AllWellFormed, LengthTaken, SentLength, Byteranges, Ordinary, SaysChunked, HasCoding;
    var cs := Codings(m.headers);
    if cs != [] {
      assert cs[0] == "chunked" && "chunked" in cs;
    }
  }

  lemma OrdinarySays(headers: seq<Header>)
    requires Ordinary(headers)
    ensures SaysChunked(headers) <==> HasCoding(headers)
  {
    hide Says, Folded;
    if HasCoding(headers) {
      var i :| 0 <= i < |headers| && Names(headers[i], "transfer-encoding");
      assert OrdinaryField(headers[i]);
    }
  }

  // ---- Heads on which the parser and the RFC part ----

  const FIVE := FieldLine("Content-Length", ValueLine(" ", "5", CrLf), [])
  const GZIP := FieldLine("Transfer-Encoding", ValueLine(" ", "gzip, chunked", CrLf), [])
  const BROKEN := FieldLine("Transfer-Encoding", ValueLine("", "", CrLf), [ValueLine(" ", "chunked", CrLf)])

  lemma LengthName()
    ensures Tokens("Content-Length") && Folded("Content-Length") == "content-length"
  {
  }

  lemma CodingName()
    ensures Tokens("Transfer-Encoding") && Folded("Transfer-Encoding") == "transfer-encoding"
  {
  }

  lemma FiveLength()
    ensures Lengths([ValueLine(" ", "5", CrLf)]) && LastLength(MAX64, [ValueLine(" ", "5", CrLf)]) == 5
  {
    var lines := [ValueLine(" ", "5", CrLf)];
    assert lines[1..] == [];
    LengthOfDigit("5");
  }

  lemma FiveFacts()
    ensures WellFormed(FIVE) && Announces(MAX64, FIVE) == 5 && Names(FIVE, "content-length")
    ensures !Names(FIVE, "transfer-encoding") && !Names(FIVE, "upgrade")
  {
    hide Tokens, Folded, Lengths, LastLength;
    LengthName();
    FiveLength();
    assert [FIVE.first] + FIVE.more == [ValueLine(" ", "5", CrLf)];
  }

  lemma GzipFacts()
    ensures WellFormed(GZIP) && Names(GZIP, "transfer-encoding") && !IsLength(GZIP) && !Names(GZIP, "upgrade")
    ensures !Says(Folded(GZIP.first.text), ChunkedWord)
  {
    hide Tokens;
    CodingName();
    var v := Folded("gzip, chunked");
    assert v[0] == 'g';
    assert v[..7][0] == 'g';
  }

  lemma BrokenFacts()
    ensures WellFormed(BROKEN) && Names(BROKEN, "transfer-encoding") && !IsLength(BROKEN) && !Names(BROKEN, "upgrade")
    ensures !Says(Folded(BROKEN.first.text), ChunkedWord)
  {
    hide Tokens;
    CodingName();
  }

  lemma {:induction false} FindIs(x: string, y: string)
    requires ',' !in x
    ensures Find(x + [','] + y, ',') == |x|
  {
    if x == [] {
      assert (x + [','] + y)[0] == ',';
    } else {
      assert x[0] in x;
      assert forall ch :: ch in x[1..] ==> ch in x;
      FindIs(x[1..], y);
      assert (x + [','] + y)[1..] == x[1..] + [','] + y;
    }
  }

  lemma TwoElements(x: string, y: string)
    requires ',' !in x && ',' !in y
    ensures Elements(x + [','] + y) == [Trim(x), Trim(y)]
  {
    hide Trim, Find;
    var s := x + [','] + y;
    FindIs(x, y);
    assert s[..|x|] == x && s[|x| + 1..] == y;
    OneElement(y);
  }

  lemma GzipValue()
    ensures Elements(FieldValue(GZIP)) == ["gzip", "chunked"]
  {
    hide Elements, Trim;
    assert Unfolded("gzip, chunked", []) == "gzip, chunked";
    assert Folded("gzip, chunked") == "gzip" + [','] + " chunked";
    TwoElements("gzip", " chunked");
    TrimPlain("gzip");
    TrimOne();
  }

  lemma TrimOne()
    ensures Trim(" chunked") == "chunked"
  {
    assert " chunked"[1..] == "chunked";
    TrimPlain("chunked");
  }

  lemma BrokenValue()
    ensures Elements(FieldValue(BROKEN)) == ["chunked"]
  {
    hide Elements, Trim;
    var more := [ValueLine(" ", "chunked", CrLf)];
    assert more[1..] == [];
    assert Unfolded([] + [' '] + "chunked", []) == " chunked";
    assert Unfolded([], more) == " chunked";
    assert Folded(" chunked") == " chunked";
    OneElement(" chunked");
    TrimOne();
  }

  lemma OneHeader(h: Header)
    requires WellFormed(h)
    ensures AllWellFormed([h]) && LengthTaken([h]) == Announces(MAX64, h) && Block([h]) == Bytes(h)
    ensures Codings([h]) == if Names(h, "transfer-encoding") then Elements(FieldValue(h)) else []
  {
    hide Announces, WellFormed, Bytes, Elements, FieldValue, Names;
    assert [h][..0] == [] && [h][1..] == [];
    assert BlockAnnounces(MAX64, []) == MAX64;
  }

  lemma TwoHeaders(h: Header, g: Header)
    requires WellFormed(h) && WellFormed(g)
    ensures AllWellFormed([h, g]) && LengthTaken([h, g]) == Announces(Announces(MAX64, h), g)
    ensures Block([h, g]) == Bytes(h) + Bytes(g)
    ensures Codings([h, g]) == (if Names(h, "transfer-encoding") then Elements(FieldValue(h)) else []) + Codings([g])
  {
    hide Announces, WellFormed, Bytes, Elements, FieldValue, Names;
    OneHeader(h);
    assert [h, g][..1] == [h] && [h, g][1..] == [g];
  }

  /** Rule 1 broken: a 204 response that announces five bytes. The parser waits for them. */
  lemma NoContentWithBody()
    ensures AllWellFormed([FIVE]) && FramingOf(Message(false, 204, [FIVE])) == NoBody
    ensures TakenFrom(Message(false, 204, [FIVE])) == ByLength(5) && !SaysUpgrade([FIVE])
  {
    hide Folded, Says, Announces, WellFormed, Names, LengthTaken;
    FiveFacts();
    OneHeader(FIVE);
  }

  /** Rule 3 broken: two codings, the last of them chunked, and a Content-Length to be ignored. The parser does not
      recognise the coding and takes the length. */
  lemma GzipChunked()
    ensures AllWellFormed([GZIP, FIVE]) && FramingOf(Message(false, 200, [GZIP, FIVE])) == ByChunks
    ensures TakenFrom(Message(false, 200, [GZIP, FIVE])) == ByLength(5) && !SaysUpgrade([GZIP, FIVE])
  {
    hide Folded, Says, Announces, WellFormed, Names, LengthTaken, Codings, Elements, FieldValue, IsLength;
    FiveFacts();
    GzipFacts();
    GzipValue();
    TwoHeaders(GZIP, FIVE);
    OneHeader(FIVE);
    AnnouncesNothing(MAX64, GZIP);
    var cs := Codings([GZIP, FIVE]);
    assert cs == ["gzip", "chunked"] + [];
    assert cs[0] == "gzip" && cs[1] == "chunked";
  }

  /** Rule 2 broken: the one coding, chunked, stands on a continuation line. The parser reads to the end of the
      stream. */
  lemma FoldedChunked()
    ensures AllWellFormed([BROKEN]) && FramingOf(Message(false, 200, [BROKEN])) == ByChunks
    ensures TakenFrom(Message(false, 200, [BROKEN])) == ToEof && !SaysUpgrade([BROKEN])
  {
    hide Folded, Says, Announces, WellFormed, Names, LengthTaken, Codings, Elements, FieldValue, IsLength;
    BrokenFacts();
    BrokenValue();
    OneHeader(BROKEN);
    AnnouncesNothing(MAX64, BROKEN);
    var cs := Codings([BROKEN]);
    assert cs[0] == "chunked";
  }

  lemma FiveBytes()
    ensures Bytes(FIVE) == "Content-Length: 5\r\n"
  {
    assert Pieces([]) == [];
  }

  lemma GzipBytes()
    ensures Bytes(GZIP) == "Transfer-Encoding: gzip, chunked\r\n"
  {
    assert Pieces([]) == [];
  }

  const NO_CONTENT := Answer("1", "1", 0, "204", Some("No Content"), CrLf)
  const OKAY := Answer("1", "1", 0, "200", Some("OK"), CrLf)

  lemma ThreeDigits(s: string)
    requires |s| == 3 && Digits(10, s)
    ensures Number(10, s) == HexValue(s[0]) * 100 + HexValue(s[1]) * 10 + HexValue(s[2])
  {
    var t := s[..2];
    var u := t[..1];
    OneDigit(u);
    assert Number(10, t) == Number(10, u) * 10 + HexValue(t[1]);
  }

  lemma OneDigit(s: string)
    requires |s| == 1 && Digits(10, s)
    ensures Number(10, s) == HexValue(s[0])
  {
    assert s[..0] == [];
  }

  lemma LegalNoContent()
    ensures LegalAnswer(NO_CONTENT) && Number(10, NO_CONTENT.status) == 204 && |Line(NO_CONTENT)| == 25
  {
    ThreeDigits("204");
    OneDigit("1");
  }

  lemma LegalOkay()
    ensures LegalAnswer(OKAY) && Number(10, OKAY.status) == 200 && |Line(OKAY)| == 17
  {
    ThreeDigits("200");
    OneDigit("1");
  }

  /** The 204 response run through the parser. */
  lemma NoContentRun()
    ensures var r := Run(Init(Response), HeadBytes(Line(NO_CONTENT), [FIVE], CrLf));
            r.exit == Running && r.parser.state == InBody(BodyIdentity) && r.parser.contentLength == 5
  {
    NoContentWithBody();
    LegalNoContent();
    FiveFacts();
    OneHeader(FIVE);
    FiveBytes();
    hide Run, AllWellFormed, TakenFrom, FramingOf, SaysUpgrade, Block, Conforms, Bytes, HeadBytes, LegalAnswer, Line, Number;
    ResponseHead(Init(Response), NO_CONTENT, [FIVE], CrLf);
  }

  lemma GzipShort()
    ensures |Block([GZIP, FIVE])| == 53
  {
    FiveFacts();
    GzipFacts();
    TwoHeaders(GZIP, FIVE);
    hide Block, Bytes;
    FiveBytes();
    GzipBytes();
  }

  /** The response with two codings and a length run through the parser. */
  lemma GzipRun()
    ensures var r := Run(Init(Response), HeadBytes(Line(OKAY), [GZIP, FIVE], CrLf));
            r.exit == Running && r.parser.state == InBody(BodyIdentity) && r.parser.contentLength == 5
  {
    hide Run, AllWellFormed, TakenFrom, FramingOf, SaysUpgrade, Block, Conforms, HeadBytes, LegalAnswer, Line, Number;
    GzipChunked();
    LegalOkay();
    GzipShort();
    ResponseHead(Init(Response), OKAY, [GZIP, FIVE], CrLf);
  }
}
