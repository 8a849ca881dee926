/** How the parser finds the end of a message (base/http_parser.cpp:1570-1660, 1867-1908), against RFC 2616. */
module HttpFraming {
  import opened HttpTypes
  import opened HttpSwitch
  import opened HttpSpec
  import opened HttpLength
  import opened HttpHeaders
  import HttpFields
  import opened Rfc2616

  // ---- What the parser does after the headers ----

  /** The framing the parser takes from its record. */
  function TakenBy(p: Parser): Framing {
    if p.flags.chunked then ByChunks
    else if p.contentLength == 0 then NoBody
    else if p.contentLength != MAX64 then ByLength(p.contentLength)
    else if p.kind.Request? || p.status / 100 == 1 || p.status == 204 || p.status == 304 then NoBody
    else ToEof
  }

  /** HTTP/1.1 connections persist unless closed, older ones close unless kept alive. */
  predicate Persists(p: Parser) { if p.major > 0 && p.minor > 0 then !p.flags.close else p.flags.keepAlive }

  function NextStart(p: Parser): State {
    InStart(if !Persists(p) then Dead else if p.kind.Request? then StartReq else StartRes)
  }

  /** Behind the headers the record says what it said before; the next bytes are counted from 0. */
  predicate Kept(p: Parser, q: Parser) {
    q == p.(nread := 0, upgrade := false, state := q.state, index := q.index, headerState := q.headerState)
  }

  /** The headers of p ended in r, and the message goes on as a framing says. */
  predicate Framed(p: Parser, r: Result, f: Framing) {
    r.exit == Running && Kept(p, r.parser) &&
    match f
    case ByChunks => r.parser.state == InChunk(ChunkSizeStart)
    case ByLength(n) => r.parser.state == InBody(BodyIdentity) && r.parser.contentLength == n
    case NoBody => r.parser.state == NextStart(p)
    case ToEof => r.parser.state == InBody(BodyIdentityEof)
    case BySelf | Undefined => false
  }

  /** The parser hands the connection over to another protocol. */
  predicate Switches(p: Parser) { p.flags.upgrade || p.verb.CONNECT? }

  lemma DoneTaken(p: Parser)
    requires p.state == InDone(HeadersDone) && !p.upgrade && !p.flags.skipBody
    ensures var o := SwitchDone(p, LF);
            o.next == Advance && o.parser == p.(nread := 0, state := o.parser.state) &&
            match TakenBy(p)
            case ByChunks => o.parser.state == InChunk(ChunkSizeStart) && o.ops == Nil
            case ByLength(n) => o.parser.state == InBody(BodyIdentity) && o.ops == Nil
            case NoBody => o.parser.state == NextStart(p) && o.ops == Just(Notify(MessageComplete))
            case _ => o.parser.state == InBody(BodyIdentityEof) && o.ops == Nil
  {
  }

  /** The final line feed: two re-executed cases. */
  lemma FinalFeed(p: Parser)
    requires p.state == InDone(HeadersAlmostDone) && p.nread < MAX_HEADER_SIZE && !p.flags.trailing
    ensures var q := p.(nread := p.nread + 1, state := InDone(HeadersDone), upgrade := Switches(p));
            var o := SwitchDone(q, LF);
            o.next == Advance || o.next == Leave ==>
              Step(p, LF) == Result(o.parser, [Event(HeadersComplete)] + Notes(o.ops), ExitOf(o.next), 1)
  {
    var q := p.(nread := p.nread + 1);
    var h := q.(state := InDone(HeadersDone), upgrade := Switches(p));
    assert Switch(q, LF) == Outcome(h, Just(Notify(HeadersComplete)), Reexecute);
    var r := Switch(h, LF);
    assert Dispatch(h, LF) == r;
    assert Dispatch(q, LF) == Outcome(r.parser, Append(Just(Notify(HeadersComplete)), r.ops), r.next);
    assert Append(Just(Notify(HeadersComplete)), r.ops) == Cons(Notify(HeadersComplete), r.ops);
    assert r.next == Advance || r.next == Leave ==> TextAtoms(r.parser.state, LF) == [];
  }

  /** A response whose body the end of the stream would end closes the connection even if it switches protocols. */
  function SwitchedStart(p: Parser): State { if TakenBy(p) == ToEof then InStart(Dead) else NextStart(p) }

  /** A protocol switch ends the message with its headers, whatever body they announce. */
  lemma UpgradeExit(p: Parser)
    requires p.state == InDone(HeadersAlmostDone) && p.nread < MAX_HEADER_SIZE && !p.flags.trailing && !p.flags.skipBody &&
             Switches(p)
    ensures var r := Step(p, LF);
            r.exit == Upgraded && r.parser.upgrade && r.parser.state == SwitchedStart(p) &&
            r.atoms == [Event(HeadersComplete), Event(MessageComplete)]
  {
    hide Step, KeepAlive, SwitchedStart;
    FinalFeed(p);
    SwitchedNext(p, p.(nread := 0, state := InDone(HeadersDone), upgrade := true));
  }

  lemma SwitchedNext(p: Parser, q: Parser)
    requires q == p.(nread := q.nread, state := q.state, upgrade := q.upgrade) && !p.flags.skipBody
    ensures NewMessage(q) == SwitchedStart(p)
  {
  }

  /** The notifications of the empty line. */
  function DoneAtoms(f: Framing): seq<Atom> {
    if f.NoBody? then [Event(HeadersComplete), Event(MessageComplete)] else [Event(HeadersComplete)]
  }

  lemma SameStart(p: Parser, q: Parser)
    requires q == p.(nread := q.nread, state := q.state, upgrade := q.upgrade, index := q.index,
                     headerState := q.headerState)
    ensures NextStart(q) == NextStart(p) && TakenBy(q) == TakenBy(p)
  {
  }

  lemma FeedTaken(p: Parser)
    requires p.state == InDone(HeadersAlmostDone) && p.nread < MAX_HEADER_SIZE
    requires !p.flags.trailing && !p.flags.skipBody && !Switches(p)
    ensures Framed(p, Step(p, LF), TakenBy(p)) && Step(p, LF).atoms == DoneAtoms(TakenBy(p))
  {
    hide Step, NextStart, SwitchDone;
    var h := p.(nread := p.nread + 1, state := InDone(HeadersDone), upgrade := false);
    FinalFeed(p);
    DoneTaken(h);
    SameStart(p, h);
  }

  lemma EmptyReturn(p: Parser)
    requires LineStart(p.state) && p.nread < MAX_HEADER_SIZE
    ensures Step(p, CR) == Result(p.(nread := p.nread + 1, state := InDone(HeadersAlmostDone)), [], Running, 1)
  {
    if p.state == InHeader(HeaderValueLws) {
      LineStarts(p, CR);
    }
  }

  /** A bare LF ends the headers at once. */
  lemma EmptyFeed(p: Parser)
    requires LineStart(p.state) && p.nread < MAX_HEADER_SIZE
    ensures Step(p, LF) == Step(p.(state := InDone(HeadersAlmostDone)), LF)
  {
    if p.state == InHeader(HeaderValueLws) {
      LineStarts(p, LF);
    }
    FieldFeed(p.(state := InHeader(HeaderFieldStart)));
  }

  lemma FieldFeed(p: Parser)
    requires p.state == InHeader(HeaderFieldStart) && p.nread < MAX_HEADER_SIZE
    ensures Step(p, LF) == Step(p.(state := InDone(HeadersAlmostDone)), LF)
  {
    hide SwitchDone;
    var q := p.(nread := p.nread + 1);
    var h := q.(state := InDone(HeadersAlmostDone));
    assert Switch(q, LF) == Outcome(h, Nil, Reexecute);
    var r := Dispatch(h, LF);
    assert Dispatch(q, LF) == Outcome(r.parser, Append(Nil, r.ops), r.next) == r;
  }

  /** The empty line, ended by CRLF or by a bare LF. */
  lemma EmptyLine(p: Parser, e: Eol)
    requires LineStart(p.state) && p.nread + 2 <= MAX_HEADER_SIZE && !p.flags.trailing && !p.flags.skipBody
    ensures Switches(p) ==> Run(p, End(e)).exit == Upgraded && Run(p, End(e)).atoms == DoneAtoms(NoBody)
    ensures !Switches(p) ==> Framed(p, Run(p, End(e)), TakenBy(p)) && Run(p, End(e)).atoms == DoneAtoms(TakenBy(p))
    ensures Switches(p) ==> Run(p, End(e)).parser.state == SwitchedStart(p)
  {
    hide Step, Run, Framed;
    var q := p.(nread := if e.CrLf? then p.nread + 1 else p.nread, state := InDone(HeadersAlmostDone));
    if e.CrLf? {
      EmptyReturn(p);
      RunTwo(p, CR, LF);
      assert Then(Step(p, CR), Step(q, LF)).atoms == Step(q, LF).atoms;
    } else {
      EmptyFeed(p);
      RunByte(p, LF);
    }
    if Switches(p) {
      UpgradeExit(q);
    } else {
      FeedTaken(q);
      SameFramed(p, q, Step(q, LF), Run(p, End(e)));
    }
  }

  lemma SameFramed(p: Parser, q: Parser, r: Result, s: Result)
    requires q == p.(nread := q.nread, state := q.state)
    requires s.parser == r.parser && s.exit == r.exit && s.atoms == r.atoms && Framed(q, r, TakenBy(q))
    ensures Framed(p, s, TakenBy(p))
  {
  }

  // ---- The parser's framing, from the text of the headers ----

  /** Some Transfer-Encoding field has the one word "chunked" on its first line. */
  ghost predicate SaysChunked(headers: seq<Header>) {
    exists i :: 0 <= i < |headers| && Names(headers[i], "transfer-encoding") &&
      Says(Folded(headers[i].first.text), ChunkedWord)
  }

  /** Some Upgrade field has a value on its first line. */
  ghost predicate SaysUpgrade(headers: seq<Header>) {
    exists i :: 0 <= i < |headers| && Names(headers[i], "upgrade") && headers[i].first.text != []
  }

  /** Some Connection or Proxy-Connection field has the one word on its first line. */
  ghost predicate Asks(headers: seq<Header>, w: Word) {
    exists i :: 0 <= i < |headers| && AsksThere(headers[i], w)
  }

  predicate AsksThere(h: Header, w: Word) {
    (Names(h, "connection") || Names(h, "proxy-connection")) && Says(Folded(h.first.text), w)
  }

  lemma {:induction false} FlagsSay(headers: seq<Header>)
    ensures var f := BlockMeans(NO_FLAGS, headers);
            (f.chunked <==> SaysChunked(headers)) && (f.upgrade <==> SaysUpgrade(headers)) && !f.trailing && !f.skipBody
    ensures var f := BlockMeans(NO_FLAGS, headers);
            (f.close <==> Asks(headers, CloseWord)) && (f.keepAlive <==> Asks(headers, KeepAliveWord))
  {
    hide Says, Folded;
    if headers != [] {
      var n := |headers| - 1;
      var front := headers[..n];
      FlagsSay(front);
      assert forall i :: 0 <= i < n ==> front[i] == headers[i];
      FoldedEmpty(headers[n]);
    }
  }

  lemma FoldedEmpty(h: Header)
    ensures h.FieldLine? ==> (Folded(h.first.text) == [] <==> h.first.text == [])
  {
  }

  /** The length in force after the headers: the last line of digits of a Content-Length field that no empty line of
      the same field precedes; 2^64 - 1 if there is none. */
  function LengthTaken(headers: seq<Header>): nat
    requires AllWellFormed(headers)
  {
    BlockAnnounces(MAX64, headers)
  }

  ghost function TakenFrom(m: Message): Framing
    requires AllWellFormed(m.headers)
  {
    if SaysChunked(m.headers) then ByChunks
    else if LengthTaken(m.headers) == 0 then NoBody
    else if LengthTaken(m.headers) != MAX64 then ByLength(LengthTaken(m.headers))
    else if m.isRequest || Bodiless(m) then NoBody
    else ToEof
  }

  lemma {:induction false} NoLength(headers: seq<Header>)
    requires AllWellFormed(headers) && LengthValues(headers) == []
    ensures LengthTaken(headers) == MAX64
  {
    if headers != [] {
      var n := |headers| - 1;
      LengthsSplit(headers[..n], headers[n]);
      assert headers[..n] + [headers[n]] == headers;
      NoLength(headers[..n]);
    }
  }

  lemma {:induction false} LengthsSplit(front: seq<Header>, last: Header)
    ensures LengthValues(front + [last]) ==
            LengthValues(front) + if Names(last, "content-length") then [Trim(FieldValue(last))] else []
  {
    hide Names, Trim, FieldValue;
    if front == [] {
      assert [] + [last] == [last] && [last][1..] == [];
    } else {
      LengthsSplit(front[1..], last);
      assert (front + [last])[1..] == front[1..] + [last];
    }
  }

  // ---- When the two agree ----

  /** What the sender of a message can check in its own text:
      - a response of status 1xx, 204 or 304 announces no body;
      - a message sent in chunks has a Transfer-Encoding field whose first line is the one word "chunked", and a message
        not sent in chunks has none;
      - with any other Transfer-Encoding, no length is in force (or, in a request, zero);
      - the length in force is the one Content-Length sent (or, in a request, zero was sent and none is in force);
      - the body does not delimit itself. */
  ghost predicate Conforms(m: Message)
    requires AllWellFormed(m.headers)
  {
    var length := LengthTaken(m.headers);
    if Bodiless(m) then !SaysChunked(m.headers) && (length == 0 || length == MAX64)
    else if SentInChunks(m) then SaysChunked(m.headers)
    else
      !SaysChunked(m.headers) &&
      if HasCoding(m.headers) then
        (length == MAX64 || (m.isRequest && length == 0)) &&
        (m.isRequest || Coded(m.headers) || !Byteranges(m.headers))
      else
        match SentLength(m.headers)
        case Absent => m.isRequest || !Byteranges(m.headers)
        case Decimal(n) => (length == n != MAX64) || (m.isRequest && n == 0 && length == MAX64)
        case Malformed => false
  }

  lemma {:induction false} CodedHas(headers: seq<Header>)
    ensures Codings(headers) != [] ==> HasCoding(headers)
  {
    if headers != [] {
      CodedHas(headers[1..]);
      if HasCoding(headers[1..]) {
        var i :| 0 <= i < |headers[1..]| && Names(headers[1..][i], "transfer-encoding");
        assert Names(headers[i + 1], "transfer-encoding");
      } else if Codings(headers) != [] {
        assert Names(headers[0], "transfer-encoding");
      }
    }
  }

  lemma Agreement(m: Message)
    requires AllWellFormed(m.headers)
    ensures FramingOf(m) == TakenFrom(m) <==> Conforms(m)
  {
    hide SaysChunked, LengthTaken, Codings, Byteranges, HasCoding, LengthValues, AllWellFormed;
    CodedHas(m.headers);
    if LengthValues(m.headers) == [] {
      NoLength(m.headers);
    }
  }

  /** A state after the headers shows one framing only. */
  lemma OneFraming(p: Parser, r: Result, f: Framing, g: Framing)
    requires Framed(p, r, f) && Framed(p, r, g)
    ensures f == g
  {
  }

  lemma FramedLater(p: Parser, q: Parser, before: Result, r: Result, f: Framing)
    requires q == p.(nread := q.nread, state := q.state, index := q.index, headerState := q.headerState)
    requires Framed(q, r, f)
    ensures Framed(p, Then(before, r), f)
  {
    SameStart(p, q);
  }

  /** The message whose first line left the record p. */
  function MessageOf(p: Parser, headers: seq<Header>): Message { Message(p.kind.Request?, p.status, headers) }

  /** A record at the start of the headers of a message. */
  predicate AtHeaders(p: Parser) { LineStart(p.state) && p.flags == NO_FLAGS && p.contentLength == MAX64 }

  /** What a block of headers makes of such a record. */
  function WithHeaders(p: Parser, headers: seq<Header>): Parser
    requires AllWellFormed(headers)
  {
    p.(flags := BlockMeans(NO_FLAGS, headers), contentLength := BlockAnnounces(MAX64, headers))
  }

  lemma TakenText(p: Parser, headers: seq<Header>)
    requires AllWellFormed(headers)
    ensures TakenBy(WithHeaders(p, headers)) == TakenFrom(MessageOf(p, headers))
  {
    hide AllWellFormed, SaysChunked, SaysUpgrade;
    FlagsSay(headers);
  }

  /** For every message, request or response, from the start of its headers: after the empty line it is framed as
      RFC 2616 says if and only if its text conforms and it does not switch protocols. */
  lemma HeadFraming(p: Parser, headers: seq<Header>, e: Eol)
    requires AtHeaders(p) && AllWellFormed(headers) && p.nread + |Block(headers)| + 2 <= MAX_HEADER_SIZE
    ensures var m, q, r := MessageOf(p, headers), WithHeaders(p, headers), Run(p, Block(headers) + End(e));
            (Framed(q, r, FramingOf(m)) <==> Conforms(m) && !SaysUpgrade(headers) && !p.verb.CONNECT?) &&
            (if SaysUpgrade(headers) || p.verb.CONNECT? then r.exit == Upgraded else Framed(q, r, TakenFrom(m)))
    ensures var m, r := MessageOf(p, headers), Run(p, Block(headers) + End(e));
            r.atoms == HttpFields.BlockAtoms(headers) +
              DoneAtoms(if SaysUpgrade(headers) || p.verb.CONNECT? then NoBody else TakenFrom(m))
    ensures var m, q, r := MessageOf(p, headers), WithHeaders(p, headers), Run(p, Block(headers) + End(e));
            SaysUpgrade(headers) || p.verb.CONNECT? ==>
              r.parser.state == if TakenFrom(m) == ToEof then InStart(Dead) else NextStart(q)
  {
    hide Run, Step, Framed, AllWellFormed, Block, BlockMeans, BlockAnnounces, TakenFrom, TakenBy, Conforms, FramingOf,
         SaysUpgrade, SaysChunked;
    var m, q := MessageOf(p, headers), WithHeaders(p, headers);
    HeaderBlock(p, headers);
    HttpFields.BlockDelivers(p, headers);
    var before := Run(p, Block(headers));
    RunSplit(p, Block(headers), End(e));
    FlagsSay(headers);
    EmptyLine(before.parser, e);
    Agreement(m);
    TakenText(p, headers);
    var r := Run(p, Block(headers) + End(e));
    SameStart(q, before.parser);
    if Switches(before.parser) {
      NotFramed(q, r, FramingOf(m));
    } else {
      FramedLater(q, before.parser, before, Run(before.parser, End(e)), TakenBy(q));
      if Framed(q, r, FramingOf(m)) {
        OneFraming(q, r, FramingOf(m), TakenFrom(m));
      }
    }
  }

  // ---- Heads ----

  function HeadBytes(line: string, headers: seq<Header>, e: Eol): string { line + (Block(headers) + End(e)) }

  /** Behind a first line that leads to q, the headers do what they do from q on. */
  lemma HeadAfter(p: Parser, line: string, q: Parser, x: seq<Atom>, headers: seq<Header>, e: Eol)
    requires AllWellFormed(headers) && Run(p, line) == Result(q, x, Running, |line|)
    ensures var r, s, w := Run(p, HeadBytes(line, headers, e)), Run(q, Block(headers) + End(e)), WithHeaders(q, headers);
            r.exit == s.exit && r.parser == s.parser && r.atoms == x + s.atoms &&
            forall f :: Framed(w, r, f) <==> Framed(w, s, f)
  {
    hide Run, AllWellFormed, Block, BlockMeans, BlockAnnounces, Kept, NextStart;
    var rest := Block(headers) + End(e);
    RunSplit(p, line, rest);
    var s := Run(q, rest);
  }

  /** Whether the connection stays open, from the version and the headers: since HTTP/1.1 unless "close" is asked for,
      before only if "keep-alive" is. The parser asks for both numbers to be positive. */
  ghost predicate KeptOpen(major: nat, minor: nat, headers: seq<Header>) {
    if major > 0 && minor > 0 then !Asks(headers, CloseWord) else Asks(headers, KeepAliveWord)
  }

  lemma NextFrom(p: Parser, headers: seq<Header>)
    requires AllWellFormed(headers)
    ensures NextStart(WithHeaders(p, headers)) ==
            InStart(if !KeptOpen(p.major, p.minor, headers) then Dead else if p.kind.Request? then StartReq else StartRes)
  {
    hide AllWellFormed, BlockMeans, BlockAnnounces, Asks;
    FlagsSay(headers);
  }

  /** Versions are ordered by their numbers (section 3.1 of RFC 2616), and connections persist by default since
      HTTP/1.1 (section 8.1.2.1). The parser agrees on every version but those after 1 whose second number is 0. */
  lemma VersionOrder(major: nat, minor: nat, headers: seq<Header>)
    requires !Asks(headers, CloseWord) && !Asks(headers, KeepAliveWord)
    ensures (KeptOpen(major, minor, headers) <==> major > 1 || (major == 1 && minor >= 1)) <==>
            !(major > 1 && minor == 0)
  {
  }

  lemma NotFramed(p: Parser, r: Result, f: Framing)
    requires r.exit != Running
    ensures !Framed(p, r, f)
  {
  }
}
