/** Whole messages and pipelines of them: the parser reads back what was sent (base/http_parser.cpp:595-1922). */
module HttpMessages {
  import opened Wrappers
  import opened HttpTypes
  import opened HttpSwitch
  import opened HttpSpec
  import HttpExecute
  import opened HttpLength
  import opened HttpHeaders
  import HttpFields
  import opened Rfc2616
  import opened HttpFraming
  import opened HttpLines
  import HttpRequest
  import HttpResponse

  // ---- Chunks ----

  /** A chunk: its size in hexadecimal digits, possibly an extension, its data (section 3.6.1 of RFC 2616). */
  datatype Chunk = Chunk(size: string, ext: string, data: string)

  /** An extension begins with ';' or a space; the parser passes over it. */
  predicate Extension(s: string) { s != [] ==> (s[0] == ';' || s[0] == ' ') && CR !in s }

  predicate SizeLine(size: string, ext: string, n: nat) {
    size != [] && Digits(16, size) && Number(16, size) == n && Extension(ext) && |size| + |ext| + 2 <= MAX_HEADER_SIZE
  }

  predicate LegalChunk(c: Chunk) { c.data != [] && |c.data| < MAX64 && SizeLine(c.size, c.ext, |c.data|) }

  function ChunkBytes(c: Chunk): string { c.size + c.ext + [CR, LF] + (c.data + [CR, LF]) }

  function ChunksBytes(cs: seq<Chunk>): string {
    if cs == [] then [] else ChunksBytes(cs[..|cs| - 1]) + ChunkBytes(cs[|cs| - 1])
  }

  function ChunksData(cs: seq<Chunk>): string {
    if cs == [] then [] else ChunksData(cs[..|cs| - 1]) + cs[|cs| - 1].data
  }

  lemma ExtByte(p: Parser, ch: char)
    requires p.state == InChunk(ChunkSize) || p.state == InChunk(ChunkParameters)
    requires p.flags.chunked && p.nread < MAX_HEADER_SIZE && ch != CR
    requires p.state == InChunk(ChunkSize) ==> ch == ';' || ch == ' '
    ensures Leads(p, [ch], On(p, InChunk(ChunkParameters)), [])
  {
    hide Run;
    RunByte(p, ch);
  }

  lemma {:induction false} ExtRun(p: Parser, s: string)
    requires p.state == InChunk(ChunkSize) && p.flags.chunked && Extension(s) && p.nread + |s| <= MAX_HEADER_SIZE
    ensures Leads(p, s, p.(nread := p.nread + |s|, state := if s == [] then p.state else InChunk(ChunkParameters)), [])
  {
    hide Leads, Run, Step;
    if s == [] {
      NoText(p);
    } else {
      var n := |s| - 1;
      assert s == s[..n] + [s[n]];
      ExtRun(p, s[..n]);
      var q := p.(nread := p.nread + n, state := if n == 0 then p.state else InChunk(ChunkParameters));
      ExtByte(q, s[n]);
      ChainQuiet(p, s[..n], q, [s[n]], On(q, InChunk(ChunkParameters)));
    }
  }

  /** The record behind the line of a chunk size. */
  function Sized(p: Parser, n: nat): Parser {
    if n == 0
    then p.(nread := 0, contentLength := 0, flags := p.flags.(trailing := true), state := InHeader(HeaderFieldStart))
    else p.(nread := 0, contentLength := n, state := InBody(ChunkData))
  }

  lemma SizeEnds(p: Parser, n: nat)
    requires p.state == InChunk(ChunkSize) || p.state == InChunk(ChunkParameters)
    requires p.flags.chunked && p.nread + 2 <= MAX_HEADER_SIZE && p.contentLength == n
    ensures Leads(p, [CR, LF], Sized(p, n), [])
  {
    hide Step;
    var q := p.(nread := p.nread + 1, state := InChunk(ChunkSizeAlmostDone));
    SizeReturns(p);
    RunTwo(p, CR, LF);
    SizeFeed(q);
  }

  lemma SizeReturns(p: Parser)
    requires p.state == InChunk(ChunkSize) || p.state == InChunk(ChunkParameters)
    requires p.flags.chunked && p.nread < MAX_HEADER_SIZE
    ensures Step(p, CR) == Result(p.(nread := p.nread + 1, state := InChunk(ChunkSizeAlmostDone)), [], Running, 1)
  {
  }

  lemma SizeLineLeads(p: Parser, size: string, ext: string, n: nat)
    requires Inv(p, 0) && p.state == InChunk(ChunkSizeStart) && SizeLine(size, ext, n) && n < MAX64
    ensures Leads(p, size + ext + [CR, LF], Sized(p, n), [])
  {
    hide Leads, Run, Step, Extension, Number, Digits, Inv;
    HexSize(size);
    SizeRun(p, size);
    InvChunked(p);
    var q := SizeRead(p, |size|, n);
    LeadsOf(p, size, q);
    ExtRun(q, ext);
    var r := q.(nread := q.nread + |ext|, state := if ext == [] then q.state else InChunk(ChunkParameters));
    ChainQuiet(p, size, q, ext, r);
    SizeEnds(r, n);
    ChainQuiet(p, size + ext, r, [CR, LF], Sized(r, n));
  }

  lemma InvChunked(p: Parser)
    requires Inv(p, 0) && p.state == InChunk(ChunkSizeStart)
    ensures p.flags.chunked && p.nread == 0
  {
  }

  lemma LeadsOf(p: Parser, a: string, q: Parser)
    requires Run(p, a) == Result(q, [], Running, |a|)
    ensures Leads(p, a, q, [])
  {
  }

  lemma LeadsInv(p: Parser, a: string, q: Parser, x: seq<Atom>)
    requires Inv(p, 0) && Leads(p, a, q, x)
    ensures Inv(q, 0)
  {
    hide Run, Inv;
    NoAssertFails(p, a);
  }

  lemma ChunkLeads(p: Parser, c: Chunk)
    requires Inv(p, 0) && p.state == InChunk(ChunkSizeStart) && LegalChunk(c)
    ensures Leads(p, ChunkBytes(c), p.(contentLength := 0), HttpExecute.Text(Body, c.data))
  {
    hide Leads, Run, Step, Inv, SizeLine;
    InvChunked(p);
    var line, q := c.size + c.ext + [CR, LF], Sized(p, |c.data|);
    SizeLineLeads(p, c.size, c.ext, |c.data|);
    LeadsInv(p, line, q, []);
    var r := q.(contentLength := 0, state := InChunk(ChunkDataAlmostDone));
    DataLeads(q, c.data);
    LeadsInv(q, c.data, r, HttpExecute.Text(Body, c.data));
    ChunkEnd(r);
    var s := p.(contentLength := 0);
    LeadsOf(r, [CR, LF], s);
    var x := HttpExecute.Text(Body, c.data);
    Chain(q, c.data, r, x, [CR, LF], s, []);
    assert x + [] == x;
    Chain(p, line, q, [], c.data + [CR, LF], s, x);
    assert [] + x == x;
  }

  lemma DataLeads(p: Parser, data: string)
    requires Inv(p, 0) && p.state == InBody(ChunkData) && p.contentLength == |data|
    ensures Leads(p, data, p.(contentLength := 0, state := InChunk(ChunkDataAlmostDone)), HttpExecute.Text(Body, data))
  {
    hide Run, Inv;
    HttpExecute.BodyRun(p, data);
    assert HttpExecute.BodyAtoms(p, data) == HttpExecute.Text(Body, data);
  }

  lemma {:induction false} ChunksLead(p: Parser, cs: seq<Chunk>)
    requires Inv(p, 0) && p.state == InChunk(ChunkSizeStart) && forall i :: 0 <= i < |cs| ==> LegalChunk(cs[i])
    ensures Leads(p, ChunksBytes(cs), p.(contentLength := if cs == [] then p.contentLength else 0),
                  HttpExecute.Text(Body, ChunksData(cs)))
  {
    hide Leads, Run, Step, Inv, LegalChunk, ChunkBytes;
    if cs == [] {
      NoText(p);
    } else {
      var n := |cs| - 1;
      var q := p.(contentLength := if n == 0 then p.contentLength else 0);
      var x, y := HttpExecute.Text(Body, ChunksData(cs[..n])), HttpExecute.Text(Body, cs[n].data);
      ChunksLead(p, cs[..n]);
      LeadsInv(p, ChunksBytes(cs[..n]), q, x);
      ChunkLeads(q, cs[n]);
      Chain(p, ChunksBytes(cs[..n]), q, x, ChunkBytes(cs[n]), p.(contentLength := 0), y);
      assert HttpExecute.Text(Body, ChunksData(cs)) == x + y;
    }
  }

  // ---- The end of a body ----

  /** What follows the empty line: a body of the announced length, or chunks, a last chunk of size zero and a trailer. */
  datatype Payload =
    | Whole(data: string)
    | Chunked(chunks: seq<Chunk>, size: string, ext: string, trailer: seq<Header>, end: Eol)

  function PayloadBytes(b: Payload): string {
    match b
    case Whole(data) => data
    case Chunked(cs, size, ext, trailer, end) => ChunksBytes(cs) + (size + ext + [CR, LF]) + (Block(trailer) + End(end))
  }

  function PayloadData(b: Payload): string {
    match b case Whole(data) => data case Chunked(cs, _, _, _, _) => ChunksData(cs)
  }

  /** The payload is one that the framing calls for. */
  predicate Fills(b: Payload, f: Framing) {
    match f
    case NoBody => b == Whole([])
    case ByLength(n) => b.Whole? && |b.data| == n
    case ByChunks =>
      b.Chunked? && (forall i :: 0 <= i < |b.chunks| ==> LegalChunk(b.chunks[i])) && SizeLine(b.size, b.ext, 0) &&
      AllWellFormed(b.trailer) && |Block(b.trailer)| + 2 <= MAX_HEADER_SIZE
    case _ => false
  }

  function Trailer(b: Payload): seq<Header> { if b.Chunked? then b.trailer else [] }

  /** The bytes of a trailer are still counted when the next message begins. */
  function Left(b: Payload): nat { if b.Chunked? then |Block(b.trailer)| + |End(b.end)| else 0 }

  /** What the bytes behind the empty line deliver; a message without body was complete with that line. */
  function PayloadAtoms(b: Payload, f: Framing): seq<Atom> {
    if f.NoBody? then []
    else HttpExecute.Text(Body, PayloadData(b)) + HttpFields.BlockAtoms(Trailer(b)) + [Event(MessageComplete)]
  }

  /** The record between two messages. */
  predicate Between(p: Parser, kind: ParserType, s: State, nread: nat) {
    Inv(p, 0) && p.kind == kind && p.state == s && p.nread == nread && (kind.Response? ==> !p.verb.CONNECT?)
  }

  /** The flags of the trailer count when the connection is kept or closed. */
  lemma {:induction false} TrailerFlags(f: Flags, trailer: seq<Header>)
    ensures var g := BlockMeans(f, trailer);
            (g.close <==> f.close || Asks(trailer, CloseWord)) &&
            (g.keepAlive <==> f.keepAlive || Asks(trailer, KeepAliveWord))
    ensures BlockMeans(f, trailer).trailing == f.trailing && BlockMeans(f, trailer).skipBody == f.skipBody
    ensures f.chunked ==> BlockMeans(f, trailer).chunked
  {
    hide Says, Folded;
    if trailer != [] {
      var n := |trailer| - 1;
      var front := trailer[..n];
      TrailerFlags(f, front);
      assert forall i :: 0 <= i < n ==> front[i] == trailer[i];
    }
  }

  /** The state in which the next message is awaited. */
  function NextState(kind: ParserType, kept: bool): State {
    InStart(if !kept then Dead else if kind.Request? then StartReq else StartRes)
  }

  /** The empty line behind a trailer completes the message. */
  lemma TrailerEnds(p: Parser, e: Eol)
    requires LineStart(p.state) && p.flags.trailing && p.nread + 2 <= MAX_HEADER_SIZE
    ensures var q := p.(nread := p.nread + |End(e)|);
            Leads(p, End(e), q.(state := NewMessage(q)), [Event(MessageComplete)])
  {
    hide Step, Run, NewMessage;
    if e.CrLf? {
      var q := p.(nread := p.nread + 1, state := InDone(HeadersAlmostDone));
      EmptyReturn(p);
      RunTwo(p, CR, LF);
      TrailerFeed(q);
      SameMessage(p.(nread := p.nread + 2), q.(nread := q.nread + 1));
      assert [] + [Event(MessageComplete)] == [Event(MessageComplete)];
    } else {
      var q := p.(state := InDone(HeadersAlmostDone));
      EmptyFeed(p);
      RunByte(p, LF);
      TrailerFeed(q);
      SameMessage(p.(nread := p.nread + 1), q.(nread := q.nread + 1));
    }
  }

  lemma NewIs(p: Parser)
    requires !p.kind.Both? && (p.flags.chunked || p.contentLength != MAX64)
    ensures NewMessage(p) == NextState(p.kind, Persists(p))
  {
  }

  lemma AsksEither(a: seq<Header>, b: seq<Header>, w: Word)
    ensures Asks(a + b, w) <==> Asks(a, w) || Asks(b, w)
  {
    hide Says, Folded;
    var c := a + b;
    if Asks(a, w) {
      var i :| 0 <= i < |a| && AsksThere(a[i], w);
      assert c[i] == a[i];
    }
    if Asks(b, w) {
      var i :| 0 <= i < |b| && AsksThere(b[i], w);
      assert c[|a| + i] == b[i];
    }
    if Asks(c, w) {
      var i :| 0 <= i < |c| && AsksThere(c[i], w);
      assert if i < |a| then c[i] == a[i] else c[i] == b[i - |a|];
    }
  }

  /** The flags are those the headers ask for. */
  ghost predicate Tuned(f: Flags, headers: seq<Header>) {
    (f.close <==> Asks(headers, CloseWord)) && (f.keepAlive <==> Asks(headers, KeepAliveWord)) && !f.skipBody
  }

  lemma TunedOpen(p: Parser, headers: seq<Header>)
    requires Tuned(p.flags, headers)
    ensures Persists(p) <==> KeptOpen(p.major, p.minor, headers)
  {
    hide Asks;
  }

  lemma TunedTrailer(f: Flags, headers: seq<Header>, trailer: seq<Header>)
    requires Tuned(f, headers)
    ensures Tuned(BlockMeans(f, trailer), headers + trailer)
  {
    hide Asks, BlockMeans;
    TrailerFlags(f, trailer);
    AsksEither(headers, trailer, CloseWord);
    AsksEither(headers, trailer, KeepAliveWord);
  }

  /** Chunks, last chunk and trailer are read to their end, and the message is complete there. */
  lemma ChunkedLeads(p: Parser, b: Payload, headers: seq<Header>)
    requires Inv(p, 0) && p.state == InChunk(ChunkSizeStart) && !p.kind.Both? && Tuned(p.flags, headers)
    requires b.Chunked? && Fills(b, ByChunks) && (p.kind.Response? ==> !p.verb.CONNECT?)
    ensures exists t :: Leads(p, PayloadBytes(b), t, PayloadAtoms(b, ByChunks)) &&
                        Between(t, p.kind, NextState(p.kind, KeptOpen(p.major, p.minor, headers + b.trailer)), Left(b))
  {
    hide Leads, Run, Step, Inv, LegalChunk, SizeLine, Block, BlockMeans, BlockAnnounces, AllWellFormed, ChunksBytes,
         ChunksData, HttpFields.BlockAtoms, Asks, End, NewMessage, KeptOpen;
    InvChunked(p);
    var text := HttpExecute.Text(Body, ChunksData(b.chunks));
    var q := p.(contentLength := if b.chunks == [] then p.contentLength else 0);
    ChunksLead(p, b.chunks);
    LeadsInv(p, ChunksBytes(b.chunks), q, text);
    var line, r := b.size + b.ext + [CR, LF], Sized(q, 0);
    SizeLineLeads(q, b.size, b.ext, 0);
    var u := TrailerLeads(r, b.trailer);
    TrailerFlags(r.flags, b.trailer);
    EndShort(b.end);
    TrailerEnds(u, b.end);
    var v := u.(nread := u.nread + |End(b.end)|);
    var t := v.(state := NewMessage(v));
    var front := HttpFields.BlockAtoms(b.trailer);
    NewIs(v);
    TunedSized(p.flags, headers);
    TunedTrailer(r.flags, headers, b.trailer);
    TunedOpen(v, headers + b.trailer);
    Chain(r, Block(b.trailer), u, front, End(b.end), t, [Event(MessageComplete)]);
    Chain(p, ChunksBytes(b.chunks), q, text, line, r, []);
    assert text + [] == text;
    Chain(p, ChunksBytes(b.chunks) + line, r, text, Block(b.trailer) + End(b.end), t, front + [Event(MessageComplete)]);
    assert text + (front + [Event(MessageComplete)]) == text + front + [Event(MessageComplete)];
    LeadsInv(p, PayloadBytes(b), t, PayloadAtoms(b, ByChunks));
  }

  lemma TunedSized(f: Flags, headers: seq<Header>)
    requires Tuned(f, headers)
    ensures Tuned(f.(trailing := true), headers)
  {
    hide Asks;
  }

  lemma EndShort(e: Eol)
    ensures 1 <= |End(e)| <= 2
  {
  }

  /** The headers of a trailer. */
  lemma TrailerLeads(p: Parser, trailer: seq<Header>) returns (q: Parser)
    requires LineStart(p.state) && AllWellFormed(trailer) && p.nread + |Block(trailer)| + 1 <= MAX_HEADER_SIZE
    ensures Leads(p, Block(trailer), q, HttpFields.BlockAtoms(trailer)) && LineStart(q.state)
    ensures Reached(p, q, |Block(trailer)|, BlockMeans(p.flags, trailer), BlockAnnounces(p.contentLength, trailer))
  {
    hide Run, Step, AllWellFormed, Block, BlockMeans, BlockAnnounces, HttpFields.BlockAtoms;
    HeaderBlock(p, trailer);
    HttpFields.BlockDelivers(p, trailer);
    RunConsumes(p, Block(trailer));
    q := Run(p, Block(trailer)).parser;
  }

  lemma {:induction false} RunConsumes(p: Parser, s: string)
    ensures Run(p, s).exit == Running ==> Run(p, s).consumed == |s|
  {
    hide Step;
    if s != [] {
      var n := |s| - 1;
      RunConsumes(p, s[..n]);
      RunNext(p, s, n);
      assert s[..n + 1] == s;
      StepConsumes(Run(p, s[..n]).parser, s[n]);
    }
  }

  lemma StepConsumes(p: Parser, ch: char)
    ensures Step(p, ch).exit == Running ==> Step(p, ch).consumed == 1
  {
    hide Dispatch;
  }

  /** A body of announced length. */
  lemma LengthLeads(p: Parser, data: string, headers: seq<Header>)
    requires Inv(p, 0) && p.state == InBody(BodyIdentity) && p.contentLength == |data| && !p.kind.Both?
    requires Tuned(p.flags, headers)
    ensures var t := p.(contentLength := 0, state := NextState(p.kind, KeptOpen(p.major, p.minor, headers)));
            Leads(p, data, t, HttpExecute.Text(Body, data) + [Event(MessageComplete)])
  {
    hide Run, Inv, Asks, KeptOpen, NewMessage;
    HttpExecute.BodyRun(p, data);
    NewIs(p.(contentLength := 0));
    TunedOpen(p, headers);
  }

  /** Behind the empty line, for every framing but the end of the stream. */
  lemma PayloadLeads(q: Parser, r: Result, f: Framing, b: Payload, headers: seq<Header>)
    requires Framed(q, r, f) && Fills(b, f) && Tuned(q.flags, headers) && Inv(r.parser, 0)
    requires !q.kind.Both? && (q.kind.Response? ==> !q.verb.CONNECT?)
    ensures exists t :: Leads(r.parser, PayloadBytes(b), t, PayloadAtoms(b, f)) &&
                        Between(t, q.kind, NextState(q.kind, KeptOpen(q.major, q.minor, headers + Trailer(b))), Left(b))
  {
    hide Leads, Run, Step, Inv, Asks, KeptOpen, LegalChunk, SizeLine, AllWellFormed, Block;
    var p := r.parser;
    assert headers + [] == headers;
    match f
    case NoBody =>
      NoText(p);
      TunedOpen(q, headers);
      assert Leads(p, PayloadBytes(b), p, PayloadAtoms(b, f));
    case ByLength(n) =>
      LengthLeads(p, b.data, headers);
      var t := p.(contentLength := 0, state := NextState(p.kind, KeptOpen(p.major, p.minor, headers)));
      var x := HttpExecute.Text(Body, b.data);
      NoBlock();
      assert x + [] + [Event(MessageComplete)] == x + [Event(MessageComplete)];
      LeadsInv(p, b.data, t, x + [Event(MessageComplete)]);
      assert Leads(p, PayloadBytes(b), t, PayloadAtoms(b, f));
    case ByChunks =>
      ChunkedLeads(p, b, headers);
  }

  lemma NoBlock()
    ensures HttpFields.BlockAtoms([]) == []
  {
  }

  // ---- Messages ----

  datatype Opening = Asked(ask: HttpRequest.Ask) | Answered(answer: HttpResponse.Answer)

  /** A message as its sender writes it. */
  datatype Sent = Sent(opening: Opening, headers: seq<Header>, last: Eol, body: Payload)

  function Kind(m: Sent): ParserType { if m.opening.Asked? then Request else Response }

  predicate LegalOpening(o: Opening) {
    match o case Asked(a) => HttpRequest.LegalAsk(a) && !a.m.CONNECT? case Answered(a) => HttpResponse.LegalAnswer(a)
  }

  function FirstLine(o: Opening): string {
    match o case Asked(a) => HttpRequest.Line(a) case Answered(a) => HttpResponse.Line(a)
  }

  function OpeningAtoms(o: Opening): seq<Atom> {
    match o case Asked(a) => HttpRequest.AskedAtoms(a.target) case Answered(a) => HttpResponse.AnswerAtoms(a)
  }

  function MajorOf(o: Opening): nat
    requires LegalOpening(o)
  {
    match o case Asked(a) => HttpRequest.Major(a.version) case Answered(a) => Number(10, a.major)
  }

  function MinorOf(o: Opening): nat
    requires LegalOpening(o)
  {
    match o case Asked(a) => HttpRequest.Minor(a.version) case Answered(a) => Number(10, a.minor)
  }

  function Meaning(m: Sent): Message
    requires LegalOpening(m.opening)
  {
    match m.opening
    case Asked(_) => Message(true, 0, m.headers)
    case Answered(a) => Message(false, Number(10, a.status), m.headers)
  }

  /** No protocol switch, and the body that the headers call for. */
  ghost predicate LegalSent(m: Sent) {
    LegalOpening(m.opening) && AllWellFormed(m.headers) && !SaysUpgrade(m.headers) && Fills(m.body, TakenFrom(Meaning(m)))
  }

  function Head(m: Sent): string { HeadBytes(FirstLine(m.opening), m.headers, m.last) }

  function Bytes(m: Sent): string { Head(m) + PayloadBytes(m.body) }

  function HeadSize(m: Sent): nat { |FirstLine(m.opening)| + |Block(m.headers)| + 2 }

  /** All that the message delivers, in order. */
  ghost function Atoms(m: Sent): seq<Atom>
    requires LegalSent(m)
  {
    var f := TakenFrom(Meaning(m));
    OpeningAtoms(m.opening) + HttpFields.BlockAtoms(m.headers) + DoneAtoms(f) + PayloadAtoms(m.body, f)
  }

  /** The connection stays open behind the message. */
  ghost predicate Lasts(m: Sent) {
    LegalOpening(m.opening) && KeptOpen(MajorOf(m.opening), MinorOf(m.opening), m.headers + Trailer(m.body))
  }

  lemma SameTakenFrom(s: nat, t: nat, headers: seq<Header>)
    requires AllWellFormed(headers)
    ensures TakenFrom(Message(true, s, headers)) == TakenFrom(Message(true, t, headers))
  {
    hide SaysChunked, LengthTaken, AllWellFormed;
  }

  /** The record that the first line and the headers leave behind. */
  lemma HeadRun(p: Parser, m: Sent) returns (q: Parser)
    requires LegalSent(m) && Between(p, Kind(m), NextState(Kind(m), true), p.nread)
    requires p.nread + HeadSize(m) <= MAX_HEADER_SIZE
    ensures var r, f := Run(p, Head(m)), TakenFrom(Meaning(m));
            Framed(q, r, f) && r.atoms == OpeningAtoms(m.opening) + HttpFields.BlockAtoms(m.headers) + DoneAtoms(f)
    ensures q.kind == Kind(m) && q.flags == BlockMeans(NO_FLAGS, m.headers) && (q.kind.Response? ==> !q.verb.CONNECT?)
    ensures q.major == MajorOf(m.opening) && q.minor == MinorOf(m.opening)
  {
    hide Run, Step, Inv, Framed, AllWellFormed, Block, BlockMeans, BlockAnnounces, TakenFrom, Conforms, FramingOf,
         SaysUpgrade, HttpRequest.Line, HttpResponse.Line, HttpRequest.LegalAsk, HttpResponse.LegalAnswer, Asks, KeptOpen,
         HttpRequest.AskedAtoms, HttpResponse.AnswerAtoms, HttpFields.BlockAtoms, DoneAtoms, Number, NextStart, Fills,
         HttpRequest.Major, HttpRequest.Minor, HeadBytes;
    match m.opening
    case Asked(a) =>
      HttpRequest.AskVersion(a);
      HttpRequest.RequestHead(p, a, m.headers, m.last);
      SameTakenFrom(p.status, 0, m.headers);
      q := WithHeaders(HttpRequest.AfterRequest(p, a.m, |HttpRequest.Line(a)|, HttpRequest.Major(a.version),
                                                HttpRequest.Minor(a.version)), m.headers);
    case Answered(a) =>
      HttpResponse.AnswerNumbers(a);
      HttpResponse.ResponseHead(p, a, m.headers, m.last);
      q := WithHeaders(HttpResponse.AfterAnswer(p, |HttpResponse.Line(a)|, Number(10, a.major), Number(10, a.minor),
                                                Number(10, a.status)), m.headers);
  }

  lemma TunedHeaders(headers: seq<Header>)
    ensures Tuned(BlockMeans(NO_FLAGS, headers), headers)
  {
    hide Asks, BlockMeans;
    FlagsSay(headers);
  }

  /** A whole message, request or response: what the parser delivers is what was sent, byte for byte, and the next
      message is awaited where this one ends if the connection lasts. */
  lemma MessageRun(p: Parser, m: Sent)
    requires LegalSent(m) && Between(p, Kind(m), NextState(Kind(m), true), p.nread)
    requires p.nread + HeadSize(m) <= MAX_HEADER_SIZE
    ensures exists t :: Leads(p, Bytes(m), t, Atoms(m)) && Between(t, Kind(m), NextState(Kind(m), Lasts(m)), Left(m.body))
  {
    hide Run, Step, Inv, Framed, AllWellFormed, TakenFrom, SaysUpgrade, Asks, KeptOpen, OpeningAtoms, HttpFields.BlockAtoms,
         DoneAtoms, Fills, Head, PayloadBytes, PayloadAtoms, MajorOf, MinorOf, Tuned, BlockMeans, LegalOpening, HeadSize,
         Left, NextState;
    var q := HeadRun(p, m);
    var r, f := Run(p, Head(m)), TakenFrom(Meaning(m));
    NoAssertFails(p, Head(m));
    FramedRuns(q, r, f);
    RunConsumes(p, Head(m));
    TunedHeaders(m.headers);
    PayloadLeads(q, r, f, m.body, m.headers);
    var t :| Leads(r.parser, PayloadBytes(m.body), t, PayloadAtoms(m.body, f)) &&
             Between(t, q.kind, NextState(q.kind, KeptOpen(q.major, q.minor, m.headers + Trailer(m.body))), Left(m.body));
    Chain(p, Head(m), r.parser, r.atoms, PayloadBytes(m.body), t, PayloadAtoms(m.body, f));
    assert Leads(p, Bytes(m), t, Atoms(m));
  }

  lemma FramedRuns(q: Parser, r: Result, f: Framing)
    requires Framed(q, r, f)
    ensures r.exit == Running
  {
  }

  // ---- Pipelines ----

  function Stream(ms: seq<Sent>): string {
    if ms == [] then [] else Stream(ms[..|ms| - 1]) + Bytes(ms[|ms| - 1])
  }

  /** What is still counted of the message before the i-th. */
  function LeftBefore(ms: seq<Sent>, i: nat): nat
    requires i <= |ms|
  {
    if i == 0 then 0 else Left(ms[i - 1].body)
  }

  /** Messages of one kind, each of which leaves the connection open for the next. */
  ghost predicate Pipelined(kind: ParserType, ms: seq<Sent>) {
    forall i :: 0 <= i < |ms| ==> InPipeline(kind, ms, i)
  }

  ghost predicate InPipeline(kind: ParserType, ms: seq<Sent>, i: nat)
    requires i < |ms|
  {
    LegalSent(ms[i]) && Kind(ms[i]) == kind && LeftBefore(ms, i) + HeadSize(ms[i]) <= MAX_HEADER_SIZE &&
    (i + 1 < |ms| ==> Lasts(ms[i]))
  }

  ghost function Trace(kind: ParserType, ms: seq<Sent>): seq<Atom>
    requires forall i :: 0 <= i < |ms| ==> LegalSent(ms[i])
  {
    if ms == [] then [] else Trace(kind, ms[..|ms| - 1]) + Atoms(ms[|ms| - 1])
  }

  lemma PipelineFront(kind: ParserType, ms: seq<Sent>)
    requires Pipelined(kind, ms) && ms != []
    ensures var n := |ms| - 1;
            Pipelined(kind, ms[..n]) && (n > 0 ==> Lasts(ms[n - 1])) && InPipeline(kind, ms, n) &&
            LeftBefore(ms[..n], n) == LeftBefore(ms, n)
    ensures forall i :: 0 <= i < |ms| ==> LegalSent(ms[i])
  {
    hide LegalSent, Lasts, HeadSize, Left, Kind;
    var n := |ms| - 1;
    var front := ms[..n];
    assert n > 0 ==> InPipeline(kind, ms, n - 1);
    forall i | 0 <= i < n
      ensures InPipeline(kind, front, i)
    {
      assert InPipeline(kind, ms, i);
    }
    forall i | 0 <= i < |ms|
      ensures LegalSent(ms[i])
    {
      assert InPipeline(kind, ms, i);
    }
  }

  lemma Fresh(kind: ParserType)
    requires !kind.Both?
    ensures Between(Init(kind), kind, NextState(kind, true), 0)
  {
  }

  /** Any number of messages on one connection: the parser delivers exactly what each of them says, in order, and ends
      where the last one leaves it. */
  lemma {:induction false} Pipeline(kind: ParserType, ms: seq<Sent>)
    requires Pipelined(kind, ms) && !kind.Both?
    ensures forall i :: 0 <= i < |ms| ==> LegalSent(ms[i])
    ensures exists t :: Leads(Init(kind), Stream(ms), t, Trace(kind, ms)) &&
                        Between(t, kind, NextState(kind, ms == [] || Lasts(ms[|ms| - 1])), LeftBefore(ms, |ms|))
  {
    hide Leads, LegalSent, Lasts, HeadSize, Left, Kind, Bytes, Atoms, Between, NextState;
    if ms == [] {
      NoText(Init(kind));
      Fresh(kind);
      assert Leads(Init(kind), Stream(ms), Init(kind), Trace(kind, ms));
    } else {
      hide Pipelined;
      var n := |ms| - 1;
      var m := ms[n];
      PipelineFront(kind, ms);
      Pipeline(kind, ms[..n]);
      var p :| Leads(Init(kind), Stream(ms[..n]), p, Trace(kind, ms[..n])) &&
               Between(p, kind, NextState(kind, ms[..n] == [] || Lasts(ms[..n][n - 1])), LeftBefore(ms[..n], n));
      BetweenIs(p, kind, NextState(kind, true), LeftBefore(ms, n));
      MessageRun(p, m);
      var t :| Leads(p, Bytes(m), t, Atoms(m)) && Between(t, kind, NextState(kind, Lasts(m)), Left(m.body));
      Chain(Init(kind), Stream(ms[..n]), p, Trace(kind, ms[..n]), Bytes(m), t, Atoms(m));
      assert Leads(Init(kind), Stream(ms), t, Trace(kind, ms));
    }
  }

  lemma BetweenIs(p: Parser, kind: ParserType, s: State, n: nat)
    requires Between(p, kind, s, n)
    ensures p.nread == n
  {
  }

  /** A byte behind a message that closes the connection is refused, unless it belongs to a line end. */
  lemma AfterClose(kind: ParserType, ms: seq<Sent>, ch: char)
    requires Pipelined(kind, ms) && !kind.Both? && ms != [] && LegalSent(ms[|ms| - 1]) && !Lasts(ms[|ms| - 1])
    requires ch != CR && ch != LF && LeftBefore(ms, |ms|) < MAX_HEADER_SIZE
    ensures var r := Run(Init(kind), Stream(ms) + [ch]); r.exit == Failed && r.parser.errno == CLOSED_CONNECTION
  {
    hide Leads, LegalSent, Lasts, Pipelined, Stream, Run, Step;
    Pipeline(kind, ms);
    var t :| Leads(Init(kind), Stream(ms), t, Trace(kind, ms)) &&
             Between(t, kind, NextState(kind, false), LeftBefore(ms, |ms|));
    DeadRefuses(t, ch);
    RefusedNext(Init(kind), Stream(ms), t, Trace(kind, ms), ch);
  }

  lemma RefusedNext(p: Parser, a: string, q: Parser, x: seq<Atom>, ch: char)
    requires Leads(p, a, q, x) && Step(q, ch).exit == Failed
    ensures Run(p, a + [ch]).exit == Failed && Run(p, a + [ch]).parser == Step(q, ch).parser
  {
    hide Run, Step;
    RunSplit(p, a, [ch]);
    RunByte(q, ch);
  }

  lemma DeadRefuses(p: Parser, ch: char)
    requires p.state == InStart(Dead) && ch != CR && ch != LF && p.nread < MAX_HEADER_SIZE
    ensures Step(p, ch).exit == Failed && Step(p, ch).parser.errno == CLOSED_CONNECTION
  {
  }
}
