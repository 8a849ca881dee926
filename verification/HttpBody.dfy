/** Message length (section 4.4 and section 3.6.1 of RFC 2616): body bytes are conserved, declared
    lengths are read exactly when they fit, and the chunked coding is decoded. */
module HttpBody {
  import opened HttpTypes
  import opened HttpSwitch
  import opened HttpSpec
  import opened HttpExecute

  // ---- Conservation over every input ----

  /** What an observer notes about the current message: the length and coding announced when the
      headers were complete, the chunk sizes announced since, the body bytes delivered since. */
  datatype Meter = Meter(declared: nat, chunked: bool, chunks: nat, delivered: nat)

  /** The body bytes a complete message must have delivered; a length of MAX64 means none was given. */
  function Expected(m: Meter): nat {
    if m.chunked then m.chunks else if m.declared == MAX64 then 0 else m.declared
  }

  function BodyCount(atoms: seq<Atom>): nat {
    if atoms == [] then 0
    else (if atoms[0].Byte? && atoms[0].kind == Body then 1 else 0) + BodyCount(atoms[1..])
  }

  function Observe(m: Meter, p: Parser, s: Result): Meter {
    if Event(HeadersComplete) in s.atoms then Meter(s.parser.contentLength, s.parser.flags.chunked, 0, 0)
    else
      var announced := if p.state == InChunk(ChunkSizeAlmostDone) && s.exit == Running then p.contentLength else 0;
      m.(chunks := m.chunks + announced, delivered := m.delivered + BodyCount(s.atoms))
  }

  function Metered(p: Parser, data: string): Meter {
    if data == [] then Meter(0, false, 0, 0)
    else
      var n := |data| - 1;
      var r := Run(p, data[..n]);
      if r.exit != Running then Metered(p, data[..n])
      else Observe(Metered(p, data[..n]), r.parser, Step(r.parser, data[n]))
  }

  /** The balance kept in every state between two bytes. */
  predicate Balanced(m: Meter, p: Parser) {
    !p.flags.skipBody &&
    match p.state
    case InStart(s) => s.ResOrRespH? ==> !p.flags.trailing
    case InStatusLine(_) | InMethod | InUrl(_) | InVersion(_) => !p.flags.trailing
    case InHeader(_) | InDone(_) => p.flags.trailing ==> m.chunked && m.delivered == m.chunks
    case InChunk(_) => m.chunked && m.delivered == m.chunks
    case InBody(ChunkData) => m.chunked && m.delivered + p.contentLength == m.chunks
    case InBody(BodyIdentity) => !m.chunked && m.delivered + p.contentLength == m.declared && m.declared < MAX64
    case InBody(BodyIdentityEof) => true
  }

  predicate Has(ops: Ops, n: Note) {
    match ops case Nil => false case Cons(op, rest) => op == Notify(n) || Has(rest, n)
  }

  lemma {:induction false} NotesOnly(ops: Ops, n: Note)
    ensures Event(n) in Notes(ops) <==> Has(ops, n)
    ensures BodyCount(Notes(ops)) == 0
  {
    match ops
    case Nil =>
    case Cons(op, rest) =>
      NotesOnly(rest, n);
      if op.Notify? {
        assert Notes(ops)[0] == Event(op.note) && Notes(ops)[1..] == Notes(rest);
      } else {
        assert Notes(ops) == Notes(rest);
      }
  }

  /** Outside the body states no body byte is delivered. */
  lemma NoBody(p: Parser, ch: char, n: Note)
    requires !p.state.InBody?
    ensures var s, o := SwitchStep(p, ch), Dispatch(p, ch);
            BodyCount(s.atoms) == 0 && (Event(n) in s.atoms <==> Has(o.ops, n))
  {
    hide Dispatch;
    var o := Dispatch(p, ch);
    var s := SwitchStep(p, ch);
    NotesOnly(o.ops, n);
    if s.atoms == Notes(o.ops) {
    } else {
      assert s.atoms[1..] == Notes(o.ops);
    }
  }

  /** A byte that ends neither the headers nor the message keeps the balance. */
  predicate Quiet(m: Meter, o: Outcome) {
    o.next == Advance ==>
      !Has(o.ops, HeadersComplete) && !Has(o.ops, MessageComplete) && Balanced(m, o.parser)
  }

  lemma QuietStart(m: Meter, p: Parser, ch: char)
    requires p.state.InStart? && Balanced(m, p)
    ensures Quiet(m, Dispatch(p, ch))
  {
    hide FirstMethod, IsAlpha;
    if Switch(p, ch).next == Reexecute {
      ReexecutionDescends(p, ch);
    }
  }

  lemma QuietStatus(m: Meter, p: Parser, ch: char)
    requires p.state.InStatusLine? && Balanced(m, p)
    ensures Quiet(m, SwitchStatusLine(p, ch))
  {
    hide IsNum, Digit;
  }

  lemma QuietMethod(m: Meter, p: Parser, ch: char)
    requires p.state.InMethod? && Balanced(m, p)
    ensures Quiet(m, SwitchMethod(p, ch)) && SwitchMethod(p, ch).next != Reexecute
  {
    hide OtherMethod, MethodString, At;
  }

  lemma QuietUrl(m: Meter, p: Parser, ch: char)
    requires p.state.InUrl? && Balanced(m, p)
    ensures Quiet(m, SwitchUrl(p, ch)) && SwitchUrl(p, ch).next != Reexecute
  {
    hide ParseUrlChar;
  }

  lemma QuietVersion(m: Meter, p: Parser, ch: char)
    requires p.state.InVersion? && Balanced(m, p)
    ensures Quiet(m, SwitchVersion(p, ch)) && SwitchVersion(p, ch).next != Reexecute
  {
    hide IsNum, Digit;
  }

  lemma QuietLine(m: Meter, p: Parser, ch: char)
    requires p.state.InStatusLine? || p.state.InMethod? || p.state.InUrl? || p.state.InVersion?
    requires Balanced(m, p)
    ensures Quiet(m, Dispatch(p, ch))
  {
    hide SwitchStatusLine, SwitchMethod, SwitchUrl, SwitchVersion, Quiet, Balanced;
    match p.state
    case InStatusLine(_) => QuietStatus(m, p, ch);
    case InMethod => QuietMethod(m, p, ch);
    case InUrl(_) => QuietUrl(m, p, ch);
    case InVersion(_) => QuietVersion(m, p, ch);
  }

  /** A byte of a header line ends neither the headers nor the message. */
  predicate QuietOutcome(m: Meter, o: Outcome) {
    (o.next == Advance || o.next == Reexecute ==>
       !Has(o.ops, HeadersComplete) && !Has(o.ops, MessageComplete) && Balanced(m, o.parser)) &&
    (o.next == Reexecute && o.parser.state.InDone? ==> o.parser.state.done.HeadersAlmostDone?)
  }

  lemma QuietField(m: Meter, p: Parser, ch: char)
    requires p.state == InHeader(HeaderField) && Balanced(m, p)
    ensures QuietOutcome(m, SwitchField(p, ch))
  {
    hide FieldMatch, IsToken, TokenCode;
  }

  lemma QuietValueStart(m: Meter, p: Parser, ch: char)
    requires p.state == InHeader(HeaderValueStart) && Balanced(m, p)
    ensures QuietOutcome(m, SwitchValueStart(p, ch))
  {
    hide IsNum, Digit, Lower;
  }

  lemma QuietValue(m: Meter, p: Parser, ch: char)
    requires p.state == InHeader(HeaderValue) && Balanced(m, p)
    ensures QuietOutcome(m, SwitchValue(p, ch))
  {
    hide IsNum, Digit, Lower, ValueMatch, Accumulate;
  }

  lemma QuietHeader(m: Meter, p: Parser, ch: char)
    requires p.state.InHeader? && Balanced(m, p)
    ensures QuietOutcome(m, SwitchHeader(p, ch))
  {
    hide SwitchField, SwitchValueStart, SwitchValue, IsToken, TokenCode;
    match p.state.header
    case HeaderField => QuietField(m, p, ch);
    case HeaderValueStart => QuietValueStart(m, p, ch);
    case HeaderValue => QuietValue(m, p, ch);
    case _ =>
  }

  /** The obligation of a byte outside the body: the balance afterwards, and the whole body
      delivered when the message completes. */
  predicate Settles(m: Meter, o: Outcome) {
    o.next == Advance ==>
      var m' := if Has(o.ops, HeadersComplete)
                then Meter(o.parser.contentLength, o.parser.flags.chunked, 0, 0) else m;
      Balanced(m', o.parser) && (Has(o.ops, MessageComplete) ==> m'.delivered == Expected(m'))
  }

  lemma SettlesDone(m: Meter, p: Parser, ch: char)
    requires p.state == InDone(HeadersAlmostDone) && Balanced(m, p) && p.contentLength <= MAX64
    ensures Settles(m, Dispatch(p, ch))
  {
    hide NewMessage, NeedsEof;
    var o := Switch(p, ch);
    if o.next == Reexecute {
      ReexecutionDescends(p, ch);
      var r := Dispatch(o.parser, ch);
      assert r == Switch(o.parser, ch);
      HasAppend(o.ops, r.ops, HeadersComplete);
      HasAppend(o.ops, r.ops, MessageComplete);
    }
  }

  lemma HasAppend(a: Ops, b: Ops, n: Note)
    ensures Has(Append(a, b), n) <==> Has(a, n) || Has(b, n)
  {
  }

  lemma {:induction false} SettlesHeader(m: Meter, p: Parser, ch: char)
    requires p.state.InHeader? && Balanced(m, p) && p.contentLength <= MAX64
    ensures Settles(m, Dispatch(p, ch))
    decreases Rank(p.state)
  {
    hide SwitchHeader, SwitchDone, Balanced;
    QuietHeader(m, p, ch);
    var o := Switch(p, ch);
    if o.next == Reexecute {
      ReexecutionDescends(p, ch);
      HeaderKeepsLength(p, ch);
      if o.parser.state.InHeader? {
        SettlesHeader(m, o.parser, ch);
      } else {
        SettlesDone(m, o.parser, ch);
      }
      var r := Dispatch(o.parser, ch);
      HasAppend(o.ops, r.ops, HeadersComplete);
      HasAppend(o.ops, r.ops, MessageComplete);
    }
  }

  lemma HeaderKeepsLength(p: Parser, ch: char)
    requires p.state.InHeader? && SwitchHeader(p, ch).next == Reexecute
    ensures SwitchHeader(p, ch).parser.contentLength == p.contentLength
    ensures SwitchHeader(p, ch).parser.state.InHeader? || SwitchHeader(p, ch).parser.state == InDone(HeadersAlmostDone)
  {
    hide IsToken, FieldByte, FirstValueByte, ValueByte;
  }

  /** One byte of any input keeps the balance, and completes a message only when exactly the
      announced body has been delivered. */
  lemma StepBalanced(m: Meter, p: Parser, ch: char)
    requires Inv(p, 0) && Balanced(m, p)
    ensures var s := Step(p, ch);
            var m' := Observe(m, p, s);
            s.exit == Running ==>
              Balanced(m', s.parser) && (Event(MessageComplete) in s.atoms ==> m'.delivered == Expected(m'))
  {
    hide SwitchStep, BodyStep, Balanced, Observe;
    var s, q := Step(p, ch), Count(p);
    if s.exit == Running {
      CountKeeps(m, p, s);
      if p.state.InBody? {
        BodyBalanced(m, p, ch);
      } else {
        OtherBalanced(m, q, ch);
      }
    }
  }

  lemma CountKeeps(m: Meter, p: Parser, s: Result)
    ensures Balanced(m, Count(p)) == Balanced(m, p) && Observe(m, Count(p), s) == Observe(m, p, s)
  {
  }

  lemma BodyBalanced(m: Meter, p: Parser, ch: char)
    requires Inv(p, 0) && Balanced(m, p) && p.state.InBody?
    ensures var s := BodyStep(p, ch);
            var m' := Observe(m, p, s);
            s.exit == Running ==>
              Balanced(m', s.parser) && (Event(MessageComplete) in s.atoms ==> m'.delivered == Expected(m'))
  {
    hide KeepAlive;
    assert BodyCount([Event(MessageComplete)]) == 0;
    assert [Byte(Body, ch), Event(MessageComplete)][1..] == [Event(MessageComplete)];
  }

  lemma OtherBalanced(m: Meter, p: Parser, ch: char)
    requires Inv(p, 1) && Balanced(m, p) && !p.state.InBody? && SwitchStep(p, ch).exit == Running
    requires p.state.InDone? ==> p.state.done.HeadersAlmostDone?
    ensures var s := SwitchStep(p, ch);
            var m' := Observe(m, p, s);
            Balanced(m', s.parser) && (Event(MessageComplete) in s.atoms ==> m'.delivered == Expected(m'))
  {
    hide Dispatch, Balanced;
    NoBody(p, ch, HeadersComplete);
    NoBody(p, ch, MessageComplete);
    match p.state
    case InStart(_) => QuietStart(m, p, ch);
    case InHeader(_) => SettlesHeader(m, p, ch);
    case InDone(_) => SettlesDone(m, p, ch);
    case InChunk(_) => ChunkBalanced(m, p, ch);
    case _ => QuietLine(m, p, ch);
  }

  lemma ChunkBalanced(m: Meter, p: Parser, ch: char)
    requires p.state.InChunk? && Balanced(m, p)
    ensures var o := Dispatch(p, ch);
            var m' := m.(chunks := m.chunks + if p.state.chunk.ChunkSizeAlmostDone? then p.contentLength else 0);
            o.next == Advance ==>
              !Has(o.ops, HeadersComplete) && !Has(o.ops, MessageComplete) && Balanced(m', o.parser)
  {
    hide Unhex, Accumulate;
  }

  /** Body conservation: over every input from http_parser_init, each message completes with
      exactly the announced number of body bytes delivered since its headers were complete. */
  lemma {:induction false} BodyConserved(t: ParserType, data: string)
    ensures var r := Run(Init(t), data);
            r.exit == Running ==> Inv(r.parser, 0) && Balanced(Metered(Init(t), data), r.parser)
    ensures var r := Run(Init(t), data);
            data != [] && r.exit == Running &&
            Event(MessageComplete) in Step(Run(Init(t), data[..|data| - 1]).parser, data[|data| - 1]).atoms ==>
              var m := Metered(Init(t), data); m.delivered == Expected(m)
  {
    hide Step, Observe;
    if data != [] {
      var n := |data| - 1;
      BodyConserved(t, data[..n]);
      RunNext(Init(t), data, n);
      assert data[..n + 1] == data;
      var r := Run(Init(t), data[..n]);
      if r.exit == Running {
        GoodStep(r.parser, data[n]);
        StepBalanced(Metered(Init(t), data[..n]), r.parser, data[n]);
      }
    }
  }
}
