/** The reference semantics of the streaming parser: one byte at a time, no marks, no buffers.
    A byte belongs to the URL, a header field or a header value exactly when the parser is in the
    corresponding state after reading it, and to the body when it is read in a body state. */
module HttpSpec {
  import opened Wrappers
  import opened HttpTypes
  import opened HttpSwitch

  /** The finest view of a callback trace: every delivered byte and every notification. */
  datatype Atom = Byte(kind: DataKind, ch: char) | Event(note: Note)

  datatype Exit = Running | Failed | Upgraded | Aborted

  /** `consumed` is the value http_parser_execute returns. */
  datatype Result = Result(parser: Parser, atoms: seq<Atom>, exit: Exit, consumed: nat)

  function TextKind(s: State): Option<DataKind> {
    match s
    case InUrl(u) => if u.ReqSpacesBeforeUrl? then None else Some(Url)
    case InHeader(HeaderField) => Some(Field)
    case InHeader(HeaderValue) => Some(Value)
    case _ => None
  }

  function TextAtoms(s: State, ch: char): seq<Atom> {
    match TextKind(s) case None => [] case Some(k) => [Byte(k, ch)]
  }

  function Notes(ops: Ops): seq<Atom> {
    match ops
    case Nil => []
    case Cons(op, rest) => (if op.Notify? then [Event(op.note)] else []) + Notes(rest)
  }

  function ExitOf(n: Next): Exit {
    match n case Advance => Running case Leave => Upgraded case Fail => Failed case _ => Aborted
  }

  /** A byte read in one of the three bulk states. */
  function BodyStep(p: Parser, ch: char): Result
    requires p.state.InBody?
  {
    if p.state.body.BodyIdentityEof? then Result(p, [Byte(Body, ch)], Running, 1)
    else if p.contentLength == 0 || p.contentLength == MAX64 then Result(p, [], Aborted, 0)
    else if p.state.body.ChunkData? && !p.flags.chunked then Result(p, [], Aborted, 0)
    else
      var q := p.(contentLength := p.contentLength - 1);
      if q.contentLength != 0 then Result(q, [Byte(Body, ch)], Running, 1)
      else if p.state.body.ChunkData? then Result(q.(state := InChunk(ChunkDataAlmostDone)), [Byte(Body, ch)], Running, 1)
      else Result(q.(state := NewMessage(q)), [Byte(Body, ch), Event(MessageComplete)], Running, 1)
  }

  /** The header byte counter at the head of the loop. */
  function Count(p: Parser): Parser {
    if ParsingHeader(p.state) then p.(nread := p.nread + 1) else p
  }

  function SwitchStep(p: Parser, ch: char): Result
    requires !p.state.InBody?
  {
    var o := Dispatch(p, ch);
    var text := if o.next == Advance || o.next == Leave then TextAtoms(o.parser.state, ch) else [];
    Result(o.parser, text + Notes(o.ops), ExitOf(o.next), if o.next == Advance || o.next == Leave then 1 else 0)
  }

  function Step(p: Parser, ch: char): Result {
    var q := Count(p);
    if ParsingHeader(p.state) && q.nread > MAX_HEADER_SIZE then
      Result(q.(errno := HEADER_OVERFLOW), [], Failed, 0)
    else if q.state.InBody? then BodyStep(q, ch)
    else SwitchStep(q, ch)
  }

  function Then(r: Result, s: Result): Result {
    Result(s.parser, r.atoms + s.atoms, s.exit, r.consumed + s.consumed)
  }

  /** Reading a whole string with some one-byte step, stopping at the first error or upgrade. */
  function Fold(step: (Parser, char) -> Result, p: Parser, data: string): Result {
    if data == [] then Result(p, [], Running, 0)
    else
      var n := |data| - 1;
      var r := Fold(step, p, data[..n]);
      if r.exit != Running then r else Then(r, step(r.parser, data[n]))
  }

  function Run(p: Parser, data: string): Result {
    Fold(Step, p, data)
  }

  // ---- The invariant behind the parser's asserts ----

  predicate FieldState(h: HeaderState, index: nat) {
    match h
    case HGeneral | HConnection | HContentLength | HTransferEncoding | HUpgrade => true
    case HC => index == 0
    case HCO => index == 1
    case HCON => index == 2
    case HMatchConnection => 3 <= index < 9
    case HMatchProxyConnection => index < 15
    case HMatchContentLength => 3 <= index < 13
    case HMatchTransferEncoding => index < 16
    case HMatchUpgrade => index < 6
    case _ => false
  }

  predicate ValueState(h: HeaderState, index: nat) {
    match h
    case HGeneral | HContentLength | HChunked | HKeepAlive | HClose => true
    case HMatchChunked => index < 6
    case HMatchKeepAlive => index < 9
    case HMatchClose => index < 4
    case _ => false
  }

  /** Between two bytes `tick` is 0; once the byte is counted it is 1. */
  predicate StateInv(p: Parser, tick: nat) {
    match p.state
    case InHeader(HeaderField) => FieldState(p.headerState, p.index)
    case InHeader(HeaderValue) => ValueState(p.headerState, p.index)
    case InChunk(c) =>
      p.flags.chunked &&
      (match c
       case ChunkSizeStart => p.nread == tick
       case ChunkSize | ChunkParameters | ChunkSizeAlmostDone => p.contentLength < MAX64
       case ChunkDataAlmostDone => p.contentLength == 0
       case ChunkDataDone => true)
    case InDone(d) => tick == 1 || d.HeadersAlmostDone?
    case InBody(ChunkData) => p.flags.chunked && 0 < p.contentLength < MAX64
    case InBody(BodyIdentity) => 0 < p.contentLength < MAX64
    case _ => true
  }

  predicate Inv(p: Parser, tick: nat) {
    p.errno == OK && p.nread <= MAX_HEADER_SIZE && p.contentLength <= MAX64 && StateInv(p, tick)
  }

  predicate OnlyNotes(ops: Ops) {
    match ops case Nil => true case Cons(op, rest) => op.Notify? && OnlyNotes(rest)
  }

  /** The discipline of marks: what a byte does to the mark of the text being read. */
  predicate Shape(p: Parser, o: Outcome) {
    var before, after := TextKind(p.state), TextKind(o.parser.state);
    match o.next
    case Abort => true
    case Fail => o.ops == Nil
    case _ =>
      if p.state == InChunk(ChunkDataAlmostDone) then after == None && o.ops == Just(Flush(Body))
      else if before == after == None then OnlyNotes(o.ops) || o.ops == Cons(Mark(Value), Just(Flush(Value)))
      else if before == after then o.ops == Nil
      else if before == None then o.ops == Just(Mark(after.value))
      else after == None && o.ops == Just(Flush(before.value))
  }

  /** What one execution of the switch keeps: no assert fails, the invariant survives, marks are
      handled in step with the state. */
  predicate Good(p: Parser, o: Outcome) {
    o.next != Abort && Shape(p, o) &&
    (o.next == Fail ==> o.parser.errno != OK) &&
    (o.next == Advance || o.next == Leave ==> Inv(o.parser, 0)) &&
    (o.next == Leave ==> o.parser.state.InStart?) &&
    (o.next == Reexecute ==>
       Inv(o.parser, 1) &&
       if p.state == InHeader(HeaderValue) then o.ops == Just(Flush(Value)) && o.parser.state == InHeader(HeaderAlmostDone)
       else
         TextKind(p.state) == TextKind(o.parser.state) == None &&
         p.state != InChunk(ChunkDataAlmostDone) && o.parser.state != InChunk(ChunkDataAlmostDone) && OnlyNotes(o.ops) &&
         (o.ops != Nil ==> o.parser.state == InDone(HeadersDone)))
  }

  lemma GoodStart(p: Parser, ch: char)
    requires Inv(p, 1) && p.state.InStart?
    ensures Good(p, SwitchStart(p, ch))
  {
    hide IsAlpha, FirstMethod;
  }

  lemma GoodStatusLine(p: Parser, ch: char)
    requires Inv(p, 1) && p.state.InStatusLine?
    ensures Good(p, SwitchStatusLine(p, ch))
  {
    hide IsNum, Digit;
  }

  lemma GoodMethod(p: Parser, ch: char)
    requires Inv(p, 1) && p.state.InMethod?
    ensures Good(p, SwitchMethod(p, ch))
  {
    hide OtherMethod, MethodString, At;
  }

  lemma GoodUrl(p: Parser, ch: char)
    requires Inv(p, 1) && p.state.InUrl?
    ensures Good(p, SwitchUrl(p, ch))
  {
    hide ParseUrlChar;
  }

  lemma GoodVersion(p: Parser, ch: char)
    requires Inv(p, 1) && p.state.InVersion?
    ensures Good(p, SwitchVersion(p, ch))
  {
    hide IsNum, Digit;
  }

  lemma GoodMatch(p: Parser, code: int)
    requires FieldState(p.headerState, p.index)
    ensures var q := FieldMatch(p, code);
            q == p.(index := q.index, headerState := q.headerState) && FieldState(q.headerState, q.index)
  {
  }

  lemma GoodFieldByte(p: Parser, code: int)
    requires Inv(p, 1) && p.state == InHeader(HeaderField)
    ensures Good(p, FieldByte(p, code))
  {
    hide FieldMatch;
    GoodMatch(p, code);
  }

  lemma GoodField(p: Parser, ch: char)
    requires Inv(p, 1) && p.state == InHeader(HeaderField)
    ensures Good(p, SwitchField(p, ch))
  {
    hide FieldByte, IsToken;
    if IsToken(ch) {
      GoodFieldByte(p, TokenCode(ch));
    }
  }

  lemma GoodValueStart(p: Parser, ch: char)
    requires Inv(p, 1) && p.state == InHeader(HeaderValueStart)
    ensures Good(p, SwitchValueStart(p, ch))
  {
    hide IsNum, Digit, Lower;
  }

  lemma GoodValueMatch(p: Parser, code: int)
    requires ValueState(p.headerState, p.index)
    ensures var q := ValueMatch(p, code);
            q == p.(index := q.index, headerState := q.headerState) && ValueState(q.headerState, q.index)
  {
  }

  lemma GoodValueByte(p: Parser, ch: char)
    requires Inv(p, 1) && p.state == InHeader(HeaderValue)
    ensures Good(p, ValueByte(p, ch))
  {
    hide ValueMatch, Accumulate, Lower, IsNum;
    GoodValueMatch(p, Lower(ch));
  }

  lemma GoodValue(p: Parser, ch: char)
    requires Inv(p, 1) && p.state == InHeader(HeaderValue)
    ensures Good(p, SwitchValue(p, ch))
  {
    hide ValueByte;
    GoodValueByte(p, ch);
  }

  lemma GoodHeader(p: Parser, ch: char)
    requires Inv(p, 1) && p.state.InHeader?
    ensures Good(p, SwitchHeader(p, ch))
  {
    hide SwitchField, SwitchValueStart, SwitchValue, IsToken, TokenCode;
    match p.state.header
    case HeaderField => GoodField(p, ch);
    case HeaderValueStart => GoodValueStart(p, ch);
    case HeaderValue => GoodValue(p, ch);
    case _ =>
  }

  lemma GoodDone(p: Parser, ch: char)
    requires Inv(p, 1) && p.state.InDone?
    ensures Good(p, SwitchDone(p, ch))
  {
    hide KeepAlive, NeedsEof;
  }

  lemma GoodChunk(p: Parser, ch: char)
    requires Inv(p, 1) && p.state.InChunk?
    ensures Good(p, SwitchChunk(p, ch))
  {
    hide Unhex, Accumulate;
  }

  lemma GoodSwitch(p: Parser, ch: char)
    requires Inv(p, 1) && !p.state.InBody?
    ensures Good(p, Switch(p, ch))
  {
    hide SwitchStart, SwitchStatusLine, SwitchMethod, SwitchUrl, SwitchVersion, SwitchHeader, SwitchDone, SwitchChunk, Good;
    match p.state
    case InStart(_) => GoodStart(p, ch);
    case InStatusLine(_) => GoodStatusLine(p, ch);
    case InMethod => GoodMethod(p, ch);
    case InUrl(_) => GoodUrl(p, ch);
    case InVersion(_) => GoodVersion(p, ch);
    case InHeader(_) => GoodHeader(p, ch);
    case InDone(_) => GoodDone(p, ch);
    case InChunk(_) => GoodChunk(p, ch);
  }

  lemma OnlyNotesAppend(a: Ops, b: Ops)
    requires OnlyNotes(a) && OnlyNotes(b)
    ensures OnlyNotes(Append(a, b))
  {
  }

  /** The switch with all its re-executions fails no assert and keeps the invariant. */
  lemma {:induction false} GoodDispatch(p: Parser, ch: char)
    requires Inv(p, 1) && !p.state.InBody?
    ensures var o := Dispatch(p, ch);
            o.next != Reexecute && o.next != Abort && Shape(p, o) &&
            (o.next == Fail ==> o.parser.errno != OK) &&
            (o.next == Leave ==> o.parser.state.InStart?) &&
            (o.next == Advance || o.next == Leave ==> Inv(o.parser, 0))
    decreases Rank(p.state)
  {
    hide Inv, SwitchStart, SwitchStatusLine, SwitchMethod, SwitchUrl, SwitchVersion, SwitchChunk, NewMessage,
         SwitchField, SwitchValueStart;
    GoodSwitch(p, ch);
    var o := Switch(p, ch);
    if o.next == Reexecute {
      ReexecutionDescends(p, ch);
      GoodDispatch(o.parser, ch);
      var r := Dispatch(o.parser, ch);
      if p.state == InHeader(HeaderValue) {
        assert r == Switch(o.parser, ch) && r.ops == Nil;
        assert Append(o.ops, Nil) == o.ops;
      } else if o.ops == Nil {
        assert Append(Nil, r.ops) == r.ops;
      } else {
        assert o.parser.state == InDone(HeadersDone) && r == Switch(o.parser, ch);
        OnlyNotesAppend(o.ops, r.ops);
      }
    }
  }

  /** One byte: no assert fails; the parser stays in a good state, or stops with an error. */
  lemma GoodStep(p: Parser, ch: char)
    requires Inv(p, 0)
    ensures var r := Step(p, ch);
            r.exit != Aborted &&
            (r.exit == Failed ==> r.parser.errno != OK) &&
            (r.exit == Running || r.exit == Upgraded ==> Inv(r.parser, 0) && r.consumed == 1)
  {
    var q := Count(p);
    if !q.state.InBody? && q.nread <= MAX_HEADER_SIZE {
      GoodDispatch(q, ch);
    }
  }

  /** Over every input, none of the parser's asserts can fail. */
  lemma {:induction false} NoAssertFails(p: Parser, data: string)
    requires Inv(p, 0)
    ensures var r := Run(p, data);
            r.exit != Aborted &&
            (r.exit == Failed ==> r.parser.errno != OK) &&
            (r.exit == Running || r.exit == Upgraded ==> Inv(r.parser, 0)) &&
            (r.exit == Running ==> r.consumed == |data|)
  {
    if data != [] {
      var n := |data| - 1;
      NoAssertFails(p, data[..n]);
      var r := Run(p, data[..n]);
      if r.exit == Running {
        GoodStep(r.parser, data[n]);
      }
    }
  }

  lemma {:induction false} FoldSplit(step: (Parser, char) -> Result, p: Parser, a: string, b: string)
    ensures var r := Fold(step, p, a);
            Fold(step, p, a + b) == if r.exit == Running then Then(r, Fold(step, r.parser, b)) else r
  {
    if b == [] {
      assert a + b == a;
    } else {
      var n := |b| - 1;
      FoldSplit(step, p, a, b[..n]);
      assert (a + b)[..|a + b| - 1] == a + b[..n];
    }
  }

  /** Reading a + b is reading a and then, if the parser is still running, reading b. */
  lemma RunSplit(p: Parser, a: string, b: string)
    ensures var r := Run(p, a);
            Run(p, a + b) == if r.exit == Running then Then(r, Run(r.parser, b)) else r
  {
    FoldSplit(Step, p, a, b);
  }

  lemma RunEmpty(p: Parser)
    ensures Run(p, []) == Result(p, [], Running, 0)
  {
  }

  lemma RunByte(p: Parser, ch: char)
    ensures Run(p, [ch]) == Step(p, ch)
  {
    var r := Fold(Step, p, [ch][..0]);
    assert r == Result(p, [], Running, 0);
    assert Then(r, Step(p, ch)).atoms == Step(p, ch).atoms;
  }

  /** Reading one more byte. */
  lemma RunNext(p: Parser, data: string, i: nat)
    requires i < |data|
    ensures var r := Run(p, data[..i]);
            Run(p, data[..i + 1]) == if r.exit == Running then Then(r, Step(r.parser, data[i])) else r
  {
    assert data[..i + 1][..i] == data[..i];
  }
}
