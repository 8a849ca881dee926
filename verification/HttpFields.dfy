/** What the header lines deliver: names as header fields, values without the blanks before them, continuation lines
    included; colons, blanks and line ends are not delivered (base/http_parser.cpp:1191-1568). */
module HttpFields {
  import opened Wrappers
  import opened HttpTypes
  import opened HttpSwitch
  import opened HttpSpec
  import opened HttpExecute
  import opened HttpHeaders

  /** The texts of a header in the order in which they are delivered. */
  function LinesAtoms(lines: seq<ValueLine>): seq<Atom> {
    if lines == [] then [] else Text(Value, lines[0].text) + LinesAtoms(lines[1..])
  }

  function HeaderAtoms(h: Header): seq<Atom> {
    Text(Field, h.name) + if h.FieldLine? then Text(Value, h.first.text) + LinesAtoms(h.more) else []
  }

  function BlockAtoms(headers: seq<Header>): seq<Atom> {
    if headers == [] then [] else BlockAtoms(headers[..|headers| - 1]) + HeaderAtoms(headers[|headers| - 1])
  }

  // ---- The position in a header line, without what the line means ----

  function NextPos(pos: HeaderPos, ch: char): HeaderPos {
    match pos
    case HeaderFieldStart => HeaderField
    case HeaderField =>
      if ch == ':' then HeaderValueStart else if ch == CR then HeaderAlmostDone
      else if ch == LF then HeaderFieldStart else HeaderField
    case HeaderValueStart =>
      if ch == ' ' || ch == '\t' then HeaderValueStart else if ch == CR then HeaderAlmostDone
      else if ch == LF then HeaderFieldStart else HeaderValue
    case HeaderValue => if ch == CR then HeaderAlmostDone else if ch == LF then HeaderValueLws else HeaderValue
    case HeaderAlmostDone => HeaderValueLws
    case HeaderValueLws => if ch == ' ' || ch == '\t' then HeaderValueStart else HeaderField
  }

  /** The byte does not begin the empty line. */
  predicate Goes(pos: HeaderPos, ch: char) { pos.HeaderFieldStart? || pos.HeaderValueLws? ==> ch != CR && ch != LF }

  lemma PosStep(p: Parser, ch: char)
    requires p.state.InHeader? && Goes(p.state.header, ch) && Step(p, ch).exit == Running
    ensures var r, s := Step(p, ch), InHeader(NextPos(p.state.header, ch));
            r.parser.state == s && r.atoms == TextAtoms(s, ch)
  {
    hide Dispatch, Goes, NextPos, SwitchField, SwitchValueStart;
    var q := p.(nread := p.nread + 1);
    match p.state.header
    case HeaderField => FieldPos(q, ch);
    case HeaderValueStart => ValueStartPos(q, ch);
    case HeaderValue => ValuePos(q, ch);
    case HeaderValueLws => LwsPos(q, ch);
    case HeaderFieldStart => StartPos(q, ch);
    case HeaderAlmostDone => AlmostDonePos(q, ch);
  }

  /** An outcome that leads to a position and notifies nobody. */
  predicate To(o: Outcome, pos: HeaderPos) {
    o.next == Advance ==> o.parser.state == InHeader(pos) && Notes(o.ops) == []
  }

  lemma StartPos(p: Parser, ch: char)
    requires p.state == InHeader(HeaderFieldStart) && Goes(HeaderFieldStart, ch)
    ensures To(Dispatch(p, ch), NextPos(HeaderFieldStart, ch))
  {
    hide FirstFieldState, TokenCode, IsToken;
    assert Notes(Just(Mark(Field))) == [];
  }

  lemma AlmostDonePos(p: Parser, ch: char)
    requires p.state == InHeader(HeaderAlmostDone)
    ensures To(Dispatch(p, ch), NextPos(HeaderAlmostDone, ch))
  {
  }

  lemma FieldPos(p: Parser, ch: char)
    requires p.state == InHeader(HeaderField)
    ensures To(Dispatch(p, ch), NextPos(HeaderField, ch))
  {
    hide FieldMatch, TokenCode;
    assert Notes(Just(Flush(Field))) == [];
  }

  lemma ValueStartPos(p: Parser, ch: char)
    requires p.state == InHeader(HeaderValueStart)
    ensures To(Dispatch(p, ch), NextPos(HeaderValueStart, ch))
  {
    hide Lower, Digit, IsNum;
    assert Notes(Cons(Mark(Value), Just(Flush(Value)))) == [] && Notes(Just(Mark(Value))) == [];
  }

  lemma ValuePos(p: Parser, ch: char)
    requires p.state == InHeader(HeaderValue)
    ensures To(Dispatch(p, ch), NextPos(HeaderValue, ch))
  {
    hide ValueByte, SwitchHeaderEnd;
    if ch == LF {
      var h := p.(state := InHeader(HeaderAlmostDone));
      EndPos(h);
      assert Dispatch(h, LF) == SwitchHeaderEnd(h, LF);
      assert Append(Just(Flush(Value)), Nil) == Just(Flush(Value));
    } else {
      ValueBytePos(p, ch);
    }
    assert Notes(Just(Flush(Value))) == [];
  }

  lemma EndPos(p: Parser)
    ensures var o := SwitchHeaderEnd(p, LF); o.next == Advance && o.parser.state == InHeader(HeaderValueLws) && o.ops == Nil
  {
  }

  lemma ValueBytePos(p: Parser, ch: char)
    requires p.state == InHeader(HeaderValue)
    ensures To(ValueByte(p, ch), HeaderValue)
  {
    hide ValueMatch, Lower, Digit, IsNum;
  }

  lemma LwsPos(p: Parser, ch: char)
    requires p.state == InHeader(HeaderValueLws) && Goes(HeaderValueLws, ch)
    ensures To(Dispatch(p, ch), NextPos(HeaderValueLws, ch))
  {
    hide FirstFieldState, TokenCode, IsToken;
    if ch != ' ' && ch != '\t' {
      var h := p.(state := InHeader(HeaderFieldStart));
      assert Dispatch(h, ch) == SwitchFieldStart(h, ch);
      assert Append(Nil, Dispatch(h, ch).ops) == Dispatch(h, ch).ops;
    }
    assert Notes(Just(Mark(Field))) == [];
  }

  // ---- Texts ----

  function PosAfter(pos: HeaderPos, s: string): HeaderPos {
    if s == [] then pos else NextPos(PosAfter(pos, s[..|s| - 1]), s[|s| - 1])
  }

  function PosAtoms(pos: HeaderPos, s: string): seq<Atom> {
    if s == [] then [] else PosAtoms(pos, s[..|s| - 1]) + TextAtoms(InHeader(PosAfter(pos, s)), s[|s| - 1])
  }

  predicate GoesOn(pos: HeaderPos, s: string) {
    s == [] || (GoesOn(pos, s[..|s| - 1]) && Goes(PosAfter(pos, s[..|s| - 1]), s[|s| - 1]))
  }

  lemma {:induction false} PosRun(p: Parser, s: string)
    requires p.state.InHeader? && GoesOn(p.state.header, s) && Run(p, s).exit == Running
    ensures Run(p, s).parser.state == InHeader(PosAfter(p.state.header, s)) && Run(p, s).atoms == PosAtoms(p.state.header, s)
  {
    hide Run, Step, Goes, NextPos;
    if s == [] {
      RunEmpty(p);
    } else {
      var n := |s| - 1;
      RunNext(p, s, n);
      assert s[..n + 1] == s;
      PosRun(p, s[..n]);
      PosStep(Run(p, s[..n]).parser, s[n]);
    }
  }

  /** A text leads from one position to another and delivers these atoms. */
  predicate Tells(pos: HeaderPos, s: string, after: HeaderPos, atoms: seq<Atom>) {
    GoesOn(pos, s) && PosAfter(pos, s) == after && PosAtoms(pos, s) == atoms
  }

  lemma {:induction false} AfterSplit(pos: HeaderPos, a: string, b: string)
    ensures PosAfter(pos, a + b) == PosAfter(PosAfter(pos, a), b)
  {
    hide NextPos;
    if b == [] {
      assert a + b == a;
    } else {
      AfterSplit(pos, a, b[..|b| - 1]);
      assert (a + b)[..|a + b| - 1] == a + b[..|b| - 1];
    }
  }

  lemma {:induction false} GoesSplit(pos: HeaderPos, a: string, b: string)
    ensures GoesOn(pos, a + b) <==> GoesOn(pos, a) && GoesOn(PosAfter(pos, a), b)
  {
    hide NextPos, Goes, PosAfter;
    if b == [] {
      assert a + b == a;
    } else {
      AfterSplit(pos, a, b[..|b| - 1]);
      GoesSplit(pos, a, b[..|b| - 1]);
      assert (a + b)[..|a + b| - 1] == a + b[..|b| - 1];
    }
  }

  lemma {:induction false} AtomsSplit(pos: HeaderPos, a: string, b: string)
    ensures PosAtoms(pos, a + b) == PosAtoms(pos, a) + PosAtoms(PosAfter(pos, a), b)
  {
    hide NextPos, TextAtoms, PosAfter;
    if b == [] {
      assert a + b == a;
    } else {
      AfterSplit(pos, a, b);
      AtomsSplit(pos, a, b[..|b| - 1]);
      assert (a + b)[..|a + b| - 1] == a + b[..|b| - 1];
    }
  }

  lemma TellsMore(pos: HeaderPos, a: string, mid: HeaderPos, x: seq<Atom>, b: string, after: HeaderPos, y: seq<Atom>)
    requires Tells(pos, a, mid, x) && Tells(mid, b, after, y)
    ensures Tells(pos, a + b, after, x + y)
  {
    hide PosAfter, GoesOn, PosAtoms;
    AfterSplit(pos, a, b);
    GoesSplit(pos, a, b);
    AtomsSplit(pos, a, b);
  }

  /** What a text delivers in one position. */
  function Delivered(pos: HeaderPos, s: string): seq<Atom> {
    match TextKind(InHeader(pos)) case Some(k) => Text(k, s) case None => []
  }

  lemma DeliveredNext(pos: HeaderPos, s: string, n: nat)
    requires |s| == n + 1
    ensures Delivered(pos, s) == Delivered(pos, s[..n]) + TextAtoms(InHeader(pos), s[n])
    ensures Delivered(pos, []) == []
  {
    if TextKind(InHeader(pos)).Some? {
      var k := TextKind(InHeader(pos)).value;
      assert Text(k, s) == Text(k, s[..n]) + [Byte(k, s[n])];
    }
  }

  /** A text all of whose bytes lead to one position. */
  lemma {:induction false} TellsAlike(pos: HeaderPos, s: string, after: HeaderPos)
    requires forall i :: 0 <= i < |s| ==> Alike(if i == 0 then pos else after, s[i], after)
    requires s == [] ==> pos == after
    ensures Tells(pos, s, after, Delivered(after, s))
  {
    hide Goes, NextPos, TextAtoms, Delivered;
    if s == [] {
      DeliveredNext(after, [' '], 0);
    } else {
      var n := |s| - 1;
      DeliveredNext(after, s, n);
      if n > 0 {
        TellsAlike(pos, s[..n], after);
      } else {
        assert s[..n] == [];
      }
      var mid := if n == 0 then pos else after;
      assert Alike(mid, s[n], after);
      assert PosAfter(pos, s[..n]) == mid;
      assert GoesOn(pos, s[..n]);
      assert PosAtoms(pos, s[..n]) == Delivered(after, s[..n]);
      assert PosAfter(pos, s) == after;
      assert GoesOn(pos, s);
      assert PosAtoms(pos, s) == PosAtoms(pos, s[..n]) + TextAtoms(InHeader(after), s[n]);
    }
  }

  predicate Alike(pos: HeaderPos, ch: char, after: HeaderPos) { Goes(pos, ch) && NextPos(pos, ch) == after }

  lemma TellsByte(pos: HeaderPos, ch: char)
    requires Goes(pos, ch) && TextKind(InHeader(NextPos(pos, ch))).None?
    ensures Tells(pos, [ch], NextPos(pos, ch), [])
  {
    assert [ch][..0] == [];
  }

  // ---- Headers ----

  predicate AtLine(pos: HeaderPos) { pos.HeaderFieldStart? || pos.HeaderValueLws? }

  /** The position after a line end. */
  function Ended(pos: HeaderPos, e: Eol): HeaderPos {
    if e.CrLf? || pos.HeaderValue? then HeaderValueLws else HeaderFieldStart
  }

  lemma TellsEnd(pos: HeaderPos, e: Eol)
    requires pos.HeaderField? || pos.HeaderValueStart? || pos.HeaderValue?
    ensures Tells(pos, End(e), Ended(pos, e), [])
  {
    if e.CrLf? {
      TellsByte(pos, CR);
      TellsByte(HeaderAlmostDone, LF);
      TellsMore(pos, [CR], HeaderAlmostDone, [], [LF], HeaderValueLws, []);
      assert [CR] + [LF] == End(e);
    } else {
      TellsByte(pos, LF);
    }
  }

  lemma TellsName(pos: HeaderPos, name: string)
    requires AtLine(pos) && Tokens(name) && name != []
    ensures Tells(pos, name, HeaderField, Text(Field, name))
  {
    forall i | 0 <= i < |name|
      ensures Alike(if i == 0 then pos else HeaderField, name[i], HeaderField)
    {
      assert IsToken(name[i]);
    }
    hide Tells;
    TellsAlike(pos, name, HeaderField);
  }

  /** A line of a value, from behind the colon or from the first blank of a continuation line. */
  lemma TellsPiece(pos: HeaderPos, v: ValueLine)
    requires pos.HeaderValueStart? || (pos.HeaderValueLws? && v.pad != [])
    requires Blank(v.pad) && Trimmed(v.text)
    ensures Tells(pos, Piece(v), Ended(if v.text == [] then HeaderValueStart else HeaderValue, v.eol), Text(Value, v.text))
  {
    hide Tells, End;
    TellsAlike(pos, v.pad, HeaderValueStart);
    var mid := if v.text == [] then HeaderValueStart else HeaderValue;
    if v.text == [] {
      assert v.text + End(v.eol) == End(v.eol);
    } else {
      forall i | 0 <= i < |v.text|
        ensures Alike(if i == 0 then HeaderValueStart else HeaderValue, v.text[i], HeaderValue)
      {
        assert v.text[i] != CR && v.text[i] != LF;
      }
      TellsAlike(HeaderValueStart, v.text, HeaderValue);
    }
    TellsEnd(mid, v.eol);
    var after := Ended(mid, v.eol);
    if v.text != [] {
      TellsMore(HeaderValueStart, v.text, HeaderValue, Text(Value, v.text), End(v.eol), after, []);
      assert Text(Value, v.text) + [] == Text(Value, v.text);
    }
    TellsMore(pos, v.pad, HeaderValueStart, [], v.text + End(v.eol), after, Text(Value, v.text));
    assert [] + Text(Value, v.text) == Text(Value, v.text);
  }

  lemma {:induction false} TellsPieces(pos: HeaderPos, lines: seq<ValueLine>)
    requires AtLine(pos) && Foldable(lines) && (lines != [] ==> pos.HeaderValueLws?)
    ensures exists after :: AtLine(after) && Tells(pos, Pieces(lines), after, LinesAtoms(lines))
    decreases |lines|
  {
    if lines == [] {
      assert Tells(pos, [], pos, []);
    } else {
      var v, rest := lines[0], lines[1..];
      var mid := Ended(if v.text == [] then HeaderValueStart else HeaderValue, v.eol);
      FoldRest(lines);
      hide Tells, Piece, Foldable;
      TellsPiece(pos, v);
      TellsPieces(mid, rest);
      var after :| AtLine(after) && Tells(mid, Pieces(rest), after, LinesAtoms(rest));
      TellsMore(pos, Piece(v), mid, Text(Value, v.text), Pieces(rest), after, LinesAtoms(rest));
    }
  }

  lemma FoldRest(lines: seq<ValueLine>)
    requires Foldable(lines) && lines != []
    ensures Foldable(lines[1..]) && lines[0].pad != [] && Blank(lines[0].pad) && Trimmed(lines[0].text)
    ensures lines[1..] != [] ==> Continues(lines[0].text, lines[0].eol)
  {
    var rest := lines[1..];
    forall i | 0 <= i < |rest|
      ensures rest[i].pad != [] && Blank(rest[i].pad) && Trimmed(rest[i].text)
      ensures i + 1 < |rest| ==> Continues(rest[i].text, rest[i].eol)
    {
      assert rest[i] == lines[i + 1];
    }
  }

  lemma TellsHeader(pos: HeaderPos, h: Header)
    requires AtLine(pos) && WellFormed(h)
    ensures exists after :: AtLine(after) && Tells(pos, Bytes(h), after, HeaderAtoms(h))
  {
    hide Tells, Piece, Foldable, End, Pieces, IsLength, LinesAtoms;
    TellsName(pos, h.name);
    if h.FieldLine? {
      var v := h.first;
      var mid := Ended(if v.text == [] then HeaderValueStart else HeaderValue, v.eol);
      TellsByte(HeaderField, ':');
      TellsPiece(HeaderValueStart, v);
      TellsPieces(mid, h.more);
      var after :| AtLine(after) && Tells(mid, Pieces(h.more), after, LinesAtoms(h.more));
      var x, y := Text(Field, h.name), Text(Value, v.text);
      TellsMore(HeaderValueStart, Piece(v), mid, y, Pieces(h.more), after, LinesAtoms(h.more));
      TellsMore(pos, h.name, HeaderField, x, [':'], HeaderValueStart, []);
      assert x + [] == x;
      TellsMore(pos, h.name + [':'], HeaderValueStart, x, Piece(v) + Pieces(h.more), after, y + LinesAtoms(h.more));
    } else {
      TellsEnd(HeaderField, h.eol);
      TellsMore(pos, h.name, HeaderField, Text(Field, h.name), End(h.eol), Ended(HeaderField, h.eol), []);
    }
  }

  lemma {:induction false} TellsBlock(pos: HeaderPos, headers: seq<Header>)
    requires AtLine(pos) && AllWellFormed(headers)
    ensures exists after :: AtLine(after) && Tells(pos, Block(headers), after, BlockAtoms(headers))
  {
    hide Bytes, WellFormed, HeaderAtoms;
    if headers == [] {
      assert Tells(pos, [], pos, []);
    } else {
      hide Tells;
      var front, last := headers[..|headers| - 1], headers[|headers| - 1];
      TellsBlock(pos, front);
      var mid :| AtLine(mid) && Tells(pos, Block(front), mid, BlockAtoms(front));
      TellsHeader(mid, last);
      var after :| AtLine(after) && Tells(mid, Bytes(last), after, HeaderAtoms(last));
      TellsMore(pos, Block(front), mid, BlockAtoms(front), Bytes(last), after, HeaderAtoms(last));
    }
  }

  /** Any number of headers: their names and values are delivered in order, and nothing else. */
  lemma BlockDelivers(p: Parser, headers: seq<Header>)
    requires LineStart(p.state) && AllWellFormed(headers) && p.nread + |Block(headers)| + 1 <= MAX_HEADER_SIZE
    ensures Run(p, Block(headers)).atoms == BlockAtoms(headers)
  {
    hide Run, Tells, AllWellFormed, Block, BlockAtoms, BlockMeans, BlockAnnounces, GoesOn, PosAfter, PosAtoms;
    HeaderBlock(p, headers);
    TellsBlock(p.state.header, headers);
    var after :| AtLine(after) && Tells(p.state.header, Block(headers), after, BlockAtoms(headers));
    TellsIs(p.state.header, Block(headers), after, BlockAtoms(headers));
    PosRun(p, Block(headers));
  }

  lemma TellsIs(pos: HeaderPos, s: string, after: HeaderPos, atoms: seq<Atom>)
    requires Tells(pos, s, after, atoms)
    ensures GoesOn(pos, s) && PosAtoms(pos, s) == atoms
  {
  }
}
