/** http_parser_execute itself: a loop over the caller's buffer with marks into it and bulk body
    reads, proved to refine the byte-at-a-time semantics of HttpSpec. */
module HttpExecute {
  import opened Wrappers
  import opened HttpTypes
  import opened HttpSwitch
  import opened HttpSpec

  /** A callback invocation as the application sees it. */
  datatype Callback = Data(kind: DataKind, bytes: string) | Notice(note: Note)

  function Text(k: DataKind, s: string): seq<Atom> {
    seq(|s|, i requires 0 <= i < |s| => Byte(k, s[i]))
  }

  function FlattenOne(c: Callback): seq<Atom> {
    match c case Data(k, bytes) => Text(k, bytes) case Notice(n) => [Event(n)]
  }

  /** The bytes and notifications of a trace in order: two traces flatten alike exactly when they
      agree after adjacent data callbacks of one kind are merged and empty ones dropped. */
  function Flatten(calls: seq<Callback>): seq<Atom> {
    if calls == [] then []
    else Flatten(calls[..|calls| - 1]) + FlattenOne(calls[|calls| - 1])
  }

  lemma FlattenAdd(calls: seq<Callback>, c: Callback)
    ensures Flatten(calls + [c]) == Flatten(calls) + FlattenOne(c)
  {
    assert (calls + [c])[..|calls|] == calls;
  }

  // ---- Marks ----

  type Marks = map<DataKind, nat>

  predicate MarksUpTo(marks: Marks, i: nat) { forall k :: k in marks ==> marks[k] <= i }

  datatype Trace = Trace(marks: Marks, calls: seq<Callback>)

  function PerformOne(op: Op, t: Trace, data: string, i: nat): (r: Trace)
    requires i <= |data| && MarksUpTo(t.marks, i)
    ensures MarksUpTo(r.marks, i)
  {
    match op
    case Mark(k) => if k in t.marks then t else t.(marks := t.marks[k := i])
    case Flush(k) =>
      if k in t.marks then Trace(t.marks - {k}, t.calls + [Data(k, data[t.marks[k]..i])]) else t
    case Notify(n) => t.(calls := t.calls + [Notice(n)])
  }

  function Perform(ops: Ops, t: Trace, data: string, i: nat): (r: Trace)
    requires i <= |data| && MarksUpTo(t.marks, i)
    ensures MarksUpTo(r.marks, i)
    decreases ops
  {
    match ops
    case Nil => t
    case Cons(op, rest) => Perform(rest, PerformOne(op, t, data, i), data, i)
  }

  /** May a body mark be live in this state? */
  predicate BodyOpen(s: State) { s.InBody? || s == InChunk(ChunkDataAlmostDone) }

  /** Which marks are live in a state: never more than one. */
  predicate Fits(marks: Marks, s: State) {
    match TextKind(s)
    case Some(k) => marks.Keys == {k}
    case None => marks.Keys <= if BodyOpen(s) then {Body} else {}
  }

  function Part(marks: Marks, k: DataKind, data: string, i: nat): seq<Atom>
    requires i <= |data| && MarksUpTo(marks, i)
  {
    if k in marks then Text(k, data[marks[k]..i]) else []
  }

  /** The bytes seen but not yet delivered. */
  function Pending(marks: Marks, data: string, i: nat): seq<Atom>
    requires i <= |data| && MarksUpTo(marks, i)
  {
    Part(marks, Field, data, i) + Part(marks, Value, data, i) + Part(marks, Url, data, i) + Part(marks, Body, data, i)
  }

  /** The trace so far, with what is pending. */
  function Seen(t: Trace, data: string, i: nat): seq<Atom>
    requires i <= |data| && MarksUpTo(t.marks, i)
  {
    Flatten(t.calls) + Pending(t.marks, data, i)
  }

  lemma PendingNone(marks: Marks, data: string, i: nat)
    requires i <= |data| && marks.Keys == {}
    ensures Pending(marks, data, i) == []
  {
  }

  lemma PendingOne(marks: Marks, k: DataKind, data: string, i: nat)
    requires i <= |data| && MarksUpTo(marks, i) && marks.Keys == {k}
    ensures Pending(marks, data, i) == Text(k, data[marks[k]..i])
  {
  }

  lemma PendingGrows(marks: Marks, k: DataKind, data: string, i: nat, j: nat)
    requires i <= j <= |data| && MarksUpTo(marks, i) && marks.Keys == {k}
    ensures Pending(marks, data, j) == Pending(marks, data, i) + Text(k, data[i..j])
  {
    hide Pending, Text;
    PendingOne(marks, k, data, i);
    PendingOne(marks, k, data, j);
    assert data[marks[k]..j] == data[marks[k]..i] + data[i..j];
    TextConcat(k, data[marks[k]..i], data[i..j]);
  }

  lemma TextConcat(k: DataKind, x: string, y: string)
    ensures Text(k, x + y) == Text(k, x) + Text(k, y)
  {
  }

  lemma MarkStep(k: DataKind, t: Trace, data: string, i: nat)
    requires i < |data| && t.marks.Keys == {}
    ensures var r := Perform(Just(Mark(k)), t, data, i);
            r.marks.Keys == {k} && Seen(r, data, i + 1) == Seen(t, data, i) + [Byte(k, data[i])]
  {
    var r := Perform(Just(Mark(k)), t, data, i);
    assert r == t.(marks := t.marks[k := i]);
    PendingNone(t.marks, data, i);
    PendingOne(r.marks, k, data, i + 1);
    assert Text(k, data[i..i + 1]) == [Byte(k, data[i])];
  }

  lemma FlushStep(k: DataKind, t: Trace, data: string, i: nat)
    requires i < |data| && t.marks.Keys == {k} && MarksUpTo(t.marks, i)
    ensures var r := Perform(Just(Flush(k)), t, data, i);
            r.marks.Keys == {} && Seen(r, data, i + 1) == Seen(t, data, i)
  {
    var r := Perform(Just(Flush(k)), t, data, i);
    var c := Data(k, data[t.marks[k]..i]);
    assert r == Trace(t.marks - {k}, t.calls + [c]);
    PendingOne(t.marks, k, data, i);
    PendingNone(r.marks, data, i + 1);
    FlattenAdd(t.calls, c);
  }

  lemma EmptyStep(k: DataKind, t: Trace, data: string, i: nat)
    requires i < |data| && t.marks.Keys == {}
    ensures var r := Perform(Cons(Mark(k), Just(Flush(k))), t, data, i);
            r.marks.Keys == {} && Seen(r, data, i + 1) == Seen(t, data, i)
  {
    var u := PerformOne(Mark(k), t, data, i);
    var r := Perform(Just(Flush(k)), u, data, i);
    FlushStep(k, u, data, i);
    PendingNone(t.marks, data, i);
    PendingOne(u.marks, k, data, i);
  }

  lemma {:induction false} NotesStep(ops: Ops, t: Trace, data: string, i: nat)
    requires i < |data| && t.marks.Keys == {} && OnlyNotes(ops)
    ensures var r := Perform(ops, t, data, i);
            r.marks == t.marks && Seen(r, data, i + 1) == Seen(t, data, i) + Notes(ops)
    decreases ops
  {
    hide Pending;
    PendingNone(t.marks, data, i);
    PendingNone(t.marks, data, i + 1);
    match ops
    case Nil =>
    case Cons(op, rest) =>
      var u := PerformOne(op, t, data, i);
      NotesStep(rest, u, data, i);
      FlattenAdd(t.calls, Notice(op.note));
      PendingNone(u.marks, data, i);
  }

  /** The mark operations of a byte have, on the trace, exactly the effect the reference
      semantics gives to that byte. */
  lemma OpsRefine(p: Parser, o: Outcome, t: Trace, data: string, i: nat)
    requires i < |data| && MarksUpTo(t.marks, i) && Fits(t.marks, p.state)
    requires !p.state.InBody? && Shape(p, o) && (o.next == Advance || o.next == Leave)
    ensures var r := Perform(o.ops, t, data, i);
            Fits(r.marks, o.parser.state) &&
            Seen(r, data, i + 1) == Seen(t, data, i) + (TextAtoms(o.parser.state, data[i]) + Notes(o.ops))
  {
    hide Seen, Perform;
    var before, after := TextKind(p.state), TextKind(o.parser.state);
    if p.state == InChunk(ChunkDataAlmostDone) {
      if Body in t.marks {
        FlushStep(Body, t, data, i);
      } else {
        NotesStep(Nil, t, data, i);
        PerformNone(t, data, i);
      }
    } else if before == after == None {
      if OnlyNotes(o.ops) {
        NotesStep(o.ops, t, data, i);
      } else {
        EmptyStep(Value, t, data, i);
      }
    } else if before == after {
      TextStep(before.value, t, data, i);
    } else if before == None {
      MarkStep(after.value, t, data, i);
    } else {
      FlushStep(before.value, t, data, i);
    }
  }

  lemma PerformNone(t: Trace, data: string, i: nat)
    requires i <= |data| && t.marks.Keys == {}
    ensures Perform(Just(Flush(Body)), t, data, i) == Perform(Nil, t, data, i) == t
  {
  }

  lemma TextStep(k: DataKind, t: Trace, data: string, i: nat)
    requires i < |data| && t.marks.Keys == {k} && MarksUpTo(t.marks, i)
    ensures Perform(Nil, t, data, i) == t && Seen(t, data, i + 1) == Seen(t, data, i) + [Byte(k, data[i])]
  {
    hide Pending, Flatten;
    PendingGrows(t.marks, k, data, i, i + 1);
    assert Text(k, data[i..i + 1]) == [Byte(k, data[i])];
  }

  // ---- Bulk body reads ----

  /** What reading n body bytes at once leaves behind. */
  function AfterBody(p: Parser, n: nat): Parser
    requires p.state.InBody? && (p.state.body.BodyIdentityEof? || n <= p.contentLength)
  {
    if p.state.body.BodyIdentityEof? then p
    else
      var q := p.(contentLength := p.contentLength - n);
      if q.contentLength != 0 then q
      else q.(state := if p.state.body.ChunkData? then InChunk(ChunkDataAlmostDone) else NewMessage(q))
  }

  function BodyAtoms(p: Parser, s: string): seq<Atom>
    requires p.state.InBody?
  {
    Text(Body, s) + if p.state.body.BodyIdentity? && |s| == p.contentLength then [Event(MessageComplete)] else []
  }

  /** Byte by byte, body bytes are delivered one by one and the message is completed by the last. */
  lemma {:induction false} BodyRun(p: Parser, s: string)
    requires Inv(p, 0) && p.state.InBody? && (p.state.body.BodyIdentityEof? || |s| <= p.contentLength)
    ensures Run(p, s) == Result(AfterBody(p, |s|), BodyAtoms(p, s), Running, |s|)
  {
    hide SwitchStep, NewMessage;
    if s != [] {
      var n := |s| - 1;
      BodyRun(p, s[..n]);
      RunNext(p, s, n);
      assert s[..n + 1] == s;
      assert Text(Body, s) == Text(Body, s[..n]) + [Byte(Body, s[n])];
    }
  }

  /** MARK(body), then as many bytes as the length or the buffer allows; the last byte of an identity
      body is re-executed in s_message_done. */
  method ReadBody(p: Parser, t: Trace, data: string, i: nat) returns (q: Parser, u: Trace, j: nat)
    requires Inv(p, 0) && p.state.InBody? && i < |data| && MarksUpTo(t.marks, i) && Fits(t.marks, p.state)
    ensures i < j <= |data| && Inv(q, 0) && MarksUpTo(u.marks, j) && Fits(u.marks, q.state)
    ensures var r := Run(p, data[i..j]);
            r.parser == q && r.exit == Running && r.consumed == j - i && Seen(u, data, j) == Seen(t, data, i) + r.atoms
  {
    hide Run, Step, Seen;
    var marked := PerformOne(Mark(Body), t, data, i);
    MarkBody(t, data, i);
    var toRead := if p.state.body.BodyIdentityEof? || |data| - i < p.contentLength then |data| - i
                  else p.contentLength;
    j := i + toRead;
    BodyRun(p, data[i..j]);
    NoAssertFails(p, data[i..j]);
    SeenGrows(marked, data, i, j);
    if p.state.body.BodyIdentityEof? {
      q, u := p, marked;
    } else {
      q, u := p.(contentLength := p.contentLength - toRead), marked;
      if q.contentLength == 0 {
        if p.state.body.ChunkData? {
          q := q.(state := InChunk(ChunkDataAlmostDone));
        } else {
          var o := SwitchDone(q.(state := InDone(MessageDone)), data[j - 1]);
          q := o.parser;
          u := Perform(Cons(Flush(Body), o.ops), marked, data, j);
          CompleteStep(marked, data, j);
        }
      }
    }
  }

  lemma SeenGrows(t: Trace, data: string, i: nat, j: nat)
    requires i <= j <= |data| && t.marks.Keys == {Body} && MarksUpTo(t.marks, i)
    ensures Seen(t, data, j) == Seen(t, data, i) + Text(Body, data[i..j])
  {
    PendingGrows(t.marks, Body, data, i, j);
  }

  lemma MarkBody(t: Trace, data: string, i: nat)
    requires i <= |data| && t.marks.Keys <= {Body} && MarksUpTo(t.marks, i)
    ensures var r := PerformOne(Mark(Body), t, data, i);
            r.marks.Keys == {Body} && r.calls == t.calls && Seen(r, data, i) == Seen(t, data, i)
  {
    var r := PerformOne(Mark(Body), t, data, i);
    if Body in t.marks {
    } else {
      PendingNone(t.marks, data, i);
      PendingOne(r.marks, Body, data, i);
    }
  }

  lemma CompleteStep(t: Trace, data: string, j: nat)
    requires j <= |data| && t.marks.Keys == {Body} && MarksUpTo(t.marks, j)
    ensures var u := Perform(Cons(Flush(Body), Just(Notify(MessageComplete))), t, data, j);
            u.marks.Keys == {} && Seen(u, data, j) == Seen(t, data, j) + [Event(MessageComplete)]
  {
    var c := Data(Body, data[t.marks[Body]..j]);
    var f := PerformOne(Flush(Body), t, data, j);
    var u := PerformOne(Notify(MessageComplete), f, data, j);
    PendingOne(t.marks, Body, data, j);
    PendingNone(u.marks, data, j);
    FlattenAdd(t.calls, c);
    FlattenAdd(t.calls + [c], Notice(MessageComplete));
  }

  /** The leftover callbacks after the last byte of a buffer. */
  function FlushAll(t: Trace, data: string): (u: Trace)
    requires MarksUpTo(t.marks, |data|)
  {
    var n := |data|;
    PerformOne(Flush(Body), PerformOne(Flush(Url),
      PerformOne(Flush(Value), PerformOne(Flush(Field), t, data, n), data, n), data, n), data, n)
  }

  lemma FlushAllNone(t: Trace, data: string)
    requires t.marks.Keys == {}
    ensures MarksUpTo(t.marks, |data|) && FlushAll(t, data) == t
  {
  }

  lemma FlushAllOne(t: Trace, data: string, k: DataKind)
    requires MarksUpTo(t.marks, |data|) && t.marks.Keys == {k}
    ensures FlushAll(t, data).calls == t.calls + [Data(k, data[t.marks[k]..])]
  {
    assert data[t.marks[k]..] == data[t.marks[k]..|data|];
    assert (t.marks - {k}).Keys == {};
  }

  /** The single live mark of a state. */
  lemma FitsOne(marks: Marks, s: State)
    requires Fits(marks, s)
    ensures marks.Keys == {} || exists k :: marks.Keys == {k}
    ensures |marks| <= 1
  {
    assert |marks| == |marks.Keys|;
    if marks.Keys != {} {
      var k := match TextKind(s) case Some(k) => k case None => Body;
      assert marks.Keys == {k};
    }
  }

  lemma FlushAllSeen(t: Trace, data: string, s: State)
    requires MarksUpTo(t.marks, |data|) && Fits(t.marks, s)
    ensures |t.marks| <= 1
    ensures Flatten(FlushAll(t, data).calls) == Seen(t, data, |data|)
  {
    hide Fits, FlushAll, Flatten;
    var n := |data|;
    FitsOne(t.marks, s);
    if t.marks.Keys == {} {
      PendingNone(t.marks, data, n);
      FlushAllNone(t, data);
    } else {
      var k :| t.marks.Keys == {k};
      PendingOne(t.marks, k, data, n);
      FlushAllOne(t, data, k);
      assert data[t.marks[k]..] == data[t.marks[k]..n];
      FlattenAdd(t.calls, Data(k, data[t.marks[k]..]));
    }
  }

  // ---- One byte outside the body ----

  /** The header count and the switch, marks included. */
  method ReadByte(p: Parser, t: Trace, data: string, i: nat) returns (q: Parser, u: Trace, next: Next)
    requires Inv(p, 0) && !p.state.InBody? && i < |data| && MarksUpTo(t.marks, i) && Fits(t.marks, p.state)
    ensures next == Advance || next == Leave || next == Fail
    ensures var s := Step(p, data[i]);
            q == s.parser && ExitOf(next) == s.exit && s.consumed == (if next == Fail then 0 else 1) &&
            (next == Fail ==> q.errno != OK && u == t && Flatten(t.calls) <= Seen(t, data, i) + s.atoms) &&
            (next != Fail ==>
               Inv(q, 0) && MarksUpTo(u.marks, i + 1) && Fits(u.marks, q.state) &&
               Seen(u, data, i + 1) == Seen(t, data, i) + s.atoms) &&
            (next == Leave ==> Seen(u, data, i + 1) == Flatten(u.calls))
  {
    hide Dispatch, Shape, Seen, Fits;
    q := Count(p);
    if ParsingHeader(p.state) && q.nread > MAX_HEADER_SIZE {
      q, u, next := q.(errno := HEADER_OVERFLOW), t, Fail;
      SeenPrefix(t, data, i);
    } else {
      GoodDispatch(q, data[i]);
      var o := Dispatch(q, data[i]);
      next := o.next;
      if next == Fail {
        u := t;
        SeenPrefix(t, data, i);
      } else {
        assert Fits(t.marks, q.state);
        OpsRefine(q, o, t, data, i);
        u := Perform(o.ops, t, data, i);
        if next == Leave {
          LeaveSeen(o.parser, u, data, i + 1);
        }
      }
      q := o.parser;
    }
  }

  // ---- The parser object ----

  /** The marks of a fresh buffer: text that began in an earlier buffer continues at offset 0. */
  function InitialMarks(s: State): Marks {
    match TextKind(s) case None => map[] case Some(k) => map[k := 0]
  }

  lemma InitialSeen(p: Parser, data: string)
    ensures var marks := InitialMarks(p.state);
            Fits(marks, p.state) && MarksUpTo(marks, 0) &&
            Run(p, data[..0]) == Result(p, Seen(Trace(marks, []), data, 0), Running, 0)
  {
  }

  /** What one call of http_parser_execute on a nonempty buffer does: a record in error is left alone; otherwise the
      record and the return value are those of the reference run, and so is the flattened trace, except that on an
      error the bytes pending under a mark are never delivered. */
  predicate Executed(before: Parser, data: string, after: Parser, calls: seq<Callback>, parsed: nat) {
    if before.errno != OK then after == before && calls == [] && parsed == 0
    else
      var r := Run(before, data);
      after == r.parser && parsed == r.consumed && r.exit != Aborted &&
      (r.exit != Failed ==> Flatten(calls) == r.atoms) &&
      (r.exit == Failed ==> Flatten(calls) <= r.atoms)
  }

  class HttpParser {
    var rec: Parser

    ghost predicate Valid()
      reads this
    {
      rec.errno == OK ==> Inv(rec, 0)
    }

    constructor (t: ParserType)
      ensures Valid() && rec == Init(t)
    {
      rec := Init(t);
    }

    /** A parser object holding a record left by earlier calls. */
    constructor Resume(r: Parser)
      requires Inv(r, 0)
      ensures Valid() && rec == r
    {
      rec := r;
    }

    /** The end of the stream: a zero-length buffer. */
    method ExecuteEof() returns (calls: seq<Callback>, parsed: nat)
      requires Valid()
      modifies this
      ensures Valid()
      ensures old(rec).errno != OK ==> rec == old(rec) && calls == [] && parsed == 0
      ensures old(rec).errno == OK && old(rec).state == InBody(BodyIdentityEof) ==>
                rec == old(rec) && calls == [Notice(MessageComplete)] && parsed == 0
      ensures old(rec).errno == OK && old(rec).state.InStart? && !old(rec).state.start.ResOrRespH? ==>
                rec == old(rec) && calls == [] && parsed == 0
      ensures old(rec).errno == OK && old(rec).state != InBody(BodyIdentityEof) &&
              !(old(rec).state.InStart? && !old(rec).state.start.ResOrRespH?) ==>
                rec == old(rec).(errno := INVALID_EOF_STATE) && calls == [] && parsed == 1
    {
      calls, parsed := [], 0;
      if rec.errno == OK {
        if rec.state == InBody(BodyIdentityEof) {
          calls := [Notice(MessageComplete)];
        } else if !(rec.state.InStart? && !rec.state.start.ResOrRespH?) {
          rec := rec.(errno := INVALID_EOF_STATE);
          parsed := 1;
        }
      }
    }

    /** http_parser_execute on a nonempty buffer. */
    method Execute(data: string) returns (calls: seq<Callback>, parsed: nat)
      requires Valid() && data != []
      modifies this
      ensures Valid() && Executed(old(rec), data, rec, calls, parsed)
    {
      hide Run, Step, Inv, Seen, Fits, MarksUpTo;
      calls, parsed := [], 0;
      if rec.errno != OK {
        return;
      }
      ghost var rec0 := rec;
      var p := rec;
      var t := Trace(InitialMarks(p.state), []);
      var i := 0;
      InitialSeen(p, data);
      while i < |data|
        invariant i <= |data| && rec == rec0
        invariant Inv(p, 0) && MarksUpTo(t.marks, i) && Fits(t.marks, p.state)
        invariant Run(rec0, data[..i]) == Result(p, Seen(t, data, i), Running, i)
      {
        if p.state.InBody? {
          var q, u, j := ReadBody(p, t, data, i);
          RunSplit(rec0, data[..i], data[i..j]);
          assert data[..i] + data[i..j] == data[..j];
          p, t, i := q, u, j;
        } else {
          RunNext(rec0, data, i);
          var q, u, next := ReadByte(p, t, data, i);
          if next != Advance {
            rec := q;
            StopsAt(rec0, data, i);
            parsed := if next == Leave then i + 1 else i;
            return u.calls, parsed;
          }
          p, t, i := q, u, i + 1;
        }
      }
      rec := p;
      assert data[..i] == data;
      FlushAllSeen(t, data, p.state);
      assert |t.marks| <= 1;
      t := FlushAll(t, data);
      return t.calls, |data|;
    }
  }

  /** A run that stops inside a buffer is the run over the whole buffer. */
  lemma StopsAt(p: Parser, data: string, i: nat)
    requires i < |data| && Run(p, data[..i + 1]).exit != Running
    ensures Run(p, data) == Run(p, data[..i + 1])
  {
    RunSplit(p, data[..i + 1], data[i + 1..]);
    assert data[..i + 1] + data[i + 1..] == data;
  }

  lemma SeenPrefix(t: Trace, data: string, i: nat)
    requires i <= |data| && MarksUpTo(t.marks, i)
    ensures Flatten(t.calls) <= Seen(t, data, i)
  {
  }

  lemma LeaveSeen(p: Parser, t: Trace, data: string, i: nat)
    requires i <= |data| && MarksUpTo(t.marks, i) && Fits(t.marks, p.state) && p.state.InStart?
    ensures Seen(t, data, i) == Flatten(t.calls)
  {
    PendingNone(t.marks, data, i);
  }
}
