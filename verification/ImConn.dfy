/** CImConn: partial sends with a busy flag, and reassembly from arbitrary recv pieces
    (base/imconn.cpp:80-191). The kernel is free to accept or return any number of bytes. */
module ImConns {
  import opened Bytes
  import opened Sequences
  import opened SimpleBuffers
  import opened Pdus

  const MAX_SOCKET_BUF: nat := 128 * 1024
  const READ_BUF_SIZE: nat := 2048

  // ---- The kernel ----

  /** The kernel's answers to successive calls: each is the most bytes it will take or give, zero or less when it would
      block or fails. After the last answer it would block. */
  type Answers = seq<int>

  /** How many of n bytes pass when they are offered or asked for in pieces of at most `chunk`, until the first answer
      that is not positive. */
  function Carried(n: nat, chunk: nat, answers: Answers): (k: nat)
    ensures k <= n
    decreases |answers|
  {
    if n == 0 || answers == [] || answers[0] <= 0 then 0
    else
      var k := OneCall(n, chunk, answers[0]);
      k + Carried(n - k, chunk, answers[1..])
  }

  /** What one call for at most n bytes and at most a piece returns. */
  function OneCall(n: nat, chunk: nat, answer: int): (ret: int)
    ensures ret <= n && ret <= answer && (answer >= 0 ==> ret >= 0)
  {
    var size := if n > chunk then chunk else n;
    if answer < size then answer else size
  }

  function FirstAnswer(answers: Answers): int { if answers == [] then 0 else answers[0] }

  /** One call. */
  lemma CarriedNext(n: nat, chunk: nat, answers: Answers)
    ensures var k := OneCall(n, chunk, FirstAnswer(answers));
            Carried(n, chunk, answers) == if k <= 0 then 0 else k + Carried(n - k, chunk, answers[1..])
  {
    if n > 0 && chunk == 0 && answers != [] && answers[0] > 0 {
      StuckNothing(n, answers[1..]);
    }
  }

  lemma CarriedBound(n: nat, chunk: nat, answers: Answers)
    ensures Carried(n, chunk, answers) <= n
  {
  }

  lemma CarriedNone(answers: Answers)
    ensures Carried(0, MAX_SOCKET_BUF, answers) == 0
  {
  }

  lemma {:induction false} StuckNothing(n: nat, answers: Answers)
    ensures Carried(n, 0, answers) == 0
    decreases |answers|
  {
    if answers != [] {
      StuckNothing(n, answers[1..]);
    }
  }

  /** A kernel that takes every piece offered, as long as there are bytes left. */
  predicate Willing(n: nat, chunk: nat, answers: Answers) {
    n <= |answers| * chunk && forall i :: 0 <= i < |answers| ==> answers[i] >= chunk
  }

  /** Then all bytes pass. */
  lemma {:induction false} WillingCarries(n: nat, chunk: nat, answers: Answers)
    requires chunk > 0 && Willing(n, chunk, answers)
    ensures Carried(n, chunk, answers) == n
    decreases |answers|
  {
    if n > 0 {
      var k := if n > chunk then chunk else n;
      assert answers != [] by {
        assert answers == [] ==> |answers| * chunk == 0;
      }
      assert (|answers| - 1) * chunk == |answers| * chunk - chunk;
      WillingCarries(n - k, chunk, answers[1..]);
    }
  }

  /** Bytes are left only behind an answer that is not positive, or behind the last. */
  lemma {:induction false} CarriedStops(n: nat, chunk: nat, answers: Answers)
    requires chunk > 0 && Carried(n, chunk, answers) < n
    ensures (exists i :: 0 <= i < |answers| && answers[i] <= 0) || Carried(n, chunk, answers) >= |answers|
    decreases |answers|
  {
    if answers != [] && answers[0] > 0 {
      var k := OneCall(n, chunk, answers[0]);
      CarriedStops(n - k, chunk, answers[1..]);
      if i :| 0 <= i < |answers[1..]| && answers[1..][i] <= 0 {
        assert answers[i + 1] <= 0;
      }
    }
  }

  lemma NextFront(before: seq<Byte>, all: seq<Byte>, at: nat, n: nat)
    requires at + n <= |all|
    ensures before + all[..at] + all[at..][..n] == before + all[..at + n] && all[at..][n..] == all[at + n..]
  {
    assert all[..at] + all[at..][..n] == all[..at + n];
  }

  lemma NextPiece(before: seq<Byte>, avail: seq<Byte>, taken: nat, n: nat)
    requires taken + n <= |avail|
    ensures before + avail[..taken] + avail[taken..taken + n] == before + avail[..taken + n]
  {
    assert avail[..taken] + avail[taken..taken + n] == avail[..taken + n];
  }

  /** What the sender's kernel accepts is appended to what is in transit. */
  lemma TransitGrows(was: seq<Byte>, wire: seq<Byte>, arrived: nat)
    requires was <= wire && arrived <= |was|
    ensures was[arrived..] + wire[|was|..] == wire[arrived..] && wire[..arrived] == was[..arrived]
  {
  }

  /** A part of the backlog goes out: wire and backlog together stay, and what is in transit grows by that part. */
  lemma QueueMoves(was: seq<Byte>, queue: seq<Byte>, k: nat, arrived: nat)
    requires k <= |queue| && arrived <= |was|
    ensures var wire := was + queue[..k];
            wire + queue[k..] == was + queue && wire[..arrived] == was[..arrived] &&
            was[arrived..] + wire[|was|..] == wire[arrived..]
  {
    assert queue[..k] + queue[k..] == queue;
    TransitGrows(was, was + queue[..k], arrived);
  }

  class Conn {
    var busy: bool
    const inBuf: SimpleBuffer
    const outBuf: SimpleBuffer
    /** Every byte the kernel has accepted for sending, and every frame handed to HandlePdu. */
    var wire: seq<Byte>
    var handled: seq<Frame>
    var closed: bool
    const throws: Throws

    ghost predicate Valid()
      reads this, inBuf, outBuf
    {
      inBuf != outBuf && inBuf.Valid() && outBuf.Valid() && inBuf.data != outBuf.data &&
      (busy <==> outBuf.offset > 0)
    }

    ghost function Footprint(): set<object>
      reads this, inBuf, outBuf
    {
      {this, inBuf, outBuf, inBuf.data, outBuf.data}
    }

    constructor (handler: Throws)
      ensures Valid() && fresh(Footprint()) && throws == handler
      ensures wire == [] && handled == [] && !closed && inBuf.Contents() == [] && outBuf.Contents() == []
    {
      busy, closed, throws := false, false, handler;
      inBuf := new SimpleBuffer();
      outBuf := new SimpleBuffer();
      wire, handled := [], [];
    }

    /** netlib_send: the kernel accepts a prefix, or refuses. */
    method NetSend(bytes: seq<Byte>, answer: int) returns (ret: int)
      modifies this`wire
      ensures ret == if answer < |bytes| then answer else |bytes|
      ensures wire == old(wire) + bytes[..if ret < 0 then 0 else ret]
    {
      ret := if answer < |bytes| then answer else |bytes|;
      wire := wire + bytes[..if ret < 0 then 0 else ret];
    }

    /** Offer the bytes to the kernel, at most MAX_SOCKET_BUF at a time, until it accepts no more. */
    method Push(bytes: seq<Byte>, answers: Answers) returns (at: nat)
      modifies this`wire
      ensures at == Carried(|bytes|, MAX_SOCKET_BUF, answers) && wire == old(wire) + bytes[..at]
    {
      hide Carried;
      at := 0;
      var rest := answers;
      assert bytes[..0] == [];
      while at < |bytes|
        invariant at <= |bytes| && wire == old(wire) + bytes[..at]
        invariant Carried(|bytes|, MAX_SOCKET_BUF, answers) == at + Carried(|bytes| - at, MAX_SOCKET_BUF, rest)
      {
        var size := if |bytes| - at > MAX_SOCKET_BUF then MAX_SOCKET_BUF else |bytes| - at;
        CarriedNext(|bytes| - at, MAX_SOCKET_BUF, rest);
        var ret := NetSend(bytes[at..at + size], FirstAnswer(rest));
        if ret <= 0 {
          break;
        }
        NextPiece(old(wire), bytes, at, ret);
        assert bytes[at..at + size][..ret] == bytes[at..at + ret];
        at, rest := at + ret, rest[1..];
      }
    }

    /** Send: what the kernel takes goes out, the rest waits; while anything waits, everything waits behind it. */
    method Send(bytes: seq<Byte>, answers: Answers)
      requires Valid() && Fits(outBuf.offset + |bytes|)
      modifies this`busy, this`wire, outBuf, outBuf.data
      ensures Valid() && (outBuf.data == old(outBuf.data) || fresh(outBuf.data))
      ensures old(wire) <= wire && wire + outBuf.Contents() == old(wire) + old(outBuf.Contents()) + bytes
      ensures |wire| == |old(wire)| + if old(busy) then 0 else Carried(|bytes|, MAX_SOCKET_BUF, answers)
    {
      if busy {
        outBuf.Write(bytes);
        return;
      }
      var at := Push(bytes, answers);
      if at < |bytes| {
        outBuf.Write(bytes[at..]);
        busy := true;
      }
      assert bytes[..at] + bytes[at..] == bytes;
    }

    /** Of a backlog `all` the first `at` bytes are on the wire and the others in the buffer. */
    ghost predicate Sent(before: seq<Byte>, all: seq<Byte>, at: nat)
      requires outBuf.Valid()
      reads this, outBuf, outBuf.data
    {
      at <= |all| && wire == before + all[..at] && outBuf.Contents() == all[at..]
    }

    /** One netlib_send of the front of the backlog, of which `at` bytes have gone before. */
    method SendFront(answer: int, ghost before: seq<Byte>, ghost all: seq<Byte>, ghost at: nat) returns (ret: int)
      requires outBuf.Valid() && outBuf.offset > 0 && Sent(before, all, at)
      modifies this`wire, outBuf, outBuf.data
      ensures outBuf.Valid() && outBuf.data == old(outBuf.data)
      ensures ret == OneCall(old(outBuf.offset), MAX_SOCKET_BUF, answer)
      ensures Sent(before, all, at + if ret < 0 then 0 else ret)
    {
      var size := if outBuf.offset > MAX_SOCKET_BUF then MAX_SOCKET_BUF else outBuf.offset;
      ghost var left := outBuf.Contents();
      var front := outBuf.data[..size];
      assert front == left[..size];
      ret := NetSend(front, answer);
      if ret > 0 {
        assert front[..ret] == left[..ret];
        NextFront(before, all, at, ret);
        var sent := outBuf.Read(ret);
      }
    }

    /** OnWrite: the backlog goes out as far as the kernel takes it. */
    method OnWrite(answers: Answers)
      requires Valid()
      modifies this`busy, this`wire, outBuf, outBuf.data
      ensures Valid() && outBuf.data == old(outBuf.data)
      ensures var k := Carried(old(outBuf.offset), MAX_SOCKET_BUF, answers);
              wire == old(wire) + old(outBuf.Contents())[..k] && outBuf.Contents() == old(outBuf.Contents())[k..]
    {
      if !busy {
        return;
      }
      Drain(answers);
      if outBuf.offset == 0 {
        busy := false;
      }
    }

    /** The loop over the backlog. */
    method Drain(answers: Answers)
      requires outBuf.Valid()
      modifies this`wire, outBuf, outBuf.data
      ensures outBuf.Valid() && outBuf.data == old(outBuf.data)
      ensures var k := Carried(old(outBuf.offset), MAX_SOCKET_BUF, answers);
              wire == old(wire) + old(outBuf.Contents())[..k] && outBuf.Contents() == old(outBuf.Contents())[k..]
    {
      hide Carried, OneCall;
      ghost var all, before := outBuf.Contents(), wire;
      ghost var at: nat := 0;
      var rest := answers;
      SentNone(before, all);
      while outBuf.offset > 0
        invariant outBuf.Valid() && outBuf.data == old(outBuf.data)
        invariant Sent(before, all, at) && at + outBuf.offset == |all|
        invariant Carried(|all|, MAX_SOCKET_BUF, answers) == at + Carried(|all| - at, MAX_SOCKET_BUF, rest)
        decreases outBuf.offset
      {
        CarriedNext(|all| - at, MAX_SOCKET_BUF, rest);
        var ret := SendFront(FirstAnswer(rest), before, all, at);
        if ret <= 0 {
          break;
        }
        at := at + ret;
        rest := rest[1..];
      }
      CarriedNone(rest);
      SentIs(before, all, at);
    }

    lemma SentNone(before: seq<Byte>, all: seq<Byte>)
      requires outBuf.Valid() && before == wire && all == outBuf.Contents()
      ensures Sent(before, all, 0) && |all| == outBuf.offset
    {
      assert all[..0] == [] && all[0..] == all;
    }

    lemma SentIs(before: seq<Byte>, all: seq<Byte>, at: nat)
      requires outBuf.Valid() && Sent(before, all, at)
      ensures at <= |all| && wire == before + all[..at] && outBuf.Contents() == all[at..]
    {
    }

    /** The recv loop: pieces of at most READ_BUF_SIZE bytes of what has arrived. */
    method Receive(avail: seq<Byte>, answers: Answers) returns (taken: nat)
      requires Valid() && Fits(inBuf.offset + |avail| + READ_BUF_SIZE)
      modifies inBuf, inBuf.data
      ensures Valid() && (inBuf.data == old(inBuf.data) || fresh(inBuf.data))
      ensures taken == Carried(|avail|, READ_BUF_SIZE, answers)
      ensures inBuf.Contents() == old(inBuf.Contents()) + avail[..taken]
    {
      hide Carried, OneCall, Fits;
      ghost var limit := inBuf.offset + |avail| + READ_BUF_SIZE;
      taken := 0;
      var rest := answers;
      while true
        invariant Valid() && (inBuf.data == old(inBuf.data) || fresh(inBuf.data))
        invariant taken <= |avail| && inBuf.Contents() == old(inBuf.Contents()) + avail[..taken]
        invariant Carried(|avail|, READ_BUF_SIZE, answers) == taken + Carried(|avail| - taken, READ_BUF_SIZE, rest)
        decreases |avail| - taken
      {
        FitsBelow(inBuf.offset + READ_BUF_SIZE, limit);
        if inBuf.data.Length - inBuf.offset < READ_BUF_SIZE {
          inBuf.Extend(READ_BUF_SIZE);
        }
        CarriedNext(|avail| - taken, READ_BUF_SIZE, rest);
        var ret := NetRecv(|avail| - taken, FirstAnswer(rest));
        if ret <= 0 {
          break;
        }
        FitsBelow(inBuf.offset + ret, limit);
        inBuf.Write(avail[taken..taken + ret]);
        NextPiece(old(inBuf.Contents()), avail, taken, ret);
        taken, rest := taken + ret, rest[1..];
      }
    }

    /** netlib_recv: at most READ_BUF_SIZE of the bytes that are there. */
    method NetRecv(there: nat, answer: int) returns (ret: int)
      ensures ret == OneCall(there, READ_BUF_SIZE, answer)
    {
      var size := if there > READ_BUF_SIZE then READ_BUF_SIZE else there;
      ret := if answer < size then answer else size;
    }

    /** OnRead: receive, then hand every whole frame to HandlePdu; a zero length or a handler that throws closes. */
    method OnRead(avail: seq<Byte>, answers: Answers) returns (taken: nat)
      requires Valid() && Fits(inBuf.offset + |avail| + READ_BUF_SIZE)
      modifies this`handled, this`closed, inBuf, inBuf.data
      ensures Valid() && (inBuf.data == old(inBuf.data) || fresh(inBuf.data))
      ensures taken == Carried(|avail|, READ_BUF_SIZE, answers)
      ensures var r := ParseAll(throws, old(inBuf.Contents()) + avail[..taken]);
              handled == old(handled) + r.frames && inBuf.Contents() == r.rest && closed == (old(closed) || r.broken)
    {
      hide ParseAll, Fits;
      taken := Receive(avail, answers);
      HandleAll();
    }

    /** The loop over the whole frames in the buffer. */
    method HandleAll()
      requires Valid()
      modifies this`handled, this`closed, inBuf, inBuf.data
      ensures Valid() && inBuf.data == old(inBuf.data)
      ensures var r := ParseAll(throws, old(inBuf.Contents()));
              handled == old(handled) + r.frames && inBuf.Contents() == r.rest && closed == (old(closed) || r.broken)
    {
      hide ReadFrame, ParseAll, Join;
      ghost var all := inBuf.Contents();
      ghost var found: seq<Frame> := [];
      JoinNone(ParseAll(throws, all));
      while true
        invariant Valid() && inBuf.data == old(inBuf.data)
        invariant handled == old(handled) + found && closed == old(closed)
        invariant ParseAll(throws, all) == Join(found, ParseAll(throws, inBuf.Contents()))
        decreases inBuf.offset
      {
        var frame := ReadFrame(inBuf.data[..inBuf.offset]);
        ParseStep(throws, inBuf.Contents(), found);
        match frame
        case NotYet =>
          break;
        case ZeroLength =>
          closed := true;
          break;
        case Frame(_, bytes) =>
          handled := handled + [frame];
          if throws(frame) {
            closed := true;
            found := found + [frame];
            break;
          }
          var dropped := inBuf.Read(|bytes|);
          found := found + [frame];
      }
    }
  }

  // ---- End to end ----

  /** A sender and a receiver joined by a network. Any interleaving of the three steps, with any
      kernel behaviour inside them, keeps Valid. */
  class Link {
    const sender: Conn
    const receiver: Conn
    /** Bytes accepted by the sender's kernel that the receiver has not yet received. */
    var transit: seq<Byte>
    ghost var sent: seq<Pdu>
    ghost var arrived: nat

    ghost predicate Valid()
      reads this, sender, receiver, sender.inBuf, sender.outBuf, receiver.inBuf, receiver.outBuf,
            sender.outBuf.data, receiver.inBuf.data
    {
      sender != receiver && sender.Valid() && receiver.Valid() &&
      sender.outBuf != receiver.inBuf && sender.outBuf.data != receiver.inBuf.data &&
      sender.outBuf.data != receiver.outBuf.data && sender.inBuf.data != receiver.inBuf.data &&
      sender.outBuf != receiver.outBuf && sender.inBuf != receiver.inBuf &&
      AllSendable(sent) &&
      // what was sent is what left the sender, then its backlog
      sender.wire + sender.outBuf.Contents() == Stream(sent) &&
      arrived <= |sender.wire| && transit == sender.wire[arrived..] &&
      // what arrived has been handled, up to the unfinished frame
      var r := ParseAll(receiver.throws, sender.wire[..arrived]);
      receiver.handled == r.frames && receiver.inBuf.Contents() == r.rest && receiver.closed == r.broken
    }

    /** Every object a step may change, now or once it has been replaced. */
    ghost function Footprint(): set<object>
      reads this, sender, receiver, sender.inBuf, sender.outBuf, receiver.inBuf, receiver.outBuf
    {
      {this} + sender.Footprint() + receiver.Footprint()
    }

    constructor (handler: Throws)
      ensures Valid() && fresh(Footprint()) && sent == [] && receiver.handled == [] && receiver.throws == handler
    {
      sender := new Conn(_ => false);
      receiver := new Conn(handler);
      transit := [];
      sent, arrived := [], 0;
    }

    /** In every reachable state the frames handled are exactly the PDUs wholly received, in order, with the header
        fields and bodies that were sent, up to the first whose handler throws; and the connection was closed exactly
        if there was one. */
    lemma Framing()
      requires Valid()
      ensures var k := Whole(sent, arrived);
              receiver.handled == Frames(sent[..Taken(receiver.throws, sent[..k])]) &&
              (receiver.closed <==> !Calm(receiver.throws, sent[..k])) &&
              (!receiver.closed ==> receiver.handled == Frames(sent[..k]))
    {
      assert arrived <= |Stream(sent)|;
      assert sender.wire[..arrived] == Stream(sent)[..arrived];
      ParsePrefix(receiver.throws, sent, arrived);
    }

    /** SendPdu. */
    method SendPdu(p: Pdu, answers: Answers)
      requires Valid() && Sendable(p) && Fits(sender.outBuf.offset + HEADER_LEN + |p.body|)
      modifies this, sender, sender.outBuf, sender.outBuf.data
      ensures Valid() && sent == old(sent) + [p] && receiver.handled == old(receiver.handled)
      ensures fresh(Footprint() - old(Footprint()))
    {
      hide ParseAll, Encode, Stream, AllSendable;
      var was := sender.wire;
      sender.Send(Encode(p), answers);
      StreamAdd(sent, p);
      sent := sent + [p];
      TransitGrows(was, sender.wire, arrived);
      transit := transit + sender.wire[|was|..];
    }

    /** The sender's socket became writable. */
    method Writable(answers: Answers)
      requires Valid()
      modifies this, sender, sender.outBuf, sender.outBuf.data
      ensures Valid() && sent == old(sent) && receiver.handled == old(receiver.handled)
      ensures sender.outBuf.offset == old(sender.outBuf.offset) - Carried(old(sender.outBuf.offset), MAX_SOCKET_BUF, answers)
      ensures fresh(Footprint() - old(Footprint()))
    {
      hide ParseAll, Stream, AllSendable, Carried;
      var was := sender.wire;
      ghost var queue := sender.outBuf.Contents();
      ghost var k := Carried(sender.outBuf.offset, MAX_SOCKET_BUF, answers);
      CarriedBound(sender.outBuf.offset, MAX_SOCKET_BUF, answers);
      QueueMoves(was, queue, k, arrived);
      sender.OnWrite(answers);
      transit := transit + sender.wire[|was|..];
    }

    /** Some bytes have arrived: the receiver takes any number of them in any pieces. A closed connection gets no
        more read events. */
    method Readable(answers: Answers)
      requires Valid() && Fits(receiver.inBuf.offset + |transit| + READ_BUF_SIZE)
      modifies this, receiver, receiver.inBuf, receiver.inBuf.data
      ensures Valid() && sent == old(sent) && old(receiver.handled) <= receiver.handled
      ensures sender.wire == old(sender.wire) && sender.outBuf.offset == old(sender.outBuf.offset)
      ensures arrived == old(arrived) + if old(receiver.closed) then 0 else Carried(old(|transit|), READ_BUF_SIZE, answers)
      ensures fresh(Footprint() - old(Footprint()))
    {
      hide ParseAll;
      if receiver.closed {
        return;
      }
      var taken := receiver.OnRead(transit, answers);
      ParseResumes(receiver.throws, sender.wire[..arrived], transit[..taken]);
      assert sender.wire[..arrived] + transit[..taken] == sender.wire[..arrived + taken];
      arrived := arrived + taken;
      transit := transit[taken..];
    }

    /** With an empty backlog, and the network empty or the connection closed, nothing is left to handle. */
    lemma AllArrived()
      requires Valid() && sender.outBuf.offset == 0 && (receiver.closed || arrived == |sender.wire|)
      ensures receiver.handled == Frames(sent[..Taken(receiver.throws, sent)])
    {
      Framing();
      hide ParseAll, Stream, Frames, Taken;
      assert sender.wire == Stream(sent);
      var k := Whole(sent, arrived);
      if receiver.closed {
        TakenEarly(receiver.throws, sent, k);
      } else {
        WholeStream(sent);
        assert sent[..|sent|] == sent;
      }
    }

    lemma SentSendable()
      requires Valid()
      ensures AllSendable(sent)
    {
    }

    /** Any one of the three. `limit` bounds all that is ever sent. */
    method Take(s: LinkStep, ghost limit: nat)
      requires Valid() && Fits(limit + READ_BUF_SIZE) && |Stream(sent)| <= limit
      requires s.SendStep? ==> Sendable(s.p) && |Stream(sent)| + HEADER_LEN + |s.p.body| <= limit
      modifies Footprint()
      ensures Valid() && fresh(Footprint() - old(Footprint()))
      ensures sent == Extended(old(sent), s)
    {
      hide Stream, ParseAll, AllSendable, Fits;
      Sizes();
      match s
      case SendStep(p, answers) =>
        FitsBelow(sender.outBuf.offset + HEADER_LEN + |p.body|, limit + READ_BUF_SIZE);
        SendPdu(p, answers);
      case WriteStep(answers) =>
        Writable(answers);
      case ReadStep(answers) =>
        FitsBelow(receiver.inBuf.offset + |transit| + READ_BUF_SIZE, limit + READ_BUF_SIZE);
        Readable(answers);
    }

    /** Neither buffer nor the network holds more than was sent. */
    lemma Sizes()
      requires Valid()
      ensures sender.outBuf.offset <= |Stream(sent)|
      ensures receiver.inBuf.offset + |transit| <= |Stream(sent)|
    {
      RestShort(receiver.throws, sender.wire[..arrived]);
      hide ParseAll, Stream;
      assert |sender.wire + sender.outBuf.Contents()| == |Stream(sent)|;
    }
  }

  lemma {:induction false} RestShort(throws: Throws, s: seq<Byte>)
    ensures |ParseAll(throws, s).rest| <= |s|
    decreases |s|
  {
    hide ReadFrame;
    match ReadFrame(s)
    case Frame(_, bytes) =>
      if !throws(ReadFrame(s)) {
        RestShort(throws, s[|bytes|..]);
      }
    case _ =>
  }

  // ---- Any run of a link ----

  datatype LinkStep = SendStep(p: Pdu, answers: Answers) | WriteStep(answers: Answers) | ReadStep(answers: Answers)

  /** The PDUs that the steps send. */
  function SentBy(steps: seq<LinkStep>): seq<Pdu> {
    if steps == [] then [] else (if steps[0].SendStep? then [steps[0].p] else []) + SentBy(steps[1..])
  }

  lemma FitsBelow(m: nat, n: nat)
    requires m <= n && Fits(n)
    ensures Fits(m)
  {
  }

  function Extended(sent: seq<Pdu>, s: LinkStep): seq<Pdu> { if s.SendStep? then sent + [s.p] else sent }

  /** The first step and the rest share the bytes of all. */
  lemma FirstSent(sent: seq<Pdu>, steps: seq<LinkStep>)
    requires steps != [] && AllSendable(sent) && AllSendable(SentBy(steps))
    ensures var next, rest := Extended(sent, steps[0]), SentBy(steps[1..]);
            AllSendable(next) && AllSendable(rest) && next + rest == sent + SentBy(steps) &&
            |Stream(next)| + |Stream(rest)| == |Stream(sent)| + |Stream(SentBy(steps))| &&
            (steps[0].SendStep? ==>
               Sendable(steps[0].p) && |Stream(next)| == |Stream(sent)| + HEADER_LEN + |steps[0].p.body|)
  {
    var all, rest := SentBy(steps), SentBy(steps[1..]);
    if steps[0].SendStep? {
      var p := steps[0].p;
      assert all == [p] + rest;
      hide AllSendable, Stream, SentBy;
      FirstOf(p, rest);
      StreamAdd(sent, p);
      Assoc(sent, [p], rest);
    } else {
      assert all == rest;
    }
  }

  lemma FirstOf(p: Pdu, rest: seq<Pdu>)
    requires AllSendable([p] + rest)
    ensures Sendable(p) && AllSendable(rest) && |Stream([p] + rest)| == HEADER_LEN + |p.body| + |Stream(rest)|
  {
    hide Encode;
    var all := [p] + rest;
    assert all[0] == p && all[1..] == rest;
    assert forall i :: 0 <= i < |rest| ==> rest[i] == all[i + 1];
  }

  /** Some steps of a link, one after the other. */
  method Perform(l: Link, steps: seq<LinkStep>, ghost limit: nat)
    requires l.Valid() && AllSendable(SentBy(steps)) && Fits(limit + READ_BUF_SIZE)
    requires |Stream(l.sent)| + |Stream(SentBy(steps))| <= limit
    modifies l.Footprint()
    ensures l.Valid() && fresh(l.Footprint() - old(l.Footprint())) && l.sent == old(l.sent) + SentBy(steps)
    decreases |steps|
  {
    hide Link.Valid, Stream, AllSendable, Fits, Extended;
    if steps != [] {
      l.SentSendable();
      FirstSent(l.sent, steps);
      ghost var f := l.Footprint();
      l.Take(steps[0], limit);
      ghost var g := l.Footprint();
      Perform(l, steps[1..], limit);
      forall o | o in l.Footprint() - f
        ensures fresh(o)
      {
        assert o in g - f || o in l.Footprint() - g;
      }
    }
  }

  /** Whatever the order of sends, writable and readable events, and whatever the kernels accept and deliver in each:
      the frames handled at the end are exactly the PDUs wholly received, a prefix of those sent, up to the first whose
      handler throws. */
  method Drive(handler: Throws, steps: seq<LinkStep>) returns (l: Link)
    requires AllSendable(SentBy(steps)) && Fits(|Stream(SentBy(steps))| + READ_BUF_SIZE)
    ensures fresh(l) && l.Valid() && l.sent == SentBy(steps) && l.receiver.throws == handler
    ensures var k := Whole(l.sent, l.arrived);
            l.receiver.handled == Frames(l.sent[..Taken(handler, l.sent[..k])]) &&
            (l.receiver.closed <==> !Calm(handler, l.sent[..k])) &&
            (!l.receiver.closed ==> l.receiver.handled == Frames(l.sent[..k]))
  {
    hide ParseAll, AllSendable, Fits, Link.Valid, Frames, Taken, Calm, Whole;
    l := new Link(handler);
    assert Stream([]) == [];
    Perform(l, steps, |Stream(SentBy(steps))|);
    l.Framing();
  }

  // ---- Delivery ----

  lemma {:induction false} WholeStream(ps: seq<Pdu>)
    requires AllSendable(ps)
    ensures Whole(ps, |Stream(ps)|) == |ps|
  {
    hide Encode;
    if ps != [] {
      WholeStream(ps[1..]);
    }
  }

  /** Behind the first handler that throws nothing is handled. */
  lemma {:induction false} TakenEarly(throws: Throws, ps: seq<Pdu>, k: nat)
    requires AllSendable(ps) && k <= |ps| && !Calm(throws, ps[..k])
    ensures Taken(throws, ps) == Taken(throws, ps[..k]) && ps[..Taken(throws, ps)] == ps[..k][..Taken(throws, ps)]
  {
    hide Encode;
    assert k > 0;
    var front := ps[..k];
    if !throws(FrameOf(ps[0])) {
      var i :| 0 <= i < k && throws(FrameOf(front[i]));
      assert i > 0 && ps[1..][..k - 1] == front[1..] && front[1..][i - 1] == front[i];
      TakenEarly(throws, ps[1..], k - 1);
    }
  }

  lemma {:induction false} CalmTaken(throws: Throws, ps: seq<Pdu>)
    requires AllSendable(ps) && Calm(throws, ps)
    ensures Taken(throws, ps) == |ps|
  {
    hide Encode;
    if ps != [] {
      CalmTaken(throws, ps[1..]);
    }
  }

  lemma WillingBelow(m: nat, n: nat, chunk: nat, answers: Answers)
    requires m <= n && Willing(n, chunk, answers)
    ensures Willing(m, chunk, answers)
  {
  }

  /** One writable and one readable event with willing kernels bring everything sent to its handlers. */
  method Settle(l: Link, outward: Answers, inward: Answers)
    requires l.Valid() && Fits(|Stream(l.sent)| + READ_BUF_SIZE)
    requires Willing(|Stream(l.sent)|, MAX_SOCKET_BUF, outward) && Willing(|Stream(l.sent)|, READ_BUF_SIZE, inward)
    modifies l.Footprint()
    ensures l.Valid() && l.sent == old(l.sent)
    ensures l.receiver.handled == Frames(l.sent[..Taken(l.receiver.throws, l.sent)])
  {
    hide Stream, ParseAll, AllSendable, Fits, Willing, Carried, Frames, Taken, Calm;
    var n := |Stream(l.sent)|;
    l.Sizes();
    WillingBelow(l.sender.outBuf.offset, n, MAX_SOCKET_BUF, outward);
    WillingCarries(l.sender.outBuf.offset, MAX_SOCKET_BUF, outward);
    l.Writable(outward);
    l.Sizes();
    WillingBelow(|l.transit|, n, READ_BUF_SIZE, inward);
    WillingCarries(|l.transit|, READ_BUF_SIZE, inward);
    FitsBelow(l.receiver.inBuf.offset + |l.transit| + READ_BUF_SIZE, n + READ_BUF_SIZE);
    l.Readable(inward);
    l.AllArrived();
  }

  lemma NoStream()
    ensures Stream([]) == []
  {
  }

  /** Whatever happened before, and however little the kernels took then: after one more writable and one more readable
      event with willing kernels all PDUs sent have been handled, up to the first whose handler throws. */
  method DriveToEnd(handler: Throws, steps: seq<LinkStep>, outward: Answers, inward: Answers) returns (l: Link)
    requires AllSendable(SentBy(steps)) && Fits(|Stream(SentBy(steps))| + READ_BUF_SIZE)
    requires Willing(|Stream(SentBy(steps))|, MAX_SOCKET_BUF, outward)
    requires Willing(|Stream(SentBy(steps))|, READ_BUF_SIZE, inward)
    ensures fresh(l) && l.Valid() && l.sent == SentBy(steps) && l.receiver.throws == handler
    ensures l.receiver.handled == Frames(l.sent[..Taken(handler, l.sent)])
    ensures Calm(handler, l.sent) ==> l.receiver.handled == Frames(l.sent)
  {
    hide ParseAll, AllSendable, Fits, Link.Valid, Frames, Taken, Calm, Whole, Willing, Stream;
    l := new Link(handler);
    NoStream();
    Perform(l, steps, |Stream(SentBy(steps))|);
    assert l.sent == SentBy(steps);
    Settle(l, outward, inward);
    if Calm(handler, l.sent) {
      CalmTaken(handler, l.sent);
      assert l.sent[..|l.sent|] == l.sent;
    }
  }
}
