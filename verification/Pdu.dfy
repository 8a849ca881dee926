/** The 16-byte header and the frames cut out of a byte stream (base/ImPduBase.cpp). */
module Pdus {
  import opened Bytes
  import opened Sequences
  import opened SimpleBuffers

  const HEADER_LEN: nat := 16
  const MAX_LEN: nat := 0x8000_0000   // Send takes its length as an int

  datatype Header = Header(version: Uint16, flag: Uint16, serviceId: Uint16, commandId: Uint16, seqNum: Uint16,
                           reversed: Uint16)

  /** A PDU built by SetPBMsg. */
  datatype Pdu = Pdu(header: Header, body: seq<Byte>)

  predicate Sendable(p: Pdu) { HEADER_LEN + |p.body| < MAX_LEN && Fits(HEADER_LEN + |p.body|) }

  function EncodeHeader(h: Header): (s: seq<Byte>)
    ensures |s| == 12
  {
    Be16(h.version) + Be16(h.flag) + Be16(h.serviceId) + Be16(h.commandId) + Be16(h.seqNum) + Be16(h.reversed)
  }

  function Encode(p: Pdu): (s: seq<Byte>)
    requires HEADER_LEN + |p.body| < TWO32
    ensures |s| == HEADER_LEN + |p.body|
  {
    Be32(HEADER_LEN + |p.body|) + EncodeHeader(p.header) + p.body
  }

  function DecodeHeader(s: seq<Byte>): Header
    requires |s| >= HEADER_LEN
  {
    Header(Read16(s[4..]), Read16(s[6..]), Read16(s[8..]), Read16(s[10..]), Read16(s[12..]), Read16(s[14..]))
  }

  /** What IsPduAvailable and ReadPdu make of the bytes received so far. A length of zero throws.
      Lengths from 1 to 15 are accepted as frames shorter than their own header. */
  datatype Frame = NotYet | ZeroLength | Frame(header: Header, bytes: seq<Byte>)

  function ReadFrame(s: seq<Byte>): (f: Frame)
    ensures f.Frame? ==> 0 < |f.bytes| <= |s| && f.bytes == s[..|f.bytes|]
  {
    if |s| < HEADER_LEN then NotYet
    else
      var n := Read32(s);
      if n > |s| then NotYet
      else if n == 0 then ZeroLength
      else Frame(DecodeHeader(s), s[..n])
  }

  /** GetBodyLength, in 32-bit arithmetic. */
  function BodyLength(bytes: seq<Byte>): Uint32 { (|bytes| - HEADER_LEN) % TWO32 }

  /** A frame shorter than its own header is produced exactly when sixteen bytes are there and the length field is
      from 1 to 15; its body length then wraps. */
  lemma ShortFrame(s: seq<Byte>)
    ensures ReadFrame(s).Frame? && |ReadFrame(s).bytes| < HEADER_LEN <==> |s| >= HEADER_LEN && 1 <= Read32(s) <= 15
    ensures ReadFrame(s).Frame? ==>
              var n := |ReadFrame(s).bytes|;
              BodyLength(ReadFrame(s).bytes) == if n < HEADER_LEN then TWO32 - HEADER_LEN + n else n - HEADER_LEN
  {
    hide Read32, DecodeHeader;
    if ReadFrame(s).Frame? {
      var n := |ReadFrame(s).bytes|;
      assert n == Read32(s);
      if n < HEADER_LEN {
        assert (n - HEADER_LEN) % TWO32 == n - HEADER_LEN + TWO32;
      }
    }
  }

  /** A length of zero breaks off: nothing more is handled and nothing is taken from the buffer. */
  lemma ZeroBreaks(throws: Throws, s: seq<Byte>)
    requires |s| >= HEADER_LEN && Read32(s) == 0
    ensures ParseAll(throws, s) == Parsed([], s, true)
  {
  }

  /** The frame of a PDU as the receiver sees it. */
  function FrameOf(p: Pdu): Frame
    requires Sendable(p)
  {
    Frame(p.header, Encode(p))
  }

  lemma EncodeSlices(p: Pdu, rest: seq<Byte>)
    requires Sendable(p)
    ensures var s := Encode(p) + rest;
            s[4..6] == Be16(p.header.version) && s[6..8] == Be16(p.header.flag) &&
            s[8..10] == Be16(p.header.serviceId) && s[10..12] == Be16(p.header.commandId) &&
            s[12..14] == Be16(p.header.seqNum) && s[14..16] == Be16(p.header.reversed)
  {
  }

  lemma Read16Slice(s: seq<Byte>, i: nat, v: Uint16)
    requires i + 2 <= |s| && s[i..i + 2] == Be16(v)
    ensures Read16(s[i..]) == v
  {
    assert s[i..] == Be16(v) + s[i + 2..];
    Round16(v, s[i + 2..]);
  }

  /** A PDU followed by anything is read back whole, with its header fields and body. */
  lemma ReadBack(p: Pdu, rest: seq<Byte>)
    requires Sendable(p)
    ensures ReadFrame(Encode(p) + rest) == FrameOf(p)
    ensures FrameOf(p).bytes[HEADER_LEN..] == p.body
  {
    var s := Encode(p) + rest;
    assert s == Be32(HEADER_LEN + |p.body|) + (EncodeHeader(p.header) + p.body + rest);
    Round32(HEADER_LEN + |p.body|, EncodeHeader(p.header) + p.body + rest);
    EncodeSlices(p, rest);
    Read16Slice(s, 4, p.header.version);
    Read16Slice(s, 6, p.header.flag);
    Read16Slice(s, 8, p.header.serviceId);
    Read16Slice(s, 10, p.header.commandId);
    Read16Slice(s, 12, p.header.seqNum);
    Read16Slice(s, 14, p.header.reversed);
  }

  /** A proper prefix of a PDU is never mistaken for a frame. */
  lemma PartialWaits(p: Pdu, n: nat)
    requires Sendable(p) && n < |Encode(p)|
    ensures ReadFrame(Encode(p)[..n]) == NotYet
  {
    if n >= HEADER_LEN {
      LengthBack(p, n);
    }
  }

  /** The length field is read back from any beginning that holds it. */
  lemma LengthBack(p: Pdu, n: nat)
    requires Sendable(p) && HEADER_LEN <= n <= |Encode(p)|
    ensures Read32(Encode(p)[..n]) == HEADER_LEN + |p.body|
  {
    hide EncodeHeader, Read32, Be32;
    var tail := EncodeHeader(p.header) + p.body;
    assert Encode(p) == Be32(HEADER_LEN + |p.body|) + tail;
    assert Encode(p)[..n] == Be32(HEADER_LEN + |p.body|) + tail[..n - 4];
    Round32(HEADER_LEN + |p.body|, tail[..n - 4]);
  }

  // ---- The byte stream of a sequence of PDUs ----

  predicate AllSendable(ps: seq<Pdu>) { forall i :: 0 <= i < |ps| ==> Sendable(ps[i]) }

  function Stream(ps: seq<Pdu>): seq<Byte>
    requires AllSendable(ps)
  {
    if ps == [] then [] else Encode(ps[0]) + Stream(ps[1..])
  }

  function Frames(ps: seq<Pdu>): (fs: seq<Frame>)
    requires AllSendable(ps)
    ensures |fs| == |ps| && forall i :: 0 <= i < |ps| ==> fs[i] == FrameOf(ps[i])
  {
    seq(|ps|, i requires 0 <= i < |ps| => FrameOf(ps[i]))
  }

  lemma {:induction false} StreamAdd(ps: seq<Pdu>, p: Pdu)
    requires AllSendable(ps) && Sendable(p)
    ensures AllSendable(ps + [p]) && Stream(ps + [p]) == Stream(ps) + Encode(p)
  {
    hide Encode;
    if ps == [] {
      assert [p][1..] == [];
      assert Stream([p]) == Encode(p);
      assert ps + [p] == [p];
    } else {
      StreamAdd(ps[1..], p);
      var all := ps + [p];
      assert all[0] == ps[0] && all[1..] == ps[1..] + [p];
      Assoc(Encode(ps[0]), Stream(ps[1..]), Encode(p));
    }
  }

  /** The read loop of CImConn::OnRead over everything received. */
  datatype Parsed = Parsed(frames: seq<Frame>, rest: seq<Byte>, broken: bool)

  /** Frames found before the rest of a parse. */
  function Join(frames: seq<Frame>, r: Parsed): Parsed { Parsed(frames + r.frames, r.rest, r.broken) }

  /** Whether HandlePdu throws on a frame. */
  type Throws = Frame -> bool

  /** A length of zero, or a handler that throws, breaks off and closes the connection; the frame that was being
      handled is not removed. */
  function ParseAll(throws: Throws, s: seq<Byte>): Parsed
    decreases |s|
  {
    match ReadFrame(s)
    case NotYet => Parsed([], s, false)
    case ZeroLength => Parsed([], s, true)
    case Frame(_, bytes) =>
      if throws(ReadFrame(s)) then Parsed([ReadFrame(s)], s, true)
      else Join([ReadFrame(s)], ParseAll(throws, s[|bytes|..]))
  }

  lemma JoinJoin(x: seq<Frame>, y: seq<Frame>, r: Parsed)
    ensures Join(x, Join(y, r)) == Join(x + y, r)
  {
    assert x + (y + r.frames) == x + y + r.frames;
  }

  lemma JoinNone(r: Parsed)
    ensures Join([], r) == r
  {
  }

  /** One turn of the read loop. */
  lemma ParseStep(throws: Throws, s: seq<Byte>, found: seq<Frame>)
    ensures ReadFrame(s).NotYet? ==> Join(found, ParseAll(throws, s)) == Parsed(found, s, false)
    ensures ReadFrame(s).ZeroLength? ==> Join(found, ParseAll(throws, s)) == Parsed(found, s, true)
    ensures ReadFrame(s).Frame? && throws(ReadFrame(s)) ==>
              Join(found, ParseAll(throws, s)) == Parsed(found + [ReadFrame(s)], s, true)
    ensures ReadFrame(s).Frame? && !throws(ReadFrame(s)) ==>
              Join(found, ParseAll(throws, s)) == Join(found + [ReadFrame(s)], ParseAll(throws, s[|ReadFrame(s).bytes|..]))
  {
    if ReadFrame(s).Frame? {
      JoinJoin(found, [ReadFrame(s)], ParseAll(throws, s[|ReadFrame(s).bytes|..]));
    }
  }

  lemma ReadFrameStable(s: seq<Byte>, more: seq<Byte>)
    requires !ReadFrame(s).NotYet?
    ensures ReadFrame(s + more) == ReadFrame(s)
  {
    var t := s + more;
    assert t[..4] == s[..4];
    if ReadFrame(s).Frame? {
      var n := |ReadFrame(s).bytes|;
      assert t[..n] == s[..n];
      assert forall i :: 0 <= i < HEADER_LEN ==> t[i] == s[i];
    }
  }

  /** Reassembly does not depend on how any byte stream was cut: parsing a prefix, keeping its
      unconsumed tail and parsing that tail with the later bytes finds the same frames. */
  lemma {:induction false} ParseResumes(throws: Throws, s: seq<Byte>, more: seq<Byte>)
    requires !ParseAll(throws, s).broken
    ensures ParseAll(throws, s + more) == Join(ParseAll(throws, s).frames, ParseAll(throws, ParseAll(throws, s).rest + more))
    decreases |s|
  {
    hide ReadFrame;
    match ReadFrame(s)
    case NotYet =>
      JoinNone(ParseAll(throws, s + more));
    case Frame(_, bytes) =>
      var t := s[|bytes|..];
      ReadFrameStable(s, more);
      ParseResumes(throws, t, more);
      assert (s + more)[|bytes|..] == t + more;
      JoinJoin([ReadFrame(s)], ParseAll(throws, t).frames, ParseAll(throws, ParseAll(throws, t).rest + more));
  }

  /** How many of the PDUs lie wholly within the first n bytes of their stream. */
  function Whole(ps: seq<Pdu>, n: nat): (k: nat)
    requires AllSendable(ps)
    ensures k <= |ps|
  {
    if ps == [] || n < |Encode(ps[0])| then 0 else 1 + Whole(ps[1..], n - |Encode(ps[0])|)
  }

  lemma EmptyWaits(throws: Throws)
    ensures ParseAll(throws, []) == Parsed([], [], false)
  {
  }

  /** A PDU is the first frame of what follows it. */
  lemma ParseCons(throws: Throws, p: Pdu, tail: seq<Byte>)
    requires Sendable(p)
    ensures ParseAll(throws, Encode(p) + tail) ==
            if throws(FrameOf(p)) then Parsed([FrameOf(p)], Encode(p) + tail, true)
            else Join([FrameOf(p)], ParseAll(throws, tail))
  {
    ReadBack(p, tail);
    hide Encode, ReadFrame;
    assert (Encode(p) + tail)[|Encode(p)|..] == tail;
  }

  /** How many of the PDUs are handled: up to the first whose handler throws, that one included. */
  function Taken(throws: Throws, ps: seq<Pdu>): (k: nat)
    requires AllSendable(ps)
    ensures k <= |ps| && (ps != [] ==> k > 0)
  {
    if ps == [] then 0 else if throws(FrameOf(ps[0])) then 1 else 1 + Taken(throws, ps[1..])
  }

  /** No handler throws on any of the PDUs. */
  predicate Calm(throws: Throws, ps: seq<Pdu>)
    requires AllSendable(ps)
  {
    forall i :: 0 <= i < |ps| ==> !throws(FrameOf(ps[i]))
  }

  lemma FirstOnes(ps: seq<Pdu>, k: nat)
    requires AllSendable(ps) && k < |ps|
    ensures Frames(ps[..k + 1]) == [FrameOf(ps[0])] + Frames(ps[1..][..k])
    ensures Stream(ps[..k + 1]) == Encode(ps[0]) + Stream(ps[1..][..k])
  {
    hide Encode;
    assert ps[..k + 1][1..] == ps[1..][..k];
  }

  /** Any prefix of the stream yields exactly the PDUs it wholly contains, up to the first whose handler throws, and
      keeps the rest. */
  lemma {:induction false} ParsePrefix(throws: Throws, ps: seq<Pdu>, n: nat)
    requires AllSendable(ps) && n <= |Stream(ps)|
    ensures var k := Whole(ps, n);
            var r := ParseAll(throws, Stream(ps)[..n]);
            (r.broken <==> !Calm(throws, ps[..k])) && r.frames == Frames(ps[..Taken(throws, ps[..k])]) &&
            (!r.broken ==> Taken(throws, ps[..k]) == k && Stream(ps[..k]) + r.rest == Stream(ps)[..n])
    decreases |ps|
  {
    hide Frames, Taken, Calm, ParseAll, Encode;
    NoneTaken(throws);
    if ps == [] {
      EmptyWaits(throws);
    } else if n < |Encode(ps[0])| {
      PartialParse(throws, ps, n);
    } else {
      var e, rest := Encode(ps[0]), Stream(ps[1..]);
      var m := n - |e|;
      ParsePrefix(throws, ps[1..], m);
      var k, r := Whole(ps[1..], m), ParseAll(throws, rest[..m]);
      PrefixCons(e, rest, n);
      ParseCons(throws, ps[0], rest[..m]);
      FirstOnes(ps, k);
      FirstTaken(throws, ps, k);
      assert Stream(ps)[..n] == e + rest[..m] && Whole(ps, n) == k + 1;
      hide *;
      Assoc(e, Stream(ps[1..][..k]), r.rest);
    }
  }

  lemma NoneTaken(throws: Throws)
    ensures Taken(throws, []) == 0 && Calm(throws, []) && Frames([]) == [] && Stream([]) == []
  {
  }

  lemma FirstTaken(throws: Throws, ps: seq<Pdu>, k: nat)
    requires AllSendable(ps) && k < |ps|
    ensures var j, t := Taken(throws, ps[1..][..k]), throws(FrameOf(ps[0]));
            Taken(throws, ps[..k + 1]) == (if t then 1 else 1 + j) &&
            Frames(ps[..Taken(throws, ps[..k + 1])]) ==
              (if t then [FrameOf(ps[0])] else [FrameOf(ps[0])] + Frames(ps[1..][..k][..j])) &&
            (Calm(throws, ps[..k + 1]) <==> !t && Calm(throws, ps[1..][..k]))
  {
    hide Encode;
    var front, rest := ps[..k + 1], ps[1..][..k];
    assert front[1..] == rest;
    var j := Taken(throws, ps[1..][..k]);
    FirstOnes(ps, j);
    assert ps[1..][..k][..j] == ps[1..][..j];
    assert ps[1..][..0] == [];
    if !throws(FrameOf(ps[0])) && Calm(throws, rest) {
      forall i | 0 <= i < |front|
        ensures !throws(FrameOf(front[i]))
      {
        assert i > 0 ==> front[i] == rest[i - 1];
      }
    }
    if Calm(throws, front) {
      assert !throws(FrameOf(front[0]));
      forall i | 0 <= i < |rest|
        ensures !throws(FrameOf(rest[i]))
      {
        assert rest[i] == front[i + 1];
      }
    }
  }

  lemma PrefixCons<T>(e: seq<T>, rest: seq<T>, n: nat)
    requires |e| <= n <= |e| + |rest|
    ensures (e + rest)[..n] == e + rest[..n - |e|]
  {
  }

  lemma PartialParse(throws: Throws, ps: seq<Pdu>, n: nat)
    requires AllSendable(ps) && ps != [] && n < |Encode(ps[0])|
    ensures n <= |Stream(ps)| && ParseAll(throws, Stream(ps)[..n]) == Parsed([], Stream(ps)[..n], false)
    ensures Stream(ps[..0]) == [] && Frames(ps[..0]) == []
  {
    PartialWaits(ps[0], n);
    hide ReadFrame, Encode;
    assert Stream(ps)[..n] == Encode(ps[0])[..n];
  }

  // ---- Building a PDU ----

  datatype HeaderField = VersionF | FlagF | ServiceIdF | CommandIdF | SeqNumF | ReversedF

  function OffsetOf(f: HeaderField): nat {
    match f
    case VersionF => 4 case FlagF => 6 case ServiceIdF => 8 case CommandIdF => 10 case SeqNumF => 12
    case ReversedF => 14
  }

  function With(h: Header, f: HeaderField, v: Uint16): Header {
    match f
    case VersionF => h.(version := v) case FlagF => h.(flag := v) case ServiceIdF => h.(serviceId := v)
    case CommandIdF => h.(commandId := v) case SeqNumF => h.(seqNum := v) case ReversedF => h.(reversed := v)
  }

  lemma PokeEncoded(p: Pdu, f: HeaderField, v: Uint16)
    requires Sendable(p)
    ensures var s, at := Encode(p), OffsetOf(f);
            Poked(s, at, v) == Encode(p.(header := With(p.header, f, v)))
  {
    hide Be32;
  }

  class ImPdu {
    const buf: SimpleBuffer
    var header: Header

    ghost predicate Valid()
      reads this, buf
    {
      buf.Valid()
    }

    /** The default header: version 1, service 7 (SID_OTHER). */
    constructor ()
      ensures Valid() && fresh(buf) && fresh(buf.data)
      ensures header == Header(1, 0, 7, 0, 0, 0) && buf.Contents() == []
    {
      buf := new SimpleBuffer();
      header := Header(1, 0, 7, 0, 0, 0);
    }

    /** SetPBMsg: drop the old contents, leave room for the header, append the body, fill the header. */
    method SetPbMsg(body: seq<Byte>)
      requires Valid() && HEADER_LEN + |body| < MAX_LEN && Fits(HEADER_LEN + |body|)
      modifies buf, buf.data
      ensures Valid() && (buf.data == old(buf.data) || fresh(buf.data))
      ensures buf.Contents() == Encode(Pdu(header, body))
    {
      var dropped := buf.Read(buf.offset);
      buf.Reserve(HEADER_LEN);
      buf.Write(body);
      WriteHeader();
      assert buf.Contents()[HEADER_LEN..] == body;
    }

    /** WriteHeader: the total length and the six fields, big-endian, in place. */
    method WriteHeader()
      requires Valid() && HEADER_LEN <= buf.offset < MAX_LEN
      modifies buf.data
      ensures Valid()
      ensures buf.Contents() == Be32(buf.offset) + EncodeHeader(header) + old(buf.Contents())[HEADER_LEN..]
    {
      hide Be32, Poked, EncodeHeader;
      WriteLength();
      ghost var s := buf.Contents();
      assert s[HEADER_LEN..] == old(buf.Contents())[HEADER_LEN..] && s[..4] == Be32(buf.offset);
      buf.Poke16(4, header.version);
      buf.Poke16(6, header.flag);
      buf.Poke16(8, header.serviceId);
      ghost var t := buf.Contents();
      FrontFields(s, t, header);
      buf.Poke16(10, header.commandId);
      buf.Poke16(12, header.seqNum);
      buf.Poke16(14, header.reversed);
      BackFields(t, buf.Contents(), header);
      HeaderBytes(buf.Contents(), buf.offset, header);
    }

    method WriteLength()
      requires Valid() && HEADER_LEN <= buf.offset < MAX_LEN
      modifies buf.data
      ensures Valid() && buf.Contents() == Be32(buf.offset) + old(buf.Contents())[4..]
    {
      buf.Poke16(0, buf.offset / TWO16);
      buf.Poke16(2, buf.offset % TWO16);
      Be32Halves(buf.offset);
    }

    /** The setters: they change the encoded header and not the header record. */
    method Set(f: HeaderField, v: Uint16, ghost p: Pdu)
      requires Valid() && Sendable(p) && buf.Contents() == Encode(p)
      modifies buf.data
      ensures Valid() && buf.Contents() == Encode(p.(header := With(p.header, f, v)))
    {
      buf.Poke16(OffsetOf(f), v);
      PokeEncoded(p, f, v);
    }
  }

  lemma FrontFields(s: seq<Byte>, t: seq<Byte>, h: Header)
    requires |s| >= HEADER_LEN && t == Poked(Poked(Poked(s, 4, h.version), 6, h.flag), 8, h.serviceId)
    ensures |t| == |s| && t[..4] == s[..4] && t[16..] == s[16..]
    ensures t[4..6] == Be16(h.version) && t[6..8] == Be16(h.flag) && t[8..10] == Be16(h.serviceId)
  {
  }

  lemma BackFields(s: seq<Byte>, t: seq<Byte>, h: Header)
    requires |s| >= HEADER_LEN && t == Poked(Poked(Poked(s, 10, h.commandId), 12, h.seqNum), 14, h.reversed)
    ensures |t| == |s| && t[..4] == s[..4] && t[4..6] == s[4..6] && t[6..8] == s[6..8] && t[8..10] == s[8..10]
    ensures t[16..] == s[16..]
    ensures t[10..12] == Be16(h.commandId) && t[12..14] == Be16(h.seqNum) && t[14..16] == Be16(h.reversed)
  {
  }

  lemma HeaderBytes(s: seq<Byte>, n: Uint32, h: Header)
    requires |s| >= HEADER_LEN && s[..4] == Be32(n)
    requires s[4..6] == Be16(h.version) && s[6..8] == Be16(h.flag) && s[8..10] == Be16(h.serviceId)
    requires s[10..12] == Be16(h.commandId) && s[12..14] == Be16(h.seqNum) && s[14..16] == Be16(h.reversed)
    ensures s == Be32(n) + EncodeHeader(h) + s[HEADER_LEN..]
  {
    hide Be16, Be32;
  }

  lemma HighHalf(v: Uint32)
    ensures v / TWO16 < TWO16 && v / TWO16 / 256 == v / 0x100_0000
  {
  }

  lemma LowHalf(v: Uint32)
    ensures v % TWO16 / 256 == v / 256 % 256 && v % TWO16 % 256 == v % 256
  {
    var q, r: int := v / TWO16, v % TWO16;
    assert v == 256 * (256 * q + r / 256) + r % 256;
  }

  lemma Be32Halves(v: Uint32)
    ensures v / TWO16 < TWO16 && Be32(v) == Be16(v / TWO16) + Be16(v % TWO16)
  {
    HighHalf(v);
    LowHalf(v);
  }
}
