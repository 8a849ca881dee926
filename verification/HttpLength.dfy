/** Declared lengths are read exactly when they fit in 64 bits, and the chunked coding of
    section 3.6.1 of RFC 2616 round-trips through the parser. */
module HttpLength {
  import opened HttpTypes
  import opened HttpSwitch
  import opened HttpSpec
  import opened HttpExecute

  predicate Digits(base: nat, s: string) { forall i :: 0 <= i < |s| ==> 0 <= HexValue(s[i]) < base }

  /** The number a digit string denotes. */
  function Number(base: nat, s: string): nat
    requires Digits(base, s)
  {
    if s == [] then 0 else Number(base, s[..|s| - 1]) * base + HexValue(s[|s| - 1])
  }

  lemma AccumulateExact(p: Parser, base: nat, digit: nat, e: Errno)
    requires e != OK && 1 <= base && p.contentLength * base + digit < MAX64
    ensures Accumulate(p, base, digit, e) == Stay(p.(contentLength := p.contentLength * base + digit))
  {
    var t := p.contentLength * base + digit;
    assert p.contentLength <= p.contentLength * base;
    assert t % TWO64 == t;
  }

  // ---- Content-Length ----

  predicate ReadingLength(p: Parser) { p.state == InHeader(HeaderValue) && p.headerState == HContentLength }

  lemma FirstDigit(p: Parser, ch: char)
    requires p.state == InHeader(HeaderValueStart) && p.headerState == HContentLength && IsNum(ch)
    requires p.nread < MAX_HEADER_SIZE
    ensures Step(p, ch) ==
            Result(p.(nread := p.nread + 1, state := InHeader(HeaderValue), index := 0, contentLength := HexValue(ch)),
                   [Byte(Value, ch)], Running, 1)
  {
  }

  lemma NextDigit(p: Parser, ch: char)
    requires ReadingLength(p) && IsNum(ch) && p.nread < MAX_HEADER_SIZE
    ensures var q := p.(nread := p.nread + 1);
            var o := Accumulate(q, 10, HexValue(ch), INVALID_CONTENT_LENGTH);
            Step(p, ch) == if o.next == Advance then Result(o.parser, [Byte(Value, ch)], Running, 1)
                           else Result(o.parser, [], Failed, 0)
  {
    hide Accumulate;
  }

  /** The record after a length value of n digits denoting v. */
  function LengthRead(p: Parser, n: nat, v: nat): Parser {
    p.(nread := p.nread + n, state := InHeader(HeaderValue), index := 0, contentLength := v)
  }

  lemma {:induction false} LengthRun(p: Parser, s: string)
    requires p.state == InHeader(HeaderValueStart) && p.headerState == HContentLength
    requires s != [] && Digits(10, s) && p.nread + |s| <= MAX_HEADER_SIZE
    ensures var r := Run(p, s);
            r.exit == Running ==>
              r.parser == LengthRead(p, |s|, r.parser.contentLength) && r.parser.contentLength < MAX64
    ensures Number(10, s) < MAX64 ==>
              Run(p, s) == Result(LengthRead(p, |s|, Number(10, s)), Text(Value, s), Running, |s|)
  {
    hide Step, Accumulate, Inv;
    var n := |s| - 1;
    RunNext(p, s, n);
    assert s[..n + 1] == s;
    if n == 0 {
      FirstDigit(p, s[0]);
      assert s[..0] == [] && s == [s[0]];
    } else {
      LengthRun(p, s[..n]);
      hide Run, Number;
      var r := Run(p, s[..n]);
      if r.exit == Running {
        LengthStep(r.parser, s[n]);
        LengthText(s, n);
      }
    }
  }

  lemma LengthStep(p: Parser, ch: char)
    requires ReadingLength(p) && IsNum(ch) && p.nread < MAX_HEADER_SIZE && p.contentLength < MAX64
    ensures var r, v := Step(p, ch), p.contentLength * 10 + HexValue(ch);
            (r.exit == Running ==>
               r.parser == p.(nread := p.nread + 1, contentLength := r.parser.contentLength) &&
               r.parser.contentLength < MAX64) &&
            (v < MAX64 ==> r == Result(p.(nread := p.nread + 1, contentLength := v), [Byte(Value, ch)], Running, 1))
  {
    hide Step, HexValue;
    NextDigit(p, ch);
    if p.contentLength * 10 + HexValue(ch) < MAX64 {
      hide Accumulate;
      AccumulateExact(p.(nread := p.nread + 1), 10, HexValue(ch), INVALID_CONTENT_LENGTH);
    }
  }

  lemma LengthText(s: string, n: nat)
    requires |s| == n + 1 && Digits(10, s)
    ensures Text(Value, s) == Text(Value, s[..n]) + [Byte(Value, s[n])]
    ensures Number(10, s) == Number(10, s[..n]) * 10 + HexValue(s[n])
  {
  }

  /** A Content-Length value is read exactly if and only if it is below 2^64 - 1. */
  lemma LengthExact(p: Parser, s: string)
    requires p.state == InHeader(HeaderValueStart) && p.headerState == HContentLength
    requires s != [] && Digits(10, s) && p.nread + |s| <= MAX_HEADER_SIZE
    ensures var r := Run(p, s);
            r.exit == Running && r.parser.contentLength == Number(10, s) <==> Number(10, s) < MAX64
  {
    LengthRun(p, s);
  }

  /** The overflow test does not reject every value that is too large: one more zero after any
      spelling of 3 * 10^18 wraps to a number larger than that prefix and is accepted. */
  lemma OverflowAccepted(p: Parser, s: string)
    requires p.state == InHeader(HeaderValueStart) && p.headerState == HContentLength
    requires s != [] && Digits(10, s) && p.nread + |s| < MAX_HEADER_SIZE
    requires Number(10, s) == 3_000_000_000_000_000_000
    ensures var r := Run(p, s + "0"); r.exit == Running && r.parser.contentLength == 11_553_255_926_290_448_384
  {
    hide Step, Run, Accumulate, Number;
    LengthRun(p, s);
    RunNext(p, s + "0", |s|);
    assert (s + "0")[..|s|] == s && (s + "0")[..|s| + 1] == s + "0";
    var q := Run(p, s).parser;
    NextDigit(q, '0');
    WrapAccepted(q.(nread := q.nread + 1));
  }

  lemma WrapAccepted(p: Parser)
    requires p.contentLength == 3_000_000_000_000_000_000
    ensures Accumulate(p, 10, 0, INVALID_CONTENT_LENGTH) == Stay(p.(contentLength := 11_553_255_926_290_448_384))
  {
  }

  // ---- Chunked coding ----

  function HexDigit(d: nat): (c: char)
    requires d < 16
    ensures HexValue(c) == d
  {
    if d < 10 then (d + '0' as int) as char else (d - 10 + 'a' as int) as char
  }

  function HexString(n: nat): (s: string)
    ensures s != [] && Digits(16, s)
  {
    if n < 16 then [HexDigit(n)] else HexString(n / 16) + [HexDigit(n % 16)]
  }

  lemma {:induction false} HexNumber(n: nat)
    ensures Number(16, HexString(n)) == n
  {
    var s := HexString(n);
    if n < 16 {
      assert s[..0] == [];
    } else {
      HexNumber(n / 16);
      assert s[..|s| - 1] == HexString(n / 16);
    }
  }

  lemma {:induction false} HexLength(n: nat)
    ensures |HexString(n)| <= 1 + n
    ensures n < TWO64 ==> |HexString(n)| <= 16
  {
    HexLengthBound(n, 16);
    if n >= 16 {
      HexLength(n / 16);
    }
  }

  function Pow16(k: nat): nat { if k == 0 then 1 else 16 * Pow16(k - 1) }

  lemma {:induction false} HexLengthBound(n: nat, k: nat)
    requires 1 <= k
    ensures n < Pow16(k) ==> |HexString(n)| <= k
    ensures Pow16(16) == TWO64
    decreases n
  {
    assert Pow16(16) == TWO64 by {
      assert Pow16(4) == 0x1_0000;
      assert Pow16(8) == 0x1_0000_0000;
      assert Pow16(12) == 0x1_0000_0000_0000;
    }
    if n >= 16 && k > 1 {
      HexLengthBound(n / 16, k - 1);
    }
  }

  lemma ChunkFirstDigit(p: Parser, ch: char)
    requires Inv(p, 0) && p.state == InChunk(ChunkSizeStart) && Unhex(ch) != -1
    ensures Step(p, ch) ==
            Result(p.(nread := 1, contentLength := Unhex(ch), state := InChunk(ChunkSize)), [], Running, 1)
  {
  }

  lemma ChunkNextDigit(p: Parser, ch: char)
    requires Inv(p, 0) && p.state == InChunk(ChunkSize) && Unhex(ch) != -1 && p.nread < MAX_HEADER_SIZE
    ensures var r, v := Step(p, ch), p.contentLength * 16 + Unhex(ch);
            (r.exit == Running ==>
               r.parser == p.(nread := p.nread + 1, contentLength := r.parser.contentLength) &&
               r.parser.contentLength == v % TWO64 < MAX64) &&
            (v < MAX64 ==> r == Result(p.(nread := p.nread + 1, contentLength := v), [], Running, 1)) &&
            (v % TWO64 >= p.contentLength && v % TWO64 != MAX64 ==> r.exit == Running)
  {
    hide Step, Accumulate, Unhex;
    var q, v := p.(nread := p.nread + 1), p.contentLength * 16 + Unhex(ch);
    ChunkAccumulates(p, ch);
    AccumulateIs(q, 16, Unhex(ch), INVALID_CONTENT_LENGTH);
    if v < MAX64 {
      AccumulateExact(q, 16, Unhex(ch), INVALID_CONTENT_LENGTH);
    }
  }

  lemma ChunkAccumulates(p: Parser, ch: char)
    requires Inv(p, 0) && p.state == InChunk(ChunkSize) && Unhex(ch) != -1 && p.nread < MAX_HEADER_SIZE
    ensures var o := Accumulate(p.(nread := p.nread + 1), 16, Unhex(ch), INVALID_CONTENT_LENGTH);
            Step(p, ch) == if o.next == Advance then Result(o.parser, [], Running, 1) else Result(o.parser, [], Failed, 0)
  {
    hide Accumulate;
  }

  lemma AccumulateIs(p: Parser, base: nat, digit: nat, e: Errno)
    requires e != OK
    ensures var o, t := Accumulate(p, base, digit, e), (p.contentLength * base + digit) % TWO64;
            o == if t < p.contentLength || t == MAX64 then Err(p, e) else Stay(p.(contentLength := t))
  {
  }

  /** The record after n digits of a chunk size denoting v. */
  function SizeRead(p: Parser, n: nat, v: nat): Parser {
    p.(nread := n, contentLength := v, state := InChunk(ChunkSize))
  }

  /** The bytes the unhex table takes for hexadecimal digits. */
  predicate SizeBytes(s: string) { forall i :: 0 <= i < |s| ==> Unhex(s[i]) != -1 }

  /** The number they stand for in the table. */
  function SizeOf(s: string): nat
    requires SizeBytes(s)
  {
    if s == [] then 0 else SizeOf(s[..|s| - 1]) * 16 + Unhex(s[|s| - 1])
  }

  /** For hexadecimal digits that is the number they denote. */
  lemma {:induction false} HexSize(s: string)
    requires Digits(16, s)
    ensures SizeBytes(s) && SizeOf(s) == Number(16, s)
  {
    if s != [] {
      HexSize(s[..|s| - 1]);
    }
  }

  /** A chunk size of any spelling below 2^64 - 1 is read exactly; a larger one, if it is not refused, is read as a
      smaller number. */
  lemma {:induction false} SizeRun(p: Parser, s: string)
    requires Inv(p, 0) && p.state == InChunk(ChunkSizeStart) && s != [] && SizeBytes(s) && |s| <= MAX_HEADER_SIZE
    ensures var r := Run(p, s);
            r.exit == Running ==>
              r.parser == SizeRead(p, |s|, r.parser.contentLength) && r.parser.contentLength < MAX64 && r.atoms == []
    ensures SizeOf(s) < MAX64 ==> Run(p, s) == Result(SizeRead(p, |s|, SizeOf(s)), [], Running, |s|)
  {
    hide Step, Inv, Run, SizeOf;
    var n := |s| - 1;
    RunNext(p, s, n);
    assert s[..n + 1] == s;
    SizeNext(s, n);
    if n == 0 {
      ChunkFirstDigit(p, s[0]);
      assert s[..0] == [];
      RunEmpty(p);
    } else {
      SizeRun(p, s[..n]);
      NoAssertFails(p, s[..n]);
      var r := Run(p, s[..n]);
      if r.exit == Running {
        ChunkNextDigit(r.parser, s[n]);
        NoAtoms(r.parser, s[n]);
      }
    }
  }

  lemma NoAtoms(p: Parser, ch: char)
    requires p.state == InChunk(ChunkSize) && Unhex(ch) != -1
    ensures Step(p, ch).exit == Running ==> Step(p, ch).atoms == []
  {
    hide Accumulate;
  }

  lemma SizeNext(s: string, n: nat)
    requires |s| == n + 1 && SizeBytes(s)
    ensures SizeOf(s) == SizeOf(s[..n]) * 16 + Unhex(s[n])
    ensures SizeOf(s[..0]) == 0
  {
  }

  /** A chunk size is read as the number it stands for if and only if that is below 2^64 - 1. */
  lemma SizeExact(p: Parser, s: string)
    requires Inv(p, 0) && p.state == InChunk(ChunkSizeStart) && s != [] && SizeBytes(s) && |s| <= MAX_HEADER_SIZE
    ensures var r := Run(p, s);
            r.exit == Running && r.parser.contentLength == SizeOf(s) <==> SizeOf(s) < MAX64
  {
    SizeRun(p, s);
  }

  /** Bytes from 0x80 on are accepted as a chunk size of zero, the last chunk, though no such byte is a digit. */
  lemma HighBytesEndBody(p: Parser, s: string)
    requires Inv(p, 0) && p.state == InChunk(ChunkSizeStart) && s != [] && |s| + 2 <= MAX_HEADER_SIZE
    requires forall i :: 0 <= i < |s| ==> s[i] as int >= 128
    ensures !Digits(16, s)
    ensures var r := Run(p, s + [CR, LF]);
            r.exit == Running && r.parser.state == InHeader(HeaderFieldStart) && r.parser.flags.trailing
  {
    hide Run, Step;
    assert HexValue(s[0]) == -1;
    HighSize(s);
    SizeRun(p, s);
    NoAssertFails(p, s);
    RunSplit(p, s, [CR, LF]);
    SizeLineEnd(Run(p, s).parser);
  }

  lemma {:induction false} HighSize(s: string)
    requires forall i :: 0 <= i < |s| ==> s[i] as int >= 128
    ensures SizeBytes(s) && SizeOf(s) == 0
  {
    if s != [] {
      HighSize(s[..|s| - 1]);
    }
  }

  /** Chunk sizes wrap as well: one more zero after any spelling of 0x1F00000000000000 is accepted. */
  lemma ChunkOverflowAccepted(p: Parser, s: string)
    requires Inv(p, 0) && p.state == InChunk(ChunkSizeStart) && s != [] && SizeBytes(s) && |s| < MAX_HEADER_SIZE
    requires SizeOf(s) == 0x1F00_0000_0000_0000
    ensures var r := Run(p, s + "0"); r.exit == Running && r.parser.contentLength == 0xF000_0000_0000_0000
  {
    hide Step, Run, SizeOf, Inv;
    SizeRun(p, s);
    NoAssertFails(p, s);
    RunNext(p, s + "0", |s|);
    assert (s + "0")[..|s|] == s && (s + "0")[..|s| + 1] == s + "0";
    assert 0x1F00_0000_0000_0000 * 16 % TWO64 == 0xF000_0000_0000_0000;
    ChunkNextDigit(Run(p, s).parser, '0');
  }

  lemma RunTwo(p: Parser, a: char, b: char)
    requires Step(p, a).exit == Running
    ensures Run(p, [a, b]) == Then(Step(p, a), Step(Step(p, a).parser, b))
  {
    hide Step;
    RunSplit(p, [a], [b]);
    assert [a] + [b] == [a, b];
    RunByte(p, a);
    RunByte(Step(p, a).parser, b);
  }

  lemma SizeLineEnd(p: Parser)
    requires Inv(p, 0) && p.state == InChunk(ChunkSize) && p.nread + 2 <= MAX_HEADER_SIZE
    ensures Run(p, [CR, LF]) ==
            Result(if p.contentLength == 0
                   then p.(nread := 0, flags := p.flags.(trailing := true), state := InHeader(HeaderFieldStart))
                   else p.(nread := 0, state := InBody(ChunkData)), [], Running, 2)
  {
    hide Step;
    SizeReturn(p);
    RunTwo(p, CR, LF);
    SizeFeed(Step(p, CR).parser);
  }

  lemma SizeReturn(p: Parser)
    requires Inv(p, 0) && p.state == InChunk(ChunkSize) && p.nread < MAX_HEADER_SIZE
    ensures Step(p, CR) == Result(p.(nread := p.nread + 1, state := InChunk(ChunkSizeAlmostDone)), [], Running, 1)
  {
  }

  lemma SizeFeed(p: Parser)
    requires p.state == InChunk(ChunkSizeAlmostDone) && p.flags.chunked && p.nread < MAX_HEADER_SIZE
    ensures Step(p, LF) ==
            Result(if p.contentLength == 0
                   then p.(nread := 0, flags := p.flags.(trailing := true), state := InHeader(HeaderFieldStart))
                   else p.(nread := 0, state := InBody(ChunkData)), [], Running, 1)
  {
  }

  lemma ChunkEnd(p: Parser)
    requires Inv(p, 0) && p.state == InChunk(ChunkDataAlmostDone)
    ensures Run(p, [CR, LF]) == Result(p.(nread := 0, state := InChunk(ChunkSizeStart)), [], Running, 2)
  {
    hide Step;
    DataReturn(p);
    RunTwo(p, CR, LF);
    DataFeed(Step(p, CR).parser);
  }

  lemma DataReturn(p: Parser)
    requires Inv(p, 0) && p.state == InChunk(ChunkDataAlmostDone)
    ensures Step(p, CR) == Result(p.(state := InChunk(ChunkDataDone)), [], Running, 1)
  {
  }

  lemma DataFeed(p: Parser)
    requires p.state == InChunk(ChunkDataDone) && p.flags.chunked
    ensures Step(p, LF) == Result(p.(nread := 0, state := InChunk(ChunkSizeStart)), [], Running, 1)
  {
  }

  lemma TrailerEnd(p: Parser)
    requires Inv(p, 0) && p.state == InHeader(HeaderFieldStart) && p.flags.trailing && p.nread + 2 <= MAX_HEADER_SIZE
    ensures var q := p.(nread := p.nread + 2);
            Run(p, [CR, LF]) == Result(q.(state := NewMessage(q)), [Event(MessageComplete)], Running, 2)
  {
    hide Step, NewMessage;
    TrailerReturn(p);
    RunTwo(p, CR, LF);
    TrailerFeed(Step(p, CR).parser);
    SameMessage(p.(nread := p.nread + 2), Step(p, CR).parser.(nread := p.nread + 2));
  }

  lemma TrailerReturn(p: Parser)
    requires p.state == InHeader(HeaderFieldStart) && p.nread < MAX_HEADER_SIZE
    ensures Step(p, CR) == Result(p.(nread := p.nread + 1, state := InDone(HeadersAlmostDone)), [], Running, 1)
  {
  }

  lemma TrailerFeed(p: Parser)
    requires p.state == InDone(HeadersAlmostDone) && p.flags.trailing && p.nread < MAX_HEADER_SIZE
    ensures var q := p.(nread := p.nread + 1);
            Step(p, LF) == Result(q.(state := NewMessage(q)), [Event(MessageComplete)], Running, 1)
  {
    hide KeepAlive;
  }

  lemma SameMessage(p: Parser, q: Parser)
    requires q == p.(state := q.state)
    ensures NewMessage(q) == NewMessage(p)
  {
  }

  /** One chunk: its size in hexadecimal, CRLF, its data, CRLF. */
  function EncodeChunk(c: string): string { HexString(|c|) + [CR, LF] + c + [CR, LF] }

  lemma SizeLineRun(p: Parser, n: nat)
    requires Inv(p, 0) && p.state == InChunk(ChunkSizeStart) && 0 < n < MAX64
    ensures var line := HexString(n) + [CR, LF];
            Run(p, line) == Result(p.(nread := 0, contentLength := n, state := InBody(ChunkData)), [], Running, |line|) &&
            Inv(Run(p, line).parser, 0)
  {
    hide Run, Step, Inv;
    var hex := HexString(n);
    HexNumber(n);
    HexLength(n);
    HexSize(hex);
    SizeRun(p, hex);
    NoAssertFails(p, hex);
    SizeLineEnd(Run(p, hex).parser);
    RunSplit(p, hex, [CR, LF]);
    NoAssertFails(p, hex + [CR, LF]);
  }

  lemma ChunkRun(p: Parser, c: string)
    requires Inv(p, 0) && p.state == InChunk(ChunkSizeStart) && 0 < |c| < MAX64
    ensures Run(p, EncodeChunk(c)) == Result(p.(contentLength := 0), Text(Body, c), Running, |EncodeChunk(c)|)
  {
    hide Run, Step, HexString;
    var line := HexString(|c|) + [CR, LF];
    SizeLineRun(p, |c|);
    BodyRun(Run(p, line).parser, c);
    RunSplit(p, line, c);
    NoAssertFails(p, line + c);
    ChunkEnd(Run(p, line + c).parser);
    RunSplit(p, line + c, [CR, LF]);
  }

  function Concat(chunks: seq<string>): string {
    if chunks == [] then [] else chunks[0] + Concat(chunks[1..])
  }

  /** Chunks, the last chunk of size zero, an empty trailer. */
  function EncodeBody(chunks: seq<string>): string {
    if chunks == [] then "0\r\n\r\n" else EncodeChunk(chunks[0]) + EncodeBody(chunks[1..])
  }

  lemma LastChunk(p: Parser)
    requires Inv(p, 0) && p.state == InChunk(ChunkSizeStart)
    ensures var r := Run(p, "0\r\n\r\n");
            r.exit == Running && r.consumed == 5 && r.atoms == [Event(MessageComplete)] && r.parser.state.InStart?
  {
    hide Run, Step, NewMessage;
    assert Number(16, "0"[..0]) == 0;
    HexSize("0");
    SizeRun(p, "0");
    NoAssertFails(p, "0");
    var p1 := Run(p, "0").parser;
    SizeLineEnd(p1);
    RunSplit(p, "0", [CR, LF]);
    NoAssertFails(p, "0" + [CR, LF]);
    TrailerEnd(Run(p, "0" + [CR, LF]).parser);
    RunSplit(p, "0" + [CR, LF], [CR, LF]);
    assert "0" + [CR, LF] + [CR, LF] == "0\r\n\r\n";
  }

  /** Chunked round trip: the body delivered is the concatenation of the chunks, and the message
      is complete exactly at the end. */
  lemma {:induction false} ChunkedRoundTrip(p: Parser, chunks: seq<string>)
    requires Inv(p, 0) && p.state == InChunk(ChunkSizeStart)
    requires forall i :: 0 <= i < |chunks| ==> 0 < |chunks[i]| < MAX64
    ensures var r := Run(p, EncodeBody(chunks));
            r.exit == Running && r.consumed == |EncodeBody(chunks)| && r.parser.state.InStart? &&
            r.atoms == Text(Body, Concat(chunks)) + [Event(MessageComplete)]
    decreases |chunks|
  {
    hide Run, Step, EncodeChunk, Inv;
    if chunks == [] {
      LastChunk(p);
    } else {
      ChunkRun(p, chunks[0]);
      NoAssertFails(p, EncodeChunk(chunks[0]));
      var q := Run(p, EncodeChunk(chunks[0])).parser;
      ChunkedRoundTrip(q, chunks[1..]);
      RunSplit(p, EncodeChunk(chunks[0]), EncodeBody(chunks[1..]));
      assert Text(Body, Concat(chunks)) == Text(Body, chunks[0]) + Text(Body, Concat(chunks[1..]));
    }
  }
}
