/** A parser that was not told whether it reads requests or responses finds out from the first two bytes
    (base/http_parser.cpp:634-722). */
module HttpBoth {
  import opened HttpTypes
  import opened HttpSwitch
  import opened HttpSpec
  import opened HttpLength
  import opened HttpRefusals

  /** Line ends before a message are passed over. */
  lemma {:induction false} BreaksRun(p: Parser, s: string)
    requires p.state == InStart(StartReqOrRes) || p.state == InStart(StartReq)
    requires p.nread + |s| <= MAX_HEADER_SIZE && forall i :: 0 <= i < |s| ==> Break(s[i])
    ensures Run(p, s) == Result(p.(nread := p.nread + |s|), [], Running, |s|)
  {
    hide Step, Run;
    if s == [] {
      RunEmpty(p);
    } else {
      var n := |s| - 1;
      BreaksRun(p, s[..n]);
      RunNext(p, s, n);
      assert s[..n + 1] == s;
      BreakStep(p.(nread := p.nread + n), s[n]);
    }
  }

  lemma BreakStep(p: Parser, ch: char)
    requires p.state == InStart(StartReqOrRes) || p.state == InStart(StartReq)
    requires p.nread < MAX_HEADER_SIZE && Break(ch)
    ensures Step(p, ch) == Result(p.(nread := p.nread + 1), [], Running, 1)
  {
  }

  lemma RequestByte(p: Parser, ch: char)
    requires p.kind.Both? && p.state == InStart(StartReqOrRes) && p.nread < MAX_HEADER_SIZE && !Break(ch) && ch != 'H'
    ensures Step(p, ch) == Step(p.(kind := Request, state := InStart(StartReq)), ch)
  {
    hide FirstMethod, IsAlpha;
    var q := p.(nread := p.nread + 1);
    var h := q.(flags := NO_FLAGS, contentLength := MAX64, kind := Request, state := InStart(StartReq));
    assert Switch(q, ch) == Outcome(h, Nil, Reexecute);
    ReexecutionDescends(q, ch);
    var o := Dispatch(h, ch);
    assert Dispatch(q, ch) == Outcome(o.parser, Append(Nil, o.ops), o.next) == o;
    assert Switch(h, ch) == Switch(h.(flags := p.flags, contentLength := p.contentLength), ch);
  }

  lemma FirstH(p: Parser)
    requires p.nread < MAX_HEADER_SIZE && p.state.InStart?
    ensures var q := p.(nread := p.nread + 1, flags := NO_FLAGS, contentLength := MAX64);
            (p.state.start.StartReqOrRes? ==>
               Step(p, 'H') == Result(q.(state := InStart(ResOrRespH)), [Event(MessageBegin)], Running, 1)) &&
            (p.state.start.StartReq? ==>
               Step(p, 'H') == Result(q.(state := InMethod, verb := HEAD, index := 1), [Event(MessageBegin)], Running, 1)) &&
            (p.state.start.StartRes? ==>
               Step(p, 'H') == Result(q.(state := InStatusLine(ResH)), [Event(MessageBegin)], Running, 1))
  {
  }

  lemma SecondE(p: Parser)
    requires p.nread < MAX_HEADER_SIZE
    ensures var q := p.(nread := p.nread + 1, state := InMethod, index := 2);
            (p.state == InStart(ResOrRespH) ==> Step(p, 'E') == Result(q.(kind := Request, verb := HEAD), [], Running, 1)) &&
            (p.state == InMethod && p.verb == HEAD && p.index == 1 ==> Step(p, 'E') == Result(q, [], Running, 1))
  {
  }

  lemma SecondOther(p: Parser, ch: char)
    requires p.nread < MAX_HEADER_SIZE && p.state == InStart(ResOrRespH)
    ensures ch == 'T' ==>
              Step(p, ch) == Result(p.(nread := p.nread + 1, kind := Response, state := InStatusLine(ResHT)), [], Running, 1)
    ensures ch != 'T' && ch != 'E' ==> Step(p, ch).exit == Failed && Step(p, ch).parser.errno == INVALID_CONSTANT
  {
  }

  lemma SecondT(p: Parser)
    requires p.nread < MAX_HEADER_SIZE && p.state == InStatusLine(ResH)
    ensures Step(p, 'T') == Result(p.(nread := p.nread + 1, state := InStatusLine(ResHT)), [], Running, 1)
  {
  }

  /** The first two bytes. */
  lemma BothTwo(p: Parser, ch: char)
    requires p.kind.Both? && p.state == InStart(StartReqOrRes) && p.nread + 2 <= MAX_HEADER_SIZE
    ensures ch == 'E' ==> Run(p, ['H', ch]) == Run(p.(kind := Request, state := InStart(StartReq)), ['H', ch])
    ensures ch == 'T' ==> Run(p, ['H', ch]) == Run(p.(kind := Response, state := InStart(StartRes)), ['H', ch])
    ensures ch != 'E' && ch != 'T' ==>
              Run(p, ['H', ch]).exit == Failed && Run(p, ['H', ch]).parser.errno == INVALID_CONSTANT
  {
    hide Run, Step;
    var q, r := p.(kind := Request, state := InStart(StartReq)), p.(kind := Response, state := InStart(StartRes));
    FirstH(p);
    FirstH(q);
    FirstH(r);
    RunTwo(p, 'H', ch);
    SecondOther(Step(p, 'H').parser, ch);
    if ch == 'E' {
      RunTwo(q, 'H', ch);
      SecondE(Step(p, 'H').parser);
      SecondE(Step(q, 'H').parser);
    } else if ch == 'T' {
      RunTwo(r, 'H', ch);
      SecondT(Step(r, 'H').parser);
    }
  }

  lemma SameAfter(p: Parser, q: Parser, a: string, b: string)
    requires Run(p, a) == Run(q, a)
    ensures Run(p, a + b) == Run(q, a + b)
  {
    hide Run;
    RunSplit(p, a, b);
    RunSplit(q, a, b);
  }

  /** From the first byte that is not a line end on, such a parser does what a request parser does or what a response
      parser does: the latter if the message begins with "HT". Behind 'H' only 'T' and 'E' are let pass. */
  lemma BothSame(p: Parser, data: string)
    requires p.kind.Both? && p.state == InStart(StartReqOrRes) && p.nread + 2 <= MAX_HEADER_SIZE
    requires |data| >= 2 && !Break(data[0])
    ensures data[0] != 'H' || data[1] == 'E' ==> Run(p, data) == Run(p.(kind := Request, state := InStart(StartReq)), data)
    ensures data[0] == 'H' && data[1] == 'T' ==>
              Run(p, data) == Run(p.(kind := Response, state := InStart(StartRes)), data)
    ensures data[0] == 'H' && data[1] != 'E' && data[1] != 'T' ==>
              Run(p, data).exit == Failed && Run(p, data).parser.errno == INVALID_CONSTANT
  {
    hide Run, Step;
    var q, r := p.(kind := Request, state := InStart(StartReq)), p.(kind := Response, state := InStart(StartRes));
    if data[0] != 'H' {
      RequestByte(p, data[0]);
      RunByte(p, data[0]);
      RunByte(q, data[0]);
      assert data == [data[0]] + data[1..];
      SameAfter(p, q, [data[0]], data[1..]);
    } else {
      var two := ['H', data[1]];
      assert data == two + data[2..];
      BothTwo(p, data[1]);
      if data[1] == 'E' {
        SameAfter(p, q, two, data[2..]);
      } else if data[1] == 'T' {
        SameAfter(p, r, two, data[2..]);
      } else {
        RunSplit(p, two, data[2..]);
      }
    }
  }
}
