/** Whole request heads, from their first byte: method, URL, version, headers, empty line
    (base/http_parser.cpp:872-1190 and 1191-1660). */
module HttpRequest {
  import opened Wrappers
  import opened HttpTypes
  import opened HttpSwitch
  import opened HttpSpec
  import HttpExecute
  import opened HttpLength
  import opened HttpHeaders
  import HttpUrl
  import UrlGrammar
  import opened HttpMethod
  import opened HttpLines
  import HttpFields
  import opened Rfc2616
  import opened HttpFraming

  // ---- The URL ----

  /** The states of parse_url_char in which a URL must not end. */
  predicate Unfinished(s: UrlState) {
    s.UrlDead? || s.ReqSpacesBeforeUrl? || s.ReqSchema? || s.ReqSchemaSlash? || s.ReqSchemaSlashSlash? ||
    s.ReqServerStart?
  }

  predicate NoBreak(url: string) { forall i :: 0 <= i < |url| ==> url[i] != ' ' && url[i] != CR && url[i] != LF }

  /** The machine of parse_url_char runs over the URL, which is delivered byte by byte; if it refuses, so does the
      parser. */
  lemma {:induction false} UrlRun(p: Parser, url: string)
    requires p.state == InUrl(ReqSpacesBeforeUrl) && url != [] && NoBreak(url) && p.nread + |url| <= MAX_HEADER_SIZE
    ensures var s := HttpUrl.StateAt(HttpUrl.StartOf(p.verb.CONNECT?), url, |url|);
            if s.UrlDead? then Run(p, url).exit == Failed
            else Leads(p, url, p.(nread := p.nread + |url|, state := InUrl(s)), HttpExecute.Text(Url, url))
  {
    hide Step, Run, ParseUrlChar;
    var n := |url| - 1;
    var start, ch := HttpUrl.StartOf(p.verb.CONNECT?), url[n];
    RunNext(p, url, n);
    assert url[..n + 1] == url == url[..n] + [ch];
    if n == 0 {
      RunEmpty(p);
      RunByte(p, ch);
      FirstUrlByte(p, ch);
      assert HttpUrl.StateAt(start, url, 0) == start;
      assert HttpExecute.Text(Url, url) == [Byte(Url, ch)];
    } else {
      UrlRun(p, url[..n]);
      var s := HttpUrl.StateAt(start, url[..n], n);
      UrlGrammar.WalkPrefix(start, url[..n], [ch], n);
      if s.UrlDead? {
        HttpUrl.DeadForever(start, url, n, n + 1);
      } else {
        AliveUrl(start, url[..n]);
        var q := p.(nread := p.nread + n, state := InUrl(s));
        NextUrlByte(q, ch);
        if !ParseUrlChar(s, ch).UrlDead? {
          Chain(p, url[..n], q, HttpExecute.Text(Url, url[..n]), [ch], On(q, InUrl(ParseUrlChar(s, ch))), [Byte(Url, ch)]);
          assert HttpExecute.Text(Url, url) == HttpExecute.Text(Url, url[..n]) + [Byte(Url, ch)];
        }
      }
    }
  }

  lemma FirstUrlByte(p: Parser, ch: char)
    requires p.state == InUrl(ReqSpacesBeforeUrl) && p.nread < MAX_HEADER_SIZE && ch != ' '
    ensures var s := ParseUrlChar(HttpUrl.StartOf(p.verb.CONNECT?), ch);
            if s.UrlDead? then Step(p, ch).exit == Failed else Leads(p, [ch], On(p, InUrl(s)), [Byte(Url, ch)])
  {
    hide Leads, ParseUrlChar, Step;
    LineStep(p, ch);
    var s := ParseUrlChar(HttpUrl.StartOf(p.verb.CONNECT?), ch);
    assert !s.UrlDead? ==> TextAtoms(InUrl(s), ch) + Notes(Just(Mark(Url))) == [Byte(Url, ch)];
  }

  lemma NextUrlByte(p: Parser, ch: char)
    requires p.state.InUrl? && !p.state.url.ReqSpacesBeforeUrl? && p.nread < MAX_HEADER_SIZE
    requires ch != ' ' && ch != CR && ch != LF
    ensures var s := ParseUrlChar(p.state.url, ch);
            if s.UrlDead? then Step(p, ch).exit == Failed else Leads(p, [ch], On(p, InUrl(s)), [Byte(Url, ch)])
  {
    hide Leads, ParseUrlChar, Step;
    LineStep(p, ch);
    var s := ParseUrlChar(p.state.url, ch);
    assert !s.UrlDead? ==> TextAtoms(InUrl(s), ch) + Notes(Nil) == [Byte(Url, ch)];
  }

  lemma AliveUrl(start: UrlState, url: string)
    requires url != []
    ensures !HttpUrl.StateAt(start, url, |url|).ReqSpacesBeforeUrl?
  {
  }

  /** A URL that may stand in a request line. */
  predicate Target(t: UrlGrammar.Raw, m: Method) {
    UrlGrammar.Legal(t, m.CONNECT?) && (t.path != [] || t.query.Some? || UrlGrammar.AuthText(t) != [])
  }

  lemma TargetState(t: UrlGrammar.Raw, m: Method)
    requires Target(t, m)
    ensures HttpUrl.StateAt(HttpUrl.StartOf(m.CONNECT?), UrlGrammar.Text(t), |UrlGrammar.Text(t)|) == UrlGrammar.EndState(t)
    ensures !Unfinished(UrlGrammar.EndState(t)) && UrlGrammar.Text(t) != []
  {
    hide HttpUrl.StateAt;
    UrlGrammar.ToldAll(t, m.CONNECT?);
    if UrlGrammar.Text(t) == [] {
      UrlGrammar.WalkNone(HttpUrl.StartOf(m.CONNECT?), []);
    }
  }

  lemma TargetFinished(isConnect: bool, t: UrlGrammar.Raw)
    requires UrlGrammar.Legal(t, isConnect) && !Unfinished(UrlGrammar.EndState(t))
    ensures t.path != [] || t.query.Some? || UrlGrammar.AuthText(t) != []
  {
  }

  lemma NoBreaks(start: UrlState, url: string)
    requires !HttpUrl.StateAt(start, url, |url|).UrlDead?
    ensures NoBreak(url)
  {
    forall i | 0 <= i < |url|
      ensures url[i] != ' ' && url[i] != CR && url[i] != LF
    {
      UrlGrammar.DeadWalk(start, url, i + 1);
    }
  }

  /** What may follow the URL. */
  lemma UrlEnds(p: Parser, s: UrlState)
    requires p.state == InUrl(s) && !Unfinished(s) && p.nread < MAX_HEADER_SIZE
    ensures Leads(p, [' '], On(p, InVersion(ReqHttpStart)), [])
    ensures Leads(p, [CR], On(p, InVersion(ReqLineAlmostDone)).(major := 0, minor := 9), [])
    ensures Leads(p, [LF], On(p, InHeader(HeaderFieldStart)).(major := 0, minor := 9), [])
  {
    hide Leads;
    LineStep(p, ' ');
    LineStep(p, CR);
    LineStep(p, LF);
    assert Notes(Just(Flush(Url))) == [];
  }

  lemma UrlCutShort(p: Parser, s: UrlState, ch: char)
    requires p.state == InUrl(s) && Unfinished(s) && !s.UrlDead? && !s.ReqSpacesBeforeUrl? && p.nread < MAX_HEADER_SIZE
    requires ch == ' ' || ch == CR || ch == LF
    ensures Step(p, ch).exit == Failed
  {
    hide Leads, Step;
    LineStep(p, ch);
  }

  // ---- The request line ----

  /** The record at the start of the headers, behind a request line of n bytes. */
  function AfterRequest(p: Parser, m: Method, n: nat, major: nat, minor: nat): Parser {
    AfterMethod(p, m).(nread := p.nread + n, state := InHeader(HeaderFieldStart), major := major, minor := minor)
  }

  /** Method, space, further spaces, URL. */
  function Asking(m: Method, gap: nat, t: UrlGrammar.Raw): string {
    MethodString(m) + [' '] + Blanks(gap) + UrlGrammar.Text(t)
  }

  /** The version of a request line: two numbers, behind further spaces; or none, as in HTTP/0.9. */
  datatype Version = Named(more: nat, major: string, minor: string) | Unnamed

  /** A request line in the form of section 5.1 of RFC 2616 but for further spaces, which the parser passes over. */
  datatype Ask = Ask(m: Method, gap: nat, target: UrlGrammar.Raw, version: Version, eol: Eol)

  function VersionText(v: Version): string {
    match v
    case Named(more, major, minor) => [' '] + Blanks(more) + VersionBytes(0, major, minor)
    case Unnamed => []
  }

  function Line(a: Ask): string { Asking(a.m, a.gap, a.target) + (VersionText(a.version) + End(a.eol)) }

  /** Both numbers are at most 999, and the first does not begin with 0. */
  predicate LegalVersion(v: Version) {
    v.Named? ==> Numeral(v.major) && Numeral(v.minor) && Fits(RequestMajor, v.major) && Fits(RequestMinor, v.minor)
  }

  predicate LegalAsk(a: Ask) { Target(a.target, a.m) && LegalVersion(a.version) }

  function Major(v: Version): nat
    requires LegalVersion(v)
  {
    if v.Named? then Number(10, v.major) else 0
  }

  function Minor(v: Version): nat
    requires LegalVersion(v)
  {
    if v.Named? then Number(10, v.minor) else 9
  }

  function AskedAtoms(t: UrlGrammar.Raw): seq<Atom> {
    [Event(MessageBegin)] + HttpExecute.Text(Url, UrlGrammar.Text(t))
  }

  lemma AskingRun(p: Parser, m: Method, gap: nat, t: UrlGrammar.Raw)
    requires p.state == InStart(StartReq) && Target(t, m) && p.nread + |Asking(m, gap, t)| <= MAX_HEADER_SIZE
    ensures var text := Asking(m, gap, t);
            Leads(p, text, AfterMethod(p, m).(nread := p.nread + |text|, state := InUrl(UrlGrammar.EndState(t))),
                  AskedAtoms(t))
  {
    hide Leads, Run, Step, MethodString, UrlGrammar.Text, UrlGrammar.EndState, Target, HttpUrl.StateAt;
    var a, url := MethodString(m) + [' '], UrlGrammar.Text(t);
    MethodLeads(p, m);
    var q := AfterMethod(p, m);
    BlanksRun(q, gap);
    var r := q.(nread := q.nread + gap);
    TargetState(t, m);
    NoBreaks(HttpUrl.StartOf(m.CONNECT?), url);
    UrlRun(r, url);
    var s := r.(nread := r.nread + |url|, state := InUrl(UrlGrammar.EndState(t)));
    Chain(p, a, q, [Event(MessageBegin)], Blanks(gap), r, []);
    Chain(p, a + Blanks(gap), r, [Event(MessageBegin)] + [], url, s, HttpExecute.Text(Url, url));
    assert [Event(MessageBegin)] + [] == [Event(MessageBegin)];
  }

  lemma MethodLeads(p: Parser, m: Method)
    requires p.state == InStart(StartReq) && p.nread + |MethodString(m)| + 1 <= MAX_HEADER_SIZE
    ensures Leads(p, MethodString(m) + [' '], AfterMethod(p, m), [Event(MessageBegin)])
  {
    hide Run, Step, MethodString;
    TrieComplete(p, m);
  }

  /** The end of a line behind its last number. */
  lemma LineEnds(p: Parser, e: Eol)
    requires p.state == InVersion(ReqMinor) && p.nread + |End(e)| <= MAX_HEADER_SIZE
    ensures Leads(p, End(e), p.(nread := p.nread + |End(e)|, state := InHeader(HeaderFieldStart)), [])
  {
    hide Leads;
    if e.CrLf? {
      var q := On(p, InVersion(ReqLineAlmostDone));
      Quiet(p, CR, q);
      Quiet(q, LF, On(q, InHeader(HeaderFieldStart)));
      ChainQuiet(p, [CR], q, [LF], On(q, InHeader(HeaderFieldStart)));
      assert [CR] + [LF] == End(e);
    } else {
      Quiet(p, LF, On(p, InHeader(HeaderFieldStart)));
    }
  }

  lemma SimpleEnds(p: Parser, s: UrlState, e: Eol)
    requires p.state == InUrl(s) && !Unfinished(s) && p.nread + |End(e)| <= MAX_HEADER_SIZE
    ensures Leads(p, End(e),
                  p.(nread := p.nread + |End(e)|, state := InHeader(HeaderFieldStart), major := 0, minor := 9), [])
  {
    hide Leads, Unfinished;
    UrlEnds(p, s);
    if e.CrLf? {
      var q := On(p, InVersion(ReqLineAlmostDone)).(major := 0, minor := 9);
      Quiet(q, LF, On(q, InHeader(HeaderFieldStart)));
      ChainQuiet(p, [CR], q, [LF], On(q, InHeader(HeaderFieldStart)));
      assert [CR] + [LF] == End(e);
    }
  }

  /** What stands behind the URL. */
  lemma VersionPart(p: Parser, s: UrlState, v: Version, e: Eol)
    requires p.state == InUrl(s) && !Unfinished(s) && LegalVersion(v)
    requires p.nread + |VersionText(v) + End(e)| <= MAX_HEADER_SIZE
    ensures var text := VersionText(v) + End(e);
            Leads(p, text,
                  p.(nread := p.nread + |text|, state := InHeader(HeaderFieldStart), major := Major(v),
                     minor := Minor(v)), [])
  {
    hide Leads, Unfinished, Run, Step, Number, VersionBytes, End, Switch;
    if v.Unnamed? {
      SimpleEnds(p, s, e);
      assert VersionText(v) + End(e) == End(e);
    } else {
      UrlEnds(p, s);
      var q := On(p, InVersion(ReqHttpStart));
      BlanksRun(q, v.more);
      var r := q.(nread := q.nread + v.more);
      VersionRun(r, true, v.major, v.minor);
      var b := VersionBytes(0, v.major, v.minor);
      var w := r.(nread := r.nread + |b|, state := InVersion(ReqMinor), major := Major(v), minor := Minor(v));
      LineEnds(w, e);
      ChainQuiet(p, [' '], q, Blanks(v.more), r);
      ChainQuiet(p, [' '] + Blanks(v.more), r, b, w);
      ChainQuiet(p, [' '] + Blanks(v.more) + b, w, End(e),
                 w.(nread := w.nread + |End(e)|, state := InHeader(HeaderFieldStart)));
    }
  }

  /** Every request line: any method, any URL that may stand there, any version up to 999.999 or none. The method is the
      one named, the version the one the digits denote (0.9 if there is none), and the URL is delivered. */
  lemma RequestLineRun(p: Parser, a: Ask)
    requires p.state == InStart(StartReq) && LegalAsk(a) && p.nread + |Line(a)| <= MAX_HEADER_SIZE
    ensures Leads(p, Line(a), AfterRequest(p, a.m, |Line(a)|, Major(a.version), Minor(a.version)), AskedAtoms(a.target))
  {
    hide Leads, Run, Step, MethodString, UrlGrammar.Text, UrlGrammar.EndState, Target, Unfinished, VersionText, End,
         Asking, AskedAtoms, LegalVersion, Major, Minor;
    var x, y := Asking(a.m, a.gap, a.target), VersionText(a.version) + End(a.eol);
    AskingRun(p, a.m, a.gap, a.target);
    TargetState(a.target, a.m);
    var q := AfterMethod(p, a.m).(nread := p.nread + |x|, state := InUrl(UrlGrammar.EndState(a.target)));
    VersionPart(q, UrlGrammar.EndState(a.target), a.version, a.eol);
    var r := q.(nread := q.nread + |y|, state := InHeader(HeaderFieldStart), major := Major(a.version),
                minor := Minor(a.version));
    Chain(p, x, q, AskedAtoms(a.target), y, r, []);
    assert AskedAtoms(a.target) + [] == AskedAtoms(a.target);
  }

  // ---- What is refused ----

  lemma FailsOn(p: Parser, a: string, b: string)
    requires Run(p, a).exit == Failed
    ensures Run(p, a + b).exit == Failed
  {
    hide Run;
    RunSplit(p, a, b);
  }

  lemma LeadsOn(p: Parser, a: string, q: Parser, x: seq<Atom>, b: string)
    requires Leads(p, a, q, x)
    ensures Run(p, a + b).exit == Run(q, b).exit
  {
    hide Run;
    RunSplit(p, a, b);
  }

  ghost predicate IsTarget(t: UrlGrammar.Raw, m: Method, url: string) { Target(t, m) && UrlGrammar.Text(t) == url }

  /** A text on which the machine does not stop early is a URL that may stand in a request line. */
  lemma FinishedTarget(m: Method, url: string)
    requires !Unfinished(HttpUrl.StateAt(HttpUrl.StartOf(m.CONNECT?), url, |url|))
    ensures exists t :: IsTarget(t, m, url)
  {
    hide HttpUrl.StateAt, UrlGrammar.FormOf;
    UrlGrammar.HasForm(m.CONNECT?, url);
    var f := UrlGrammar.FormOf(m.CONNECT?, url);
    assert f.Whole?;
    TargetFinished(m.CONNECT?, f.t);
    assert IsTarget(f.t, m, url);
  }

  /** A method, a space, any text without spaces and line ends, another space: accepted exactly if the text is a URL
      that may stand in a request line. */
  lemma TargetExact(p: Parser, m: Method, url: string)
    requires p.state == InStart(StartReq) && url != [] && NoBreak(url)
    requires p.nread + |MethodString(m)| + |url| + 2 <= MAX_HEADER_SIZE
    ensures var r := Run(p, MethodString(m) + [' '] + url + [' ']);
            if exists t :: IsTarget(t, m, url) then r.exit == Running else r.exit == Failed
  {
    hide Leads, Run, Step, MethodString, UrlGrammar.Text, UrlGrammar.EndState, Target, Unfinished, HttpUrl.StateAt, NoBreak;
    var a, start := MethodString(m) + [' '], HttpUrl.StartOf(m.CONNECT?);
    var s := HttpUrl.StateAt(start, url, |url|);
    MethodLeads(p, m);
    var q := AfterMethod(p, m);
    UrlRun(q, url);
    LeadsOn(p, a, q, [Event(MessageBegin)], url);
    if t :| IsTarget(t, m, url) {
      TargetState(t, m);
    }
    if s.UrlDead? {
      DeadUnfinished(s);
      FailsOn(p, a + url, [' ']);
    } else {
      AliveUrl(start, url);
      var r := q.(nread := q.nread + |url|, state := InUrl(s));
      Chain(p, a, q, [Event(MessageBegin)], url, r, HttpExecute.Text(Url, url));
      LeadsOn(p, a + url, r, [Event(MessageBegin)] + HttpExecute.Text(Url, url), [' ']);
      RunByte(r, ' ');
      if Unfinished(s) {
        UrlCutShort(r, s, ' ');
      } else {
        FinishedTarget(m, url);
        UrlEnds(r, s);
        LeadsRunning(r, [' '], On(r, InVersion(ReqHttpStart)), []);
      }
    }
  }

  lemma DeadUnfinished(s: UrlState)
    ensures s.UrlDead? ==> Unfinished(s)
  {
  }

  lemma LeadsRunning(p: Parser, a: string, q: Parser, x: seq<Atom>)
    requires Leads(p, a, q, x)
    ensures Run(p, a).exit == Running
  {
    hide Run;
  }

  // ---- The whole head ----

  /** Every request head, from its first byte: its trace, what follows it, and the state in which the next message is
      awaited, from the text alone. What follows is what RFC 2616 says if and only if the text conforms and the request
      switches no protocol. */
  lemma RequestHead(p: Parser, a: Ask, headers: seq<Header>, last: Eol)
    requires p.state == InStart(StartReq) && p.kind.Request? && LegalAsk(a) && AllWellFormed(headers)
    requires p.nread + |Line(a)| + |Block(headers)| + 2 <= MAX_HEADER_SIZE
    ensures var m := Message(true, p.status, headers);
            var q := WithHeaders(AfterRequest(p, a.m, |Line(a)|, Major(a.version), Minor(a.version)), headers);
            var r := Run(p, HeadBytes(Line(a), headers, last));
            var next := InStart(if KeptOpen(Major(a.version), Minor(a.version), headers) then StartReq else Dead);
            var switches := SaysUpgrade(headers) || a.m.CONNECT?;
            (Framed(q, r, FramingOf(m)) <==> Conforms(m) && !switches) &&
            (if switches then r.exit == Upgraded && r.parser.state == next else Framed(q, r, TakenFrom(m))) &&
            NextStart(q) == next &&
            r.atoms == AskedAtoms(a.target) + HttpFields.BlockAtoms(headers) +
              DoneAtoms(if switches then NoBody else TakenFrom(m))
  {
    hide Run, Step, Framed, AllWellFormed, Block, BlockMeans, BlockAnnounces, TakenFrom, Conforms, FramingOf,
         SaysUpgrade, SaysChunked, Line, LegalAsk, Asks, AskedAtoms, HttpFields.BlockAtoms, DoneAtoms, Major, Minor,
         NextStart, LegalVersion;
    AskVersion(a);
    RequestEnds(p.status, headers);
    RequestLineRun(p, a);
    var line, rest := Line(a), Block(headers) + End(last);
    var q := AfterRequest(p, a.m, |line|, Major(a.version), Minor(a.version));
    HeadFraming(q, headers, last);
    NextFrom(q, headers);
    HeadAfter(p, line, q, AskedAtoms(a.target), headers, last);
  }

  lemma RequestEnds(status: nat, headers: seq<Header>)
    requires AllWellFormed(headers)
    ensures TakenFrom(Message(true, status, headers)) != ToEof
  {
    hide SaysChunked, LengthTaken, AllWellFormed;
  }

  lemma AskVersion(a: Ask)
    requires LegalAsk(a)
    ensures LegalVersion(a.version)
  {
  }
}
