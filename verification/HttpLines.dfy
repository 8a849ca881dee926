/** The pieces of a request line or status line: protocol name, numbers, spaces and line ends
    (base/http_parser.cpp:694-870 and 1060-1190). */
module HttpLines {
  import opened HttpTypes
  import opened HttpSwitch
  import opened HttpSpec
  import opened HttpLength
  import opened HttpHeaders

  /** A text leads from one record to another, with these atoms. */
  ghost predicate Leads(p: Parser, text: string, q: Parser, atoms: seq<Atom>) {
    Run(p, text) == Result(q, atoms, Running, |text|)
  }

  lemma Chain(p: Parser, a: string, q: Parser, x: seq<Atom>, b: string, r: Parser, y: seq<Atom>)
    requires Leads(p, a, q, x) && Leads(q, b, r, y)
    ensures Leads(p, a + b, r, x + y)
  {
    hide Run;
    RunSplit(p, a, b);
  }

  lemma ChainQuiet(p: Parser, a: string, q: Parser, b: string, r: Parser)
    requires Leads(p, a, q, []) && Leads(q, b, r, [])
    ensures Leads(p, a + b, r, [])
  {
    hide Leads;
    Chain(p, a, q, [], b, r, []);
    var none: seq<Atom> := [];
    assert none + none == none;
  }

  lemma NoText(p: Parser)
    ensures Leads(p, [], p, [])
  {
    RunEmpty(p);
  }

  /** The record one byte on. */
  function On(p: Parser, s: State): Parser { p.(nread := p.nread + 1, state := s) }

  predicate InLine(s: State) { s.InStatusLine? || s.InUrl? || s.InVersion? }

  /** In a start line a byte is one execution of the switch. */
  lemma LineStep(p: Parser, ch: char)
    requires InLine(p.state) && p.nread < MAX_HEADER_SIZE
    ensures var o := Switch(p.(nread := p.nread + 1), ch);
            (o.next == Advance ==> Leads(p, [ch], o.parser, TextAtoms(o.parser.state, ch) + Notes(o.ops))) &&
            (o.next == Fail ==> Step(p, ch).exit == Failed)
  {
    hide SwitchStatusLine, SwitchUrl, SwitchVersion;
    RunByte(p, ch);
  }

  /** A byte without operations. */
  lemma Quiet(p: Parser, ch: char, q: Parser)
    requires InLine(p.state) && p.nread < MAX_HEADER_SIZE && TextKind(q.state).None?
    requires Switch(p.(nread := p.nread + 1), ch) == Outcome(q, Nil, Advance)
    ensures Leads(p, [ch], q, [])
  {
    hide Switch, Leads;
    LineStep(p, ch);
    assert TextAtoms(q.state, ch) + Notes(Nil) == [];
  }

  // ---- The protocol name ----

  /** The states that await the rest of "HTTP/", after i bytes. */
  function Awaits(request: bool, i: nat): State {
    if request then
      InVersion(if i == 0 then ReqHttpStart else if i == 1 then ReqHttpH else if i == 2 then ReqHttpHT
                else if i == 3 then ReqHttpHTT else if i == 4 then ReqHttpHTTP else ReqFirstMajor)
    else
      InStatusLine(if i <= 1 then ResH else if i == 2 then ResHT
                   else if i == 3 then ResHTT else if i == 4 then ResHTTP else ResFirstMajor)
  }

  const PROTOCOL := "HTTP/"

  /** From the i-th byte of "HTTP/" on. */
  lemma {:induction false} ProtocolRun(p: Parser, request: bool, i: nat)
    requires i <= 5 && (!request ==> 1 <= i) && p.state == Awaits(request, i) && p.nread + (5 - i) <= MAX_HEADER_SIZE
    ensures Leads(p, PROTOCOL[i..], p.(nread := p.nread + (5 - i), state := Awaits(request, 5)), [])
    decreases 5 - i
  {
    hide Leads, Run, Step, Awaits;
    if i == 5 {
      NoText(p);
    } else {
      var q := On(p, Awaits(request, i + 1));
      Awaited(p, request, i);
      ProtocolRun(q, request, i + 1);
      ChainQuiet(p, [PROTOCOL[i]], q, PROTOCOL[i + 1..], q.(nread := q.nread + (5 - (i + 1)), state := Awaits(request, 5)));
      assert PROTOCOL[i..] == [PROTOCOL[i]] + PROTOCOL[i + 1..];
    }
  }

  lemma Awaited(p: Parser, request: bool, i: nat)
    requires i < 5 && (!request ==> 1 <= i) && p.state == Awaits(request, i) && p.nread < MAX_HEADER_SIZE
    ensures Leads(p, [PROTOCOL[i]], On(p, Awaits(request, i + 1)), [])
  {
    Quiet(p, PROTOCOL[i], On(p, Awaits(request, i + 1)));
  }

  // ---- Numbers ----

  /** The numbers of a start line. */
  datatype Count = RequestMajor | RequestMinor | ResponseMajor | ResponseMinor | StatusCode

  function First(c: Count): State {
    match c
    case RequestMajor => InVersion(ReqFirstMajor) case RequestMinor => InVersion(ReqFirstMinor)
    case ResponseMajor => InStatusLine(ResFirstMajor) case ResponseMinor => InStatusLine(ResFirstMinor)
    case StatusCode => InStatusLine(ResFirstStatus)
  }

  function More(c: Count): State {
    match c
    case RequestMajor => InVersion(ReqMajor) case RequestMinor => InVersion(ReqMinor)
    case ResponseMajor => InStatusLine(ResMajor) case ResponseMinor => InStatusLine(ResMinor)
    case StatusCode => InStatusLine(ResStatusCode)
  }

  /** The record after n digits that denote v. */
  function Counted(c: Count, p: Parser, n: nat, v: nat): Parser {
    var q := p.(nread := p.nread + n, state := More(c));
    match c
    case RequestMajor | ResponseMajor => q.(major := v)
    case RequestMinor | ResponseMinor => q.(minor := v)
    case StatusCode => q.(status := v)
  }

  /** A number is at most 999; the major version of a request does not begin with 0. */
  predicate Fits(c: Count, s: string)
    requires s != [] && Digits(10, s)
  {
    Number(10, s) <= 999 && (c.RequestMajor? ==> s[0] != '0')
  }

  lemma FirstCounted(c: Count, p: Parser, ch: char)
    requires p.state == First(c) && IsNum(ch) && p.nread < MAX_HEADER_SIZE
    ensures if c.RequestMajor? && ch == '0' then Step(p, ch).exit == Failed
            else Leads(p, [ch], Counted(c, p, 1, HexValue(ch)), [])
  {
    hide Leads;
    if c.RequestMajor? && ch == '0' {
      LineStep(p, ch);
    } else {
      Quiet(p, ch, Counted(c, p, 1, HexValue(ch)));
    }
  }

  lemma CountSwitch(c: Count, p: Parser, n: nat, v: nat, ch: char)
    requires IsNum(ch)
    ensures var q, w := Counted(c, p, n, v), v * 10 + HexValue(ch);
            InLine(q.state) && q.nread == p.nread + n && TextKind(Counted(c, p, n + 1, w).state).None? &&
            if w <= 999 then Switch(q.(nread := q.nread + 1), ch) == Outcome(Counted(c, p, n + 1, w), Nil, Advance)
            else Switch(q.(nread := q.nread + 1), ch).next == Fail
  {
  }

  lemma NextCounted(c: Count, p: Parser, n: nat, v: nat, ch: char)
    requires IsNum(ch) && p.nread + n < MAX_HEADER_SIZE
    ensures var w := v * 10 + HexValue(ch);
            if w <= 999 then Leads(Counted(c, p, n, v), [ch], Counted(c, p, n + 1, w), [])
            else Step(Counted(c, p, n, v), ch).exit == Failed
  {
    hide Leads, Step, TextKind;
    var w := v * 10 + HexValue(ch);
    var q := Counted(c, p, n, v);
    CountSwitch(c, p, n, v, ch);
    hide Counted, Switch;
    if w <= 999 {
      Quiet(q, ch, Counted(c, p, n + 1, w));
    } else {
      LineStep(q, ch);
    }
  }

  lemma {:induction false} CountRun(c: Count, p: Parser, s: string)
    requires p.state == First(c) && s != [] && Digits(10, s) && p.nread + |s| <= MAX_HEADER_SIZE
    ensures if Fits(c, s) then Leads(p, s, Counted(c, p, |s|, Number(10, s)), []) else Run(p, s).exit == Failed
  {
    hide Step, Run, Counted, First, HexValue, Switch;
    var n := |s| - 1;
    var d := s[n];
    assert IsNum(d) by { DigitIs(s, n); }
    RunNext(p, s, n);
    assert s[..n + 1] == s == s[..n] + [d];
    if n == 0 {
      FirstCounted(c, p, d);
      RunEmpty(p);
      RunByte(p, d);
      assert Number(10, s[..0]) == 0;
    } else {
      CountRun(c, p, s[..n]);
      var v := Number(10, s[..n]);
      NextCounted(c, p, n, v, d);
      if Fits(c, s) {
        ChainQuiet(p, s[..n], Counted(c, p, n, v), [d], Counted(c, p, n + 1, v * 10 + HexValue(d)));
      }
    }
  }

  lemma DigitIs(s: string, i: nat)
    requires i < |s| && Digits(10, s)
    ensures IsNum(s[i])
  {
  }

  // ---- Spaces and line ends ----

  function Blanks(n: nat): (s: string)
    ensures |s| == n && forall i :: 0 <= i < n ==> s[i] == ' '
  {
    seq(n, _ => ' ')
  }

  /** The states in which further spaces are passed over. */
  predicate Skips(s: State) {
    s == InUrl(ReqSpacesBeforeUrl) || s == InVersion(ReqHttpStart) || s == InStatusLine(ResFirstStatus)
  }

  lemma {:induction false} BlanksRun(p: Parser, n: nat)
    requires Skips(p.state) && p.nread + n <= MAX_HEADER_SIZE
    ensures Leads(p, Blanks(n), p.(nread := p.nread + n), [])
  {
    hide Leads, Run, Step;
    if n == 0 {
      NoText(p);
    } else {
      BlanksRun(p, n - 1);
      var q := p.(nread := p.nread + n - 1);
      Quiet(q, ' ', On(q, p.state));
      ChainQuiet(p, Blanks(n - 1), q, [' '], On(q, p.state));
      assert Blanks(n) == Blanks(n - 1) + [' '];
    }
  }

  /** The dot between major and minor version. */
  lemma Dot(p: Parser, c: Count)
    requires (c.RequestMajor? || c.ResponseMajor?) && p.state == More(c) && p.nread < MAX_HEADER_SIZE
    ensures Leads(p, ['.'], On(p, First(if c.RequestMajor? then RequestMinor else ResponseMinor)), [])
  {
    Quiet(p, '.', On(p, First(if c.RequestMajor? then RequestMinor else ResponseMinor)));
  }

  /** "HTTP/" from the given byte on, and a version. */
  function VersionBytes(from: nat, major: string, minor: string): string
    requires from <= 5
  {
    PROTOCOL[from..] + major + ['.'] + minor
  }

  predicate Numeral(s: string) { s != [] && Digits(10, s) }

  lemma VersionRun(p: Parser, request: bool, major: string, minor: string)
    requires var from := if request then 0 else 1;
             p.state == Awaits(request, from) && p.nread + |VersionBytes(from, major, minor)| <= MAX_HEADER_SIZE
    requires Numeral(major) && Numeral(minor)
    requires Fits(if request then RequestMajor else ResponseMajor, major) && Fits(RequestMinor, minor)
    ensures var text := VersionBytes(if request then 0 else 1, major, minor);
            Leads(p, text,
                  p.(nread := p.nread + |text|, state := More(if request then RequestMinor else ResponseMinor),
                     major := Number(10, major), minor := Number(10, minor)), [])
  {
    hide Leads, Awaits, Run, Step, Number;
    var from: nat := if request then 0 else 1;
    var c := if request then RequestMajor else ResponseMajor;
    var d := if request then RequestMinor else ResponseMinor;
    AwaitsAll(request);
    ProtocolRun(p, request, from);
    var q := p.(nread := p.nread + (5 - from), state := First(c));
    CountRun(c, q, major);
    var r := Counted(c, q, |major|, Number(10, major));
    Dot(r, c);
    var s := On(r, First(d));
    CountRun(d, s, minor);
    var a := PROTOCOL[from..];
    ChainQuiet(p, a, q, major, r);
    ChainQuiet(p, a + major, r, ['.'], s);
    ChainQuiet(p, a + major + ['.'], s, minor, Counted(d, s, |minor|, Number(10, minor)));
  }

  lemma AwaitsAll(request: bool)
    ensures Awaits(request, 5) == First(if request then RequestMajor else ResponseMajor)
  {
  }
}
