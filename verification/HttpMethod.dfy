/** The method trie: the request parser guesses a method from the first byte and switches guesses in
    mid-token. The token it accepts is exactly the spelling of the method it reports, and every
    method in the table is accepted. */
module HttpMethod {
  import opened Wrappers
  import opened HttpTypes
  import opened HttpSwitch
  import opened HttpSpec

  /** The bytes of the current method token read so far, the closing space included. */
  function Token(p: Parser, data: string): string {
    if data == [] then []
    else
      var n := |data| - 1;
      var before, after := Run(p, data[..n]), Run(p, data);
      if before.exit != Running || after.exit != Running then []
      else
        var s, s' := before.parser.state, after.parser.state;
        if s.InMethod? || (s == InStart(ResOrRespH) && s'.InMethod?) then Token(p, data[..n]) + [data[n]]
        else if s'.InMethod? || s' == InStart(ResOrRespH) then [data[n]]
        else []
  }

  /** A mid-token switch keeps the bytes already read: the new method spells the same prefix. */
  lemma SwitchSpells(m: Method, index: nat, ch: char)
    requires 1 <= index <= |MethodString(m)| && OtherMethod(m, index, ch).Some?
    ensures var m' := OtherMethod(m, index, ch).value;
            index < |MethodString(m')| && MethodString(m')[..index] == MethodString(m)[..index] &&
            MethodString(m')[index] == ch
  {
    if m.CONNECT? || m.MKCOL? {
      CMSpells(m, index, ch);
    } else {
      OthersSpell(m, index, ch);
    }
  }

  lemma CMSpells(m: Method, index: nat, ch: char)
    requires m.CONNECT? || m.MKCOL?
    requires 1 <= index <= |MethodString(m)| && OtherMethod(m, index, ch).Some?
    ensures var m' := OtherMethod(m, index, ch).value;
            index < |MethodString(m')| && MethodString(m')[..index] == MethodString(m)[..index] &&
            MethodString(m')[index] == ch
  {
  }

  lemma OthersSpell(m: Method, index: nat, ch: char)
    requires !m.CONNECT? && !m.MKCOL?
    requires 1 <= index <= |MethodString(m)| && OtherMethod(m, index, ch).Some?
    ensures var m' := OtherMethod(m, index, ch).value;
            index < |MethodString(m')| && MethodString(m')[..index] == MethodString(m)[..index] &&
            MethodString(m')[index] == ch
  {
  }

  predicate Spelt(p: Parser, token: string) {
    1 <= p.index <= |MethodString(p.verb)| && token == MethodString(p.verb)[..p.index]
  }

  lemma MethodByte(p: Parser, token: string, ch: char)
    requires p.state.InMethod? && Spelt(p, token)
    ensures var o := SwitchMethod(p, ch);
            o.next == Advance ==>
              (o.parser.state.InMethod? && Spelt(o.parser, token + [ch])) ||
              (o.parser.state == InUrl(ReqSpacesBeforeUrl) && ch == ' ' && token == MethodString(p.verb) &&
               o.parser.verb == p.verb)
  {
    hide OtherMethod, MethodString;
    var m := MethodString(p.verb);
    if OtherMethod(p.verb, p.index, ch).Some? {
      SwitchSpells(p.verb, p.index, ch);
      var m' := MethodString(OtherMethod(p.verb, p.index, ch).value);
      assert m'[..p.index + 1] == m'[..p.index] + [ch];
    }
    if p.index < |m| {
      PlainLetters(p.verb, p.index);
      assert m[..p.index + 1] == m[..p.index] + [m[p.index]];
    } else {
      assert m[..p.index] == m;
    }
  }

  lemma PlainLetters(m: Method, i: nat)
    requires i < |MethodString(m)|
    ensures MethodString(m)[i] == '-' || 'A' <= MethodString(m)[i] <= 'Z'
  {
  }

  lemma FirstSpells(ch: char)
    requires FirstMethod(ch).Some?
    ensures MethodString(FirstMethod(ch).value)[..1] == [ch]
  {
  }

  /** The first byte of a method token, when the parser type is still open as well. */
  lemma TokenStarts(p: Parser, ch: char)
    requires p.state.InStart?
    ensures var o := Dispatch(p, ch);
            o.next == Advance ==>
              (o.parser.state.InMethod? && p.state != InStart(ResOrRespH) ==> Spelt(o.parser, [ch])) &&
              (o.parser.state.InMethod? && p.state == InStart(ResOrRespH) ==> Spelt(o.parser, ['H', ch])) &&
              (o.parser.state == InStart(ResOrRespH) ==> p.state != InStart(ResOrRespH) && ch == 'H') &&
              o.parser.state != InUrl(ReqSpacesBeforeUrl)
  {
    hide FirstMethod, IsAlpha, MethodString;
    if Switch(p, ch).next == Reexecute {
      ReexecutionDescends(p, ch);
    }
    if FirstMethod(ch).Some? {
      FirstSpells(ch);
    }
    HeadPrefix();
  }

  lemma HeadPrefix()
    ensures MethodString(HEAD)[..2] == ['H', 'E']
  {
  }

  /** Only the start states lead into a method token, and only a method token into the spaces
      before the URL. */
  predicate Elsewhere(from: State, to: State) {
    !to.InMethod? && to != InStart(ResOrRespH) && (to == InUrl(ReqSpacesBeforeUrl) ==> from == to)
  }

  /** What a case outside the start and method states does. */
  predicate Stays(p: Parser, o: Outcome) {
    (o.next == Advance ==> Elsewhere(p.state, o.parser.state)) &&
    (o.next == Reexecute ==> o.parser.state.InHeader? || o.parser.state.InDone?)
  }

  lemma StatusStays(p: Parser, ch: char)
    requires p.state.InStatusLine?
    ensures Stays(p, SwitchStatusLine(p, ch))
  {
    hide IsNum, Digit;
  }

  lemma UrlStays(p: Parser, ch: char)
    requires p.state.InUrl?
    ensures Stays(p, SwitchUrl(p, ch))
  {
    hide ParseUrlChar;
  }

  lemma VersionStays(p: Parser, ch: char)
    requires p.state.InVersion?
    ensures Stays(p, SwitchVersion(p, ch))
  {
    hide IsNum, Digit;
  }

  lemma FieldStays(p: Parser, ch: char)
    requires p.state == InHeader(HeaderField)
    ensures Stays(p, SwitchField(p, ch))
  {
    hide FieldMatch, IsToken, TokenCode;
  }

  lemma ValueStays(p: Parser, ch: char)
    requires p.state.InHeader?
    ensures Stays(p, SwitchValueStart(p, ch))
    ensures p.state == InHeader(HeaderValue) ==> Stays(p, SwitchValue(p, ch))
  {
    hide IsNum, Digit, Lower, ValueMatch, Accumulate;
  }

  lemma HeaderStays(p: Parser, ch: char)
    requires p.state.InHeader?
    ensures Stays(p, SwitchHeader(p, ch))
  {
    hide SwitchField, SwitchValueStart, SwitchValue, IsToken, TokenCode;
    ValueStays(p, ch);
    if p.state == InHeader(HeaderField) {
      FieldStays(p, ch);
    }
  }

  lemma DoneStays(p: Parser, ch: char)
    requires p.state.InDone?
    ensures Stays(p, SwitchDone(p, ch))
  {
    hide KeepAlive, NeedsEof;
  }

  lemma ChunkStays(p: Parser, ch: char)
    requires p.state.InChunk?
    ensures Stays(p, SwitchChunk(p, ch))
  {
    hide Unhex, Accumulate;
  }

  lemma SwitchElsewhere(p: Parser, ch: char)
    requires !p.state.InBody? && !p.state.InStart? && !p.state.InMethod?
    ensures Stays(p, Switch(p, ch))
  {
    hide Stays, SwitchStatusLine, SwitchUrl, SwitchVersion, SwitchHeader, SwitchDone, SwitchChunk, SwitchMethod, SwitchStart;
    match p.state
    case InStatusLine(_) => StatusStays(p, ch);
    case InUrl(_) => UrlStays(p, ch);
    case InVersion(_) => VersionStays(p, ch);
    case InHeader(_) => HeaderStays(p, ch);
    case InDone(_) => DoneStays(p, ch);
    case InChunk(_) => ChunkStays(p, ch);
  }

  lemma {:induction false} DispatchElsewhere(p: Parser, ch: char)
    requires !p.state.InBody? && !p.state.InStart? && !p.state.InMethod?
    ensures var o := Dispatch(p, ch); o.next == Advance ==> Elsewhere(p.state, o.parser.state)
    decreases Rank(p.state)
  {
    hide Switch;
    SwitchElsewhere(p, ch);
    if Switch(p, ch).next == Reexecute {
      ReexecutionDescends(p, ch);
      DispatchElsewhere(Switch(p, ch).parser, ch);
    }
  }

  lemma StepElsewhere(p: Parser, ch: char)
    requires !p.state.InStart? && !p.state.InMethod? && Step(p, ch).exit == Running
    ensures Elsewhere(p.state, Step(p, ch).parser.state)
  {
    hide Dispatch;
    if !p.state.InBody? {
      DispatchElsewhere(Count(p), ch);
    }
  }

  /** Whenever the parser leaves the method state without error, the bytes consumed spell exactly
      the reported method; while it is there, they spell the first `index` bytes of the current
      guess, so `index` never passes the end of the name. */
  lemma {:induction false} TrieSound(t: ParserType, data: string)
    ensures var r := Run(Init(t), data);
            var token := Token(Init(t), data);
            r.exit == Running ==>
              (r.parser.state.InMethod? ==> Spelt(r.parser, token)) &&
              (r.parser.state == InStart(ResOrRespH) ==> token == ['H']) &&
              (data != [] && r.parser.state == InUrl(ReqSpacesBeforeUrl) &&
               Run(Init(t), data[..|data| - 1]).parser.state.InMethod? ==>
                 token == MethodString(r.parser.verb) + [' '])
  {
    hide Step, MethodString;
    if data != [] {
      var n := |data| - 1;
      TrieSound(t, data[..n]);
      RunNext(Init(t), data, n);
      assert data[..n + 1] == data;
      var r := Run(Init(t), data[..n]);
      if r.exit == Running && Run(Init(t), data).exit == Running {
        TokenStep(r.parser, Token(Init(t), data[..n]), data[n]);
      }
    }
  }

  lemma TokenStep(p: Parser, token: string, ch: char)
    requires p.state.InMethod? ==> Spelt(p, token)
    requires p.state == InStart(ResOrRespH) ==> token == ['H']
    requires Step(p, ch).exit == Running
    ensures var q := Step(p, ch).parser;
            (q.state.InMethod? ==>
               Spelt(q, if p.state.InMethod? || p.state == InStart(ResOrRespH) then token + [ch] else [ch])) &&
            (q.state == InStart(ResOrRespH) ==> !p.state.InMethod? && p.state != q.state && ch == 'H') &&
            (q.state == InUrl(ReqSpacesBeforeUrl) && p.state.InMethod? ==> token + [ch] == MethodString(q.verb) + [' '])
  {
    hide Dispatch, MethodString;
    if p.state.InStart? {
      TokenStarts(Count(p), ch);
    } else if p.state.InMethod? {
      MethodByte(Count(p), token, ch);
      assert Dispatch(Count(p), ch) == SwitchMethod(Count(p), ch) by {
        MethodDispatch(Count(p), ch);
      }
    } else {
      StepElsewhere(p, ch);
    }
  }

  lemma MethodDispatch(p: Parser, ch: char)
    requires p.state.InMethod?
    ensures Dispatch(p, ch) == SwitchMethod(p, ch)
  {
    hide SwitchMethod;
  }

  // ---- Every method of the table is accepted ----

  /** The guess held after reading i bytes of a method's name. */
  function Held(m: Method, i: nat): Method {
    match m
    case CHECKOUT => if i < 2 then CONNECT else m
    case COPY => if i < 3 then CONNECT else m
    case MOVE | MERGE | MSEARCH => if i < 2 then MKCOL else m
    case MKACTIVITY => if i < 3 then MKCOL else m
    case SEARCH => if i < 2 then SUBSCRIBE else m
    case PROPFIND | PUT | PATCH => if i < 2 then POST else m
    case PROPPATCH => if i < 2 then POST else if i < 5 then PROPFIND else m
    case PURGE => if i < 2 then POST else if i < 3 then PUT else m
    case UNSUBSCRIBE => if i < 3 then UNLOCK else m
    case _ => m
  }

  lemma HeldFirst(m: Method)
    ensures FirstMethod(MethodString(m)[0]) == Some(Held(m, 1)) && IsAlpha(MethodString(m)[0])
    ensures MethodString(m)[0] != CR && MethodString(m)[0] != LF
  {
  }

  /** The byte after i bytes of a name continues the guess, or switches it. */
  predicate Follows(m: Method, i: nat)
    requires i < |MethodString(m)|
  {
    var ch := MethodString(m)[i];
    if Held(m, i + 1) == Held(m, i) then ch as int == At(MethodString(Held(m, i)), i)
    else ch as int != At(MethodString(Held(m, i)), i) && OtherMethod(Held(m, i), i, ch) == Some(Held(m, i + 1))
  }

  /** Names that are guessed from their first byte on. */
  predicate Guessed(m: Method) { Held(m, 1) == m }

  lemma GuessedNext(m: Method, i: nat)
    requires 1 <= i < |MethodString(m)| && Guessed(m)
    ensures Follows(m, i)
  {
    hide OtherMethod, MethodString;
    assert Held(m, i) == m && Held(m, i + 1) == m;
  }

  lemma PNamesNext(m: Method, i: nat)
    requires 1 <= i < |MethodString(m)|
    requires m.PROPFIND? || m.PROPPATCH? || m.PUT? || m.PATCH? || m.PURGE?
    ensures Follows(m, i)
  {
  }

  lemma OtherNamesNext(m: Method, i: nat)
    requires 1 <= i < |MethodString(m)| && !Guessed(m)
    requires !m.PROPFIND? && !m.PROPPATCH? && !m.PUT? && !m.PATCH? && !m.PURGE?
    ensures Follows(m, i)
  {
  }

  lemma HeldNext(m: Method, i: nat)
    requires 1 <= i < |MethodString(m)|
    ensures Follows(m, i)
  {
    hide Follows, MethodString, Held;
    if m.PROPFIND? || m.PROPPATCH? || m.PUT? || m.PATCH? || m.PURGE? {
      PNamesNext(m, i);
    } else if Guessed(m) {
      GuessedNext(m, i);
    } else {
      OtherNamesNext(m, i);
    }
  }

  /** The record in mid-token, i bytes into the name of m, of a request that began in the record p. */
  function MidToken(p: Parser, m: Method, i: nat): Parser {
    p.(flags := NO_FLAGS, contentLength := MAX64, state := InMethod, nread := p.nread + i, index := i, verb := Held(m, i))
  }

  lemma HeldStep(p: Parser, m: Method, i: nat)
    requires 1 <= i < |MethodString(m)| && p.nread + i < MAX_HEADER_SIZE
    ensures Step(MidToken(p, m, i), MethodString(m)[i]) == Result(MidToken(p, m, i + 1), [], Running, 1)
  {
    hide MethodString, Held, OtherMethod;
    HeldNext(m, i);
    PlainLetters(m, i);
    MethodDispatch(MidToken(p, m, i).(nread := p.nread + i + 1), MethodString(m)[i]);
  }

  lemma HeldStart(p: Parser, m: Method)
    requires p.state == InStart(StartReq) && p.nread < MAX_HEADER_SIZE
    ensures Step(p, MethodString(m)[0]) == Result(MidToken(p, m, 1), [Event(MessageBegin)], Running, 1)
  {
    hide MethodString, Held, FirstMethod, IsAlpha;
    HeldFirst(m);
  }

  lemma {:induction false} HeldRun(p: Parser, m: Method, i: nat)
    requires 1 <= i <= |MethodString(m)| && p.state == InStart(StartReq) && p.nread + i <= MAX_HEADER_SIZE
    ensures Run(p, MethodString(m)[..i]) == Result(MidToken(p, m, i), [Event(MessageBegin)], Running, i)
  {
    hide Step, MethodString;
    var s := MethodString(m);
    RunNext(p, s, i - 1);
    if i == 1 {
      HeldStart(p, m);
      assert s[..0] == [];
    } else {
      HeldRun(p, m, i - 1);
      HeldStep(p, m, i - 1);
    }
  }

  lemma HeldAll(m: Method)
    ensures Held(m, |MethodString(m)|) == m
  {
  }

  /** The record behind the name of m and a space. */
  function AfterMethod(p: Parser, m: Method): Parser {
    var n := |MethodString(m)| + 1;
    p.(flags := NO_FLAGS, contentLength := MAX64, state := InUrl(ReqSpacesBeforeUrl), nread := p.nread + n, index := n,
       verb := m)
  }

  /** Completeness of the trie: at the start of any request, the name of any of the 26 methods and a space are accepted
      as that method. */
  lemma TrieComplete(p: Parser, m: Method)
    requires p.state == InStart(StartReq) && p.nread + |MethodString(m)| + 1 <= MAX_HEADER_SIZE
    ensures Run(p, MethodString(m) + [' ']) ==
            Result(AfterMethod(p, m), [Event(MessageBegin)], Running, |MethodString(m)| + 1)
  {
    hide MethodString, Held, Step, Run;
    var s := MethodString(m);
    HeldRun(p, m, |s|);
    HeldAll(m);
    assert s[..|s|] == s;
    RunSplit(p, s, [' ']);
    RunByte(MidToken(p, m, |s|), ' ');
    SpaceStep(p, m);
  }

  lemma SpaceStep(p: Parser, m: Method)
    requires p.nread + |MethodString(m)| + 1 <= MAX_HEADER_SIZE
    ensures Step(MidToken(p, m, |MethodString(m)|), ' ') == Result(AfterMethod(p, m), [], Running, 1)
  {
    hide MethodString, Held;
    HeldAll(m);
    var n := |MethodString(m)|;
    MethodDispatch(MidToken(p, m, n).(nread := p.nread + n + 1), ' ');
  }
}
