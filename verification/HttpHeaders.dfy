/** Which headers the parser acts on. Names and values are matched character by character while they stream by,
    with shared prefixes and abandoned matches; a header line sets a flag exactly when its whole name and value say
    so, whatever their case (base/http_parser.cpp:1191-1568). */
module HttpHeaders {
  import opened HttpTypes
  import opened HttpSwitch
  import opened HttpSpec
  import opened HttpLength

  function FoldChar(c: char): char {
    if 'A' <= c <= 'Z' then (c as int + 32) as char else c
  }

  /** A text without regard to the case of its letters. */
  function Folded(s: string): (t: string)
    ensures |t| == |s|
  {
    seq(|s|, i requires 0 <= i < |s| => FoldChar(s[i]))
  }

  lemma FoldNext(s: string, ch: char)
    ensures Folded(s + [ch]) == Folded(s) + [FoldChar(ch)]
  {
  }

  // ---- Matching one literal ----

  lemma Extends(s: string, c: char, literal: string)
    ensures s + [c] <= literal <==> s <= literal && |s| < |literal| && literal[|s|] == c
  {
  }

  /** A character compared with the literal: the match goes on, is complete, or is given up. */
  lemma MatchByte(p: Parser, s: string, c: char, code: int, literal: string, done: HeaderState)
    requires s != [] && s <= literal && |s| < |literal| && p.index + 1 == |s|
    requires code == literal[|s|] as int <==> c == literal[|s|]
    ensures Match(p, code, literal, done) ==
            p.(index := |s|,
               headerState := if !(s + [c] <= literal) then HGeneral
                              else if |s| + 1 == |literal| then done else p.headerState)
  {
    Extends(s, c, literal);
  }

  // ---- Names ----

  datatype Name = Connection | ProxyConnection | ContentLength | TransferEncoding | Upgrade

  function Spelling(n: Name): string {
    match n
    case Connection => "connection" case ProxyConnection => "proxy-connection" case ContentLength => "content-length"
    case TransferEncoding => "transfer-encoding" case Upgrade => "upgrade"
  }

  function Length(n: Name): nat {
    match n
    case Connection => 10 case ProxyConnection => 16 case ContentLength => 14 case TransferEncoding => 17
    case Upgrade => 7
  }

  function Matched(n: Name): HeaderState {
    match n
    case Connection | ProxyConnection => HConnection
    case ContentLength => HContentLength case TransferEncoding => HTransferEncoding case Upgrade => HUpgrade
  }

  function Matching(n: Name, length: nat): HeaderState {
    match n
    case Connection =>
      if length == 1 then HC else if length == 2 then HCO else if length == 3 then HCON else HMatchConnection
    case ContentLength =>
      if length == 1 then HC else if length == 2 then HCO else if length == 3 then HCON else HMatchContentLength
    case ProxyConnection => HMatchProxyConnection
    case TransferEncoding => HMatchTransferEncoding
    case Upgrade => HMatchUpgrade
  }

  /** What the header state says about a folded name: it is a prefix of some spelling, or of none. */
  ghost predicate Tracks(p: Parser, s: string) {
    if p.headerState == HGeneral then forall n: Name :: !(s <= Spelling(n))
    else
      p.index + 1 == |s| &&
      exists n: Name :: Follows(p.headerState, s, n)
  }

  predicate Follows(h: HeaderState, s: string, n: Name) {
    s <= Spelling(n) && h == if |s| == Length(n) then Matched(n) else Matching(n, |s|)
  }

  lemma SpellingLength(n: Name)
    ensures |Spelling(n)| == Length(n) >= 7
  {
  }

  /** Two spellings part at the first letter, or at the fourth. */
  lemma Part(s: string, n: Name, m: Name)
    requires s != [] && s <= Spelling(n) && s <= Spelling(m) && n != m
    ensures |s| <= 3 && (n.Connection? || n.ContentLength?) && (m.Connection? || m.ContentLength?)
    ensures s <= "con"
  {
    assert s[0] == Spelling(n)[0] == Spelling(m)[0];
    forall k: Name | s <= Spelling(k) && |s| > 3
      ensures s[3] == Spelling(k)[3]
    {
    }
  }

  lemma ShortPrefix(s: string)
    requires |s| <= 3
    ensures s <= "connection" <==> s <= "content-length"
  {
  }

  lemma FieldMatchIs(p: Parser, code: int, n: Name)
    requires p.headerState == Matching(n, 4)
    ensures FieldByte(p, code) == Stay(Match(p, code, Spelling(n), Matched(n)))
  {
    hide Match;
  }

  /** No spelling but possibly n continues with c. */
  lemma NoOther(s: string, c: char, n: Name, m: Name)
    requires s != [] && s <= Spelling(n) && n != m && s + [c] <= Spelling(m)
    ensures |s| <= 3 && (n.Connection? || n.ContentLength?)
  {
    hide Spelling;
    Extends(s, c, Spelling(m));
    Part(s, n, m);
  }

  /** A match under way. */
  lemma NameMatch(p: Parser, s: string, c: char, n: Name)
    requires s != [] && Follows(p.headerState, s, n) && p.index + 1 == |s| < Length(n)
    requires n.Connection? || n.ContentLength? ==> |s| >= 4
    ensures var o := FieldByte(p, c as int);
            o == Stay(p.(index := |s|, headerState := o.parser.headerState)) && Tracks(o.parser, s + [c])
  {
    hide Spelling, Match, FieldByte;
    SpellingLength(n);
    FieldMatchIs(p, c as int, n);
    MatchByte(p, s, c, c as int, Spelling(n), Matched(n));
    if s + [c] <= Spelling(n) {
      assert Follows(FieldByte(p, c as int).parser.headerState, s + [c], n);
    } else {
      forall m: Name
        ensures !(s + [c] <= Spelling(m))
      {
        if s + [c] <= Spelling(m) {
          NoOther(s, c, n, m);
        }
      }
    }
  }

  /** The common beginning of "connection" and "content-length". */
  lemma NameShort(p: Parser, s: string, c: char)
    requires p.headerState == HC || p.headerState == HCO || p.headerState == HCON
    requires s <= "con" && p.index + 1 == |s| && p.headerState == Matching(Connection, |s|) && s != []
    ensures var o := FieldByte(p, c as int);
            o == Stay(p.(index := |s|, headerState := o.parser.headerState)) && Tracks(o.parser, s + [c])
  {
    var h := FieldByte(p, c as int).parser.headerState;
    var t := s + [c];
    ShortNext(s, c);
    if t <= Spelling(Connection) {
      assert Follows(h, t, Connection);
    } else if t <= Spelling(ContentLength) {
      assert Follows(h, t, ContentLength);
    }
  }

  lemma ShortNext(s: string, c: char)
    requires s != [] && s <= "con"
    ensures s + [c] <= "connection" <==> c == "conn"[|s|]
    ensures s + [c] <= "content-length" <==> c == "cont"[|s|]
    ensures forall n: Name :: s + [c] <= Spelling(n) ==> n.Connection? || n.ContentLength?
  {
    assert s[0] == 'c';
    assert (s + [c])[0] == 'c';
    Extends(s, c, "connection");
    Extends(s, c, "content-length");
  }

  /** A complete match is given up by one more character. */
  lemma NameOver(p: Parser, s: string, c: char, n: Name)
    requires Follows(p.headerState, s, n) && |s| == Length(n)
    ensures var o := FieldByte(p, c as int);
            o == Stay(p.(headerState := HGeneral)) && Tracks(o.parser, s + [c])
  {
    hide Spelling;
    SpellingLength(n);
    forall m: Name
      ensures !(s + [c] <= Spelling(m))
    {
      if s + [c] <= Spelling(m) && m != n {
        NoOther(s, c, n, m);
      }
    }
  }

  lemma NameNone(p: Parser, s: string, c: char)
    requires p.headerState == HGeneral && Tracks(p, s)
    ensures FieldByte(p, c as int) == Stay(p) && Tracks(p, s + [c])
  {
    hide Spelling;
    forall m: Name
      ensures !(s + [c] <= Spelling(m))
    {
      Extends(s, c, Spelling(m));
    }
  }

  /** One character of a name. */
  lemma NameByte(p: Parser, s: string, c: char)
    requires s != [] && Tracks(p, s)
    ensures var o := FieldByte(p, c as int);
            o == Stay(p.(index := o.parser.index, headerState := o.parser.headerState)) && Tracks(o.parser, s + [c])
  {
    if p.headerState == HGeneral {
      NameNone(p, s, c);
    } else {
      var n: Name :| Follows(p.headerState, s, n);
      SpellingLength(n);
      if |s| == Length(n) {
        NameOver(p, s, c, n);
      } else if (n.Connection? || n.ContentLength?) && |s| <= 3 {
        ShortPrefix(s);
        assert s <= "con" by {
          Part(s, Connection, ContentLength);
        }
        NameShort(p, s, c);
      } else {
        NameMatch(p, s, c, n);
      }
    }
  }

  /** The record after n bytes of a header, the flags aside. */
  predicate Moved(p: Parser, q: Parser, n: nat, s: HeaderPos) {
    q == p.(nread := p.nread + n, state := InHeader(s), index := q.index, headerState := q.headerState)
  }

  /** Where a header line may begin: after the request or status line, or after another header line. */
  predicate LineStart(s: State) { s == InHeader(HeaderFieldStart) || s == InHeader(HeaderValueLws) }

  predicate Tokens(s: string) { forall i :: 0 <= i < |s| ==> IsToken(s[i]) }

  lemma NameFirst(p: Parser, ch: char)
    requires p.state == InHeader(HeaderFieldStart) && IsToken(ch) && p.nread < MAX_HEADER_SIZE
    ensures var r := Step(p, ch);
            r.exit == Running && Moved(p, r.parser, 1, HeaderField) && Tracks(r.parser, [FoldChar(ch)])
  {
    var q, c := Step(p, ch).parser, FoldChar(ch);
    assert c as int == TokenCode(ch);
    FirstLetter(q.headerState, c);
  }

  /** After a header line the first byte of the next one is re-executed at the start of a field. */
  lemma LineStarts(p: Parser, ch: char)
    requires p.state == InHeader(HeaderValueLws) && p.nread < MAX_HEADER_SIZE && ch != ' ' && ch != '\t'
    ensures Step(p, ch) == Step(p.(state := InHeader(HeaderFieldStart)), ch)
  {
    var q := Count(p);
    hide SwitchFieldStart;
    var f := q.(state := InHeader(HeaderFieldStart));
    assert Switch(q, ch) == Outcome(f, Nil, Reexecute);
    var r := Dispatch(f, ch);
    assert Dispatch(q, ch) == Outcome(r.parser, Append(Nil, r.ops), r.next) == r;
  }

  lemma FirstLetter(h: HeaderState, c: char)
    requires h == FirstFieldState(c as int)
    ensures h == HGeneral ==> forall n: Name :: !([c] <= Spelling(n))
    ensures h != HGeneral ==> exists n: Name :: Follows(h, [c], n)
  {
    if c == 'c' {
      assert Follows(h, [c], Connection);
    } else if c == 'p' {
      assert Follows(h, [c], ProxyConnection);
    } else if c == 't' {
      assert Follows(h, [c], TransferEncoding);
    } else if c == 'u' {
      assert Follows(h, [c], Upgrade);
    } else {
      forall n: Name
        ensures !([c] <= Spelling(n))
      {
        assert Spelling(n)[0] != [c][0];
      }
    }
  }

  lemma NameStep(p: Parser, s: string, ch: char)
    requires p.state == InHeader(HeaderField) && IsToken(ch) && p.nread < MAX_HEADER_SIZE && s != [] && Tracks(p, s)
    ensures var r := Step(p, ch);
            r.exit == Running && Moved(p, r.parser, 1, HeaderField) && Tracks(r.parser, s + [FoldChar(ch)])
  {
    hide FieldByte, IsToken, Tracks;
    assert FoldChar(ch) as int == TokenCode(ch);
    var q := p.(nread := p.nread + 1);
    SameTrack(p, q, s);
    NameByte(q, s, FoldChar(ch));
  }

  lemma SameTrack(p: Parser, q: Parser, s: string)
    requires Tracks(p, s) && q.headerState == p.headerState && q.index == p.index
    ensures Tracks(q, s)
  {
  }

  lemma NameBegins(p: Parser, ch: char)
    requires LineStart(p.state) && IsToken(ch) && p.nread < MAX_HEADER_SIZE
    ensures var r := Step(p, ch);
            r.exit == Running && Moved(p, r.parser, 1, HeaderField) && Tracks(r.parser, [FoldChar(ch)])
  {
    hide Step, Tracks;
    var q := p.(state := InHeader(HeaderFieldStart));
    NameFirst(q, ch);
    if p.state == InHeader(HeaderValueLws) {
      LineStarts(p, ch);
    }
  }

  lemma {:induction false} NameRun(p: Parser, name: string)
    requires LineStart(p.state) && name != [] && Tokens(name)
    requires p.nread + |name| <= MAX_HEADER_SIZE
    ensures var r := Run(p, name);
            r.exit == Running && Moved(p, r.parser, |name|, HeaderField) && Tracks(r.parser, Folded(name))
  {
    hide Step, Run, Tracks, IsToken;
    var n := |name| - 1;
    var front := name[..n];
    assert name == front + [name[n]];
    FoldNext(front, name[n]);
    RunSplit(p, front, [name[n]]);
    if n == 0 {
      assert name == [name[0]];
      RunByte(p, name[0]);
      NameBegins(p, name[0]);
      assert Folded(front) + [FoldChar(name[0])] == [FoldChar(name[0])];
    } else {
      NameRun(p, front);
      var q := Run(p, front).parser;
      RunByte(q, name[n]);
      NameStep(q, Folded(front), name[n]);
    }
  }

  /** A whole name is acted on exactly when, whatever its case, it is one of the five. */
  lemma NameKnown(p: Parser, s: string, n: Name)
    requires s != [] && Tracks(p, s)
    ensures s == Spelling(n) ==> p.headerState == Matched(n)
    ensures p.headerState == Matched(n) ==> exists m: Name :: Matched(m) == Matched(n) && s == Spelling(m)
  {
    hide Spelling;
    SpellingLength(n);
    if p.headerState != HGeneral {
      var m: Name :| Follows(p.headerState, s, m);
      SpellingLength(m);
      if s == Spelling(n) && m != n {
        Part(s, n, m);
      }
    }
  }

  // ---- Values ----

  datatype Word = ChunkedWord | KeepAliveWord | CloseWord

  function Letters(w: Word): string {
    match w case ChunkedWord => "chunked" case KeepAliveWord => "keep-alive" case CloseWord => "close"
  }

  /** The header in which a word is looked for, and the states of looking and of having found it. */
  function Home(w: Word): HeaderState { if w.ChunkedWord? then HTransferEncoding else HConnection }

  function Looking(w: Word): HeaderState {
    match w case ChunkedWord => HMatchChunked case KeepAliveWord => HMatchKeepAlive case CloseWord => HMatchClose
  }

  function Found(w: Word): HeaderState {
    match w case ChunkedWord => HChunked case KeepAliveWord => HKeepAlive case CloseWord => HClose
  }

  predicate Spaces(s: string) { forall i :: 0 <= i < |s| ==> s[i] == ' ' }

  /** A folded value is the word, with nothing but spaces after it. */
  predicate Says(v: string, w: Word) {
    var n := |Letters(w)|;
    n <= |v| && v[..n] == Letters(w) && Spaces(v[n..])
  }

  /** What the header state says about the folded value v of a header that was in state h. */
  ghost predicate Reads(p: Parser, h: HeaderState, v: string) {
    if p.headerState == HGeneral then forall w: Word :: Home(w) == h ==> !(v <= Letters(w)) && !Says(v, w)
    else exists w: Word :: Home(w) == h && Spells(p, v, w)
  }

  predicate Spells(p: Parser, v: string, w: Word) {
    (p.headerState == Looking(w) && v <= Letters(w) && |v| < |Letters(w)| && p.index + 1 == |v|) ||
    (p.headerState == Found(w) && Says(v, w))
  }

  lemma SaysNext(v: string, c: char, w: Word)
    ensures Says(v + [c], w) <==> v + [c] == Letters(w) || (Says(v, w) && c == ' ')
  {
    hide Letters;
    var n := |Letters(w)|;
    if n <= |v| {
      assert (v + [c])[..n] == v[..n] && (v + [c])[n..] == v[n..] + [c];
      if Spaces(v[n..] + [c]) {
        assert (v[n..] + [c])[|v| - n] == c;
        assert forall i :: 0 <= i < |v[n..]| ==> (v[n..] + [c])[i] == v[n..][i];
      }
    } else if n == |v| + 1 {
      assert (v + [c])[..n] == v + [c] && (v + [c])[n..] == [];
    }
  }

  /** The LOWER macro is case folding as far as the letters of the words go. */
  lemma LowerFolds(ch: char, w: Word, i: nat)
    requires i < |Letters(w)| && ch != CR
    ensures Lower(ch) == Letters(w)[i] as int <==> FoldChar(ch) == Letters(w)[i]
  {
    assert Letters(w)[i] == '-' || 'a' <= Letters(w)[i] <= 'z';
  }

  /** The words of one header begin differently. */
  lemma WordsPart(v: string, w: Word, x: Word)
    requires v != [] && Home(w) == Home(x) && w != x && (v <= Letters(w) || Says(v, w))
    ensures !(v <= Letters(x)) && !Says(v, x)
  {
    assert v[0] == Letters(w)[0] by {
      assert Says(v, w) ==> v[..|Letters(w)|][0] == v[0];
    }
  }

  /** One more character while the word is being looked for. */
  lemma LookingByte(p: Parser, v: string, ch: char, w: Word)
    requires v != [] && ch != CR && p.headerState == Looking(w) && v <= Letters(w) && |v| < |Letters(w)|
    requires p.index + 1 == |v|
    ensures var o := ValueByte(p, ch);
            o == Stay(p.(index := |v|, headerState := o.parser.headerState)) &&
            Reads(o.parser, Home(w), v + [FoldChar(ch)])
  {
    hide Letters, Match;
    var c := FoldChar(ch);
    LowerFolds(ch, w, |v|);
    ValueMatchIs(p, Lower(ch), w);
    MatchByte(p, v, c, Lower(ch), Letters(w), Found(w));
    Extends(v, c, Letters(w));
    SaysNext(v, c, w);
    var q := ValueByte(p, ch).parser;
    if v + [c] <= Letters(w) {
      assert |v| + 1 == |Letters(w)| ==> v + [c] == Letters(w);
      assert Spells(q, v + [c], w);
    } else {
      NoWord(v, c, w);
    }
  }

  lemma ValueMatchIs(p: Parser, code: int, w: Word)
    requires p.headerState == Looking(w)
    ensures ValueMatch(p, code) == Match(p, code, Letters(w), Found(w))
  {
    hide Match;
  }

  /** If v is on the way to w, or says it, and v + [c] does not, then v + [c] is on the way to nothing. */
  lemma NoWord(v: string, c: char, w: Word)
    requires v != [] && (v <= Letters(w) || Says(v, w)) && !(v + [c] <= Letters(w)) && !Says(v + [c], w)
    ensures forall x: Word :: Home(x) == Home(w) ==> !(v + [c] <= Letters(x)) && !Says(v + [c], x)
  {
    hide Letters, Says;
    forall x: Word | Home(x) == Home(w) && x != w
      ensures !(v + [c] <= Letters(x)) && !Says(v + [c], x)
    {
      WordsPart(v, w, x);
      Extends(v, c, Letters(x));
      SaysNext(v, c, x);
    }
  }

  /** One more character after the word has been found. */
  lemma FoundByte(p: Parser, v: string, ch: char, w: Word)
    requires v != [] && p.headerState == Found(w) && Says(v, w)
    ensures var o := ValueByte(p, ch);
            o == Stay(p.(headerState := o.parser.headerState)) && Reads(o.parser, Home(w), v + [FoldChar(ch)])
  {
    hide Letters, Says;
    var c := FoldChar(ch);
    SaysNext(v, c, w);
    LongEnough(v, w);
    Extends(v, c, Letters(w));
    var q := ValueByte(p, ch).parser;
    if ch == ' ' {
      assert Spells(q, v + [c], w);
    } else {
      NoWord(v, c, w);
    }
  }

  lemma LongEnough(v: string, w: Word)
    requires Says(v, w)
    ensures |v| >= |Letters(w)|
  {
  }

  /** One character of a value. */
  lemma ReadByte(p: Parser, h: HeaderState, v: string, ch: char)
    requires v != [] && Reads(p, h, v) && ch != CR
    ensures var o := ValueByte(p, ch);
            o == Stay(p.(index := o.parser.index, headerState := o.parser.headerState)) &&
            Reads(o.parser, h, v + [FoldChar(ch)])
  {
    ValueNone(p, h, v, ch);
    if p.headerState != HGeneral {
      var w: Word :| Home(w) == h && Spells(p, v, w);
      hide ValueByte, Reads;
      if p.headerState == Looking(w) {
        LookingByte(p, v, ch, w);
      } else {
        FoundByte(p, v, ch, w);
      }
    }
  }

  lemma SameRead(p: Parser, q: Parser, h: HeaderState, v: string)
    requires Reads(p, h, v) && q.headerState == p.headerState && q.index == p.index
    ensures Reads(q, h, v)
  {
    if p.headerState != HGeneral {
      var w: Word :| Home(w) == h && Spells(p, v, w);
      assert Spells(q, v, w);
    }
  }

  lemma ValueStep(p: Parser, h: HeaderState, v: string, ch: char)
    requires p.state == InHeader(HeaderValue) && p.nread < MAX_HEADER_SIZE && v != [] && Reads(p, h, v)
    requires ch != CR && ch != LF
    ensures var r := Step(p, ch);
            r.exit == Running && Moved(p, r.parser, 1, HeaderValue) && Reads(r.parser, h, v + [FoldChar(ch)])
  {
    hide ValueByte, Reads;
    var q := p.(nread := p.nread + 1);
    SameRead(p, q, h, v);
    ReadByte(q, h, v, ch);
  }

  lemma ValueNone(p: Parser, h: HeaderState, v: string, ch: char)
    requires p.headerState == HGeneral ==> Reads(p, h, v)
    ensures p.headerState == HGeneral ==> ValueByte(p, ch) == Stay(p) && Reads(p, h, v + [FoldChar(ch)])
  {
    hide Letters, Says;
    if p.headerState == HGeneral {
      forall w: Word | Home(w) == h
        ensures !(v + [FoldChar(ch)] <= Letters(w)) && !Says(v + [FoldChar(ch)], w)
      {
        Extends(v, FoldChar(ch), Letters(w));
        SaysNext(v, FoldChar(ch), w);
      }
    }
  }

  /** The upgrade flag is set by the first byte of the value of an upgrade header. */
  function Upgraded(p: Parser, h: HeaderState): Parser {
    if h == HUpgrade then p.(flags := p.flags.(upgrade := true)) else p
  }

  predicate Plain(v: string) { forall i :: 0 <= i < |v| ==> v[i] != CR && v[i] != LF }

  predicate Blank(s: string) { forall i :: 0 <= i < |s| ==> s[i] == ' ' || s[i] == '\t' }

  lemma ValueFirst(p: Parser, ch: char)
    requires p.state == InHeader(HeaderValueStart) && p.headerState != HContentLength && p.nread < MAX_HEADER_SIZE
    requires ch != CR && ch != LF && ch != ' ' && ch != '\t'
    ensures var r, h := Step(p, ch), p.headerState;
            r.exit == Running && Moved(Upgraded(p, h), r.parser, 1, HeaderValue) && Reads(r.parser, h, [FoldChar(ch)])
  {
    hide Step, FirstValueByte, Reads;
    var q := p.(nread := p.nread + 1, state := InHeader(HeaderValue), index := 0);
    ValueBegins(p, ch);
    FirstLooks(q, ch);
    FirstWord(FirstValueByte(q, ch).parser, p.headerState, ch);
  }

  lemma ValueBegins(p: Parser, ch: char)
    requires p.state == InHeader(HeaderValueStart) && p.nread < MAX_HEADER_SIZE
    requires ch != CR && ch != LF && ch != ' ' && ch != '\t'
    ensures var o := FirstValueByte(p.(nread := p.nread + 1, state := InHeader(HeaderValue), index := 0), ch);
            o.next == Advance ==> Step(p, ch).exit == Running && Step(p, ch).parser == o.parser
  {
    hide FirstValueByte;
  }

  lemma FirstLooks(p: Parser, ch: char)
    requires p.headerState != HContentLength
    ensures var o, h := FirstValueByte(p, ch), p.headerState;
            o.next == Advance &&
            o.parser == Upgraded(p, h).(headerState :=
              if h == HTransferEncoding && Lower(ch) == 'c' as int then HMatchChunked
              else if h == HConnection && Lower(ch) == 'k' as int then HMatchKeepAlive
              else if h == HConnection && Lower(ch) == 'c' as int then HMatchClose else HGeneral)
  {
    hide Lower;
  }

  lemma FirstWord(q: Parser, h: HeaderState, ch: char)
    requires ch != CR && q.index == 0 && h != HContentLength && q.headerState ==
      (if h == HTransferEncoding && Lower(ch) == 'c' as int then HMatchChunked
       else if h == HConnection && Lower(ch) == 'k' as int then HMatchKeepAlive
       else if h == HConnection && Lower(ch) == 'c' as int then HMatchClose else HGeneral)
    ensures Reads(q, h, [FoldChar(ch)])
  {
    var v := [FoldChar(ch)];
    LowerFolds(ch, ChunkedWord, 0);
    LowerFolds(ch, KeepAliveWord, 0);
    LowerFolds(ch, CloseWord, 0);
    if q.headerState == HMatchChunked {
      assert Spells(q, v, ChunkedWord);
    } else if q.headerState == HMatchKeepAlive {
      assert Spells(q, v, KeepAliveWord);
    } else if q.headerState == HMatchClose {
      assert Spells(q, v, CloseWord);
    } else {
      forall w: Word | Home(w) == h
        ensures !(v <= Letters(w)) && !Says(v, w)
      {
        assert Letters(w)[0] != v[0];
      }
    }
  }

  lemma {:induction false} ValueRun(p: Parser, v: string)
    requires p.state == InHeader(HeaderValueStart) && p.headerState != HContentLength
    requires v != [] && Plain(v) && v[0] != ' ' && v[0] != '\t' && p.nread + |v| <= MAX_HEADER_SIZE
    ensures var r, h := Run(p, v), p.headerState;
            r.exit == Running && Moved(Upgraded(p, h), r.parser, |v|, HeaderValue) && Reads(r.parser, h, Folded(v))
  {
    hide Step, Run, Reads;
    var n := |v| - 1;
    var front := v[..n];
    assert v == front + [v[n]];
    FoldNext(front, v[n]);
    RunSplit(p, front, [v[n]]);
    if n == 0 {
      assert v == [v[0]];
      RunByte(p, v[0]);
      ValueFirst(p, v[0]);
      assert Folded(front) + [FoldChar(v[0])] == [FoldChar(v[0])];
    } else {
      ValueRun(p, front);
      var q := Run(p, front).parser;
      RunByte(q, v[n]);
      ValueStep(q, p.headerState, Folded(front), v[n]);
    }
  }

  lemma BlankStep(p: Parser, ch: char)
    requires p.state == InHeader(HeaderValueStart) && p.nread < MAX_HEADER_SIZE && (ch == ' ' || ch == '\t')
    ensures var r := Step(p, ch); r.exit == Running && r.parser == p.(nread := p.nread + 1)
  {
  }

  lemma {:induction false} BlankRun(p: Parser, pad: string)
    requires p.state == InHeader(HeaderValueStart) && Blank(pad) && p.nread + |pad| <= MAX_HEADER_SIZE
    ensures var r := Run(p, pad); r.exit == Running && r.parser == p.(nread := p.nread + |pad|)
  {
    hide Step;
    if pad != [] {
      var n := |pad| - 1;
      BlankRun(p, pad[..n]);
      RunNext(p, pad, n);
      assert pad[..n + 1] == pad;
      BlankStep(Run(p, pad[..n]).parser, pad[n]);
    }
  }

  lemma ColonStep(p: Parser)
    requires p.state == InHeader(HeaderField) && p.nread < MAX_HEADER_SIZE
    ensures var r := Step(p, ':');
            r.exit == Running && r.parser == p.(nread := p.nread + 1, state := InHeader(HeaderValueStart))
  {
  }

  /** The flags after a line end in a header state. */
  function LineFlags(f: Flags, h: HeaderState): Flags {
    match h
    case HKeepAlive => f.(keepAlive := true) case HClose => f.(close := true) case HChunked => f.(chunked := true)
    case _ => f
  }

  /** A line ends in CRLF or in a bare LF. */
  datatype Eol = CrLf | BareLf

  function End(e: Eol): string { if e.CrLf? then [CR, LF] else [LF] }

  lemma ValueEnd(p: Parser, e: Eol)
    requires p.state == InHeader(HeaderValue) && p.nread + 2 <= MAX_HEADER_SIZE
    ensures var r := Run(p, End(e));
            r.exit == Running &&
            r.parser == p.(nread := p.nread + |End(e)|, state := InHeader(HeaderValueLws),
                           flags := LineFlags(p.flags, p.headerState))
  {
    hide Step, Run;
    if e.CrLf? {
      ReturnStep(p);
      var q := p.(nread := p.nread + 1, state := InHeader(HeaderAlmostDone));
      RunTwo(p, CR, LF);
      LineEndStep(q);
    } else {
      RunByte(p, LF);
      BareEnd(p);
    }
  }

  lemma ReturnStep(p: Parser)
    requires p.nread < MAX_HEADER_SIZE
    ensures p.state == InHeader(HeaderValue) ==>
              Step(p, CR).exit == Running &&
              Step(p, CR).parser == p.(nread := p.nread + 1, state := InHeader(HeaderAlmostDone))
    ensures p.state == InHeader(HeaderValueStart) ==>
              Step(p, CR).exit == Running &&
              Step(p, CR).parser ==
                p.(nread := p.nread + 1, state := InHeader(HeaderAlmostDone), index := 0, headerState := HGeneral)
  {
  }

  lemma LineEndStep(p: Parser)
    requires p.state == InHeader(HeaderAlmostDone) && p.nread < MAX_HEADER_SIZE
    ensures Step(p, LF).exit == Running
    ensures Step(p, LF).parser ==
              p.(nread := p.nread + 1, state := InHeader(HeaderValueLws), flags := LineFlags(p.flags, p.headerState))
  {
  }

  lemma NoValueFeed(p: Parser)
    requires p.state == InHeader(HeaderValueStart) && p.nread < MAX_HEADER_SIZE
    ensures Step(p, LF).exit == Running
    ensures Step(p, LF).parser == p.(nread := p.nread + 1, state := InHeader(HeaderFieldStart), index := 0)
  {
  }

  /** A bare LF is re-executed as the LF of a CRLF. */
  lemma BareEnd(p: Parser)
    requires p.state == InHeader(HeaderValue) && p.nread < MAX_HEADER_SIZE
    ensures var r := Step(p, LF);
            r.exit == Running &&
            r.parser == p.(nread := p.nread + 1, state := InHeader(HeaderValueLws),
                           flags := LineFlags(p.flags, p.headerState))
  {
    var q := p.(nread := p.nread + 1);
    var h := q.(state := InHeader(HeaderAlmostDone));
    assert Switch(q, LF) == Outcome(h, Just(Flush(Value)), Reexecute);
    assert Dispatch(h, LF) == Switch(h, LF);
  }

  lemma NoValueEnd(p: Parser, e: Eol)
    requires p.state == InHeader(HeaderValueStart) && p.nread + 2 <= MAX_HEADER_SIZE
    ensures var r := Run(p, End(e));
            r.exit == Running &&
            r.parser == if e.CrLf?
                        then p.(nread := p.nread + 2, state := InHeader(HeaderValueLws), index := 0, headerState := HGeneral)
                        else p.(nread := p.nread + 1, state := InHeader(HeaderFieldStart), index := 0)
  {
    hide Step, Run;
    if e.CrLf? {
      ReturnStep(p);
      RunTwo(p, CR, LF);
      LineEndStep(Step(p, CR).parser);
    } else {
      RunByte(p, LF);
      NoValueFeed(p);
    }
  }

  // ---- Whole lines ----

  /** What a folded value does in a header of state h. */
  function ValueFlags(f: Flags, h: HeaderState, v: string): Flags {
    f.(chunked := f.chunked || (h == HTransferEncoding && Says(v, ChunkedWord)),
       keepAlive := f.keepAlive || (h == HConnection && Says(v, KeepAliveWord)),
       close := f.close || (h == HConnection && Says(v, CloseWord)),
       upgrade := f.upgrade || (h == HUpgrade && v != []))
  }

  /** At the end of a value the state is Found(w) exactly when the value says w. */
  lemma ReadsMeans(p: Parser, h: HeaderState, v: string, w: Word)
    requires v != [] && Reads(p, h, v)
    ensures p.headerState == Found(w) <==> Home(w) == h && Says(v, w)
  {
    hide Letters;
    if p.headerState != HGeneral {
      var x: Word :| Home(x) == h && Spells(p, v, x);
      if Home(w) == h && x != w {
        WordsPart(v, x, w);
      }
    }
  }

  lemma ValueFlagged(p: Parser, f: Flags, h: HeaderState, v: string)
    requires v != [] && Reads(p, h, v)
    ensures LineFlags(if h == HUpgrade then f.(upgrade := true) else f, p.headerState) == ValueFlags(f, h, v)
  {
    hide Reads, Says;
    ReadsMeans(p, h, v, ChunkedWord);
    ReadsMeans(p, h, v, KeepAliveWord);
    ReadsMeans(p, h, v, CloseWord);
  }

  /** A header state that no value is matched in any more. */
  predicate Spent(h: HeaderState) {
    h != HUpgrade && h != HTransferEncoding && h != HConnection && h != HContentLength
  }

  /** The record after a piece of a header that leaves the state to be told apart. */
  predicate Reached(p: Parser, q: Parser, n: nat, f: Flags, length: nat) {
    q == p.(nread := p.nread + n, flags := f, contentLength := length, state := q.state, index := q.index,
            headerState := q.headerState)
  }

  /** An empty line of a value that ends in a bare LF ends the header; any other may be continued. */
  predicate Continues(text: string, e: Eol) { text != [] || e.CrLf? }

  predicate Trimmed(text: string) { Plain(text) && (text != [] ==> text[0] != ' ' && text[0] != '\t') }

  lemma TextRun(p: Parser, text: string, e: Eol)
    requires p.state == InHeader(HeaderValueStart) && p.headerState != HContentLength && Trimmed(text)
    requires p.nread + |text| + 2 <= MAX_HEADER_SIZE
    ensures var r := Run(p, text + End(e));
            r.exit == Running && LineStart(r.parser.state) &&
            Reached(p, r.parser, |text| + |End(e)|, ValueFlags(p.flags, p.headerState, Folded(text)), p.contentLength) &&
            (Continues(text, e) ==> r.parser.state == InHeader(HeaderValueLws) && Spent(r.parser.headerState))
  {
    hide Run, Step, Reads, Says;
    if text == [] {
      NoValueEnd(p, e);
      assert text + End(e) == End(e);
      NothingSaid();
    } else {
      ValueRun(p, text);
      var q := Run(p, text).parser;
      RunSplit(p, text, End(e));
      ValueEnd(q, e);
      ValueFlagged(q, p.flags, p.headerState, Folded(text));
      ReadsSpent(q, p.headerState, Folded(text));
    }
  }

  lemma ReadsSpent(p: Parser, h: HeaderState, v: string)
    requires Reads(p, h, v)
    ensures Spent(p.headerState)
  {
  }

  lemma NothingSaid()
    ensures Folded([]) == [] && forall w: Word :: !Says([], w)
  {
  }

  lemma HeadRun(p: Parser, name: string)
    requires LineStart(p.state) && name != [] && Tokens(name) && p.nread + |name| + 1 <= MAX_HEADER_SIZE
    ensures var r := Run(p, name + [':']);
            r.exit == Running && Moved(p, r.parser, |name| + 1, HeaderValueStart) && Tracks(r.parser, Folded(name))
  {
    hide Run, Step, Tracks, IsToken;
    NameRun(p, name);
    var q := Run(p, name).parser;
    RunSplit(p, name, [':']);
    RunByte(q, ':');
    ColonStep(q);
    SameTrack(q, Step(q, ':').parser, Folded(name));
  }

  /** What a header line means, from its folded name and value alone. */
  function LineMeans(f: Flags, name: string, v: string): Flags {
    f.(chunked := f.chunked || (name == "transfer-encoding" && Says(v, ChunkedWord)),
       keepAlive := f.keepAlive || ((name == "connection" || name == "proxy-connection") && Says(v, KeepAliveWord)),
       close := f.close || ((name == "connection" || name == "proxy-connection") && Says(v, CloseWord)),
       upgrade := f.upgrade || (name == "upgrade" && v != []))
  }

  lemma NameMeans(p: Parser, s: string)
    requires s != [] && Tracks(p, s)
    ensures p.headerState == HTransferEncoding <==> s == "transfer-encoding"
    ensures p.headerState == HConnection <==> s == "connection" || s == "proxy-connection"
    ensures p.headerState == HUpgrade <==> s == "upgrade"
    ensures p.headerState == HContentLength <==> s == "content-length"
  {
    hide Tracks;
    NameKnown(p, s, Connection);
    NameKnown(p, s, ProxyConnection);
    NameKnown(p, s, ContentLength);
    NameKnown(p, s, TransferEncoding);
    NameKnown(p, s, Upgrade);
  }

  // ---- Content-Length values ----

  /** Digits, possibly with spaces between or after them. */
  predicate LengthText(text: string) {
    text != [] && IsNum(text[0]) && forall i :: 0 <= i < |text| ==> IsNum(text[i]) || text[i] == ' '
  }

  /** The digits alone. */
  function Squeezed(text: string): string {
    if text == [] then []
    else Squeezed(text[..|text| - 1]) + if text[|text| - 1] == ' ' then [] else [text[|text| - 1]]
  }

  lemma {:induction false} SqueezedDigits(text: string)
    requires forall i :: 0 <= i < |text| ==> IsNum(text[i]) || text[i] == ' '
    ensures Digits(10, Squeezed(text))
  {
    if text != [] {
      SqueezedDigits(text[..|text| - 1]);
    }
  }

  /** The length a value announces. */
  function LengthOf(text: string): nat
    requires LengthText(text)
  {
    SqueezedDigits(text);
    Number(10, Squeezed(text))
  }

  lemma LengthOfNext(text: string, n: nat)
    requires LengthText(text) && 1 <= n && n + 1 == |text|
    ensures LengthText(text[..n])
    ensures LengthOf(text) == if text[n] == ' ' then LengthOf(text[..n]) else LengthOf(text[..n]) * 10 + HexValue(text[n])
  {
    SqueezedDigits(text);
    SqueezedDigits(text[..n]);
    var s := Squeezed(text[..n]);
    if text[n] != ' ' {
      assert Squeezed(text) == s + [text[n]];
      assert (s + [text[n]])[..|s|] == s;
    } else {
      assert Squeezed(text) == s;
    }
  }

  lemma LengthOfDigit(text: string)
    requires LengthText(text) && |text| == 1
    ensures LengthOf(text) == HexValue(text[0])
  {
    assert text[..0] == [];
    assert Squeezed(text) == [] + [text[0]] == text;
    assert Number(10, text[..0]) == 0;
  }

  lemma SpaceStep(p: Parser)
    requires ReadingLength(p) && p.nread < MAX_HEADER_SIZE
    ensures var r := Step(p, ' '); r.exit == Running && r.parser == p.(nread := p.nread + 1)
  {
  }

  lemma {:induction false} LengthTextRun(p: Parser, text: string)
    requires p.state == InHeader(HeaderValueStart) && p.headerState == HContentLength
    requires LengthText(text) && LengthOf(text) < MAX64 && p.nread + |text| <= MAX_HEADER_SIZE
    ensures var r := Run(p, text); r.exit == Running && r.parser == LengthRead(p, |text|, LengthOf(text))
  {
    hide Step, Run, LengthOf;
    var n := |text| - 1;
    if n == 0 {
      assert text == [text[0]];
      RunByte(p, text[0]);
      FirstDigit(p, text[0]);
      LengthOfDigit(text);
    } else {
      LengthOfNext(text, n);
      LengthTextRun(p, text[..n]);
      RunNext(p, text, n);
      assert text[..n + 1] == text;
      var q := Run(p, text[..n]).parser;
      if text[n] == ' ' {
        SpaceStep(q);
      } else {
        LengthStep(q, text[n]);
      }
    }
  }

  lemma LengthEnd(p: Parser, text: string, e: Eol)
    requires p.state == InHeader(HeaderValueStart) && p.headerState == HContentLength
    requires LengthText(text) && LengthOf(text) < MAX64 && p.nread + |text| + 2 <= MAX_HEADER_SIZE
    ensures var r := Run(p, text + End(e));
            r.exit == Running && Reached(p, r.parser, |text| + |End(e)|, p.flags, LengthOf(text)) &&
            r.parser.state == InHeader(HeaderValueLws) && r.parser.headerState == HContentLength
  {
    hide Step, Run, LengthOf;
    LengthTextRun(p, text);
    RunSplit(p, text, End(e));
    ValueEnd(Run(p, text).parser, e);
  }

  // ---- Whole headers, continuation lines included ----

  /** One line of a value: blanks, text, line end. */
  datatype ValueLine = ValueLine(pad: string, text: string, eol: Eol)

  function Piece(v: ValueLine): string { v.pad + (v.text + End(v.eol)) }

  function Pieces(lines: seq<ValueLine>): string { if lines == [] then [] else Piece(lines[0]) + Pieces(lines[1..]) }

  /** Lines that can follow: each begins with a blank and all but the last can be continued. */
  predicate Foldable(lines: seq<ValueLine>) {
    forall i :: 0 <= i < |lines| ==>
      lines[i].pad != [] && Blank(lines[i].pad) && Trimmed(lines[i].text) &&
      (i + 1 < |lines| ==> Continues(lines[i].text, lines[i].eol))
  }

  /** The lines of a length header that are read as lengths: up to the first empty one. */
  predicate Lengths(lines: seq<ValueLine>) {
    lines == [] || lines[0].text == [] ||
    (LengthText(lines[0].text) && LengthOf(lines[0].text) < MAX64 && Lengths(lines[1..]))
  }

  /** Each line read as a length replaces the one before. */
  function LastLength(length: nat, lines: seq<ValueLine>): nat
    requires Lengths(lines)
    decreases |lines|
  {
    if lines == [] || lines[0].text == [] then length else LastLength(LengthOf(lines[0].text), lines[1..])
  }

  /** One line of a value in any header. */
  lemma LineRun(p: Parser, v: ValueLine)
    requires p.state == InHeader(HeaderValueStart) && Blank(v.pad) && Trimmed(v.text)
    requires p.headerState == HContentLength ==> v.text == [] || (LengthText(v.text) && LengthOf(v.text) < MAX64)
    requires p.nread + |Piece(v)| + 1 <= MAX_HEADER_SIZE
    ensures var r, h := Run(p, Piece(v)), p.headerState;
            r.exit == Running && LineStart(r.parser.state) &&
            (h != HContentLength || v.text == [] ==>
               Reached(p, r.parser, |Piece(v)|, ValueFlags(p.flags, h, Folded(v.text)), p.contentLength) &&
               (Continues(v.text, v.eol) ==> r.parser.state == InHeader(HeaderValueLws) && Spent(r.parser.headerState))) &&
            (h == HContentLength && v.text != [] ==>
               Reached(p, r.parser, |Piece(v)|, p.flags, LengthOf(v.text)) &&
               r.parser.state == InHeader(HeaderValueLws) && r.parser.headerState == HContentLength)
  {
    hide Step, Run, Says, LengthOf;
    BlankRun(p, v.pad);
    var q := Run(p, v.pad).parser;
    RunSplit(p, v.pad, v.text + End(v.eol));
    if p.headerState != HContentLength {
      TextRun(q, v.text, v.eol);
    } else if v.text != [] {
      LengthEnd(q, v.text, v.eol);
    } else {
      NoValueEnd(q, v.eol);
      assert v.text + End(v.eol) == End(v.eol);
      NothingSaid();
    }
  }

  /** A blank after a header line continues its value. */
  lemma FoldStep(p: Parser, ch: char)
    requires p.state == InHeader(HeaderValueLws) && p.nread < MAX_HEADER_SIZE && (ch == ' ' || ch == '\t')
    ensures var r := Step(p, ch);
            r.exit == Running && r.parser == p.(nread := p.nread + 1, state := InHeader(HeaderValueStart))
  {
  }

  /** A continuation line: its first blank leads back into the value. */
  lemma FoldedPiece(p: Parser, v: ValueLine)
    requires p.state == InHeader(HeaderValueLws) && v.pad != [] && Blank(v.pad) && p.nread < MAX_HEADER_SIZE
    ensures var q := p.(nread := p.nread + 1, state := InHeader(HeaderValueStart));
            var w := v.(pad := v.pad[1..]);
            Run(p, Piece(v)).exit == Run(q, Piece(w)).exit && Run(p, Piece(v)).parser == Run(q, Piece(w)).parser &&
            |Piece(v)| == |Piece(w)| + 1
  {
    hide Step, Run;
    var w := v.(pad := v.pad[1..]);
    assert Piece(v) == [v.pad[0]] + Piece(w);
    RunSplit(p, [v.pad[0]], Piece(w));
    RunByte(p, v.pad[0]);
    FoldStep(p, v.pad[0]);
  }

  /** A continuation line adds no flag; in a length header it announces a new length. */
  lemma FoldedLine(p: Parser, v: ValueLine)
    requires p.state == InHeader(HeaderValueLws) && v.pad != [] && Blank(v.pad) && Trimmed(v.text)
    requires Spent(p.headerState) || p.headerState == HContentLength
    requires p.headerState == HContentLength ==> v.text == [] || (LengthText(v.text) && LengthOf(v.text) < MAX64)
    requires p.nread + |Piece(v)| + 1 <= MAX_HEADER_SIZE
    ensures var r, isLength := Run(p, Piece(v)), p.headerState == HContentLength && v.text != [];
            r.exit == Running && LineStart(r.parser.state) &&
            Reached(p, r.parser, |Piece(v)|, p.flags, if isLength then LengthOf(v.text) else p.contentLength) &&
            (Continues(v.text, v.eol) ==>
               r.parser.state == InHeader(HeaderValueLws) &&
               if isLength then r.parser.headerState == HContentLength else Spent(r.parser.headerState))
  {
    hide Step, Run, Says, LengthOf, Folded, Piece;
    FoldedPiece(p, v);
    var q := p.(nread := p.nread + 1, state := InHeader(HeaderValueStart));
    LineRun(q, v.(pad := v.pad[1..]));
  }

  lemma {:induction false} FoldedLines(p: Parser, lines: seq<ValueLine>)
    requires Foldable(lines) && LineStart(p.state) && (lines != [] ==> p.state == InHeader(HeaderValueLws))
    requires lines != [] ==> Spent(p.headerState) || (p.headerState == HContentLength && Lengths(lines))
    requires p.nread + |Pieces(lines)| + 1 <= MAX_HEADER_SIZE
    ensures var r := Run(p, Pieces(lines));
            r.exit == Running && LineStart(r.parser.state) &&
            Reached(p, r.parser, |Pieces(lines)|, p.flags,
                    if lines != [] && p.headerState == HContentLength then LastLength(p.contentLength, lines)
                    else p.contentLength)
    decreases |lines|
  {
    hide Step, Run, LengthOf, LengthText, Piece, Spent, Blank, Trimmed;
    if lines == [] {
      RunEmpty(p);
    } else {
      SpentIs(p.headerState);
      var v := lines[0];
      FoldedLine(p, v);
      var q := Run(p, Piece(v)).parser;
      RunSplit(p, Piece(v), Pieces(lines[1..]));
      FoldedLines(q, lines[1..]);
      SpentIs(q.headerState);
    }
  }

  lemma SpentIs(h: HeaderState)
    ensures Spent(h) ==> h != HContentLength
  {
  }

  /** A header field, or a line that is a name without a colon, which the parser lets pass. */
  datatype Header = FieldLine(name: string, first: ValueLine, more: seq<ValueLine>) | BareLine(name: string, eol: Eol)

  function Bytes(h: Header): string {
    match h
    case FieldLine(name, first, more) => name + [':'] + (Piece(first) + Pieces(more))
    case BareLine(name, eol) => name + End(eol)
  }

  predicate IsLength(h: Header) { h.FieldLine? && Folded(h.name) == "content-length" }

  predicate WellFormed(h: Header) {
    h.name != [] && Tokens(h.name) &&
    (h.FieldLine? ==>
       Blank(h.first.pad) && Trimmed(h.first.text) && Foldable(h.more) &&
       (h.more != [] ==> Continues(h.first.text, h.first.eol)) && (IsLength(h) ==> Lengths([h.first] + h.more)))
  }

  /** The flags after a header. */
  function HeaderMeans(f: Flags, h: Header): Flags {
    if h.FieldLine? then LineMeans(f, Folded(h.name), Folded(h.first.text)) else f
  }

  /** The length in force after a header. */
  function Announces(length: nat, h: Header): nat
    requires WellFormed(h)
  {
    if IsLength(h) then LastLength(length, [h.first] + h.more) else length
  }

  lemma AnnouncesFirst(length: nat, h: Header)
    requires WellFormed(h) && IsLength(h)
    ensures h.first.text == [] ==> Announces(length, h) == length
    ensures h.first.text != [] ==>
              LengthText(h.first.text) && LengthOf(h.first.text) < MAX64 && Lengths(h.more) &&
              Announces(length, h) == LastLength(LengthOf(h.first.text), h.more)
  {
    assert ([h.first] + h.more)[1..] == h.more;
  }

  /** A header in state h means what its folded name means. */
  lemma StateMeans(p: Parser, f: Flags, name: string, v: string)
    requires name != [] && Tracks(p, name)
    ensures ValueFlags(f, p.headerState, v) == LineMeans(f, name, v)
    ensures p.headerState == HContentLength <==> name == "content-length"
  {
    hide Tracks, Says;
    NameMeans(p, name);
  }

  lemma FieldRun(p: Parser, h: Header)
    requires LineStart(p.state) && WellFormed(h) && h.FieldLine? && p.nread + |Bytes(h)| + 1 <= MAX_HEADER_SIZE
    ensures var r := Run(p, Bytes(h));
            r.exit == Running && LineStart(r.parser.state) &&
            Reached(p, r.parser, |Bytes(h)|, HeaderMeans(p.flags, h), Announces(p.contentLength, h))
  {
    hide Run, Step, Tracks, Says, IsToken, LengthOf, Piece, ValueFlags, LineMeans, Trimmed, Blank, LengthText,
         Announces, Lengths, Spent;
    var head := h.name + [':'];
    HeadRun(p, h.name);
    var q := Run(p, head).parser;
    StateMeans(q, p.flags, Folded(h.name), Folded(h.first.text));
    if IsLength(h) {
      AnnouncesFirst(p.contentLength, h);
      LengthMeans(p.flags, Folded(h.first.text));
    } else {
      AnnouncesNothing(p.contentLength, h);
    }
    LineRun(q, h.first);
    var q1 := Run(q, Piece(h.first)).parser;
    RunSplit(p, head, Piece(h.first) + Pieces(h.more));
    RunSplit(q, Piece(h.first), Pieces(h.more));
    FoldedLines(q1, h.more);
    SpentIs(q1.headerState);
  }

  /** The end of a line that has no colon. */
  lemma NameEnd(p: Parser, e: Eol)
    requires p.state == InHeader(HeaderField) && p.nread + 2 <= MAX_HEADER_SIZE
    ensures var r := Run(p, End(e));
            r.exit == Running &&
            r.parser == p.(nread := p.nread + |End(e)|,
                           state := InHeader(if e.CrLf? then HeaderValueLws else HeaderFieldStart),
                           flags := if e.CrLf? then LineFlags(p.flags, p.headerState) else p.flags)
  {
    hide Step, Run;
    NameEndStep(p);
    if e.CrLf? {
      RunTwo(p, CR, LF);
      LineEndStep(Step(p, CR).parser);
    } else {
      RunByte(p, LF);
    }
  }

  lemma NameEndStep(p: Parser)
    requires p.state == InHeader(HeaderField) && p.nread < MAX_HEADER_SIZE
    ensures Step(p, CR).exit == Running && Step(p, LF).exit == Running
    ensures Step(p, CR).parser == p.(nread := p.nread + 1, state := InHeader(HeaderAlmostDone))
    ensures Step(p, LF).parser == p.(nread := p.nread + 1, state := InHeader(HeaderFieldStart))
  {
  }

  /** A name sets no flag by itself. */
  lemma NameSilent(p: Parser, s: string)
    requires Tracks(p, s)
    ensures LineFlags(p.flags, p.headerState) == p.flags
  {
    hide Spelling;
  }

  lemma BareRun(p: Parser, name: string, e: Eol)
    requires LineStart(p.state) && name != [] && Tokens(name) && p.nread + |name| + 2 <= MAX_HEADER_SIZE
    ensures var r := Run(p, name + End(e));
            r.exit == Running && LineStart(r.parser.state) &&
            Reached(p, r.parser, |name + End(e)|, p.flags, p.contentLength)
  {
    hide Run, Step, Tracks, IsToken;
    NameRun(p, name);
    var q := Run(p, name).parser;
    NameSilent(q, Folded(name));
    RunSplit(p, name, End(e));
    NameEnd(q, e);
  }

  /** A header is accepted, sets a flag if and only if its name and the first line of its value, without regard to
      case, are those of the flag, and announces a length if and only if it is a Content-Length; nothing else in the
      record changes. Continuation lines set no flag, but those of a Content-Length replace the length. A name without
      a colon is let pass. */
  lemma HeaderRun(p: Parser, h: Header)
    requires LineStart(p.state) && WellFormed(h) && p.nread + |Bytes(h)| + 1 <= MAX_HEADER_SIZE
    ensures var r := Run(p, Bytes(h));
            r.exit == Running && LineStart(r.parser.state) &&
            Reached(p, r.parser, |Bytes(h)|, HeaderMeans(p.flags, h), Announces(p.contentLength, h))
  {
    if h.FieldLine? {
      hide HeaderMeans, Announces, Bytes, WellFormed;
      FieldRun(p, h);
    } else {
      AnnouncesNothing(p.contentLength, h);
      hide Run, Announces;
      BareRun(p, h.name, h.eol);
    }
  }

  lemma AnnouncesNothing(length: nat, h: Header)
    requires WellFormed(h) && !IsLength(h)
    ensures Announces(length, h) == length
  {
  }

  lemma LengthMeans(f: Flags, v: string)
    ensures LineMeans(f, "content-length", v) == f && ValueFlags(f, HContentLength, v) == f
  {
  }

  // ---- The whole header block ----

  function Block(headers: seq<Header>): string {
    if headers == [] then [] else Block(headers[..|headers| - 1]) + Bytes(headers[|headers| - 1])
  }

  predicate AllWellFormed(headers: seq<Header>) { forall i :: 0 <= i < |headers| ==> WellFormed(headers[i]) }

  function BlockMeans(f: Flags, headers: seq<Header>): Flags {
    if headers == [] then f
    else HeaderMeans(BlockMeans(f, headers[..|headers| - 1]), headers[|headers| - 1])
  }

  function BlockAnnounces(length: nat, headers: seq<Header>): nat
    requires AllWellFormed(headers)
  {
    if headers == [] then length
    else Announces(BlockAnnounces(length, headers[..|headers| - 1]), headers[|headers| - 1])
  }

  /** Any number of headers: each adds exactly the flags it spells, and the last length counts. */
  lemma {:induction false} HeaderBlock(p: Parser, headers: seq<Header>)
    requires LineStart(p.state) && AllWellFormed(headers) && p.nread + |Block(headers)| + 1 <= MAX_HEADER_SIZE
    ensures var r := Run(p, Block(headers));
            r.exit == Running && LineStart(r.parser.state) &&
            Reached(p, r.parser, |Block(headers)|, BlockMeans(p.flags, headers),
                    BlockAnnounces(p.contentLength, headers))
  {
    hide Step, Run, HeaderMeans, Bytes, WellFormed, Announces;
    if headers == [] {
      RunEmpty(p);
    } else {
      var front, last := headers[..|headers| - 1], headers[|headers| - 1];
      HeaderBlock(p, front);
      var q := Run(p, Block(front)).parser;
      RunSplit(p, Block(front), Bytes(last));
      HeaderRun(q, last);
    }
  }
}
