/** The host part of a URL as text: what http_parse_host accepts and how it cuts it into user information, host and
    port, without the character machine (base/http_parser.cpp:1939-2051). */
module HostGrammar {
  import opened Wrappers
  import opened HttpTypes
  import opened HttpUrl

  /** Optional user information before '@', a name or a bracketed IPv6 address, an optional port behind ':'. */
  datatype Host = Host(info: Option<string>, v6: bool, name: string, port: Option<string>)

  function InfoText(h: Host): string { match h.info case Some(s) => s + "@" case None => [] }

  function NameText(h: Host): string { if h.v6 then "[" + h.name + "]" else h.name }

  function PortPart(h: Host): string { match h.port case Some(s) => ":" + s case None => [] }

  function HostText(h: Host): string { InfoText(h) + NameText(h) + PortPart(h) }

  predicate InfoChars(s: string) { forall i :: 0 <= i < |s| ==> IsUserinfo(s[i]) }

  predicate V6Char(c: char) { IsHex(c) || c == ':' || c == '.' }

  predicate NameChars(s: string, v6: bool) { forall i :: 0 <= i < |s| ==> if v6 then V6Char(s[i]) else IsHostChar(s[i]) }

  predicate PortChars(s: string) { forall i :: 0 <= i < |s| ==> IsNum(s[i]) }

  predicate LegalHost(h: Host) {
    (h.info.Some? ==> InfoChars(h.info.value)) && h.name != [] && NameChars(h.name, h.v6) &&
    (h.port.Some? ==> h.port.value != [] && PortChars(h.port.value))
  }

  /** Where user information, host and port stand. */
  function HostPartOf(h: Host, f: UrlField): Span {
    match f
    case UserinfoField => Span(0, match h.info case Some(s) => |s| case None => 0)
    case HostField => Span(|InfoText(h)| + if h.v6 then 1 else 0, |h.name|)
    case PortField => Span(|InfoText(h)| + |NameText(h)| + 1, match h.port case Some(s) => |s| case None => 0)
    case _ => Span(0, 0)
  }

  predicate InHost(h: Host, f: UrlField, k: nat) { HostPartOf(h, f).off < k <= HostPartOf(h, f).off + HostPartOf(h, f).len }

  /** The state the second pass starts in for such a text. */
  function Begin(hasAt: bool): HostState { if hasAt then HUserinfoStart else HHostStart }

  function EndOf(h: Host): HostState { if h.port.Some? then HPort else if h.v6 then HV6End else HHost }

  // ---- Walking ----

  function Walk(start: HostState, text: string, j: nat): HostState
    requires j <= |text|
  {
    HostStateAt(start, text, 0, j)
  }

  lemma {:induction false} WalkPrefix(start: HostState, a: string, b: string, k: nat)
    requires k <= |a|
    ensures Walk(start, a + b, k) == Walk(start, a, k)
  {
    hide ParseHostChar;
    if k > 0 {
      WalkPrefix(start, a, b, k - 1);
    }
  }

  lemma {:induction false} WalkConcat(start: HostState, a: string, b: string, j: nat)
    requires j <= |b|
    ensures Walk(start, a + b, |a| + j) == Walk(Walk(start, a, |a|), b, j)
  {
    hide ParseHostChar;
    if j == 0 {
      WalkPrefix(start, a, b, |a|);
    } else {
      WalkConcat(start, a, b, j - 1);
    }
  }

  /** The second pass over a run of the buffer is a walk over the text of the run. */
  lemma {:induction false} WalkShift(start: HostState, buf: string, from: nat, len: nat, j: nat)
    requires from + len <= |buf| && j <= len
    ensures HostStateAt(start, buf, from, from + j) == Walk(start, buf[from..from + len], j)
  {
    hide ParseHostChar;
    if j > 0 {
      WalkShift(start, buf, from, len, j - 1);
    }
  }

  lemma {:induction false} SameStates(s: HostState, t: HostState, text: string, j: nat)
    requires 1 <= j <= |text| && forall i :: 0 <= i < |text| ==> Stays(s, t, text[i])
    ensures Walk(s, text, j) == t
  {
    hide ParseHostChar;
    if j == 1 {
      assert Walk(s, text, 0) == s;
    } else {
      SameStates(s, t, text, j - 1);
    }
    assert Stays(s, t, text[j - 1]);
  }

  /** A character that leads from both states to the second. */
  predicate Stays(s: HostState, t: HostState, ch: char) { ParseHostChar(s, ch) == t && ParseHostChar(t, ch) == t }

  lemma OneChar(s: HostState, ch: char)
    ensures Walk(s, [ch], 1) == ParseHostChar(s, ch)
  {
    assert Walk(s, [ch], 0) == s;
  }

  // ---- Every form is accepted ----

  /** A beginning of the text, which leads to state s: its bytes belong to the fields whose parts they lie in. */
  ghost predicate Told(h: Host, start: HostState, text: string, s: HostState) {
    Walk(start, text, |text|) == s &&
    forall k: nat, f :: 1 <= k <= |text| ==> (HostFieldOf(Walk(start, text, k)) == Some(f) <==> InHost(h, f, k))
  }

  lemma ToldMore(h: Host, start: HostState, text: string, s: HostState, piece: string, t: HostState)
    requires Told(h, start, text, s)
    requires forall i :: 0 <= i < |piece| ==> if |piece| == 1 then ParseHostChar(s, piece[i]) == t else Stays(s, t, piece[i])
    requires piece == [] ==> s == t
    requires forall k: nat, f :: |text| < k <= |text| + |piece| ==> (HostFieldOf(t) == Some(f) <==> InHost(h, f, k))
    ensures Told(h, start, text + piece, t)
  {
    hide InHost, HostFieldOf, ParseHostChar;
    var all := text + piece;
    forall j | 1 <= j <= |piece|
      ensures Walk(s, piece, j) == t
    {
      if |piece| == 1 {
        assert piece == [piece[0]];
        OneChar(s, piece[0]);
      } else {
        SameStates(s, t, piece, j);
      }
    }
    hide Walk;
    if piece == [] {
      assert all == text;
    } else {
      WalkConcat(start, text, piece, |piece|);
    }
    forall k: nat, f | 1 <= k <= |all|
      ensures HostFieldOf(Walk(start, all, k)) == Some(f) <==> InHost(h, f, k)
    {
      if k <= |text| {
        WalkPrefix(start, text, piece, k);
      } else {
        WalkConcat(start, text, piece, k - |text|);
      }
    }
  }

  lemma ToldNothing(h: Host, start: HostState)
    ensures Told(h, start, [], start)
  {
  }

  // Where the parts stand.

  lemma InfoIn(h: Host)
    requires h.info.Some?
    ensures forall k: nat, f :: 0 < k <= |h.info.value| ==> (f == UserinfoField <==> InHost(h, f, k))
    ensures forall k: nat, f :: k == |h.info.value| + 1 ==> !InHost(h, f, k)
  {
  }

  lemma NameIn(h: Host)
    ensures var n := |InfoText(h)|;
            if h.v6 then
              (forall k: nat, f :: k == n + 1 || k == n + 1 + |h.name| + 1 ==> !InHost(h, f, k)) &&
              (forall k: nat, f :: n + 1 < k <= n + 1 + |h.name| ==> (f == HostField <==> InHost(h, f, k)))
            else forall k: nat, f :: n < k <= n + |h.name| ==> (f == HostField <==> InHost(h, f, k))
  {
  }

  lemma PortIn(h: Host)
    requires h.port.Some?
    ensures var n := |InfoText(h) + NameText(h)|;
            (forall k: nat, f :: k == n + 1 ==> !InHost(h, f, k)) &&
            (forall k: nat, f :: n + 1 < k <= n + 1 + |h.port.value| ==> (f == PortField <==> InHost(h, f, k)))
  {
  }

  lemma ToldInfo(h: Host)
    requires LegalHost(h)
    ensures Told(h, Begin(h.info.Some?), InfoText(h), HHostStart)
  {
    var start := Begin(h.info.Some?);
    ToldNothing(h, start);
    if h.info.Some? {
      var s := h.info.value;
      var t := if s == [] then HUserinfoStart else HUserinfo;
      InfoStates(s);
      InfoIn(h);
      AtState(t);
      hide Told, InHost, ParseHostChar;
      ToldMore(h, start, [], start, s, t);
      assert [] + s == s;
      ToldMore(h, start, s, t, "@", HHostStart);
    }
  }

  lemma InfoStates(s: string)
    requires InfoChars(s)
    ensures forall i :: 0 <= i < |s| ==> Stays(HUserinfoStart, HUserinfo, s[i])
  {
    forall i | 0 <= i < |s|
      ensures Stays(HUserinfoStart, HUserinfo, s[i])
    {
      assert IsUserinfo(s[i]);
    }
  }

  lemma AtState(s: HostState)
    requires s.HUserinfoStart? || s.HUserinfo?
    ensures ParseHostChar(s, '@') == HHostStart
  {
  }

  lemma ToldName(h: Host)
    requires LegalHost(h)
    ensures Told(h, Begin(h.info.Some?), InfoText(h) + NameText(h), if h.v6 then HV6End else HHost)
  {
    hide Told, InfoText, InHost, ParseHostChar, NameChars;
    var start, text := Begin(h.info.Some?), InfoText(h);
    ToldInfo(h);
    NameIn(h);
    if h.v6 {
      Brackets();
      ToldMore(h, start, text, HHostStart, "[", HV6Start);
      V6States(h.name);
      ToldMore(h, start, text + "[", HV6Start, h.name, HV6);
      ToldMore(h, start, text + "[" + h.name, HV6, "]", HV6End);
      assert text + "[" + h.name + "]" == text + NameText(h);
    } else {
      NameStates(h.name);
      ToldMore(h, start, text, HHostStart, h.name, HHost);
    }
  }

  lemma V6States(s: string)
    requires NameChars(s, true)
    ensures forall i :: 0 <= i < |s| ==> Stays(HV6Start, HV6, s[i])
  {
    forall i | 0 <= i < |s|
      ensures Stays(HV6Start, HV6, s[i])
    {
      assert V6Char(s[i]);
    }
  }

  lemma Brackets()
    ensures ParseHostChar(HHostStart, '[') == HV6Start && ParseHostChar(HV6, ']') == HV6End
  {
  }

  lemma NameStates(s: string)
    requires NameChars(s, false)
    ensures forall i :: 0 <= i < |s| ==> Stays(HHostStart, HHost, s[i])
  {
    forall i | 0 <= i < |s|
      ensures Stays(HHostStart, HHost, s[i])
    {
      assert IsHostChar(s[i]);
    }
  }

  /** The whole text: which byte belongs to which field, and the end is accepted. */
  lemma ToldAll(h: Host)
    requires LegalHost(h)
    ensures Told(h, Begin(h.info.Some?), HostText(h), EndOf(h)) && HostAccepts(EndOf(h))
  {
    hide Told, InfoText, NameText, InHost, ParseHostChar;
    var start, text := Begin(h.info.Some?), InfoText(h) + NameText(h);
    ToldName(h);
    if h.port.Some? {
      PortIn(h);
      var s := if h.v6 then HV6End else HHost;
      ColonState(s);
      ToldMore(h, start, text, s, ":", HPortStart);
      PortStates(h.port.value);
      ToldMore(h, start, text + ":", HPortStart, h.port.value, HPort);
      assert text + ":" + h.port.value == HostText(h);
    } else {
      assert text == HostText(h);
    }
  }

  lemma ColonState(s: HostState)
    requires s.HV6End? || s.HHost?
    ensures ParseHostChar(s, ':') == HPortStart
  {
  }

  lemma PortStates(s: string)
    requires PortChars(s)
    ensures forall i :: 0 <= i < |s| ==> Stays(HPortStart, HPort, s[i])
  {
  }

  // ---- Every accepted text has a form ----

  /** What has been read in a state. */
  function PartText(h: Host, s: HostState): string {
    match s
    case HUserinfoStart | HDead => []
    case HUserinfo => if h.info.Some? then h.info.value else []
    case HHostStart => InfoText(h)
    case HHost => InfoText(h) + h.name
    case HV6Start => InfoText(h) + "["
    case HV6 => InfoText(h) + "[" + h.name
    case HV6End => InfoText(h) + NameText(h)
    case HPortStart | HPort => InfoText(h) + NameText(h) + PortPart(h)
  }

  predicate LegalPart(h: Host, s: HostState) {
    (h.info.Some? ==> InfoChars(h.info.value)) && NameChars(h.name, h.v6) &&
    match s
    case HDead => false
    case HUserinfoStart => h == Host(Some([]), false, [], None)
    case HUserinfo => h.info.Some? && !h.v6 && h.name == [] && h.port == None
    case HHostStart => !h.v6 && h.name == [] && h.port == None
    case HHost => !h.v6 && h.name != [] && h.port == None
    case HV6Start => h.v6 && h.name == [] && h.port == None
    case HV6 | HV6End => h.v6 && h.name != [] && h.port == None
    case HPortStart => h.name != [] && h.port == Some([])
    case HPort => h.name != [] && h.port.Some? && h.port.value != [] && PortChars(h.port.value)
  }

  /** One more character, which leads to state s. */
  function Grown(h: Host, s: HostState, ch: char): Host {
    match s
    case HUserinfo => h.(info := Some((if h.info.Some? then h.info.value else []) + [ch]))
    case HHost | HV6 => h.(name := h.name + [ch])
    case HV6Start => h.(v6 := true)
    case HPortStart => h.(port := Some([]))
    case HPort => h.(port := Some((if h.port.Some? then h.port.value else []) + [ch]))
    case _ => h
  }

  lemma GrownLegal(h: Host, s: HostState, ch: char)
    requires LegalPart(h, s) && !ParseHostChar(s, ch).HDead?
    ensures var t := ParseHostChar(s, ch);
            LegalPart(Grown(h, t, ch), t) && (Grown(h, t, ch).info.Some? <==> h.info.Some?)
  {
    hide IsUserinfo, IsHostChar, IsHex, IsNum;
  }

  lemma GrownText(h: Host, s: HostState, ch: char)
    requires LegalPart(h, s) && !ParseHostChar(s, ch).HDead?
    ensures var t := ParseHostChar(s, ch); PartText(Grown(h, t, ch), t) == PartText(h, s) + [ch]
  {
    hide IsUserinfo, IsHostChar, IsHex, IsNum, InfoChars, NameChars, PortChars;
    match s
    case HUserinfoStart | HUserinfo =>
    case HHostStart =>
    case HV6Start | HV6 => GrownV6(h, s, ch);
    case HPortStart | HPort => GrownPort(h, ch);
    case _ => GrownName(h, s, ch);
  }

  lemma GrownV6(h: Host, s: HostState, ch: char)
    requires LegalPart(h, s) && (s.HV6Start? || s.HV6?) && !ParseHostChar(s, ch).HDead?
    ensures var t := ParseHostChar(s, ch); PartText(Grown(h, t, ch), t) == PartText(h, s) + [ch]
  {
    hide IsHex, InfoChars, NameChars;
    var a, n := InfoText(h), h.name;
    assert a + "[" + (n + [ch]) == a + "[" + n + [ch];
    assert ch == ']' ==> a + ("[" + n + "]") == a + "[" + n + [ch];
    assert n == [] ==> a + "[" + n == a + "[";
  }

  lemma GrownPort(h: Host, ch: char)
    requires h.port.Some?
    ensures PartText(Grown(h, HPort, ch), HPort) == PartText(h, HPort) + [ch]
  {
    var g := Grown(h, HPort, ch);
    assert PortPart(g) == PortPart(h) + [ch] && InfoText(g) + NameText(g) == InfoText(h) + NameText(h);
  }

  lemma GrownName(h: Host, s: HostState, ch: char)
    requires LegalPart(h, s) && (s.HHost? || s.HV6End?) && !ParseHostChar(s, ch).HDead?
    ensures var t := ParseHostChar(s, ch); PartText(Grown(h, t, ch), t) == PartText(h, s) + [ch]
  {
    hide IsHostChar, InfoChars, NameChars;
    var a, n := InfoText(h), h.name;
    assert a + (n + [ch]) == a + n + [ch];
  }

  function FormOf(hasAt: bool, text: string): Host {
    if text == [] then Host(if hasAt then Some([]) else None, false, [], None)
    else
      var n := |text| - 1;
      Grown(FormOf(hasAt, text[..n]), Walk(Begin(hasAt), text, n + 1), text[n])
  }

  lemma {:induction false} HasPart(hasAt: bool, text: string)
    requires !Walk(Begin(hasAt), text, |text|).HDead?
    ensures var h, s := FormOf(hasAt, text), Walk(Begin(hasAt), text, |text|);
            LegalPart(h, s) && PartText(h, s) == text && (h.info.Some? <==> hasAt)
  {
    hide Grown, ParseHostChar, LegalPart, PartText;
    if text == [] {
      EmptyPart(hasAt);
    } else {
      var n := |text| - 1;
      var start := Begin(hasAt);
      WalkPrefix(start, text[..n], text[n..], n);
      assert text[..n] + text[n..] == text;
      if Walk(start, text, n).HDead? {
        HostDeadForever(start, text, 0, n, n + 1);
      }
      HasPart(hasAt, text[..n]);
      GrownLegal(FormOf(hasAt, text[..n]), Walk(start, text, n), text[n]);
      GrownText(FormOf(hasAt, text[..n]), Walk(start, text, n), text[n]);
    }
  }

  lemma EmptyPart(hasAt: bool)
    ensures LegalPart(FormOf(hasAt, []), Begin(hasAt)) && PartText(FormOf(hasAt, []), Begin(hasAt)) == []
  {
  }

  lemma Finished(h: Host, s: HostState)
    requires LegalPart(h, s) && HostAccepts(s)
    ensures LegalHost(h) && HostText(h) == PartText(h, s)
  {
    hide IsUserinfo, IsHostChar, IsHex, IsNum;
  }

  // ---- Where '@' can stand ----

  lemma AtInHost(h: Host)
    requires LegalHost(h)
    ensures '@' in HostText(h) <==> h.info.Some?
  {
    if h.info.Some? {
      assert HostText(h)[|h.info.value|] == '@';
    } else {
      hide IsUserinfo;
      assert '@' !in NameText(h);
      assert '@' !in PortPart(h);
    }
  }

  /** A text is accepted exactly when it is that of a legal host. */
  ghost predicate IsHost(h: Host, text: string) { LegalHost(h) && HostText(h) == text }

  lemma HostAccepted(text: string)
    ensures HostAccepts(Walk(Begin('@' in text), text, |text|)) <==> exists h :: IsHost(h, text)
  {
    hide Walk, LegalHost, LegalPart, HostText, PartText;
    var start := Begin('@' in text);
    if HostAccepts(Walk(start, text, |text|)) {
      HasPart('@' in text, text);
      Finished(FormOf('@' in text, text), Walk(start, text, |text|));
      assert IsHost(FormOf('@' in text, text), text);
    }
    if h :| IsHost(h, text) {
      AtInHost(h);
      ToldAll(h);
    }
  }
}
