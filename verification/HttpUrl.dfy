/** http_parser_parse_url: one pass that cuts a URL into runs, a second pass that cuts the host run
    into user information, host and port (base/http_parser.cpp:1939-2174). The result struct is
    zeroed by the caller and the URL is at most 65535 bytes, so that the 16-bit offsets hold. */
module HttpUrl {
  import opened Wrappers
  import opened HttpTypes
  import opened HttpSwitch
  import opened HttpLength

  datatype UrlField = SchemaField | UserinfoField | HostField | PortField | PathField | QueryField | FragmentField

  datatype Span = Span(off: nat, len: nat)

  /** A field that was never written has the zero span of the zeroed struct. */
  datatype Url = Parts(fields: set<UrlField>, spans: map<UrlField, Span>, port: nat) {
    function At(f: UrlField): Span { if f in spans then spans[f] else Span(0, 0) }
    function End(f: UrlField): nat { At(f).off + At(f).len }
    function Put(f: UrlField, s: Span): Url { Parts(fields + {f}, spans[f := s], port) }
  }

  /** Order of appearance in a URL. */
  function Rank(f: UrlField): nat {
    match f
    case SchemaField => 0 case UserinfoField => 1 case HostField => 2 case PortField => 3
    case PathField => 4 case QueryField => 5 case FragmentField => 6
  }

  // ---- First pass: runs ----

  /** The field a byte belongs to, from the state it leads to; delimiters belong to none. */
  function FieldOf(s: UrlState): Option<UrlField> {
    match s
    case ReqSchema => Some(SchemaField)
    case ReqServer | ReqServerWithAt => Some(HostField)
    case ReqPath => Some(PathField)
    case ReqQuery => Some(QueryField)
    case ReqFragment => Some(FragmentField)
    case _ => None
  }

  /** The state after the first i bytes. */
  function StateAt(start: UrlState, buf: string, i: nat): UrlState
    requires i <= |buf|
  {
    if i == 0 then start else ParseUrlChar(StateAt(start, buf, i - 1), buf[i - 1])
  }

  lemma {:induction false} DeadForever(start: UrlState, buf: string, i: nat, j: nat)
    requires i <= j <= |buf| && StateAt(start, buf, i).UrlDead?
    ensures StateAt(start, buf, j).UrlDead?
    decreases j
  {
    if i < j {
      DeadForever(start, buf, i, j - 1);
    }
  }

  /** Fields of lower rank than this can no longer occur. */
  function Floor(s: UrlState): nat {
    match s
    case ReqSchemaSlash | ReqSchemaSlashSlash | ReqServerStart | ReqServer | ReqServerWithAt => 2
    case ReqPath => 4
    case ReqQueryStart | ReqQuery => 5
    case ReqFragmentStart | ReqFragment => 6
    case _ => 0
  }

  lemma FloorRises(s: UrlState, ch: char)
    requires !ParseUrlChar(s, ch).UrlDead?
    ensures var t := ParseUrlChar(s, ch);
            Floor(s) <= Floor(t) &&
            (FieldOf(t).Some? ==> Floor(t) == Rank(FieldOf(t).value)) &&
            (FieldOf(s).Some? && FieldOf(t) != FieldOf(s) ==> Floor(s) < Floor(t))
  {
  }

  /** Every set field is a nonempty run that ends at or before i. */
  predicate Bounded(u: Url, i: nat) {
    forall f :: f in u.fields ==> 1 <= u.At(f).len && u.End(f) <= i
  }

  /** Set fields follow each other in URL order without overlap. */
  predicate Ordered(u: Url) {
    forall f, g :: f in u.fields && g in u.fields && Rank(f) < Rank(g) ==> u.End(f) <= u.At(g).off
  }

  /** Among the first i bytes, those in the span of f are exactly those that belong to f. Byte k - 1
      leads to the k-th state. */
  predicate ExactRun(u: Url, f: UrlField, start: UrlState, buf: string, i: nat)
    requires i <= |buf|
  {
    forall k :: 1 <= k <= i ==>
      (FieldOf(StateAt(start, buf, k)) == Some(f) <==> f in u.fields && u.At(f).off < k <= u.End(f))
  }

  predicate RunField(f: UrlField) { !f.UserinfoField? && !f.PortField? }

  predicate Runs(u: Url, start: UrlState, buf: string, i: nat)
    requires i <= |buf|
  {
    Bounded(u, i) && Ordered(u) && u.spans.Keys == u.fields &&
    (forall f :: f in u.fields ==> RunField(f)) &&
    (forall f :: RunField(f) ==> ExactRun(u, f, start, buf, i))
  }

  /** What the state says about the run being built. */
  predicate Current(u: Url, s: UrlState, i: nat) {
    match FieldOf(s)
    case Some(f) => f in u.fields && u.End(f) == i && forall g :: g in u.fields ==> Rank(g) <= Rank(f)
    case None => forall g :: g in u.fields ==> Rank(g) < Floor(s) || (Floor(s) == 0 && u.fields == {})
  }

  /** One byte of the first pass that belongs to a field. */
  function Extend(u: Url, last: Option<UrlField>, f: UrlField, i: nat): Url {
    if last == Some(f) then u.Put(f, Span(u.At(f).off, u.At(f).len + 1)) else u.Put(f, Span(i, 1))
  }

  predicate LastOf(u: Url, s: UrlState, last: Option<UrlField>) {
    (last.Some? ==> last.value in u.fields) && (FieldOf(s).Some? ==> last == FieldOf(s))
  }

  lemma ExtendShape(u: Url, v: Url, f: UrlField, i: nat)
    requires Bounded(u, i) && Ordered(u) && forall g :: g in u.fields ==> Rank(g) <= Rank(f)
    requires v.fields == u.fields + {f} && forall g :: g != f ==> v.At(g) == u.At(g)
    requires v.End(f) == i + 1 && v.At(f) == if f in u.fields then Span(u.At(f).off, u.At(f).len + 1) else Span(i, 1)
    ensures Bounded(v, i + 1) && Ordered(v)
  {
    hide Rank;
    forall g | g in v.fields
      ensures 1 <= v.At(g).len && v.End(g) <= i + 1
    {
      assert g != f ==> v.At(g) == u.At(g);
    }
    forall a, b | a in v.fields && b in v.fields && Rank(a) < Rank(b)
      ensures v.End(a) <= v.At(b).off
    {
      assert a != f && v.At(a) == u.At(a);
      assert b != f ==> v.At(b) == u.At(b);
    }
  }

  lemma ExtendExact(u: Url, v: Url, f: UrlField, g: UrlField, start: UrlState, buf: string, i: nat)
    requires i < |buf| && ExactRun(u, g, start, buf, i) && (g in u.fields ==> u.End(g) <= i)
    requires FieldOf(StateAt(start, buf, i + 1)) == Some(f)
    requires v.fields == u.fields + {f} && (g != f ==> v.At(g) == u.At(g))
    requires v.At(f) == if f in u.fields then Span(u.At(f).off, u.At(f).len + 1) else Span(i, 1)
    requires f in u.fields ==> u.End(f) == i
    ensures ExactRun(v, g, start, buf, i + 1)
  {
    hide StateAt;
  }

  lemma ExtendRuns(u: Url, last: Option<UrlField>, start: UrlState, buf: string, i: nat)
    requires i < |buf| && Runs(u, start, buf, i)
    requires Current(u, StateAt(start, buf, i), i) && LastOf(u, StateAt(start, buf, i), last)
    requires FieldOf(StateAt(start, buf, i + 1)).Some?
    ensures var t := StateAt(start, buf, i + 1);
            var v := Extend(u, last, FieldOf(t).value, i);
            Runs(v, start, buf, i + 1) && Current(v, t, i + 1)
  {
    hide ExactRun, Bounded, Ordered, ParseUrlChar;
    var s, t := StateAt(start, buf, i), StateAt(start, buf, i + 1);
    FloorRises(s, buf[i]);
    var f := FieldOf(t).value;
    var v := Extend(u, last, f, i);
    assert last == Some(f) <==> f in u.fields;
    assert v.fields == u.fields + {f};
    ExtendShape(u, v, f, i);
    forall g | RunField(g)
      ensures ExactRun(v, g, start, buf, i + 1)
    {
      BoundedAt(u, g, i);
      ExtendExact(u, v, f, g, start, buf, i);
    }
  }

  lemma BoundedAt(u: Url, g: UrlField, i: nat)
    requires Bounded(u, i)
    ensures g in u.fields ==> u.End(g) <= i
  {
  }

  lemma SkipRuns(u: Url, start: UrlState, buf: string, i: nat)
    requires i < |buf| && Runs(u, start, buf, i) && Current(u, StateAt(start, buf, i), i)
    requires var t := StateAt(start, buf, i + 1); !t.UrlDead? && FieldOf(t) == None
    ensures Runs(u, start, buf, i + 1) && Current(u, StateAt(start, buf, i + 1), i + 1)
  {
    FloorRises(StateAt(start, buf, i), buf[i]);
    forall g | RunField(g)
      ensures ExactRun(u, g, start, buf, i + 1)
    {
      assert ExactRun(u, g, start, buf, i);
    }
  }

  lemma NoRuns(start: UrlState, buf: string)
    requires start == ReqServerStart || start == ReqSpacesBeforeUrl
    ensures var u := Parts({}, map[], 0); Runs(u, start, buf, 0) && Current(u, start, 0)
  {
  }

  ghost predicate AtSeen(start: UrlState, buf: string, i: nat)
    requires i <= |buf|
  {
    exists k :: 1 <= k <= i && StateAt(start, buf, k).ReqServerWithAt?
  }

  /** The first loop of http_parser_parse_url. */
  method SplitRuns(buf: string, start: UrlState) returns (ok: bool, u: Url, foundAt: bool)
    requires start == ReqServerStart || start == ReqSpacesBeforeUrl
    ensures ok <==> !StateAt(start, buf, |buf|).UrlDead?
    ensures ok ==> Runs(u, start, buf, |buf|) && u.port == 0
    ensures ok ==> (foundAt <==> AtSeen(start, buf, |buf|))
  {
    hide Runs, Current, ParseUrlChar;
    u, foundAt := Parts({}, map[], 0), false;
    NoRuns(start, buf);
    var s, last := start, None;
    var i := 0;
    while i < |buf|
      invariant i <= |buf| && s == StateAt(start, buf, i) && !s.UrlDead?
      invariant Runs(u, start, buf, i) && Current(u, s, i) && LastOf(u, s, last) && u.port == 0
      invariant foundAt <==> AtSeen(start, buf, i)
    {
      s := ParseUrlChar(s, buf[i]);
      if s.UrlDead? {
        DeadForever(start, buf, i + 1, |buf|);
        return false, u, foundAt;
      }
      foundAt := foundAt || s.ReqServerWithAt?;
      if FieldOf(s).Some? {
        ExtendRuns(u, last, start, buf, i);
        u := Extend(u, last, FieldOf(s).value, i);
        last := FieldOf(s);
      } else {
        SkipRuns(u, start, buf, i);
      }
      i := i + 1;
    }
    ok := true;
  }

  // ---- Second pass: user information, host, port ----

  datatype HostState =
    | HDead | HUserinfoStart | HUserinfo | HHostStart | HV6Start | HHost | HV6 | HV6End | HPortStart | HPort

  /** http_parse_host_char. */
  function ParseHostChar(s: HostState, ch: char): HostState {
    match s
    case HUserinfo | HUserinfoStart =>
      if ch == '@' then HHostStart else if IsUserinfo(ch) then HUserinfo else HDead
    case HHostStart =>
      if ch == '[' then HV6Start else if IsHostChar(ch) then HHost else HDead
    case HHost => if IsHostChar(ch) then HHost else if ch == ':' then HPortStart else HDead
    case HV6End => if ch == ':' then HPortStart else HDead
    case HV6 => if ch == ']' then HV6End else if IsHex(ch) || ch == ':' || ch == '.' then HV6 else HDead
    case HV6Start => if IsHex(ch) || ch == ':' || ch == '.' then HV6 else HDead
    case HPort | HPortStart => if IsNum(ch) then HPort else HDead
    case HDead => HDead
  }

  function HostFieldOf(s: HostState): Option<UrlField> {
    match s
    case HHost | HV6 => Some(HostField)
    case HPort => Some(PortField)
    case HUserinfo => Some(UserinfoField)
    case _ => None
  }

  /** The state after the bytes from `from` up to i. */
  function HostStateAt(start: HostState, buf: string, from: nat, i: nat): HostState
    requires from <= i <= |buf|
    decreases i
  {
    if i == from then start else ParseHostChar(HostStateAt(start, buf, from, i - 1), buf[i - 1])
  }

  lemma {:induction false} HostDeadForever(start: HostState, buf: string, from: nat, i: nat, j: nat)
    requires from <= i <= j <= |buf| && HostStateAt(start, buf, from, i).HDead?
    ensures HostStateAt(start, buf, from, j).HDead?
    decreases j
  {
    if i < j {
      HostDeadForever(start, buf, from, i, j - 1);
    }
  }

  predicate HostAccepts(s: HostState) { s.HHost? || s.HV6End? || s.HPort? }

  /** The switch on the new state: a field is opened at i or grows by one byte. */
  function HostByte(u: Url, s: HostState, t: HostState, i: nat): Url {
    match HostFieldOf(t)
    case None => u
    case Some(f) =>
      var from := if s != t then Span(i, if f.HostField? then u.At(f).len else 0) else u.At(f);
      var v := u.(spans := u.spans[f := Span(from.off, from.len + 1)]);
      if f.HostField? then v else v.(fields := v.fields + {f})
  }

  predicate ExactHost(u: Url, f: UrlField, start: HostState, buf: string, from: nat, i: nat)
    requires from <= i <= |buf|
  {
    forall k :: from < k <= i ==>
      (HostFieldOf(HostStateAt(start, buf, from, k)) == Some(f) <==>
       (f.HostField? || f in u.fields) && u.At(f).off < k <= u.End(f))
  }

  /** What the second pass has established when it is in state s after byte i - 1. */
  predicate HostCurrent(u: Url, s: HostState, from: nat, i: nat) {
    var info, host, port := u.At(UserinfoField), u.At(HostField), u.At(PortField);
    var hasInfo, hasPort := UserinfoField in u.fields, PortField in u.fields;
    (hasInfo ==> from <= info.off && 1 <= info.len && u.End(UserinfoField) <= i) &&
    (hasPort <==> s.HPort?) &&
    match s
    case HUserinfoStart => !hasInfo && host.len == 0
    case HUserinfo => hasInfo && u.End(UserinfoField) == i && host.len == 0
    case HHostStart | HV6Start => host.len == 0
    case HHost | HV6 | HV6End | HPortStart | HPort =>
      1 <= host.len && from <= host.off && u.End(HostField) <= i &&
      (hasInfo ==> u.End(UserinfoField) <= host.off) &&
      (s.HHost? || s.HV6? ==> u.End(HostField) == i) &&
      (s.HPort? ==> 1 <= port.len && u.End(PortField) == i && u.End(HostField) <= port.off)
    case HDead => false
  }

  lemma HostStep(u: Url, s: HostState, ch: char, from: nat, i: nat)
    requires from <= i && HostCurrent(u, s, from, i)
    requires !ParseHostChar(s, ch).HDead?
    ensures var t := ParseHostChar(s, ch); HostCurrent(HostByte(u, s, t, i), t, from, i + 1)
  {
    hide IsUserinfo, IsHostChar, IsHex, IsNum;
  }

  /** The span of f does, or does not, grow with byte i. */
  lemma HostExactStep(u: Url, v: Url, f: UrlField, start: HostState, buf: string, from: nat, i: nat)
    requires from <= i < |buf| && ExactHost(u, f, start, buf, from, i)
    requires var has := f.HostField? || f in u.fields;
             has && 0 < u.At(f).len ==> u.End(f) <= i
    requires HostFieldOf(HostStateAt(start, buf, from, i + 1)) != Some(f) ==>
               v.At(f) == u.At(f) && (f in v.fields <==> f in u.fields)
    requires HostFieldOf(HostStateAt(start, buf, from, i + 1)) == Some(f) ==>
               (f.HostField? || f in v.fields) &&
               if (f.HostField? || f in u.fields) && 0 < u.At(f).len
               then u.End(f) == i && v.At(f) == Span(u.At(f).off, u.At(f).len + 1)
               else v.At(f) == Span(i, 1)
    ensures ExactHost(v, f, start, buf, from, i + 1)
  {
    hide HostStateAt;
  }

  lemma HostExact(u: Url, f: UrlField, start: HostState, buf: string, from: nat, i: nat)
    requires from <= i < |buf| && ExactHost(u, f, start, buf, from, i)
    requires f.HostField? || f.UserinfoField? || f.PortField?
    requires HostCurrent(u, HostStateAt(start, buf, from, i), from, i)
    requires !HostStateAt(start, buf, from, i + 1).HDead?
    ensures var s, t := HostStateAt(start, buf, from, i), HostStateAt(start, buf, from, i + 1);
            ExactHost(HostByte(u, s, t, i), f, start, buf, from, i + 1)
  {
    hide ExactHost, IsUserinfo, IsHostChar, IsHex, IsNum;
    var s, t := HostStateAt(start, buf, from, i), HostStateAt(start, buf, from, i + 1);
    HostExactStep(u, HostByte(u, s, t, i), f, start, buf, from, i);
  }

  predicate HostPart(f: UrlField) { f.UserinfoField? || f.HostField? || f.PortField? }

  /** The user information, host and port cut out of a run are exact and in order. */
  predicate HostSplit(v: Url, start: HostState, buf: string, run: Span)
    requires run.off + run.len <= |buf|
  {
    var to := run.off + run.len;
    var s := HostStateAt(start, buf, run.off, to);
    HostAccepts(s) && HostCurrent(v, s, run.off, to) &&
    forall f :: HostPart(f) ==> ExactHost(v, f, start, buf, run.off, to)
  }

  /** http_parse_host: the host run of u is replaced by its parts. */
  method ParseHost(buf: string, u: Url, foundAt: bool) returns (ok: bool, v: Url)
    requires u.End(HostField) <= |buf| && UserinfoField !in u.fields && PortField !in u.fields
    ensures var start := if foundAt then HUserinfoStart else HHostStart;
            var run := u.At(HostField);
            (ok <==> HostAccepts(HostStateAt(start, buf, run.off, u.End(HostField)))) &&
            (ok ==> HostSplit(v, start, buf, run))
    ensures u.fields <= v.fields <= u.fields + {UserinfoField, PortField} && v.port == u.port
    ensures forall f :: !HostPart(f) ==> v.At(f) == u.At(f)
  {
    hide ParseHostChar, HostCurrent, ExactHost;
    var run := u.At(HostField);
    var to := u.End(HostField);
    v := u.(spans := u.spans[HostField := Span(run.off, 0)]);
    var start := if foundAt then HUserinfoStart else HHostStart;
    var s := start;
    var i := run.off;
    HostBegins(v, start, buf, run.off);
    while i < to
      invariant run.off <= i <= to && s == HostStateAt(start, buf, run.off, i) && !s.HDead?
      invariant HostCurrent(v, s, run.off, i)
      invariant forall f :: HostPart(f) ==> ExactHost(v, f, start, buf, run.off, i)
      invariant u.fields <= v.fields <= u.fields + {UserinfoField, PortField} && v.port == u.port
      invariant forall f :: !HostPart(f) ==> v.At(f) == u.At(f)
    {
      var t := ParseHostChar(s, buf[i]);
      if t.HDead? {
        HostDeadForever(start, buf, run.off, i + 1, to);
        return false, v;
      }
      HostStep(v, s, buf[i], run.off, i);
      forall f | HostPart(f)
        ensures ExactHost(HostByte(v, s, t, i), f, start, buf, run.off, i + 1)
      {
        HostExact(v, f, start, buf, run.off, i);
      }
      v := HostByte(v, s, t, i);
      s := t;
      i := i + 1;
    }
    ok := HostAccepts(s);
  }

  lemma HostBegins(v: Url, start: HostState, buf: string, from: nat)
    requires from <= |buf| && UserinfoField !in v.fields && PortField !in v.fields && v.At(HostField).len == 0
    requires start == HUserinfoStart || start == HHostStart
    ensures HostCurrent(v, start, from, from)
    ensures forall f :: HostPart(f) ==> ExactHost(v, f, start, buf, from, from)
  {
  }

  // ---- The whole function ----

  /** The end of the digits that strtoul reads; the buffer is followed by a NUL. */
  function DigitsEnd(buf: string, i: nat): (e: nat)
    requires i <= |buf|
    ensures i <= e <= |buf| && Digits(10, buf[i..e])
    decreases |buf| - i
  {
    if i < |buf| && IsNum(buf[i]) then
      var e := DigitsEnd(buf, i + 1);
      assert buf[i..e] == [buf[i]] + buf[i + 1..e];
      e
    else i
  }

  /** strtoul, which saturates at 2^64 - 1. */
  function StrToUl(buf: string, i: nat): nat
    requires i <= |buf|
  {
    var v := Number(10, buf[i..DigitsEnd(buf, i)]);
    if v > MAX64 then MAX64 else v
  }

  lemma {:induction false} DigitsEndAt(buf: string, i: nat, e: nat)
    requires i <= e <= |buf| && (forall k :: i <= k < e ==> IsNum(buf[k])) && (e < |buf| ==> !IsNum(buf[e]))
    ensures DigitsEnd(buf, i) == e
    decreases e - i
  {
    if i < e {
      DigitsEndAt(buf, i + 1, e);
    }
  }

  /** The port field is a maximal run of digits. */
  lemma PortDigits(v: Url, start: HostState, buf: string, run: Span)
    requires run.off + run.len <= |buf| && HostSplit(v, start, buf, run) && PortField in v.fields
    ensures v.End(PortField) == run.off + run.len
    ensures forall k :: v.At(PortField).off <= k < v.End(PortField) ==> IsNum(buf[k])
  {
    var port := v.At(PortField);
    var to := run.off + run.len;
    assert ExactHost(v, PortField, start, buf, run.off, to);
    forall k | port.off <= k < v.End(PortField)
      ensures IsNum(buf[k])
    {
      assert HostFieldOf(HostStateAt(start, buf, run.off, k + 1)) == Some(PortField);
    }
  }

  /** The byte after the host run, if any, is a delimiter and not a digit. */
  lemma AfterHost(u: Url, start: UrlState, buf: string)
    requires Runs(u, start, buf, |buf|) && HostField in u.fields && u.End(HostField) < |buf|
    requires !StateAt(start, buf, |buf|).UrlDead?
    ensures !IsNum(buf[u.End(HostField)])
  {
    hide ParseUrlChar, Bounded, Ordered;
    BoundedHost(u, start, buf);
    var e := u.End(HostField);
    assert ExactRun(u, HostField, start, buf, |buf|);
    assert FieldOf(StateAt(start, buf, e)) == Some(HostField);
    assert FieldOf(StateAt(start, buf, e + 1)) != Some(HostField);
    if StateAt(start, buf, e + 1).UrlDead? {
      DeadForever(start, buf, e + 1, |buf|);
    }
    HostLeft(StateAt(start, buf, e), buf[e]);
  }

  lemma BoundedHost(u: Url, start: UrlState, buf: string)
    requires Runs(u, start, buf, |buf|) && HostField in u.fields
    ensures 1 <= u.At(HostField).len
  {
  }

  lemma HostLeft(s: UrlState, ch: char)
    requires FieldOf(s) == Some(HostField) && FieldOf(ParseUrlChar(s, ch)) != Some(HostField)
    ensures !ParseUrlChar(s, ch).UrlDead? ==> !IsNum(ch)
  {
  }

  /** The parts of an accepted host are nonempty, inside its run and in order. */
  lemma PartsOrdered(v: Url, s: HostState, from: nat, to: nat)
    requires HostAccepts(s) && HostCurrent(v, s, from, to)
    ensures forall f :: HostPart(f) && (f in v.fields || f.HostField?) ==>
              from <= v.At(f).off && 1 <= v.At(f).len && v.End(f) <= to
    ensures forall f, g ::
              (HostPart(f) && HostPart(g) && (f in v.fields || f.HostField?) && (g in v.fields || g.HostField?) &&
               Rank(f) < Rank(g)) ==> v.End(f) <= v.At(g).off
  {
  }

  lemma SplitOrdered(u: Url, v: Url, start: HostState, buf: string)
    requires u.End(HostField) <= |buf| && HostSplit(v, start, buf, u.At(HostField))
    requires Bounded(u, |buf|) && Ordered(u) && HostField in u.fields
    requires u.fields <= v.fields <= u.fields + {UserinfoField, PortField}
    requires UserinfoField !in u.fields && PortField !in u.fields
    requires forall f :: !HostPart(f) ==> v.At(f) == u.At(f)
    ensures Bounded(v, |buf|) && Ordered(v)
  {
    hide ExactHost, HostStateAt, HostCurrent, HostAccepts;
    var run := u.At(HostField);
    var to := u.End(HostField);
    PartsOrdered(v, HostStateAt(start, buf, run.off, to), run.off, to);
    forall f | f in v.fields
      ensures 1 <= v.At(f).len && v.End(f) <= |buf|
    {
      assert HostPart(f) || f in u.fields;
    }
    forall f, g | f in v.fields && g in v.fields && Rank(f) < Rank(g)
      ensures v.End(f) <= v.At(g).off
    {
      var f', g' := if HostPart(f) then HostField else f, if HostPart(g) then HostField else g;
      assert f' in u.fields && g' in u.fields;
      assert HostPart(f) ==> run.off <= v.At(f).off && v.End(f) <= to;
      assert HostPart(g) ==> run.off <= v.At(g).off && v.End(g) <= to;
      if !(HostPart(f) && HostPart(g)) {
        assert Rank(f') < Rank(g');
      }
    }
  }

  lemma RunsFacts(u: Url, start: UrlState, buf: string)
    requires Runs(u, start, buf, |buf|)
    ensures Bounded(u, |buf|) && Ordered(u) && u.spans.Keys == u.fields && u.End(HostField) <= |buf|
    ensures UserinfoField !in u.fields && PortField !in u.fields
    ensures forall f :: RunField(f) ==> ExactRun(u, f, start, buf, |buf|)
  {
    hide ExactRun;
  }

  lemma HostNotEmpty(start: HostState, buf: string, run: Span)
    requires run.off + run.len <= |buf| && (start.HUserinfoStart? || start.HHostStart?)
    requires HostAccepts(HostStateAt(start, buf, run.off, run.off + run.len))
    ensures 0 < run.len
  {
  }

  lemma SplitKeepsRuns(u: Url, v: Url, start: UrlState, buf: string)
    requires forall f :: RunField(f) ==> ExactRun(u, f, start, buf, |buf|)
    requires u.fields <= v.fields <= u.fields + {UserinfoField, PortField}
    requires forall f :: !HostPart(f) ==> v.At(f) == u.At(f)
    ensures forall f :: RunField(f) && !f.HostField? ==> ExactRun(v, f, start, buf, |buf|)
  {
    hide StateAt;
    forall f | RunField(f) && !f.HostField?
      ensures ExactRun(v, f, start, buf, |buf|)
    {
      assert ExactRun(u, f, start, buf, |buf|);
      assert f in v.fields <==> f in u.fields;
    }
  }

  function StartOf(isConnect: bool): UrlState { if isConnect then ReqServerStart else ReqSpacesBeforeUrl }

  /** The value of the port field as written. */
  function PortText(u: Url, buf: string): string {
    if u.End(PortField) <= |buf| then buf[u.At(PortField).off..u.End(PortField)] else []
  }

  /** A span holds exactly the bytes that the first pass gives to the host. */
  predicate HostRun(run: Span, start: UrlState, buf: string) {
    run.off + run.len <= |buf| &&
    forall k :: 1 <= k <= |buf| ==>
      (FieldOf(StateAt(start, buf, k)) == Some(HostField) <==> run.off < k <= run.off + run.len)
  }

  /** The first pass gives some byte to a field. */
  ghost predicate Occurs(f: UrlField, start: UrlState, buf: string) {
    exists k :: 1 <= k <= |buf| && FieldOf(StateAt(start, buf, k)) == Some(f)
  }

  /** Where the second pass starts: user information is possible only if an '@' was seen. */
  ghost function HostStart(start: UrlState, buf: string): HostState {
    if AtSeen(start, buf, |buf|) then HUserinfoStart else HHostStart
  }

  /** Both passes accept: the URL, and the host run of any URL that has a schema or a host. */
  ghost predicate Splits(start: UrlState, buf: string, run: Span)
    requires run.off + run.len <= |buf|
  {
    !StateAt(start, buf, |buf|).UrlDead? &&
    (Occurs(SchemaField, start, buf) || Occurs(HostField, start, buf) ==>
       HostAccepts(HostStateAt(HostStart(start, buf), buf, run.off, run.off + run.len)))
  }

  /** What holds of the fields once both passes have accepted. */
  ghost predicate Cut(u: Url, start: UrlState, buf: string, run: Span)
    requires run.off + run.len <= |buf|
  {
    Bounded(u, |buf|) && Ordered(u) &&
    (forall f :: RunField(f) && !f.HostField? ==> ExactRun(u, f, start, buf, |buf|)) &&
    (HostField in u.fields <==> Occurs(HostField, start, buf)) &&
    (HostField in u.fields ==> HostSplit(u, HostStart(start, buf), buf, run)) &&
    (SchemaField in u.fields || UserinfoField in u.fields || PortField in u.fields ==> HostField in u.fields) &&
    (PortField in u.fields ==> Digits(10, PortText(u, buf)))
  }

  lemma HostRunIs(u: Url, start: UrlState, buf: string)
    requires Runs(u, start, buf, |buf|)
    ensures HostRun(u.At(HostField), start, buf)
    ensures HostField in u.fields <==> Occurs(HostField, start, buf)
  {
    hide StateAt, Ordered;
    OccursIs(u, HostField, start, buf);
    assert ExactRun(u, HostField, start, buf, |buf|);
    assert HostField !in u.fields ==> u.At(HostField) == Span(0, 0);
  }

  lemma OccursIs(u: Url, f: UrlField, start: UrlState, buf: string)
    requires Runs(u, start, buf, |buf|) && RunField(f)
    ensures f in u.fields <==> Occurs(f, start, buf)
  {
    hide StateAt, Ordered;
    assert ExactRun(u, f, start, buf, |buf|);
    if f in u.fields {
      assert FieldOf(StateAt(start, buf, u.End(f))) == Some(f);
    }
  }

  /** The digits of the port are what strtoul reads. */
  lemma PortRead(first: Url, u: Url, start: UrlState, hostStart: HostState, buf: string)
    requires Runs(first, start, buf, |buf|) && HostField in first.fields && !StateAt(start, buf, |buf|).UrlDead?
    requires first.End(HostField) <= |buf| && HostSplit(u, hostStart, buf, first.At(HostField)) && PortField in u.fields
    requires Bounded(u, |buf|)
    ensures Digits(10, PortText(u, buf)) && u.At(PortField).off <= |buf|
    ensures var v := Number(10, PortText(u, buf)); StrToUl(buf, u.At(PortField).off) == if v > MAX64 then MAX64 else v
  {
    hide Runs, HostSplit, StateAt, Bounded, Ordered, HostStateAt;
    var run := first.At(HostField);
    PortDigits(u, hostStart, buf, run);
    if run.off + run.len < |buf| {
      AfterHost(first, start, buf);
    }
    BoundedAt(u, PortField, |buf|);
    DigitsEndAt(buf, u.At(PortField).off, u.End(PortField));
  }

  /** The two passes. */
  method SplitUrl(buf: string, start: UrlState) returns (ok: bool, first: Url, u: Url, ghost run: Span)
    requires start == ReqServerStart || start == ReqSpacesBeforeUrl
    ensures !StateAt(start, buf, |buf|).UrlDead? ==> HostRun(run, start, buf)
    ensures run.off + run.len <= |buf| && (ok <==> Splits(start, buf, run))
    ensures ok ==> Cut(u, start, buf, run) && u.port == 0 && Runs(first, start, buf, |buf|) && run == first.At(HostField)
    ensures ok && PortField in u.fields ==> HostField in first.fields
  {
    hide Runs, HostSplit, Bounded, Ordered, ExactRun, StateAt, HostStateAt, HostRun, Occurs, AtSeen, Digits;
    run := Span(0, 0);
    var foundAt;
    ok, first, foundAt := SplitRuns(buf, start);
    u := first;
    if !ok {
      return;
    }
    RunsFacts(first, start, buf);
    HostRunIs(first, start, buf);
    OccursIs(first, SchemaField, start, buf);
    run := first.At(HostField);
    if SchemaField in u.fields || HostField in u.fields {
      ok, u := ParseHost(buf, u, foundAt);
      if !ok {
        return;
      }
      HostNotEmpty(HostStart(start, buf), buf, run);
      SplitOrdered(first, u, HostStart(start, buf), buf);
      SplitKeepsRuns(first, u, start, buf);
      if PortField in u.fields {
        PortRead(first, u, start, HostStart(start, buf), buf);
      }
    }
  }

  lemma SplitsAlive(start: UrlState, buf: string, run: Span)
    requires run.off + run.len <= |buf| && Splits(start, buf, run)
    ensures !StateAt(start, buf, |buf|).UrlDead?
  {
  }
}
