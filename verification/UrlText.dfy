/** http_parser_parse_url from the text of a URL to its fields (base/http_parser.cpp:2053-2174): the URL is built as
    `[schema "://" authority] path ["?" query] ["#" fragment]`, its authority as `[userinfo "@"] host [":" port]`. */
module UrlText {
  import opened Wrappers
  import opened HttpTypes
  import opened HttpSwitch
  import opened HttpLength
  import opened HttpUrl
  import opened UrlGrammar
  import HostGrammar

  /** A text is a URL with these parts; if it has an authority, that is a host with those parts. */
  ghost predicate IsUrl(t: Raw, h: HostGrammar.Host, isConnect: bool, buf: string) {
    Legal(t, isConnect) && Text(t) == buf && (t.auth.Some? ==> HostGrammar.IsHost(h, t.auth.value))
  }

  /** Where each field stands in the text. */
  function SpanOf(t: Raw, h: HostGrammar.Host, f: UrlField): Span {
    if !HostPart(f) then PartOf(t, f)
    else if t.auth.None? then Span(0, 0)
    else
      var s := HostGrammar.HostPartOf(h, f);
      Span(|SchemaText(t)| + s.off, s.len)
  }

  function PortOf(t: Raw, h: HostGrammar.Host): nat {
    if t.auth.Some? && h.port.Some? && Digits(10, h.port.value) then Number(10, h.port.value) else 0
  }

  /** The fields are the nonempty parts, where they stand in the text. */
  ghost predicate Cuts(u: Url, t: Raw, h: HostGrammar.Host) {
    forall f :: (f in u.fields <==> SpanOf(t, h, f).len > 0) && (f in u.fields ==> u.At(f) == SpanOf(t, h, f))
  }

  /** A CONNECT target names host and port. Empty user information, an empty query and marks are passed over. */
  predicate HostAndPort(t: Raw, h: HostGrammar.Host) {
    t.path == [] && (t.query == None || t.query == Some([])) && t.fragment == [] && h.port.Some? &&
    (h.info == None || h.info == Some([]))
  }

  predicate Accepted(t: Raw, h: HostGrammar.Host, isConnect: bool) {
    (isConnect ==> HostAndPort(t, h)) && PortOf(t, h) <= 65535
  }

  // ---- The host run ----

  /** The field f occurs exactly if its part is not empty. */
  lemma OccursIn(t: Raw, isConnect: bool, f: UrlField)
    requires Legal(t, isConnect)
    ensures PartOf(t, f).off + PartOf(t, f).len <= |Text(t)|
    ensures Occurs(f, StartOf(isConnect), Text(t)) <==> PartOf(t, f).len > 0
  {
    hide StateAt, Legal;
    PartInside(t, f);
    ToldAll(t, isConnect);
    if PartOf(t, f).len > 0 {
      var k := PartOf(t, f).off + 1;
      assert In(t, f, k) && FieldOf(StateAt(StartOf(isConnect), Text(t), k)) == Some(f);
    }
  }

  lemma PartInside(t: Raw, f: UrlField)
    ensures PartOf(t, f).off + PartOf(t, f).len <= |Text(t)|
  {
  }

  lemma AuthInside(t: Raw)
    ensures |SchemaText(t)| + |AuthText(t)| <= |Text(t)|
    ensures Text(t)[|SchemaText(t)|..|SchemaText(t)| + |AuthText(t)|] == AuthText(t)
  {
    var rest := t.path + QueryText(t) + FragmentText(t);
    assert Text(t) == SchemaText(t) + AuthText(t) + rest;
  }

  lemma HostRunText(t: Raw, isConnect: bool, run: Span)
    requires Legal(t, isConnect) && HostRun(run, StartOf(isConnect), Text(t))
    ensures run.len == |AuthText(t)| && (run.len > 0 ==> run.off == |SchemaText(t)|)
  {
    hide StateAt, Legal;
    var start, buf := StartOf(isConnect), Text(t);
    ToldAll(t, isConnect);
    AuthInside(t);
    var part := PartOf(t, HostField);
    if part.len > 0 {
      assert In(t, HostField, part.off + 1) && In(t, HostField, part.off + part.len);
      assert FieldOf(StateAt(start, buf, part.off + 1)) == Some(HostField);
      assert FieldOf(StateAt(start, buf, part.off + part.len)) == Some(HostField);
    }
    if run.len > 0 {
      assert FieldOf(StateAt(start, buf, run.off + 1)) == Some(HostField);
      assert FieldOf(StateAt(start, buf, run.off + run.len)) == Some(HostField);
      assert In(t, HostField, run.off + 1) && In(t, HostField, run.off + run.len);
    }
  }

  // ---- Where an '@' was seen ----

  lemma AuthAt(t: Raw, isConnect: bool, j: nat)
    requires Legal(t, isConnect) && t.auth.Some? && j <= |AuthText(t)|
    ensures |SchemaText(t)| + j <= |Text(t)|
    ensures StateAt(StartOf(isConnect), Text(t), |SchemaText(t)| + j) == AuthState(AuthText(t)[..j])
  {
    hide StateAt, ParseUrlChar;
    var start, a := StartOf(isConnect), AuthText(t);
    var rest := t.path + QueryText(t) + FragmentText(t);
    assert Text(t) == SchemaText(t) + a + rest;
    UrlGrammar.WalkPrefix(start, SchemaText(t) + a, rest, |SchemaText(t)| + j);
    UrlGrammar.WalkConcat(start, SchemaText(t), a, j);
    if t.schema.Some? {
      ToldSchema(t, isConnect);
    } else {
      WalkNone(start, []);
    }
    AuthWalk(a, j);
  }

  lemma AtSeenText(t: Raw, isConnect: bool)
    requires Legal(t, isConnect)
    ensures AtSeen(StartOf(isConnect), Text(t), |Text(t)|) <==> '@' in AuthText(t)
  {
    hide StateAt, Legal, Text;
    var start, buf, a := StartOf(isConnect), Text(t), AuthText(t);
    if AtSeen(start, buf, |buf|) {
      var k :| 1 <= k <= |buf| && StateAt(start, buf, k).ReqServerWithAt?;
      ToldAll(t, isConnect);
      assert In(t, HostField, k);
      var j := k - |SchemaText(t)|;
      AuthAt(t, isConnect, j);
      assert a[..j][j - 1] == a[j - 1];
    }
    if '@' in a {
      var j :| 0 <= j < |a| && a[j] == '@';
      AuthAt(t, isConnect, j + 1);
      assert a[..j + 1][j] == '@';
      assert StateAt(start, buf, |SchemaText(t)| + j + 1).ReqServerWithAt?;
    }
  }

  // ---- Acceptance ----

  /** The second pass over the authority of a URL. */
  lemma HostOver(t: Raw, isConnect: bool, j: nat)
    requires Legal(t, isConnect) && j <= |AuthText(t)|
    ensures |SchemaText(t)| + j <= |Text(t)|
    ensures HostStateAt(HostStart(StartOf(isConnect), Text(t)), Text(t), |SchemaText(t)|, |SchemaText(t)| + j) ==
            HostGrammar.Walk(HostGrammar.Begin('@' in AuthText(t)), AuthText(t), j)
  {
    hide Legal, Text, StateAt, HostStateAt;
    AtSeenText(t, isConnect);
    AuthInside(t);
    HostGrammar.WalkShift(HostGrammar.Begin('@' in AuthText(t)), Text(t), |SchemaText(t)|, |AuthText(t)|, j);
  }

  lemma FormSplits(t: Raw, h: HostGrammar.Host, isConnect: bool, run: Span)
    requires IsUrl(t, h, isConnect, Text(t)) && HostRun(run, StartOf(isConnect), Text(t))
    ensures Splits(StartOf(isConnect), Text(t), run)
  {
    hide Legal, Text, StateAt, HostStateAt, HostRun, HostGrammar.Walk, HostGrammar.LegalHost, HostGrammar.HostText;
    ToldAll(t, isConnect);
    HostRunText(t, isConnect, run);
    OccursIn(t, isConnect, SchemaField);
    OccursIn(t, isConnect, HostField);
    SchemaAuth(t, isConnect);
    if t.auth.Some? {
      var a := t.auth.value;
      HostNonempty(h, a);
      HostOver(t, isConnect, |a|);
      HostGrammar.HostAccepted(a);
    }
  }

  lemma SchemaAuth(t: Raw, isConnect: bool)
    requires Legal(t, isConnect)
    ensures t.schema.Some? ==> t.auth.Some? && t.schema.value != []
    ensures t.auth.None? ==> PartOf(t, HostField).len == 0 && PartOf(t, SchemaField).len == 0
    ensures !EndState(t).UrlDead?
  {
  }

  lemma HostNonempty(h: HostGrammar.Host, a: string)
    requires HostGrammar.IsHost(h, a)
    ensures a != []
  {
  }

  /** A beginning that does not reach the authority has a schema and no host. */
  lemma NoHostYet(s: string, buf: string)
    requires s != [] && Alphas(s) && s <= buf <= s + "://"
    ensures Occurs(SchemaField, StartOf(false), buf) && !Occurs(HostField, StartOf(false), buf)
  {
    hide StateAt;
    var t := Raw(Some(s), Some([]), [], None, 0, []);
    EmptyAuth(s, false);
    ToldAll(t, false);
    var rest := Text(t)[|buf|..];
    assert Text(t) == buf + rest;
    forall k | 1 <= k <= |buf|
      ensures StateAt(StartOf(false), buf, k) == StateAt(StartOf(false), Text(t), k)
    {
      UrlGrammar.WalkPrefix(StartOf(false), buf, rest, k);
    }
    assert In(t, SchemaField, 1) && FieldOf(StateAt(StartOf(false), buf, 1)) == Some(SchemaField);
    forall k | 1 <= k <= |buf|
      ensures FieldOf(StateAt(StartOf(false), buf, k)) != Some(HostField)
    {
      assert !In(t, HostField, k);
    }
  }

  /** Whatever both passes accept is a URL. */
  lemma SplitForm(buf: string, isConnect: bool, run: Span)
    requires run.off + run.len <= |buf| && Splits(StartOf(isConnect), buf, run) && HostRun(run, StartOf(isConnect), buf)
    requires if isConnect then Occurs(HostField, StartOf(isConnect), buf) else buf != []
    ensures exists t, h :: IsUrl(t, h, isConnect, buf)
  {
    hide Legal, Text, StateAt, HostStateAt;
    var start := StartOf(isConnect);
    HasForm(isConnect, buf);
    var p := FormOf(isConnect, buf);
    if p.Whole? {
      WholeForm(p.t, isConnect, run);
    } else {
      NothingForm(isConnect, buf, run);
    }
  }

  lemma RunOccurs(start: UrlState, buf: string, run: Span)
    requires HostRun(run, start, buf)
    ensures run.len > 0 ==> Occurs(HostField, start, buf)
  {
    hide StateAt, FieldOf;
    if run.len > 0 {
      assert FieldOf(StateAt(start, buf, run.off + 1)) == Some(HostField);
    }
  }

  lemma NothingForm(isConnect: bool, buf: string, run: Span)
    requires run.off + run.len <= |buf| && Splits(StartOf(isConnect), buf, run) && HostRun(run, StartOf(isConnect), buf)
    requires buf != [] && PartialText(FormOf(isConnect, buf)) == buf && LegalPartial(FormOf(isConnect, buf), isConnect)
    ensures FormOf(isConnect, buf).Whole?
  {
    hide Legal, Text, StateAt, HostStateAt, FormOf;
    var start, p := StartOf(isConnect), FormOf(isConnect, buf);
    if p.SchemaOnly? || p.Slashes? {
      NoHostYet(p.s, buf);
      RunOccurs(start, buf, run);
      HostNotEmpty(HostStart(start, buf), buf, run);
    }
  }

  lemma WholeForm(t: Raw, isConnect: bool, run: Span)
    requires Legal(t, isConnect) && run.off + run.len <= |Text(t)|
    requires Splits(StartOf(isConnect), Text(t), run) && HostRun(run, StartOf(isConnect), Text(t))
    requires isConnect ==> Occurs(HostField, StartOf(isConnect), Text(t))
    ensures exists h :: IsUrl(t, h, isConnect, Text(t))
  {
    hide Text, StateAt, HostStateAt, HostRun, HostGrammar.Walk, AtSeen;
    HostRunText(t, isConnect, run);
    OccursIn(t, isConnect, SchemaField);
    OccursIn(t, isConnect, HostField);
    if t.auth.Some? {
      var a := t.auth.value;
      if a == [] {
        HostNotEmpty(HostStart(StartOf(isConnect), Text(t)), Text(t), run);
        assert false;
      }
      HostOver(t, isConnect, |a|);
      HostGrammar.HostAccepted(a);
      var h :| HostGrammar.IsHost(h, a);
      assert IsUrl(t, h, isConnect, Text(t));
    } else {
      var h := HostGrammar.FormOf(false, []);
      assert IsUrl(t, h, isConnect, Text(t));
    }
  }

  // ---- Fields ----

  /** A part of the host whose bytes are exactly those of a stretch of text is that stretch. */
  lemma HostIs(u: Url, f: UrlField, start: HostState, buf: string, from: nat, to: nat, off: nat, len: nat)
    requires from <= to <= |buf| && ExactHost(u, f, start, buf, from, to)
    requires f.HostField? || f in u.fields ==> from <= u.At(f).off && 1 <= u.At(f).len && u.End(f) <= to
    requires len > 0 ==> from <= off && off + len <= to
    requires forall k: nat :: from < k <= to ==>
               (HostFieldOf(HostStateAt(start, buf, from, k)) == Some(f) <==> off < k <= off + len)
    ensures f.HostField? || f in u.fields <==> len > 0
    ensures len > 0 ==> u.At(f) == Span(off, len)
  {
    hide HostStateAt, HostFieldOf;
    if f.HostField? || f in u.fields {
      assert HostFieldOf(HostStateAt(start, buf, from, u.At(f).off + 1)) == Some(f);
      assert HostFieldOf(HostStateAt(start, buf, from, u.End(f))) == Some(f);
    }
    if len > 0 {
      assert HostFieldOf(HostStateAt(start, buf, from, off + 1)) == Some(f);
      assert HostFieldOf(HostStateAt(start, buf, from, off + len)) == Some(f);
    }
  }

  lemma FieldTold(t: Raw, isConnect: bool, u: Url, f: UrlField)
    requires Legal(t, isConnect) && !HostPart(f)
    requires ExactRun(u, f, StartOf(isConnect), Text(t), |Text(t)|) && Bounded(u, |Text(t)|)
    ensures f in u.fields <==> PartOf(t, f).len > 0
    ensures PartOf(t, f).len > 0 ==> u.At(f) == PartOf(t, f)
  {
    hide Legal, Text, StateAt, ExactRun;
    ToldAll(t, isConnect);
    PartInside(t, f);
    RunIs(u, f, StartOf(isConnect), Text(t), PartOf(t, f).off, PartOf(t, f).len);
  }

  lemma HostFieldTold(t: Raw, h: HostGrammar.Host, isConnect: bool, u: Url, f: UrlField, run: Span)
    requires IsUrl(t, h, isConnect, Text(t)) && t.auth.Some? && HostPart(f)
    requires run == Span(|SchemaText(t)|, |AuthText(t)|) && run.off + run.len <= |Text(t)|
    requires HostSplit(u, HostStart(StartOf(isConnect), Text(t)), Text(t), run) && HostField in u.fields
    ensures f in u.fields <==> SpanOf(t, h, f).len > 0
    ensures SpanOf(t, h, f).len > 0 ==> u.At(f) == SpanOf(t, h, f)
  {
    hide Legal, Text, StateAt, HostStateAt, HostGrammar.Walk, HostGrammar.LegalHost, HostGrammar.HostText, ExactHost,
         HostCurrent, HostGrammar.InHost, AtSeen;
    var start, buf, a := HostStart(StartOf(isConnect), Text(t)), Text(t), t.auth.value;
    HostGrammar.AtInHost(h);
    HostGrammar.ToldAll(h);
    PartsOrdered(u, HostStateAt(start, buf, run.off, run.off + run.len), run.off, run.off + run.len);
    var s := SpanOf(t, h, f);
    HostPartInside(h, f);
    forall k: nat | run.off < k <= run.off + run.len
      ensures HostFieldOf(HostStateAt(start, buf, run.off, k)) == Some(f) <==> s.off < k <= s.off + s.len
    {
      HostOver(t, isConnect, k - run.off);
      ShiftedIn(h, f, k - run.off);
    }
    HostIs(u, f, start, buf, run.off, run.off + run.len, s.off, s.len);
  }

  lemma ShiftedIn(h: HostGrammar.Host, f: UrlField, j: nat)
    ensures var s := HostGrammar.HostPartOf(h, f); HostGrammar.InHost(h, f, j) <==> s.off < j <= s.off + s.len
  {
  }

  lemma HostPartInside(h: HostGrammar.Host, f: UrlField)
    ensures var s := HostGrammar.HostPartOf(h, f); s.len > 0 ==> s.off + s.len <= |HostGrammar.HostText(h)|
  {
  }

  lemma AllTold(t: Raw, h: HostGrammar.Host, isConnect: bool, u: Url, run: Span)
    requires IsUrl(t, h, isConnect, Text(t)) && HostRun(run, StartOf(isConnect), Text(t))
    requires Cut(u, StartOf(isConnect), Text(t), run)
    ensures Cuts(u, t, h)
  {
    hide Legal, Text, StateAt, HostStateAt, HostRun, Bounded, Ordered, HostSplit, HostGrammar.LegalHost,
         HostGrammar.HostText, SpanOf, ExactRun, Occurs;
    HostRunText(t, isConnect, run);
    OccursIn(t, isConnect, HostField);
    SchemaAuth(t, isConnect);
    if t.auth.Some? {
      HostNonempty(h, t.auth.value);
    }
    forall f
      ensures (f in u.fields <==> SpanOf(t, h, f).len > 0) && (f in u.fields ==> u.At(f) == SpanOf(t, h, f))
    {
      SpanKinds(t, h, f);
      if !HostPart(f) {
        assert RunField(f) && !f.HostField?;
        FieldTold(t, isConnect, u, f);
      } else if t.auth.Some? {
        HostFieldTold(t, h, isConnect, u, f, run);
      }
    }
  }

  lemma SpanKinds(t: Raw, h: HostGrammar.Host, f: UrlField)
    ensures !HostPart(f) ==> SpanOf(t, h, f) == PartOf(t, f)
    ensures HostPart(f) && t.auth.None? ==> SpanOf(t, h, f) == Span(0, 0)
  {
  }

  lemma Slice(s: string, from: nat, n: nat, i: nat, j: nat)
    requires i <= j <= n && from + n <= |s|
    ensures s[from..from + n][i..j] == s[from + i..from + j]
  {
    var a, b := s[from..from + n][i..j], s[from + i..from + j];
    assert forall k :: 0 <= k < j - i ==> a[k] == s[from..from + n][i + k] == s[from + i + k] == b[k];
  }

  /** The part of the text a field is named after. */
  function Part(t: Raw, h: HostGrammar.Host, f: UrlField): string {
    match f
    case SchemaField => Or(t.schema)
    case UserinfoField => if t.auth.Some? then Or(h.info) else []
    case HostField => if t.auth.Some? then h.name else []
    case PortField => if t.auth.Some? then Or(h.port) else []
    case PathField => t.path
    case QueryField => Or(t.query)
    case FragmentField => t.fragment
  }

  function Or(s: Option<string>): string { match s case Some(x) => x case None => [] }

  /** What stands at a field is that part. */
  lemma Stands(t: Raw, h: HostGrammar.Host, isConnect: bool, f: UrlField)
    requires IsUrl(t, h, isConnect, Text(t))
    ensures StandsAt(Text(t), SpanOf(t, h, f), Part(t, h, f))
  {
    hide Text, HostGrammar.HostText, HostGrammar.LegalHost, Legal;
    SpanKinds(t, h, f);
    if !HostPart(f) {
      OuterStands(t, f);
    } else if t.auth.Some? {
      hide SchemaText;
      AuthInside(t);
      InnerStands(h, f);
      var s := HostGrammar.HostPartOf(h, f);
      if s.len > 0 {
        Slice(Text(t), |SchemaText(t)|, |t.auth.value|, s.off, s.off + s.len);
      }
    }
  }

  lemma Middle(text: string, a: string, b: string, c: string)
    requires text == a + b + c
    ensures text[|a|..|a| + |b|] == b
  {
  }

  /** A part stands where its span says. */
  predicate StandsAt(text: string, s: Span, part: string) {
    s.len == |part| && (s.len > 0 ==> s.off + s.len <= |text| && text[s.off..s.off + s.len] == part)
  }

  lemma OuterStands(t: Raw, f: UrlField)
    requires !HostPart(f)
    ensures StandsAt(Text(t), PartOf(t, f), Part(t, HostGrammar.Host(None, false, [], None), f))
  {
    hide StandsAt, Text;
    match f
    case SchemaField => SchemaStands(t);
    case QueryField => QueryStands(t);
    case PathField => PathStands(t);
    case FragmentField => FragmentStands(t);
    case _ =>
  }

  lemma SchemaStands(t: Raw)
    ensures StandsAt(Text(t), PartOf(t, SchemaField), Or(t.schema))
  {
    hide AuthText, QueryText, FragmentText;
    if t.schema.Some? {
      var s, rest := t.schema.value, "://" + AuthText(t) + t.path + QueryText(t) + FragmentText(t);
      assert Text(t) == [] + s + rest;
      Middle(Text(t), [], s, rest);
    }
  }

  lemma PathStands(t: Raw)
    ensures StandsAt(Text(t), PartOf(t, PathField), t.path)
  {
    hide SchemaText, AuthText, QueryText, FragmentText;
    var front, rest := SchemaText(t) + AuthText(t), QueryText(t) + FragmentText(t);
    assert Text(t) == front + t.path + rest;
    Middle(Text(t), front, t.path, rest);
  }

  lemma QueryStands(t: Raw)
    ensures StandsAt(Text(t), PartOf(t, QueryField), Or(t.query))
  {
    hide SchemaText, AuthText, FragmentText;
    if t.query.Some? {
      var front, q := SchemaText(t) + AuthText(t) + t.path, t.query.value;
      assert Text(t) == front + ['?'] + q + FragmentText(t);
      Middle(Text(t), front + ['?'], q, FragmentText(t));
    }
  }

  lemma FragmentStands(t: Raw)
    ensures StandsAt(Text(t), PartOf(t, FragmentField), t.fragment)
  {
    hide SchemaText, AuthText, QueryText;
    var front := SchemaText(t) + AuthText(t) + t.path + QueryText(t) + Hashes(t.marks);
    assert Text(t) == front + t.fragment + [];
    Middle(Text(t), front, t.fragment, []);
  }

  lemma InnerStands(h: HostGrammar.Host, f: UrlField)
    requires HostPart(f)
    ensures var part := match f case UserinfoField => Or(h.info) case PortField => Or(h.port) case _ => h.name;
            StandsAt(HostGrammar.HostText(h), HostGrammar.HostPartOf(h, f), part)
  {
    hide StandsAt, HostGrammar.HostText;
    if f.UserinfoField? {
      InfoStands(h);
    } else if f.PortField? {
      PortStands(h);
    } else {
      NameStands(h);
    }
  }

  lemma InfoStands(h: HostGrammar.Host)
    ensures StandsAt(HostGrammar.HostText(h), HostGrammar.HostPartOf(h, UserinfoField), Or(h.info))
  {
    hide HostGrammar.NameText, HostGrammar.PortPart;
    if h.info.Some? {
      var s, rest := h.info.value, "@" + HostGrammar.NameText(h) + HostGrammar.PortPart(h);
      assert HostGrammar.HostText(h) == [] + s + rest;
      Middle(HostGrammar.HostText(h), [], s, rest);
    }
  }

  lemma NameStands(h: HostGrammar.Host)
    ensures StandsAt(HostGrammar.HostText(h), HostGrammar.HostPartOf(h, HostField), h.name)
  {
    hide HostGrammar.InfoText, HostGrammar.PortPart;
    var front := HostGrammar.InfoText(h) + if h.v6 then "[" else [];
    var rest := (if h.v6 then "]" else []) + HostGrammar.PortPart(h);
    assert HostGrammar.HostText(h) == front + h.name + rest;
    Middle(HostGrammar.HostText(h), front, h.name, rest);
  }

  lemma PortStands(h: HostGrammar.Host)
    ensures StandsAt(HostGrammar.HostText(h), HostGrammar.HostPartOf(h, PortField), Or(h.port))
  {
    hide HostGrammar.InfoText, HostGrammar.NameText;
    if h.port.Some? {
      var front := HostGrammar.InfoText(h) + HostGrammar.NameText(h) + ":";
      assert HostGrammar.HostText(h) == front + h.port.value + [];
      Middle(HostGrammar.HostText(h), front, h.port.value, []);
    }
  }

  lemma PortTold(t: Raw, h: HostGrammar.Host, isConnect: bool, u: Url)
    requires IsUrl(t, h, isConnect, Text(t)) && Cuts(u, t, h)
    ensures PortField in u.fields <==> t.auth.Some? && h.port.Some?
    ensures PortField in u.fields ==>
              Digits(10, PortText(u, Text(t))) && Number(10, PortText(u, Text(t))) == PortOf(t, h)
    ensures PortField !in u.fields ==> PortOf(t, h) == 0
  {
    hide Legal, Text, SpanOf;
    SpanKinds(t, h, PortField);
    if t.auth.Some? && h.port.Some? {
      Stands(t, h, isConnect, PortField);
      PortIsDigits(h);
    } else {
      NoPort(t, h);
    }
  }

  lemma PortIsDigits(h: HostGrammar.Host)
    requires HostGrammar.LegalHost(h) && h.port.Some?
    ensures h.port.value != [] && Digits(10, h.port.value)
  {
  }

  lemma NoPort(t: Raw, h: HostGrammar.Host)
    requires t.auth.None? || h.port.None?
    ensures SpanOf(t, h, PortField).len == 0 && PortOf(t, h) == 0
  {
  }

  lemma ConnectTold(t: Raw, h: HostGrammar.Host, u: Url)
    requires IsUrl(t, h, true, Text(t)) && Cuts(u, t, h)
    ensures u.fields == {HostField, PortField} <==> HostAndPort(t, h)
  {
    hide Text;
    ConnectParts(t, h);
    assert forall f :: f in u.fields <==> SpanOf(t, h, f).len > 0;
    hide SpanOf, Cuts, Legal;
    if HostAndPort(t, h) {
      assert forall f :: f in u.fields <==> f == HostField || f == PortField;
    }
  }

  lemma ConnectParts(t: Raw, h: HostGrammar.Host)
    requires IsUrl(t, h, true, Text(t))
    ensures HostAndPort(t, h) <==>
              forall f :: SpanOf(t, h, f).len > 0 <==> f == HostField || f == PortField
  {
    hide Text;
    if forall f :: SpanOf(t, h, f).len > 0 <==> f == HostField || f == PortField {
      assert SpanOf(t, h, PathField).len == 0 && SpanOf(t, h, QueryField).len == 0;
      assert SpanOf(t, h, FragmentField).len == 0 && SpanOf(t, h, UserinfoField).len == 0;
      assert SpanOf(t, h, PortField).len > 0;
    }
  }

  // ---- The whole function ----

  ghost predicate HasUrl(isConnect: bool, buf: string) {
    (buf == [] && !isConnect) || exists t, h :: IsUrl(t, h, isConnect, buf) && Accepted(t, h, isConnect)
  }

  /** The port as written; 0 if there is none. */
  function PortValue(u: Url, buf: string): nat {
    if PortField in u.fields && Digits(10, PortText(u, buf)) then Number(10, PortText(u, buf)) else 0
  }

  /** What the two passes found out about every form of the text. */
  ghost predicate Tells(u: Url, isConnect: bool, buf: string) {
    forall t, h :: IsUrl(t, h, isConnect, buf) ==>
      Cuts(u, t, h) && PortOf(t, h) == PortValue(u, buf) &&
      (isConnect ==> (u.fields == {HostField, PortField} <==> HostAndPort(t, h)))
  }

  lemma Refused(buf: string, isConnect: bool, run: Span)
    requires run.off + run.len <= |buf| && !Splits(StartOf(isConnect), buf, run)
    requires !StateAt(StartOf(isConnect), buf, |buf|).UrlDead? ==> HostRun(run, StartOf(isConnect), buf)
    ensures !HasUrl(isConnect, buf)
  {
    hide HostStateAt, StateAt, Text, Legal, HostRun, Accepted, HostGrammar.IsHost;
    if buf == [] && !isConnect {
      WalkNone(StartOf(isConnect), buf);
    }
    forall t, h | IsUrl(t, h, isConnect, buf)
      ensures false
    {
      ToldAll(t, isConnect);
      SchemaAuth(t, isConnect);
      FormSplits(t, h, isConnect, run);
    }
  }

  lemma Passed(buf: string, isConnect: bool, u: Url, run: Span)
    requires run.off + run.len <= |buf| && Splits(StartOf(isConnect), buf, run) && HostRun(run, StartOf(isConnect), buf)
    requires Cut(u, StartOf(isConnect), buf, run)
    ensures Tells(u, isConnect, buf)
    ensures buf == [] ==> u.fields == {}
    ensures (if isConnect then HostField in u.fields else buf != []) ==> exists t, h :: IsUrl(t, h, isConnect, buf)
    ensures PortField in u.fields ==> Digits(10, PortText(u, buf))
  {
    hide HostStateAt, StateAt, Text, Legal, HostRun, Ordered, HostSplit, ExactRun, Splits, HostGrammar.IsHost, Cuts,
         PortOf, Digits, HostAndPort, Occurs;
    forall t, h | IsUrl(t, h, isConnect, buf)
      ensures Cuts(u, t, h) && PortOf(t, h) == PortValue(u, buf)
      ensures isConnect ==> (u.fields == {HostField, PortField} <==> HostAndPort(t, h))
    {
      AllTold(t, h, isConnect, u, run);
      PortTold(t, h, isConnect, u);
      if isConnect {
        ConnectTold(t, h, u);
      }
    }
    if (if isConnect then HostField in u.fields else buf != []) {
      SplitForm(buf, isConnect, run);
    }
  }

  lemma Decided(buf: string, isConnect: bool, u: Url)
    requires Tells(u, isConnect, buf)
    requires (if isConnect then HostField in u.fields else buf != []) ==> exists t, h :: IsUrl(t, h, isConnect, buf)
    requires buf == [] ==> u.fields == {}
    ensures HasUrl(isConnect, buf) <==>
              (isConnect ==> u.fields == {HostField, PortField}) && PortValue(u, buf) <= 65535
  {
    hide IsUrl, Cuts, PortOf, HostAndPort, PortText, Digits;
    if (isConnect ==> u.fields == {HostField, PortField}) && PortValue(u, buf) <= 65535 && buf != [] {
      var t, h :| IsUrl(t, h, isConnect, buf);
      assert Accepted(t, h, isConnect);
    }
  }

  lemma SamePort(u: Url, port: nat, isConnect: bool, buf: string)
    requires Tells(u, isConnect, buf)
    ensures Tells(u.(port := port), isConnect, buf) && PortValue(u.(port := port), buf) == PortValue(u, buf)
  {
    hide IsUrl, PortOf, HostAndPort, Digits, SpanOf;
    var v := u.(port := port);
    assert forall f :: v.At(f) == u.At(f) && v.End(f) == u.End(f);
    assert PortText(v, buf) == PortText(u, buf);
    forall t, h | Cuts(u, t, h)
      ensures Cuts(v, t, h)
    {
      SameCuts(u, port, t, h);
    }
  }

  lemma SameCuts(u: Url, port: nat, t: Raw, h: HostGrammar.Host)
    requires Cuts(u, t, h)
    ensures Cuts(u.(port := port), t, h)
  {
    hide SpanOf;
    assert forall f :: u.(port := port).At(f) == u.At(f);
  }

  /** http_parser_parse_url. A URL is accepted exactly when its text has the form of one, a CONNECT target names host
      and port only, and the port is at most 65535; of every such form of the text the fields are the nonempty parts,
      at their offsets. The empty text is accepted without fields. */
  method ParseUrl(buf: string, isConnect: bool) returns (ok: bool, u: Url)
    requires |buf| <= 65535
    ensures ok <==> HasUrl(isConnect, buf)
    ensures ok && buf == [] ==> u.fields == {} && u.port == 0
    ensures forall t, h :: ok && IsUrl(t, h, isConnect, buf) ==> Cuts(u, t, h) && u.port == PortOf(t, h)
  {
    hide Runs, HostSplit, Bounded, Ordered, ExactRun, StateAt, HostStateAt, HostRun, Occurs, AtSeen, Splits, Digits,
         IsUrl, Cuts, HasUrl, Cut, PortOf, HostAndPort;
    var start := StartOf(isConnect);
    var first;
    ghost var run;
    ok, first, u, run := SplitUrl(buf, start);
    if !ok {
      Refused(buf, isConnect, run);
      return;
    }
    SplitsAlive(start, buf, run);
    Passed(buf, isConnect, u, run);
    Decided(buf, isConnect, u);
    if isConnect && u.fields != {HostField, PortField} {
      return false, u;
    }
    if PortField in u.fields {
      RunsFacts(first, start, buf);
      CutHost(u, start, buf, run);
      PortRead(first, u, start, HostStart(start, buf), buf);
      var v := StrToUl(buf, u.At(PortField).off);
      if v > 0xffff {
        return false, u;
      }
      SamePort(u, v, isConnect, buf);
      u := u.(port := v);
    }
  }

  lemma CutHost(u: Url, start: UrlState, buf: string, run: Span)
    requires run.off + run.len <= |buf| && Cut(u, start, buf, run) && PortField in u.fields
    ensures Bounded(u, |buf|) && HostSplit(u, HostStart(start, buf), buf, run)
  {
    hide Bounded, Ordered, HostSplit, ExactRun, Occurs, Digits;
  }
}
