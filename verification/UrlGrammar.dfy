/** URLs as text: what http_parser_parse_url accepts and which bytes it gives to which field, without the character
    machines (base/http_parser.cpp:425-570 and 1939-2174). */
module UrlGrammar {
  import opened Wrappers
  import opened HttpTypes
  import opened HttpSwitch
  import opened HttpLength
  import opened HttpUrl

  // ---- The first pass: schema, authority, path, query, fragment ----

  predicate Alphas(s: string) { forall i :: 0 <= i < |s| ==> IsAlpha(s[i]) }

  predicate UrlChars(s: string) { forall i :: 0 <= i < |s| ==> IsUrlChar(s[i]) }

  /** After the first '?' further ones belong to the query. */
  predicate QueryChars(s: string) { forall i :: 0 <= i < |s| ==> IsUrlChar(s[i]) || s[i] == '?' }

  predicate FragmentChars(s: string) { forall i :: 0 <= i < |s| ==> IsUrlChar(s[i]) || s[i] == '?' || s[i] == '#' }

  predicate AuthorityChar(c: char) { IsUserinfo(c) || c == '[' || c == ']' || c == '@' }

  /** Any such characters, but no two '@' side by side. */
  predicate Authority(s: string) {
    (forall i :: 0 <= i < |s| ==> AuthorityChar(s[i])) && forall i :: 0 < i < |s| && s[i - 1] == '@' ==> s[i] != '@'
  }

  /** The parts of a URL. Behind the first '#' further ones at once are passed over: `marks` counts them all. */
  datatype Raw = Raw(
    schema: Option<string>, auth: Option<string>, path: string, query: Option<string>, marks: nat, fragment: string)

  function Hashes(n: nat): (s: string)
    ensures |s| == n && forall i :: 0 <= i < n ==> s[i] == '#'
  {
    seq(n, _ => '#')
  }

  function SchemaText(t: Raw): string { match t.schema case Some(s) => s + "://" case None => [] }

  function AuthText(t: Raw): string { match t.auth case Some(a) => a case None => [] }

  function QueryText(t: Raw): string { match t.query case Some(q) => ['?'] + q case None => [] }

  function FragmentText(t: Raw): string { Hashes(t.marks) + t.fragment }

  function Text(t: Raw): string { SchemaText(t) + AuthText(t) + t.path + QueryText(t) + FragmentText(t) }

  /** An absolute URL has schema and authority; a CONNECT target begins with its authority; any other begins with its
      path, which '*' may begin as well. */
  predicate Legal(t: Raw, isConnect: bool) {
    (if isConnect then t.schema.None? && t.auth.Some? else t.schema.Some? <==> t.auth.Some?) &&
    (t.schema.Some? ==> t.schema.value != [] && Alphas(t.schema.value)) &&
    (t.auth.Some? ==> Authority(t.auth.value)) &&
    UrlChars(t.path) && (t.path != [] ==> t.path[0] == '/' || (t.auth.None? && t.path[0] == '*')) &&
    (t.auth.None? ==> t.path != []) &&
    (t.query.Some? ==> QueryChars(t.query.value)) &&
    (t.marks > 0 ==> t.path != [] || t.query.Some?) &&
    (t.fragment != [] ==> t.marks > 0 && t.fragment[0] != '#' && FragmentChars(t.fragment))
  }

  /** The state the machine is in at the end of a legal URL. */
  function EndState(t: Raw): UrlState {
    if t.marks > 0 then (if t.fragment == [] then ReqFragmentStart else ReqFragment)
    else if t.query.Some? then (if t.query.value == [] then ReqQueryStart else ReqQuery)
    else if t.path != [] then ReqPath
    else AuthState(AuthText(t))
  }

  function AuthState(a: string): UrlState {
    if a == [] then ReqServerStart else if a[|a| - 1] == '@' then ReqServerWithAt else ReqServer
  }

  // ---- Walking ----

  lemma {:induction false} WalkConcat(start: UrlState, a: string, b: string, j: nat)
    requires j <= |b|
    ensures StateAt(start, a + b, |a| + j) == StateAt(StateAt(start, a, |a|), b, j)
  {
    hide ParseUrlChar;
    if j == 0 {
      WalkPrefix(start, a, b, |a|);
    } else {
      WalkConcat(start, a, b, j - 1);
    }
  }

  lemma {:induction false} WalkPrefix(start: UrlState, a: string, b: string, k: nat)
    requires k <= |a|
    ensures StateAt(start, a + b, k) == StateAt(start, a, k)
  {
    hide ParseUrlChar;
    if k > 0 {
      WalkPrefix(start, a, b, k - 1);
    }
  }

  lemma {:induction false} SchemaWalk(s: string, j: nat)
    requires Alphas(s) && 1 <= j <= |s|
    ensures StateAt(ReqSpacesBeforeUrl, s, j) == ReqSchema
  {
    if j == 1 {
      assert StateAt(ReqSpacesBeforeUrl, s, 0) == ReqSpacesBeforeUrl;
    } else {
      SchemaWalk(s, j - 1);
    }
  }

  lemma SlashesWalk()
    ensures StateAt(ReqSchema, "://", 1) == ReqSchemaSlash && StateAt(ReqSchema, "://", 2) == ReqSchemaSlashSlash
    ensures StateAt(ReqSchema, "://", 3) == ReqServerStart
  {
    assert StateAt(ReqSchema, "://", 0) == ReqSchema;
  }

  lemma {:induction false} AuthWalk(a: string, j: nat)
    requires Authority(a) && j <= |a|
    ensures StateAt(ReqServerStart, a, j) == AuthState(a[..j])
  {
    if j > 0 {
      AuthWalk(a, j - 1);
      AuthStep(AuthState(a[..j - 1]), a[j - 1]);
      assert j > 1 ==> a[..j - 1][j - 2] == a[j - 2];
      assert a[..j][j - 1] == a[j - 1];
    }
  }

  lemma AuthStep(s: UrlState, c: char)
    requires s == ReqServerStart || s == ReqServer || s == ReqServerWithAt
    requires AuthorityChar(c) && (s == ReqServerWithAt ==> c != '@')
    ensures ParseUrlChar(s, c) == if c == '@' then ReqServerWithAt else ReqServer
  {
  }

  predicate ServerState(s: UrlState) { s == ReqServerStart || s == ReqServer || s == ReqServerWithAt }

  lemma {:induction false} PathWalk(s: UrlState, p: string, j: nat)
    requires UrlChars(p) && 1 <= j <= |p|
    requires (ServerState(s) && p[0] == '/') || (s == ReqSpacesBeforeUrl && (p[0] == '/' || p[0] == '*'))
    ensures StateAt(s, p, j) == ReqPath
  {
    if j == 1 {
      assert StateAt(s, p, 0) == s;
    } else {
      PathWalk(s, p, j - 1);
    }
  }

  lemma {:induction false} QueryWalk(s: UrlState, q: string, j: nat)
    requires QueryChars(q) && 1 <= j <= |q| + 1 && (ServerState(s) || s == ReqPath)
    ensures StateAt(s, ['?'] + q, j) == if j == 1 then ReqQueryStart else ReqQuery
  {
    var t := ['?'] + q;
    if j == 1 {
      assert StateAt(s, t, 0) == s && t[0] == '?';
    } else {
      QueryWalk(s, q, j - 1);
      assert t[j - 1] == q[j - 2];
    }
  }

  lemma {:induction false} HashWalk(s: UrlState, n: nat, j: nat)
    requires 1 <= j <= n && (s == ReqPath || s == ReqQueryStart || s == ReqQuery)
    ensures StateAt(s, Hashes(n), j) == ReqFragmentStart
  {
    if j == 1 {
      assert StateAt(s, Hashes(n), 0) == s;
    } else {
      HashWalk(s, n, j - 1);
    }
  }

  lemma {:induction false} FragmentWalk(f: string, j: nat)
    requires FragmentChars(f) && 1 <= j <= |f| && f[0] != '#'
    ensures StateAt(ReqFragmentStart, f, j) == ReqFragment
  {
    if j == 1 {
      assert StateAt(ReqFragmentStart, f, 0) == ReqFragmentStart;
    } else {
      FragmentWalk(f, j - 1);
    }
  }

  // ---- Which byte belongs to which field ----

  /** Where the parts of a URL stand. */
  function PartOf(t: Raw, f: UrlField): Span {
    var auth := |SchemaText(t)|;
    var path := auth + |AuthText(t)|;
    var query := path + |t.path|;
    var marks := query + |QueryText(t)|;
    match f
    case SchemaField => Span(0, if t.schema.Some? then |t.schema.value| else 0)
    case HostField => Span(auth, |AuthText(t)|)
    case PathField => Span(path, |t.path|)
    case QueryField => if t.query.Some? then Span(query + 1, |t.query.value|) else Span(query, 0)
    case FragmentField => Span(marks + t.marks, |t.fragment|)
    case _ => Span(0, 0)
  }

  /** The k-th byte lies in the part. */
  predicate In(t: Raw, f: UrlField, k: nat) { PartOf(t, f).off < k <= PartOf(t, f).off + PartOf(t, f).len }

  /** A beginning of the text, which leads to state s: its bytes belong to the fields whose parts they lie in. */
  ghost predicate Told(t: Raw, start: UrlState, text: string, s: UrlState) {
    StateAt(start, text, |text|) == s &&
    forall k: nat, f :: 1 <= k <= |text| ==> (FieldOf(StateAt(start, text, k)) == Some(f) <==> In(t, f, k))
  }

  /** A further piece of text, all of whose bytes belong to the same field or to none. */
  lemma ToldMore(t: Raw, start: UrlState, text: string, s: UrlState, piece: string, g: Option<UrlField>)
    requires Told(t, start, text, s)
    requires forall j :: 1 <= j <= |piece| ==> FieldOf(StateAt(s, piece, j)) == g
    requires forall k: nat, f :: |text| < k <= |text| + |piece| ==> (g == Some(f) <==> In(t, f, k))
    ensures Told(t, start, text + piece, StateAt(s, piece, |piece|))
  {
    hide In, FieldOf, StateAt;
    var all := text + piece;
    WalkConcat(start, text, piece, |piece|);
    forall k: nat, f | 1 <= k <= |all|
      ensures FieldOf(StateAt(start, all, k)) == Some(f) <==> In(t, f, k)
    {
      if k <= |text| {
        WalkPrefix(start, text, piece, k);
        assert FieldOf(StateAt(start, text, k)) == Some(f) <==> In(t, f, k);
      } else {
        var j := k - |text|;
        WalkConcat(start, text, piece, j);
        assert FieldOf(StateAt(s, piece, j)) == g;
      }
    }
  }

  lemma ToldNothing(t: Raw, start: UrlState)
    ensures Told(t, start, [], start)
  {
    hide In;
  }

  lemma SchemaLegal(t: Raw, isConnect: bool)
    requires Legal(t, isConnect) && t.schema.Some?
    ensures !isConnect && t.schema.value != [] && Alphas(t.schema.value)
  {
  }

  lemma SchemaIn(t: Raw)
    requires t.schema.Some?
    ensures var n := |t.schema.value|;
            (forall k: nat, f :: 0 < k <= n ==> (f == SchemaField <==> In(t, f, k))) &&
            (forall k: nat, f :: n < k <= n + 3 ==> !In(t, f, k))
  {
  }

  lemma ToldSchema(t: Raw, isConnect: bool)
    requires Legal(t, isConnect) && t.schema.Some?
    ensures Told(t, StartOf(isConnect), SchemaText(t), ReqServerStart)
  {
    hide StateAt, Legal, In, ParseUrlChar;
    var start, s := StartOf(isConnect), t.schema.value;
    SchemaLegal(t, isConnect);
    SchemaIn(t);
    ToldNothing(t, start);
    forall j | 1 <= j <= |s|
      ensures StateAt(start, s, j) == ReqSchema
    {
      SchemaWalk(s, j);
    }
    ToldMore(t, start, [], start, s, Some(SchemaField));
    assert [] + s == s;
    SlashesWalk();
    forall j | 1 <= j <= 3
      ensures FieldOf(StateAt(ReqSchema, "://", j)) == None
    {
      assert j == 1 || j == 2 || j == 3;
    }
    ToldMore(t, start, s, ReqSchema, "://", None);
  }

  lemma ToldAuth(t: Raw, isConnect: bool)
    requires Legal(t, isConnect)
    ensures Told(t, StartOf(isConnect), SchemaText(t) + AuthText(t),
                 if t.auth.None? then ReqSpacesBeforeUrl else AuthState(AuthText(t)))
  {
    var start, a := StartOf(isConnect), AuthText(t);
    if t.schema.Some? {
      ToldSchema(t, isConnect);
    } else {
      assert Told(t, start, [], start);
    }
    if t.auth.Some? {
      forall j | 1 <= j <= |a|
        ensures FieldOf(StateAt(ReqServerStart, a, j)) == Some(HostField)
      {
        AuthWalk(a, j);
      }
      AuthWalk(a, |a|);
      assert a[..|a|] == a;
      hide StateAt;
      ToldMore(t, start, SchemaText(t), ReqServerStart, a, Some(HostField));
    } else {
      assert SchemaText(t) + AuthText(t) == [];
    }
  }

  lemma ToldPath(t: Raw, isConnect: bool)
    requires Legal(t, isConnect)
    ensures Told(t, StartOf(isConnect), SchemaText(t) + AuthText(t) + t.path,
                 if t.path != [] then ReqPath else AuthState(AuthText(t)))
  {
    var start, text := StartOf(isConnect), SchemaText(t) + AuthText(t);
    var s := if t.auth.None? then ReqSpacesBeforeUrl else AuthState(AuthText(t));
    ToldAuth(t, isConnect);
    if t.path == [] {
      assert text + t.path == text;
    } else {
      forall j | 1 <= j <= |t.path|
        ensures StateAt(s, t.path, j) == ReqPath
      {
        PathWalk(s, t.path, j);
      }
      hide StateAt;
      ToldMore(t, start, text, s, t.path, Some(PathField));
    }
  }

  lemma ToldQuery(t: Raw, isConnect: bool)
    requires Legal(t, isConnect)
    ensures Told(t, StartOf(isConnect), SchemaText(t) + AuthText(t) + t.path + QueryText(t),
                 EndState(t.(marks := 0, fragment := [])))
  {
    hide StateAt, In, Legal;
    QueryLegal(t, isConnect);
    QueryIn(t);
    var start, text := StartOf(isConnect), SchemaText(t) + AuthText(t) + t.path;
    var s := if t.path != [] then ReqPath else AuthState(AuthText(t));
    ToldPath(t, isConnect);
    if t.query.None? {
      assert text + QueryText(t) == text;
    } else {
      var q := t.query.value;
      forall j | 1 <= j <= |q| + 1
        ensures StateAt(s, ['?'] + q, j) == if j == 1 then ReqQueryStart else ReqQuery
      {
        QueryWalk(s, q, j);
      }
      QueryPieces(s, q);
      ToldMore(t, start, text, s, ['?'], None);
      ToldMore(t, start, text + ['?'], ReqQueryStart, q, Some(QueryField));
      assert text + ['?'] + q == text + QueryText(t);
    }
  }

  lemma QueryLegal(t: Raw, isConnect: bool)
    requires Legal(t, isConnect)
    ensures t.query.Some? ==> QueryChars(t.query.value)
    ensures t.path == [] ==>
              ServerState(AuthState(AuthText(t))) && EndState(t.(query := None, marks := 0)) == AuthState(AuthText(t))
  {
  }

  /** Where the query lies. */
  lemma QueryIn(t: Raw)
    ensures var n := |SchemaText(t) + AuthText(t) + t.path|;
            t.query.Some? ==>
              (forall k: nat, f :: k == n + 1 ==> !In(t, f, k)) &&
              (forall k: nat, f :: n + 1 < k <= n + 1 + |t.query.value| ==> (f == QueryField <==> In(t, f, k)))
  {
  }

  /** The mark and the query apart. */
  lemma QueryPieces(s: UrlState, q: string)
    requires forall j :: 1 <= j <= |q| + 1 ==> StateAt(s, ['?'] + q, j) == if j == 1 then ReqQueryStart else ReqQuery
    ensures StateAt(s, ['?'], 1) == ReqQueryStart
    ensures forall j :: 1 <= j <= |q| ==> StateAt(ReqQueryStart, q, j) == ReqQuery
    ensures StateAt(ReqQueryStart, q, |q|) == if q == [] then ReqQueryStart else ReqQuery
  {
    WalkPrefix(s, ['?'], q, 1);
    forall j | 1 <= j <= |q|
      ensures StateAt(ReqQueryStart, q, j) == ReqQuery
    {
      WalkConcat(s, ['?'], q, j);
      assert StateAt(s, ['?'] + q, 1 + j) == ReqQuery;
    }
  }

  lemma WalkNone(s: UrlState, text: string)
    ensures StateAt(s, text, 0) == s
  {
  }

  lemma FragmentLegal(t: Raw, isConnect: bool)
    requires Legal(t, isConnect)
    ensures t.marks == 0 ==> t.fragment == []
    ensures t.fragment != [] ==> FragmentChars(t.fragment) && t.fragment[0] != '#'
    ensures t.marks > 0 ==>
              var s := EndState(t.(marks := 0, fragment := []));
              s == ReqPath || s == ReqQueryStart || s == ReqQuery
  {
  }

  /** Where the fragment lies. */
  lemma FragmentIn(t: Raw)
    ensures var n := |SchemaText(t) + AuthText(t) + t.path + QueryText(t)|;
            (forall k: nat, f :: n < k <= n + t.marks ==> !In(t, f, k)) &&
            (forall k: nat, f :: n + t.marks < k <= n + t.marks + |t.fragment| ==> (f == FragmentField <==> In(t, f, k)))
  {
  }

  /** The whole text: where it ends, and which byte belongs to which field. */
  lemma ToldAll(t: Raw, isConnect: bool)
    requires Legal(t, isConnect)
    ensures Told(t, StartOf(isConnect), Text(t), EndState(t))
  {
    hide StateAt, In, Legal, Hashes;
    FragmentLegal(t, isConnect);
    FragmentIn(t);
    var start, text := StartOf(isConnect), SchemaText(t) + AuthText(t) + t.path + QueryText(t);
    var s := EndState(t.(marks := 0, fragment := []));
    ToldQuery(t, isConnect);
    if t.marks == 0 {
      assert Text(t) == text;
    } else {
      forall j | 1 <= j <= t.marks
        ensures StateAt(s, Hashes(t.marks), j) == ReqFragmentStart
      {
        HashWalk(s, t.marks, j);
      }
      if t.fragment != [] {
        forall j | 1 <= j <= |t.fragment|
          ensures StateAt(ReqFragmentStart, t.fragment, j) == ReqFragment
        {
          FragmentWalk(t.fragment, j);
        }
      } else {
        WalkNone(ReqFragmentStart, t.fragment);
      }
      ToldMore(t, start, text, s, Hashes(t.marks), None);
      ToldMore(t, start, text + Hashes(t.marks), ReqFragmentStart, t.fragment, Some(FragmentField));
      assert text + Hashes(t.marks) + t.fragment == Text(t);
    }
  }

  // ---- The fields the first pass sets ----

  /** A run whose bytes are exactly those of a stretch of text is that stretch. */
  lemma RunIs(u: Url, f: UrlField, start: UrlState, buf: string, off: nat, len: nat)
    requires ExactRun(u, f, start, buf, |buf|) && (f in u.fields ==> 1 <= u.At(f).len && u.End(f) <= |buf|)
    requires off + len <= |buf|
    requires forall k: nat :: 1 <= k <= |buf| ==> (FieldOf(StateAt(start, buf, k)) == Some(f) <==> off < k <= off + len)
    ensures f in u.fields <==> len > 0
    ensures len > 0 ==> u.At(f) == Span(off, len)
  {
    hide StateAt, FieldOf;
    if f in u.fields {
      var first, last := u.At(f).off + 1, u.End(f);
      assert FieldOf(StateAt(start, buf, first)) == Some(f);
      assert FieldOf(StateAt(start, buf, last)) == Some(f);
    }
    if len > 0 {
      assert FieldOf(StateAt(start, buf, off + 1)) == Some(f);
      assert FieldOf(StateAt(start, buf, off + len)) == Some(f);
    }
  }

  // ---- Every text the machine does not refuse has such a form ----

  /** A beginning of a URL. */
  datatype Partial = Nothing | SchemaOnly(s: string) | Slashes(s: string, n: nat) | Whole(t: Raw)

  function PartialText(p: Partial): string {
    match p
    case Nothing => []
    case SchemaOnly(s) => s
    case Slashes(s, n) => s + if n == 1 then ":" else ":/"
    case Whole(t) => Text(t)
  }

  predicate LegalPartial(p: Partial, isConnect: bool) {
    match p
    case Nothing => !isConnect
    case SchemaOnly(s) => !isConnect && s != [] && Alphas(s)
    case Slashes(s, n) => !isConnect && s != [] && Alphas(s) && 1 <= n <= 2
    case Whole(t) => Legal(t, isConnect)
  }

  function PartialState(p: Partial): UrlState {
    match p
    case Nothing => ReqSpacesBeforeUrl
    case SchemaOnly(_) => ReqSchema
    case Slashes(_, n) => if n == 1 then ReqSchemaSlash else ReqSchemaSlashSlash
    case Whole(t) => EndState(t)
  }

  /** One more character. */
  function Grown(p: Partial, ch: char): Partial {
    match p
    case Nothing => if IsAlpha(ch) then SchemaOnly([ch]) else Whole(Raw(None, None, [ch], None, 0, []))
    case SchemaOnly(s) => if ch == ':' then Slashes(s, 1) else SchemaOnly(s + [ch])
    case Slashes(s, n) => if n == 1 then Slashes(s, 2) else Whole(Raw(Some(s), Some([]), [], None, 0, []))
    case Whole(t) => Whole(GrownRaw(t, ch))
  }

  function GrownRaw(t: Raw, ch: char): Raw {
    if t.marks > 0 then
      if t.fragment == [] && ch == '#' then t.(marks := t.marks + 1) else t.(fragment := t.fragment + [ch])
    else if ch == '#' then t.(marks := 1)
    else if t.query.Some? then t.(query := Some(t.query.value + [ch]))
    else if ch == '?' then t.(query := Some([]))
    else if t.path != [] || ch == '/' then t.(path := t.path + [ch])
    else t.(auth := Some(AuthText(t) + [ch]))
  }

  lemma HashesMore(n: nat)
    ensures Hashes(n + 1) == Hashes(n) + ['#'] && Hashes(0) == [] && Hashes(1) == ['#']
  {
  }

  lemma GrownText(t: Raw, ch: char)
    requires t.marks == 0 ==> t.fragment == []
    requires t.auth.None? ==> t.path != []
    ensures Text(GrownRaw(t, ch)) == Text(t) + [ch]
  {
    if t.marks > 0 || ch == '#' {
      GrownMarks(t, ch);
    } else if t.query.Some? || ch == '?' {
      GrownQueryText(t, ch);
    } else {
      GrownFront(t, ch);
    }
  }

  lemma GrownMarks(t: Raw, ch: char)
    requires t.marks > 0 || (ch == '#' && t.fragment == [])
    ensures Text(GrownRaw(t, ch)) == Text(t) + [ch]
  {
    hide Hashes;
    HashesMore(t.marks);
    var u := GrownRaw(t, ch);
    assert FragmentText(u) == FragmentText(t) + [ch];
    var front := SchemaText(t) + AuthText(t) + t.path + QueryText(t);
    assert Text(u) == front + FragmentText(u) && Text(t) == front + FragmentText(t);
  }

  lemma GrownQueryText(t: Raw, ch: char)
    requires t.marks == 0 && t.fragment == [] && ch != '#' && (t.query.Some? || ch == '?')
    ensures Text(GrownRaw(t, ch)) == Text(t) + [ch]
  {
    var u := GrownRaw(t, ch);
    NoMarks(t);
    NoMarks(u);
    hide Hashes, Text;
    assert QueryText(u) == QueryText(t) + [ch];
    var front := SchemaText(t) + AuthText(t) + t.path;
    assert front + (QueryText(t) + [ch]) == front + QueryText(t) + [ch];
  }

  lemma GrownFront(t: Raw, ch: char)
    requires t.marks == 0 && t.fragment == [] && t.query.None? && ch != '#' && ch != '?'
    requires t.auth.None? ==> t.path != []
    ensures Text(GrownRaw(t, ch)) == Text(t) + [ch]
  {
    hide Hashes;
    HashesMore(0);
    var u := GrownRaw(t, ch);
    NoTail(t);
    NoTail(u);
    if t.path != [] || ch == '/' {
      assert SchemaText(t) + AuthText(t) + (t.path + [ch]) == SchemaText(t) + AuthText(t) + t.path + [ch];
    } else {
      assert AuthText(u) == AuthText(t) + [ch];
    }
  }

  lemma NoMarks(t: Raw)
    requires t.marks == 0 && t.fragment == []
    ensures Text(t) == SchemaText(t) + AuthText(t) + t.path + QueryText(t)
  {
    HashesMore(0);
  }

  lemma NoTail(t: Raw)
    requires t.marks == 0 && t.fragment == [] && t.query.None?
    ensures Text(t) == SchemaText(t) + AuthText(t) + t.path
  {
    HashesMore(0);
  }

  lemma GrownLegal(t: Raw, isConnect: bool, ch: char)
    requires Legal(t, isConnect) && !ParseUrlChar(EndState(t), ch).UrlDead?
    ensures Legal(GrownRaw(t, ch), isConnect) && EndState(GrownRaw(t, ch)) == ParseUrlChar(EndState(t), ch)
  {
    if t.marks > 0 {
      GrownFragment(t, isConnect, ch);
    } else if t.query.Some? {
      GrownQuery(t, isConnect, ch);
    } else if t.path != [] {
      GrownPath(t, isConnect, ch);
    } else {
      GrownAuth(t, isConnect, ch);
    }
  }

  lemma GrownFragment(t: Raw, isConnect: bool, ch: char)
    requires Legal(t, isConnect) && !ParseUrlChar(EndState(t), ch).UrlDead? && t.marks > 0
    ensures Legal(GrownRaw(t, ch), isConnect) && EndState(GrownRaw(t, ch)) == ParseUrlChar(EndState(t), ch)
  {
    hide Authority, UrlChars, QueryChars, Alphas;
  }

  lemma GrownQuery(t: Raw, isConnect: bool, ch: char)
    requires Legal(t, isConnect) && !ParseUrlChar(EndState(t), ch).UrlDead? && t.marks == 0 && t.query.Some?
    ensures Legal(GrownRaw(t, ch), isConnect) && EndState(GrownRaw(t, ch)) == ParseUrlChar(EndState(t), ch)
  {
    hide Authority, UrlChars, FragmentChars, Alphas;
  }

  lemma GrownPath(t: Raw, isConnect: bool, ch: char)
    requires Legal(t, isConnect) && !ParseUrlChar(EndState(t), ch).UrlDead?
    requires t.marks == 0 && t.query.None? && t.path != []
    ensures Legal(GrownRaw(t, ch), isConnect) && EndState(GrownRaw(t, ch)) == ParseUrlChar(EndState(t), ch)
  {
    hide Authority, FragmentChars, Alphas;
  }

  lemma GrownAuth(t: Raw, isConnect: bool, ch: char)
    requires Legal(t, isConnect) && !ParseUrlChar(EndState(t), ch).UrlDead?
    requires t.marks == 0 && t.query.None? && t.path == []
    ensures Legal(GrownRaw(t, ch), isConnect) && EndState(GrownRaw(t, ch)) == ParseUrlChar(EndState(t), ch)
  {
    hide FragmentChars, Alphas;
    var a := t.auth.value;
    ServerAccepts(AuthState(a), ch);
    if ch != '/' && ch != '?' {
      AuthorityMore(a, ch);
    }
  }

  lemma ServerAccepts(s: UrlState, ch: char)
    requires ServerState(s) && !ParseUrlChar(s, ch).UrlDead?
    ensures ch != '#'
    ensures ch == '/' || ch == '?' || (AuthorityChar(ch) && !(s == ReqServerWithAt && ch == '@'))
    ensures ParseUrlChar(s, ch) == if ch == '/' then ReqPath else if ch == '?' then ReqQueryStart
                                   else if ch == '@' then ReqServerWithAt else ReqServer
  {
  }

  lemma AuthorityMore(a: string, ch: char)
    requires Authority(a) && AuthorityChar(ch) && !(AuthState(a) == ReqServerWithAt && ch == '@')
    ensures Authority(a + [ch]) && AuthState(a + [ch]) == if ch == '@' then ReqServerWithAt else ReqServer
  {
  }

  lemma GrowOne(p: Partial, isConnect: bool, ch: char)
    requires LegalPartial(p, isConnect) && !ParseUrlChar(PartialState(p), ch).UrlDead?
    ensures LegalPartial(Grown(p, ch), isConnect) && PartialState(Grown(p, ch)) == ParseUrlChar(PartialState(p), ch)
    ensures PartialText(Grown(p, ch)) == PartialText(p) + [ch]
  {
    hide Legal;
    match p
    case Nothing => FirstGrown(isConnect, ch);
    case SchemaOnly(_) =>
    case Slashes(s, n) =>
      if n == 2 {
        EmptyAuth(s, isConnect);
      }
    case Whole(t) =>
      GrownLegal(t, isConnect, ch);
      WholeShape(t, isConnect);
      GrownText(t, ch);
  }

  lemma WholeShape(t: Raw, isConnect: bool)
    requires Legal(t, isConnect)
    ensures (t.marks == 0 ==> t.fragment == []) && (t.auth.None? ==> t.path != [])
  {
  }

  lemma FirstGrown(isConnect: bool, ch: char)
    requires !isConnect && !ParseUrlChar(ReqSpacesBeforeUrl, ch).UrlDead?
    ensures LegalPartial(Grown(Nothing, ch), isConnect)
    ensures PartialState(Grown(Nothing, ch)) == ParseUrlChar(ReqSpacesBeforeUrl, ch)
    ensures PartialText(Grown(Nothing, ch)) == [ch]
  {
    HashesMore(0);
  }

  lemma EmptyAuth(s: string, isConnect: bool)
    requires !isConnect && s != [] && Alphas(s)
    ensures var t := Raw(Some(s), Some([]), [], None, 0, []);
            Legal(t, isConnect) && EndState(t) == ReqServerStart && Text(t) == s + "://"
  {
    HashesMore(0);
  }

  /** What a text is the beginning of. */
  function FormOf(isConnect: bool, buf: string): Partial {
    if buf == [] then (if isConnect then Whole(Raw(None, Some([]), [], None, 0, [])) else Nothing)
    else Grown(FormOf(isConnect, buf[..|buf| - 1]), buf[|buf| - 1])
  }

  /** The form tells the text and the state. */
  ghost predicate Formed(isConnect: bool, buf: string) {
    var p := FormOf(isConnect, buf);
    LegalPartial(p, isConnect) && PartialText(p) == buf && StateAt(StartOf(isConnect), buf, |buf|) == PartialState(p)
  }

  lemma FormedNext(isConnect: bool, front: string, ch: char)
    requires Formed(isConnect, front) && !StateAt(StartOf(isConnect), front + [ch], |front| + 1).UrlDead?
    ensures Formed(isConnect, front + [ch])
  {
    hide Grown, ParseUrlChar, LegalPartial, PartialText, PartialState;
    var buf, n := front + [ch], |front|;
    WalkPrefix(StartOf(isConnect), front, [ch], n);
    assert buf[..n] == front && buf[n] == ch;
    var p := FormOf(isConnect, front);
    assert FormOf(isConnect, buf) == Grown(p, ch);
    hide FormOf;
    assert StateAt(StartOf(isConnect), buf, n + 1) == ParseUrlChar(PartialState(p), ch);
    GrowOne(p, isConnect, ch);
  }

  /** Every text the machine does not refuse has a form, which tells the state it ends in. */
  lemma {:induction false} HasForm(isConnect: bool, buf: string)
    requires !StateAt(StartOf(isConnect), buf, |buf|).UrlDead?
    ensures Formed(isConnect, buf)
  {
    hide Formed, StateAt, StartOf;
    if buf == [] {
      EmptyForm(isConnect);
    } else {
      var n := |buf| - 1;
      assert buf[..n] + [buf[n]] == buf;
      DeadWalk(StartOf(isConnect), buf, n);
      WalkPrefix(StartOf(isConnect), buf[..n], [buf[n]], n);
      HasForm(isConnect, buf[..n]);
      FormedNext(isConnect, buf[..n], buf[n]);
    }
  }

  lemma DeadWalk(start: UrlState, buf: string, i: nat)
    requires i <= |buf| && !StateAt(start, buf, |buf|).UrlDead?
    ensures !StateAt(start, buf, i).UrlDead?
  {
    if StateAt(start, buf, i).UrlDead? {
      DeadForever(start, buf, i, |buf|);
    }
  }

  lemma EmptyForm(isConnect: bool)
    ensures Formed(isConnect, [])
  {
    HashesMore(0);
  }
}
