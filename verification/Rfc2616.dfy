/** Message length as section 4.4 of RFC 2616 orders it, from the status and the text of the header fields alone: values
    are unfolded (section 2.2), lists split at commas (section 2.1), and compared without regard to case. */
module Rfc2616 {
  import opened HttpTypes
  import opened HttpLength
  import opened HttpHeaders

  // ---- Values ----

  /** A line break inside a value, with the blanks around it, stands for a space. */
  function Unfolded(text: string, more: seq<ValueLine>): string
    decreases |more|
  {
    if more == [] then text else Unfolded(text + [' '] + more[0].text, more[1..])
  }

  function TrimLeft(s: string): string {
    if s != [] && (s[0] == ' ' || s[0] == '\t') then TrimLeft(s[1..]) else s
  }

  function TrimRight(s: string): string {
    if s != [] && (s[|s| - 1] == ' ' || s[|s| - 1] == '\t') then TrimRight(s[..|s| - 1]) else s
  }

  function Trim(s: string): string { TrimRight(TrimLeft(s)) }

  /** Where a character first occurs, or the length. */
  function Find(s: string, ch: char): (k: nat)
    ensures k <= |s| && ch !in s[..k] && (k < |s| ==> s[k] == ch)
  {
    if s == [] || s[0] == ch then 0
    else
      var k := Find(s[1..], ch);
      assert s[..k + 1] == [s[0]] + s[1..][..k];
      1 + k
  }

  /** The elements of a comma-separated list. */
  function Elements(s: string): seq<string>
    decreases |s|
  {
    var k := Find(s, ',');
    if k == |s| then [Trim(s)] else [Trim(s[..k])] + Elements(s[k + 1..])
  }

  predicate Names(h: Header, name: string) { h.FieldLine? && Folded(h.name) == name }

  /** The value of a field, unfolded and without regard to case. */
  function FieldValue(h: Header): string
    requires h.FieldLine?
  {
    Folded(Unfolded(h.first.text, h.more))
  }

  // ---- Characters ----

  /** The separators of section 2.2. */
  const SEPARATORS := "()<>@,;:\\\"/[]?={} \t"

  /** The tokens table holds the token characters of section 2.2: visible ASCII but for the separators. User information
      holds '%' and the characters of section 3.2.2 of RFC 2396; a path holds all visible ASCII but its two
      delimiters. */
  lemma Classes(c: char)
    ensures IsToken(c) <==> 0x21 <= c as int <= 0x7E && c !in SEPARATORS
    ensures IsUserinfo(c) <==> IsAlpha(c) || IsNum(c) || c in "-_.!~*'()" || c == '%' || c in ";:&=+$,"
    ensures IsUrlChar(c) <==> 0x21 <= c as int <= 0x7E && c !in "?#"
  {
  }

  // ---- What the fields say ----

  /** The transfer codings of all Transfer-Encoding fields, in order. */
  function Codings(headers: seq<Header>): seq<string> {
    if headers == [] then []
    else
      (if Names(headers[0], "transfer-encoding") then Elements(FieldValue(headers[0])) else []) + Codings(headers[1..])
  }

  predicate HasCoding(headers: seq<Header>) {
    exists i :: 0 <= i < |headers| && Names(headers[i], "transfer-encoding")
  }

  /** A transfer coding other than "identity" has been applied. */
  predicate Coded(headers: seq<Header>) {
    exists i :: 0 <= i < |Codings(headers)| && Codings(headers)[i] != "identity" && Codings(headers)[i] != []
  }

  /** The values of all Content-Length fields, in order. */
  function LengthValues(headers: seq<Header>): seq<string> {
    if headers == [] then []
    else
      (if Names(headers[0], "content-length") then [Trim(FieldValue(headers[0]))] else []) + LengthValues(headers[1..])
  }

  datatype Length = Absent | Decimal(n: nat) | Malformed

  /** One Content-Length of decimal digits. */
  function SentLength(headers: seq<Header>): Length {
    var vs := LengthValues(headers);
    if vs == [] then Absent
    else if |vs| == 1 && vs[0] != [] && Digits(10, vs[0]) then Decimal(Number(10, vs[0]))
    else Malformed
  }

  /** A body of a media type that delimits itself. */
  predicate Byteranges(headers: seq<Header>) {
    exists i :: 0 <= i < |headers| && Names(headers[i], "content-type") &&
      var v := FieldValue(headers[i]); Trim(v[..Find(v, ';')]) == "multipart/byteranges"
  }

  // ---- The five rules ----

  datatype Framing = ByChunks | ByLength(length: nat) | NoBody | BySelf | ToEof | Undefined

  /** A request, or a response with its status. */
  datatype Message = Message(isRequest: bool, status: nat, headers: seq<Header>)

  /** Rule 1: responses that never have a body, whatever their fields say. */
  predicate Bodiless(m: Message) { !m.isRequest && (m.status / 100 == 1 || m.status == 204 || m.status == 304) }

  /** Rule 2: a transfer coding means chunks, unless the end of the connection ends the body. Only a response can end
      so, and it must if "chunked" is not among its codings (section 3.6). */
  predicate SentInChunks(m: Message) { Coded(m.headers) && (m.isRequest || "chunked" in Codings(m.headers)) }

  /** Rules 4 and 5: neither coding nor length. A request then has no body (section 4.3). */
  function Unannounced(m: Message): Framing {
    if m.isRequest then NoBody else if Byteranges(m.headers) then BySelf else ToEof
  }

  /** Rule 3 in its place: a Content-Length received with a Transfer-Encoding is ignored. */
  function FramingOf(m: Message): Framing {
    if Bodiless(m) then NoBody
    else if Coded(m.headers) then (if SentInChunks(m) then ByChunks else ToEof)
    else if HasCoding(m.headers) then Unannounced(m)
    else
      match SentLength(m.headers)
      case Absent => Unannounced(m)
      case Decimal(n) => if n == 0 then NoBody else ByLength(n)
      case Malformed => Undefined
  }
}
