/** Base64 (section 4 of RFC 4648) with a 32-bit accumulator that is allowed to wrap
    (base/Base64.cpp:32-91). */
module Base64 {
  import opened Bytes

  /** The largest input base64_encode converts; larger inputs give an empty string. */
  const MAX_INPUT: nat := 0xFFFF_FFFF_FFFF_FFFF / 4 * 3

  type Sextet = v: int | 0 <= v < 64

  /** b64_table. */
  function Letter(v: Sextet): char {
    if v < 26 then (v + 'A' as int) as char
    else if v < 52 then (v - 26 + 'a' as int) as char
    else if v < 62 then (v - 52 + '0' as int) as char
    else if v == 62 then '+' else '/'
  }

  /** reverse_table: 64 for a character outside the alphabet. */
  function Reverse(c: char): (v: int)
    ensures 0 <= v <= 64
  {
    if 'A' <= c <= 'Z' then c as int - 'A' as int
    else if 'a' <= c <= 'z' then c as int - 'a' as int + 26
    else if '0' <= c <= '9' then c as int - '0' as int + 52
    else if c == '+' then 62 else if c == '/' then 63 else 64
  }

  predicate Skipped(c: char) {
    c == ' ' || c == '\t' || c == '\n' || c == '\r' || c == 11 as char || c == 12 as char || c == '='
  }

  lemma LetterReverse(v: Sextet)
    ensures Reverse(Letter(v)) == v && !Skipped(Letter(v))
  {
  }

  // ---- The encoding of RFC 4648, position by position ----

  function At(s: seq<Byte>, i: nat): Byte { if i < |s| then s[i] else 0 }

  /** The k-th group of six bits, missing bits taken as zero. */
  function SextetAt(s: seq<Byte>, k: nat): Sextet {
    var g := k / 4 * 3;
    var a: int, b: int, c: int := At(s, g), At(s, g + 1), At(s, g + 2);
    if k % 4 == 0 then a / 4
    else if k % 4 == 1 then a % 4 * 16 + b / 16
    else if k % 4 == 2 then b % 16 * 4 + c / 64
    else c % 64
  }

  /** How many letters n bytes need, before padding. */
  function Letters(n: nat): nat { (8 * n + 5) / 6 }

  function Padded(n: nat): nat { (n + 2) / 3 * 4 }

  function CharAt(s: seq<Byte>, k: nat): char {
    if k < Letters(|s|) then Letter(SextetAt(s, k)) else '='
  }

  /** RFC 4648 encoding. */
  function Encoding(s: seq<Byte>): (t: string)
    ensures |t| == Padded(|s|)
  {
    seq(Padded(|s|), k requires 0 <= k => CharAt(s, k))
  }

  /** The wrapped accumulator agrees with the last byte on the low bits still to be written. */
  predicate Holds(acc: nat, s: seq<Byte>, i: nat)
    requires i <= |s|
  {
    acc < TWO32 &&
    (i % 3 == 1 ==> acc % 4 == s[i - 1] % 4) &&
    (i % 3 == 2 ==> acc % 16 == s[i - 1] % 16)
  }

  /** The letters written so far. */
  predicate Written(t: seq<char>, s: seq<Byte>, n: nat) {
    n <= |t| && forall k :: 0 <= k < n ==> t[k] == Letter(SextetAt(s, k))
  }

  lemma Divides(n: int, d: nat, q: int, r: int)
    requires d == 4 || d == 16 || d == 64 || d == TWO32
    requires n == d * q + r && 0 <= r < d
    ensures n / d == q && n % d == r
  {
    if d == 4 {
    } else if d == 16 {
    } else if d == 64 {
    } else {
    }
  }

  /** A left shift of the accumulator, the top bits lost to the 32-bit width. */
  function Shift8(acc: nat): (r: nat)
    ensures r == 256 * (acc % 0x100_0000) <= TWO32 - 256
  {
    Divides(acc * 256, TWO32, acc / 0x100_0000, acc % 0x100_0000 * 256);
    acc * 256 % TWO32
  }

  function Shift6(acc: nat): (r: nat)
    ensures r == 64 * (acc % 0x400_0000) <= TWO32 - 64
  {
    Divides(acc * 64, TWO32, acc / 0x400_0000, acc % 0x400_0000 * 64);
    acc * 64 % TWO32
  }

  /** A right shift by an even number of bits below 8. */
  function Shr(acc: nat, bits: nat): nat {
    if bits == 0 then acc else if bits == 2 then acc / 4 else if bits == 4 then acc / 16 else acc / 64
  }

  lemma Top6(low: nat, b: Byte)
    ensures (256 * low + b) / 4 % 64 == b / 4
  {
    Divides(256 * low + b, 4, 64 * low + b / 4, b % 4);
    Divides(64 * low + b / 4, 64, low, b / 4);
  }

  lemma Mid6(low: nat, b: Byte)
    ensures (256 * low + b) / 16 % 64 == low % 4 * 16 + b / 16
  {
    Divides(256 * low + b, 16, 16 * low + b / 16, b % 16);
    Divides(16 * low + b / 16, 64, low / 4, low % 4 * 16 + b / 16);
  }

  lemma Low6(low: nat, b: Byte)
    ensures (256 * low + b) / 64 % 64 == low % 16 * 4 + b / 64
  {
    Divides(256 * low + b, 64, 4 * low + b / 64, b % 64);
    Divides(4 * low + b / 64, 64, low / 16, low % 16 * 4 + b / 64);
  }

  /** Which byte group a letter position belongs to. */
  lemma SextetIn(s: seq<Byte>, q: nat)
    ensures SextetAt(s, 4 * q) == At(s, 3 * q) / 4
    ensures SextetAt(s, 4 * q + 1) == At(s, 3 * q) % 4 * 16 + At(s, 3 * q + 1) / 16
    ensures SextetAt(s, 4 * q + 2) == At(s, 3 * q + 1) % 16 * 4 + At(s, 3 * q + 2) / 64
    ensures SextetAt(s, 4 * q + 3) == At(s, 3 * q + 2) % 64
  {
    hide At;
    Divides(4 * q, 4, q, 0);
    Divides(4 * q + 1, 4, q, 1);
    Divides(4 * q + 2, 4, q, 2);
    Divides(4 * q + 3, 4, q, 3);
  }

  /** The letter written at `pos` while `bits` bits remain is the one RFC 4648 puts there. */
  lemma GroupAt(acc: nat, s: seq<Byte>, i: nat, bits: nat, pos: nat)
    requires i < |s| && Holds(acc, s, i) && bits < 8 && 6 * (pos + 1) + bits == 8 * (i + 1)
    requires pos >= 8 * i / 6
    ensures Shr(Shift8(acc) + s[i], bits) % 64 == SextetAt(s, pos)
  {
    hide SextetAt, Shift8;
    var low, q := acc % 0x100_0000, i / 3;
    LowBits(acc);
    SextetIn(s, q);
    Place(i, bits, pos);
    if i == 3 * q {
      Top6(low, s[i]);
    } else if i == 3 * q + 1 {
      Mid6(low, s[i]);
    } else if bits == 6 {
      Low6(low, s[i]);
    } else {
      Divides(256 * low + s[i], 64, 4 * low + s[i] / 64, s[i] % 64);
    }
  }

  lemma LowBits(acc: nat)
    ensures acc % 0x100_0000 % 4 == acc % 4 && acc % 0x100_0000 % 16 == acc % 16
  {
    var high, low := acc / 0x100_0000, acc % 0x100_0000;
    Divides(acc, 4, 0x40_0000 * high + low / 4, low % 4);
    Divides(acc, 16, 0x10_0000 * high + low / 16, low % 16);
  }

  lemma Place(i: nat, bits: nat, pos: nat)
    requires bits < 8 && 6 * (pos + 1) + bits == 8 * (i + 1) && pos >= 8 * i / 6
    ensures var q := i / 3;
            (i == 3 * q && pos == 4 * q && bits == 2) || (i == 3 * q + 1 && pos == 4 * q + 1 && bits == 4) ||
            (i == 3 * q + 2 && pos == 4 * q + 2 && bits == 6) || (i == 3 * q + 2 && pos == 4 * q + 3 && bits == 0)
  {
  }

  lemma HoldsNext(acc: nat, s: seq<Byte>, i: nat)
    requires i < |s|
    ensures Holds(Shift8(acc) + s[i], s, i + 1)
  {
    var low, b: int := acc % 0x100_0000, s[i];
    Divides(256 * low + b, 4, 64 * low + b / 4, b % 4);
    Divides(256 * low + b, 16, 16 * low + b / 16, b % 16);
  }

  /** base64_encode. A nonempty input is demanded by the closing assert on the output position. */
  method Encode(s: seq<Byte>) returns (t: string)
    requires s != []
    ensures t == if |s| > MAX_INPUT then [] else Encoding(s)
  {
    if |s| > MAX_INPUT {
      return [];
    }
    var ret := new char[Padded(|s|)](_ => '=');
    var pos: nat, bits: nat, acc: nat := 0, 0, 0;
    for i := 0 to |s|
      invariant pos == 8 * i / 6 && 6 * pos + bits == 8 * i && Holds(acc, s, i)
      invariant Written(ret[..], s, pos) && forall k :: pos <= k < ret.Length ==> ret[k] == '='
    {
      ghost var before := acc;
      HoldsNext(acc, s, i);
      acc := Shift8(acc) + s[i];
      bits := bits + 8;
      while bits >= 6
        invariant pos >= 8 * i / 6 && 6 * pos + bits == 8 * (i + 1)
        invariant Written(ret[..], s, pos) && forall k :: pos <= k < ret.Length ==> ret[k] == '='
      {
        bits := bits - 6;
        GroupAt(before, s, i, bits, pos);
        ret[pos] := Letter(Shr(acc, bits) % 64);
        pos := pos + 1;
      }
    }
    if bits > 0 {
      assert bits < 6;
      LastGroup(acc, s, bits, pos);
      acc := ShiftLeft(acc, 6 - bits);
      ret[pos] := Letter(acc % 64);
      pos := pos + 1;
    }
    assert ret.Length - 2 <= pos <= ret.Length;
    t := ret[..];
  }

  /** The closing shift by 6 - bits, which is 2 or 4. */
  function ShiftLeft(acc: nat, k: nat): nat { (if k == 2 then acc * 4 else acc * 16) % TWO32 }

  lemma ShiftLeft2(acc: nat)
    ensures ShiftLeft(acc, 2) % 64 == acc % 16 * 4
  {
    Divides(acc * 4, TWO32, acc / 0x4000_0000, acc % 0x4000_0000 * 4);
    var low := acc % 0x4000_0000;
    Divides(low * 4, 64, low / 16, low % 16 * 4);
  }

  lemma ShiftLeft4(acc: nat)
    ensures ShiftLeft(acc, 4) % 64 == acc % 4 * 16
  {
    Divides(acc * 16, TWO32, acc / 0x1000_0000, acc % 0x1000_0000 * 16);
    var low := acc % 0x1000_0000;
    Divides(low * 16, 64, low / 4, low % 4 * 16);
  }

  lemma LastGroup(acc: nat, s: seq<Byte>, bits: nat, pos: nat)
    requires s != [] && Holds(acc, s, |s|) && 0 < bits < 6 && pos == 8 * |s| / 6 && 6 * pos + bits == 8 * |s|
    ensures ShiftLeft(acc, 6 - bits) % 64 == SextetAt(s, pos)
  {
    hide SextetAt, ShiftLeft;
    var q := |s| / 3;
    SextetIn(s, q);
    if |s| == 3 * q + 1 {
      assert pos == 4 * q + 1 && bits == 2;
      ShiftLeft4(acc);
    } else {
      assert |s| == 3 * q + 2 && pos == 4 * q + 2 && bits == 4;
      ShiftLeft2(acc);
    }
  }

  // ---- Decoding ----

  /** Does decoding give up on this character? */
  predicate Invalid(c: char) { !Skipped(c) && Reverse(c) > 63 }

  predicate AllValid(t: string) { forall i :: 0 <= i < |t| ==> !Invalid(t[i]) }

  /** The six-bit values of the characters that are not skipped. */
  function Values(t: string): seq<Sextet>
    requires AllValid(t)
  {
    if t == [] then []
    else
      var n := |t| - 1;
      Values(t[..n]) + if Skipped(t[n]) then [] else [Reverse(t[n])]
  }

  function ByteAt(vs: seq<Sextet>, j: nat): Byte
    requires 8 * (j + 1) <= 6 * |vs|
  {
    var g := j / 3 * 4;
    var a: int, b: int := vs[g], vs[g + 1];
    if j % 3 == 0 then a * 4 + b / 16
    else
      var c: int := vs[g + 2];
      if j % 3 == 1 then b % 16 * 16 + c / 4 else c % 4 * 64 + vs[g + 3]
  }

  function Join(vs: seq<Sextet>): (bytes: seq<Byte>)
    ensures |bytes| == 6 * |vs| / 8
  {
    seq(6 * |vs| / 8, j requires 0 <= j < 6 * |vs| / 8 => ByteAt(vs, j))
  }

  /** What base64_decode returns. */
  function Decoding(t: string): seq<Byte> { if AllValid(t) then Join(Values(t)) else [] }

  lemma {:induction false} FewValues(t: string)
    requires AllValid(t)
    ensures |Values(t)| <= |t|
  {
    if t != [] {
      FewValues(t[..|t| - 1]);
    }
  }

  /** Four characters give at most three bytes. */
  lemma DecodingShort(t: string)
    ensures 4 * |Decoding(t)| <= 3 * |t|
  {
    if AllValid(t) {
      FewValues(t);
    }
  }

  /** The accumulator agrees with the last value on the bits not yet emitted. */
  predicate Keeps(acc: nat, vs: seq<Sextet>) {
    acc < TWO32 &&
    (|vs| % 4 == 1 ==> acc % 64 == vs[|vs| - 1]) &&
    (|vs| % 4 == 2 ==> acc % 16 == vs[|vs| - 1] % 16) &&
    (|vs| % 4 == 3 ==> acc % 4 == vs[|vs| - 1] % 4)
  }

  lemma ByteIn(vs: seq<Sextet>, q: nat)
    requires 0 <= q
    ensures 4 * q + 2 <= |vs| ==> ByteAt(vs, 3 * q) as int == vs[4 * q] as int * 4 + vs[4 * q + 1] / 16
    ensures 4 * q + 3 <= |vs| ==> ByteAt(vs, 3 * q + 1) as int == vs[4 * q + 1] as int % 16 * 16 + vs[4 * q + 2] / 4
    ensures 4 * q + 4 <= |vs| ==> ByteAt(vs, 3 * q + 2) as int == vs[4 * q + 2] as int % 4 * 64 + vs[4 * q + 3]
  {
  }

  lemma Emit4(low: nat, v: Sextet)
    ensures (64 * low + v) / 16 % 256 == low % 64 * 4 + v / 16
  {
    Divides(64 * low + v, 16, 4 * low + v / 16, v % 16);
    assert 4 * low + v / 16 == 256 * (low / 64) + (low % 64 * 4 + v / 16);
  }

  lemma Emit2(low: nat, v: Sextet)
    ensures (64 * low + v) / 4 % 256 == low % 16 * 16 + v / 4
  {
    Divides(64 * low + v, 4, 16 * low + v / 4, v % 4);
    assert 16 * low + v / 4 == 256 * (low / 16) + (low % 16 * 16 + v / 4);
  }

  lemma Emit0(low: nat, v: Sextet)
    ensures (64 * low + v) % 256 == low % 4 * 64 + v
  {
    assert 64 * low + v == 256 * (low / 4) + (low % 4 * 64 + v);
  }

  lemma LowBits6(acc: nat)
    ensures var low := acc % 0x400_0000; low % 4 == acc % 4 && low % 16 == acc % 16 && low % 64 == acc % 64
  {
    var high, low := acc / 0x400_0000, acc % 0x400_0000;
    Divides(acc, 4, 0x100_0000 * high + low / 4, low % 4);
    Divides(acc, 16, 0x40_0000 * high + low / 16, low % 16);
    Divides(acc, 64, 0x10_0000 * high + low / 64, low % 64);
  }

  /** What a further value emits and leaves. */
  lemma Emits(acc: nat, vs: seq<Sextet>, v: Sextet)
    requires Keeps(acc, vs)
    ensures var m := |vs| + 1;
            var bits := 6 * m % 8;
            Keeps(Shift6(acc) + v, vs + [v]) &&
            (6 * m / 8 > 6 * |vs| / 8 ==>
               6 * m / 8 == 6 * |vs| / 8 + 1 && Shr(Shift6(acc) + v, bits) % 256 == ByteAt(vs + [v], 6 * |vs| / 8))
  {
    hide ByteAt, Shift6;
    var low, q := acc % 0x400_0000, |vs| / 4;
    LowBits6(acc);
    ByteIn(vs + [v], q);
    KeepsNext(acc, vs, v);
    if |vs| == 4 * q {
    } else if |vs| == 4 * q + 1 {
      Emit4(low, v);
    } else if |vs| == 4 * q + 2 {
      Emit2(low, v);
    } else {
      Emit0(low, v);
    }
  }

  lemma KeepsNext(acc: nat, vs: seq<Sextet>, v: Sextet)
    ensures Keeps(Shift6(acc) + v, vs + [v])
  {
    hide Shift6;
    var low := acc % 0x400_0000;
    Divides(64 * low + v, 64, low, v);
    Divides(64 * low + v, 16, 4 * low + v / 16, v % 16);
    Divides(64 * low + v, 4, 16 * low + v / 4, v % 4);
  }

  lemma ValuesNext(t: string, i: nat)
    requires i < |t| && AllValid(t[..i + 1])
    ensures AllValid(t[..i])
    ensures Values(t[..i + 1]) == Values(t[..i]) + if Skipped(t[i]) then [] else [Reverse(t[i])]
  {
    assert forall k :: 0 <= k < i ==> t[..i][k] == t[..i + 1][k];
    assert t[..i + 1][..i] == t[..i];
  }

  /** base64_decode: whitespace and '=' are skipped anywhere; any other stranger empties the result. */
  method Decode(t: string) returns (bytes: seq<Byte>)
    ensures bytes == Decoding(t)
  {
    hide ByteAt, Shift6, Keeps, Skipped, Reverse, Values, Join;
    bytes := [];
    var bits: nat, acc: nat := 0, 0;
    NothingYet();
    assert t[..0] == [];
    for i := 0 to |t|
      invariant AllValid(t[..i]) && Keeps(acc, Values(t[..i]))
      invariant bits == 6 * |Values(t[..i])| % 8 && bytes == Join(Values(t[..i]))
    {
      if !Skipped(t[i]) && Reverse(t[i]) > 63 {
        assert Invalid(t[i]);
        return [];
      }
      assert AllValid(t[..i + 1]);
      ValuesNext(t, i);
      ghost var vs := Values(t[..i]);
      if Skipped(t[i]) {
        assert vs + [] == vs;
        continue;
      }
      var v: Sextet := Reverse(t[i]);
      Emits(acc, vs, v);
      JoinNext(vs, v);
      acc := Shift6(acc) + v;
      bits := bits + 6;
      if bits >= 8 {
        bits := bits - 8;
        bytes := bytes + [Shr(acc, bits) % 256];
      }
    }
    assert t[..|t|] == t;
  }

  lemma NothingYet()
    ensures Values([]) == [] && Keeps(0, []) && Join([]) == []
  {
  }

  lemma JoinNext(vs: seq<Sextet>, v: Sextet)
    ensures var m := 6 * |vs| / 8;
            Join(vs + [v]) == Join(vs) + if 6 * (|vs| + 1) / 8 > m then [ByteAt(vs + [v], m)] else []
  {
    forall j | 0 <= j < |Join(vs)|
      ensures ByteAt(vs + [v], j) == ByteAt(vs, j)
    {
      ByteIn(vs, j / 3);
      ByteIn(vs + [v], j / 3);
    }
  }

  // ---- Round trip ----

  function Sextets(s: seq<Byte>, k: nat): seq<Sextet> { seq(k, i requires 0 <= i => SextetAt(s, i)) }

  lemma EncodingValid(s: seq<Byte>)
    ensures AllValid(Encoding(s))
  {
    forall k | 0 <= k < |Encoding(s)|
      ensures !Invalid(Encoding(s)[k])
    {
      LetterReverse(SextetAt(s, k));
    }
  }

  lemma {:induction false} ValuesOfEncoding(s: seq<Byte>, k: nat)
    requires k <= Padded(|s|) && AllValid(Encoding(s)[..k])
    ensures Values(Encoding(s)[..k]) == Sextets(s, if k < Letters(|s|) then k else Letters(|s|))
  {
    hide SextetAt, Reverse, Letter;
    if k > 0 {
      ValuesNext(Encoding(s), k - 1);
      ValuesOfEncoding(s, k - 1);
      LetterReverse(SextetAt(s, k - 1));
    }
  }

  lemma Enough(n: nat, q: nat)
    ensures 3 * q < n ==> 4 * q + 2 <= Letters(n)
    ensures 3 * q + 1 < n ==> 4 * q + 3 <= Letters(n)
    ensures 3 * q + 2 < n ==> 4 * q + 4 <= Letters(n)
  {
  }

  /** Three bytes come back from their four letters. */
  lemma SextetsJoin(s: seq<Byte>, j: nat)
    requires j < |s|
    ensures 8 * (j + 1) <= 6 * Letters(|s|) && ByteAt(Sextets(s, Letters(|s|)), j) == s[j]
  {
    hide ByteAt, SextetAt, Letters;
    var q := j / 3;
    Enough(|s|, q);
    assert j == 3 * q || j == 3 * q + 1 || j == 3 * q + 2;
    ByteIn(Sextets(s, Letters(|s|)), q);
    SextetIn(s, q);
    Back(At(s, 3 * q), At(s, 3 * q + 1), At(s, 3 * q + 2));
  }

  lemma Back(a: Byte, b: Byte, c: Byte)
    ensures a / 4 * 4 + (a % 4 * 16 + b / 16) / 16 == a
    ensures (a % 4 * 16 + b / 16) % 16 * 16 + (b % 16 * 4 + c / 64) / 4 == b
    ensures (b % 16 * 4 + c / 64) % 4 * 64 + c % 64 == c
  {
  }

  /** Decoding undoes encoding, whatever the length. */
  lemma RoundTrip(s: seq<Byte>)
    ensures Decoding(Encoding(s)) == s
  {
    EncodingValid(s);
    var t := Encoding(s);
    assert t[..|t|] == t;
    ValuesOfEncoding(s, |t|);
    assert 6 * Letters(|s|) / 8 == |s|;
    forall j | 0 <= j < |s|
      ensures Join(Values(t))[j] == s[j]
    {
      SextetsJoin(s, j);
    }
  }

  lemma {:induction false} ValuesConcat(a: string, b: string)
    requires AllValid(a) && AllValid(b)
    ensures AllValid(a + b) && Values(a + b) == Values(a) + Values(b)
  {
    if b == [] {
      assert a + b == a;
    } else {
      var n := |b| - 1;
      ValuesConcat(a, b[..n]);
      assert (a + b)[..|a + b| - 1] == a + b[..n];
    }
  }

  lemma {:induction false} ValuesSkipped(w: string)
    requires forall i :: 0 <= i < |w| ==> Skipped(w[i])
    ensures AllValid(w) && Values(w) == []
  {
    if w != [] {
      ValuesSkipped(w[..|w| - 1]);
    }
  }

  /** A character that is neither of the 64 letters, nor whitespace, nor '=' empties the decode. */
  lemma StrangerEmpties(t: string, i: nat)
    requires i < |t| && !('A' <= t[i] <= 'Z') && !('a' <= t[i] <= 'z') && !('0' <= t[i] <= '9')
    requires t[i] != '+' && t[i] != '/' && t[i] != '=' && t[i] != ' ' && !(9 <= t[i] as int <= 13)
    ensures Decoding(t) == []
  {
    assert Invalid(t[i]);
  }

  /** Inserting whitespace or padding anywhere does not change the decode. */
  lemma SkipsAnywhere(a: string, w: string, b: string)
    requires forall i :: 0 <= i < |w| ==> w[i] == ' ' || w[i] == '=' || 9 <= w[i] as int <= 13
    ensures Decoding(a + w + b) == Decoding(a + b)
  {
    ValuesSkipped(w);
    if AllValid(a) && AllValid(b) {
      ValuesConcat(a, b);
      ValuesConcat(a, w);
      ValuesConcat(a + w, b);
      assert Values(a) + [] == Values(a);
    } else if !AllValid(a) {
      var i :| 0 <= i < |a| && Invalid(a[i]);
      assert Invalid((a + b)[i]) && Invalid((a + w + b)[i]);
    } else {
      var i :| 0 <= i < |b| && Invalid(b[i]);
      assert Invalid((a + b)[|a| + i]) && Invalid((a + w + b)[|a + w| + i]);
    }
  }
}
