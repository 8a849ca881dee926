/** idtourl and urltoid (base/UtilPdu.cpp:289-342): a user id as a version digit and a base-36
    number, in 32-bit arithmetic. */
module IdUrl {
  import opened Bytes

  function Digit36(d: nat): char
    requires d < 36
  {
    if d < 10 then (d + '0' as int) as char else (d - 10 + 'a' as int) as char
  }

  /** The value of a character, or 36 for one that is passed over. */
  function Value36(c: char): (d: nat)
    ensures d <= 36
  {
    if '0' <= c <= '9' then c as int - '0' as int
    else if 'a' <= c <= 'z' then c as int - 'a' as int + 10
    else if 'A' <= c <= 'Z' then c as int - 'A' as int + 10
    else 36
  }

  function Base36(n: nat): (s: string)
    ensures s != []
  {
    if n < 36 then [Digit36(n)] else Base36(n / 36) + [Digit36(n % 36)]
  }

  /** The number accumulated over a text, modulo 2^32. */
  function Number36(s: string): (n: nat)
    ensures n < TWO32
  {
    if s == [] then 0
    else
      var n := Number36(s[..|s| - 1]);
      var d := Value36(s[|s| - 1]);
      if d == 36 then n else (n * 36 + d) % TWO32
  }

  /** The id packed before it is written in base 36. */
  function Pack(id: Uint32): Uint32 { (id * 2 + 56) % TWO32 }

  method IdToUrl(id: Uint32) returns (url: string)
    ensures url == ['1'] + Base36(Pack(id))
  {
    var value: nat := (id * 2 + 56) % TWO32;
    url := [Digit36(value % 36)];
    value := value / 36;
    while value != 0
      invariant Base36(Pack(id)) == if value == 0 then url else Base36(value) + url
    {
      if value >= 36 {
        assert Base36(value) + url == Base36(value / 36) + ([Digit36(value % 36)] + url);
      } else {
        assert value % 36 == value && value / 36 == 0;
      }
      url := [Digit36(value % 36)] + url;
      value := value / 36;
    }
    url := ['1'] + url;
  }

  /** urltoid passes over the version digit. */
  function Unpack(url: string): Uint32 {
    if url == [] then (TWO32 - 56) / 2 else ((Number36(url[1..]) + TWO32 - 56) % TWO32) / 2
  }

  method UrlToId(url: string) returns (id: Uint32)
    ensures id == Unpack(url)
  {
    var number: nat := 0;
    var i := 1;
    while i < |url|
      invariant 1 <= i && (|url| > 0 ==> i <= |url| && number == Number36(url[1..i])) && (|url| == 0 ==> number == 0)
    {
      var d := Value36(url[i]);
      assert url[1..i + 1][..i - 1] == url[1..i];
      if d != 36 {
        number := (number * 36 + d) % TWO32;
      }
      i := i + 1;
    }
    assert |url| > 0 ==> url[1..|url|] == url[1..];
    id := ((number + TWO32 - 56) % TWO32) / 2;
  }

  lemma DigitBack(d: nat)
    requires d < 36
    ensures Value36(Digit36(d)) == d
  {
  }

  lemma {:induction false} Base36Back(n: nat)
    requires n < TWO32
    ensures Number36(Base36(n)) == n
  {
    var s := Base36(n);
    if n < 36 {
      DigitBack(n);
      assert s[..0] == [];
    } else {
      Base36Back(n / 36);
      DigitBack(n % 36);
      assert s[..|s| - 1] == Base36(n / 36);
      assert n / 36 * 36 + n % 36 == n;
    }
  }

  lemma PackBack(id: Uint32)
    ensures (Pack(id) + TWO32 - 56) % TWO32 / 2 == id <==> id < 0x8000_0000
  {
  }

  /** The id comes back exactly when its top bit is clear: doubling loses that bit. */
  lemma IdRoundTrip(id: Uint32)
    ensures Unpack(['1'] + Base36(Pack(id))) == id <==> id < 0x8000_0000
  {
    hide Number36, Base36;
    Base36Back(Pack(id));
    PackBack(id);
    assert (['1'] + Base36(Pack(id)))[1..] == Base36(Pack(id));
  }
}
