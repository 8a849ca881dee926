/** CAes::Encrypt and CAes::Decrypt (base/EncDec.cpp:23-97): zero padding, a big-endian length
    trailer in the last four bytes, block by block encryption, Base64. The cipher is any map on
    16-byte blocks. */
module AesEnvelope {
  import opened Bytes
  import opened Base64

  type Block = b: seq<Byte> | |b| == 16 witness seq(16, _ => 0)

  /** One block more when the trailer does not fit behind the data. */
  function BlockCount(n: nat): nat {
    (n + 15) / 16 + if n % 16 > 12 || n % 16 == 0 then 1 else 0
  }

  /** The trailer never overlaps the data, and no block is wasted. */
  lemma TrailerClear(n: nat)
    ensures n + 4 <= 16 * BlockCount(n) < n + 20
  {
  }

  /** Data, zeros, length. */
  function Padding(x: seq<Byte>): (p: seq<Byte>)
    requires |x| < TWO32
    ensures |p| == 16 * BlockCount(|x|) && |p| % 16 == 0
  {
    TrailerClear(|x|);
    x + Zeros(16 * BlockCount(|x|) - |x| - 4) + Be32(|x|)
  }

  lemma PaddingParts(x: seq<Byte>)
    requires |x| < TWO32
    ensures var p := Padding(x); |p| >= |x| + 4 && p[..|x|] == x && p[|p| - 4..] == Be32(|x|)
  {
    hide Be32, Zeros, BlockCount;
    TrailerClear(|x|);
  }

  function MapBlocks(f: Block -> Block, s: seq<Byte>): (r: seq<Byte>)
    requires |s| % 16 == 0
    ensures |r| == |s|
  {
    if s == [] then [] else f(s[..16]) + MapBlocks(f, s[16..])
  }

  lemma {:induction false} MapNext(f: Block -> Block, s: seq<Byte>, b: Block)
    requires |s| % 16 == 0
    ensures MapBlocks(f, s + b) == MapBlocks(f, s) + f(b)
  {
    if s == [] {
      assert s + b == b && b[..16] == b && b[16..] == [];
      assert MapBlocks(f, b) == f(b) + MapBlocks(f, []);
    } else {
      MapNext(f, s[16..], b);
      assert (s + b)[..16] == s[..16] && (s + b)[16..] == s[16..] + b;
    }
  }

  lemma {:induction false} MapInverse(f: Block -> Block, g: Block -> Block, s: seq<Byte>)
    requires |s| % 16 == 0 && forall b: Block :: g(f(b)) == b
    ensures MapBlocks(g, MapBlocks(f, s)) == s
  {
    if s != [] {
      MapInverse(f, g, s[16..]);
      var r := MapBlocks(f, s);
      assert r[..16] == f(s[..16]) && r[16..] == MapBlocks(f, s[16..]);
    }
  }

  method PutBlock(out: array<Byte>, at: nat, c: Block)
    requires at + 16 <= out.Length
    modifies out
    ensures out[..at + 16] == old(out[..at]) + c
  {
    forall j | 0 <= j < 16 {
      out[at + j] := c[j];
    }
  }

  /** The block loop shared by both directions. */
  method ApplyBlocks(f: Block -> Block, data: array<Byte>) returns (out: array<Byte>)
    requires data.Length % 16 == 0
    ensures fresh(out) && out.Length == data.Length && out[..] == MapBlocks(f, data[..])
  {
    out := new Byte[data.Length];
    var blocks := data.Length / 16;
    ghost var src := data[..];
    assert src[..0] == [];
    for i := 0 to blocks
      invariant data[..] == src && out[..16 * i] == MapBlocks(f, src[..16 * i])
    {
      hide MapBlocks;
      var at := 16 * i;
      assert src[at..at + 16] == data[at..at + 16];
      var c: Block := f(data[at..at + 16]);
      PutBlock(out, at, c);
      MapNext(f, src[..at], src[at..at + 16]);
      assert src[..at + 16] == src[..at] + src[at..at + 16];
    }
    assert out[..16 * blocks] == out[..] && src[..16 * blocks] == src;
  }

  datatype Sealed = SealError(code: int) | Sealed(text: string)

  datatype Opened = OpenError(code: int) | Opened(plain: seq<Byte>)

  /** The buffer size is computed without wrapping; beyond that the code overruns its buffer. */
  predicate Paddable(n: nat) { 16 * BlockCount(n) < TWO32 }

  lemma PaddableShort(n: nat)
    requires Paddable(n)
    ensures n + 4 < TWO32
  {
    TrailerClear(n);
  }

  /** The output length is a uint32_t too, and cuts the text when it wraps. */
  function Cut(text: string): string { text[..|text| % TWO32] }

  function Seal(enc: Block -> Block, x: seq<Byte>): Sealed
    requires Paddable(|x|)
  {
    PaddableShort(|x|);
    if x == [] then SealError(-1) else Sealed(Cut(Encoding(MapBlocks(enc, Padding(x)))))
  }

  function Open(dec: Block -> Block, t: string): Opened {
    if t == [] then OpenError(-1)
    else
      var cipher := Decoding(t);
      if cipher == [] then OpenError(-2)
      else if |cipher| % 16 != 0 then OpenError(-3)
      else
        var plain := MapBlocks(dec, cipher);
        var n := Read32(plain[|plain| - 4..]);
        if n > |plain| then OpenError(-4) else Opened(plain[..n])
  }

  /** calloc, memcpy, WriteUint32. */
  method Pad(x: seq<Byte>, blocks: nat) returns (data: array<Byte>)
    requires Paddable(|x|) && blocks == BlockCount(|x|)
    ensures |x| < TWO32 && fresh(data) && data[..] == Padding(x)
  {
    hide Be32, BlockCount;
    TrailerClear(|x|);
    PaddableShort(|x|);
    var size := blocks * 16;
    data := new Byte[size](_ => 0);
    forall i | 0 <= i < |x| {
      data[i] := x[i];
    }
    var trailer := Be32(|x|);
    forall i | 0 <= i < 4 {
      data[size - 4 + i] := trailer[i];
    }
  }

  method Encrypt(enc: Block -> Block, x: seq<Byte>) returns (r: Sealed)
    requires Paddable(|x|)
    ensures r == Seal(enc, x)
  {
    if x == [] {
      return SealError(-1);
    }
    var remain := |x| % 16;
    var blocks := (|x| + 15) / 16;
    if remain > 12 || remain == 0 {
      blocks := blocks + 1;
    }
    TrailerClear(|x|);
    var data := Pad(x, blocks);
    var cipher := ApplyBlocks(enc, data);
    var text := Encode(cipher[..]);
    r := Sealed(text[..|text| % TWO32]);
  }

  method Decrypt(dec: Block -> Block, t: string) returns (r: Opened)
    requires |t| < TWO32
    ensures r == Open(dec, t)
    ensures t == [] <==> r == OpenError(-1)
    ensures r == OpenError(-2) <==> t != [] && Decoding(t) == []
    ensures r == OpenError(-3) <==> |Decoding(t)| % 16 != 0 && t != []
    ensures r.Opened? ==> |Decoding(t)| >= 16 && |Decoding(t)| % 16 == 0 && |r.plain| <= |Decoding(t)|
    ensures r.Opened? || r.code in {-1, -2, -3, -4}
  {
    if t == [] {
      return OpenError(-1);
    }
    var cipher := Decode(t);
    if cipher == [] {
      return OpenError(-2);
    }
    if |cipher| % 16 != 0 {
      return OpenError(-3);
    }
    var data := new Byte[|cipher|](i requires 0 <= i < |cipher| => cipher[i]);
    assert data[..] == cipher;
    var plain := ApplyBlocks(dec, data);
    var n := Read32(plain[plain.Length - 4..]);
    if n > plain.Length {
      return OpenError(-4);
    }
    r := Opened(plain[..n]);
  }

  /** Is the text of a plaintext of n bytes short enough for a 32-bit length? */
  predicate Sealable(n: nat) { Padded(16 * BlockCount(n)) < TWO32 }

  /** Up to 2^31 bytes it is. */
  lemma SealableUpTo(n: nat)
    requires n <= 0x8000_0000
    ensures Sealable(n) && Paddable(n)
  {
    TrailerClear(n);
  }

  lemma WholeRoundTrip(enc: Block -> Block, dec: Block -> Block, x: seq<Byte>)
    requires x != [] && Paddable(|x|) && Sealable(|x|) && forall b: Block :: dec(enc(b)) == b
    ensures Open(dec, Seal(enc, x).text) == Opened(x)
  {
    hide Encoding, Decoding, BlockCount, Be32, Read32, Padding, MapBlocks;
    PaddableShort(|x|);
    PaddingParts(x);
    var p := Padding(x);
    var cipher := MapBlocks(enc, p);
    assert Cut(Encoding(cipher)) == Encoding(cipher);
    Base64.RoundTrip(cipher);
    MapInverse(enc, dec, p);
    Round32(|x|, []);
    assert Be32(|x|) + [] == Be32(|x|);
  }

  /** A cut text decodes to less than the plaintext. */
  lemma CutShort(text: string, n: nat)
    requires Paddable(n) && !Sealable(n) && |text| == Padded(16 * BlockCount(n))
    ensures |Decoding(Cut(text))| < n
  {
    hide Decoding;
    TrailerClear(n);
    DecodingShort(Cut(text));
  }

  /** With a cipher that inverts block by block, opening a sealed text returns the text and its length exactly when
      the length of the Base64 text fits in 32 bits, and so for every length from 1 byte to 2^31 bytes. */
  lemma RoundTrip(enc: Block -> Block, dec: Block -> Block, x: seq<Byte>)
    requires x != [] && Paddable(|x|) && forall b: Block :: dec(enc(b)) == b
    ensures Seal(enc, x).Sealed? && (Open(dec, Seal(enc, x).text) == Opened(x) <==> Sealable(|x|))
    ensures |x| <= 0x8000_0000 ==> Sealable(|x|)
  {
    if Sealable(|x|) {
      WholeRoundTrip(enc, dec, x);
    } else {
      hide Encoding, Decoding, BlockCount, Be32, Read32, Padding, MapBlocks, Cut;
      PaddableShort(|x|);
      CutShort(Encoding(MapBlocks(enc, Padding(x))), |x|);
    }
    if |x| <= 0x8000_0000 {
      SealableUpTo(|x|);
    }
  }
}
