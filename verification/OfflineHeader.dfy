/** OfflineFileHeader (file_server/transfer_task.h:46-115): seven text fields of fixed width in a zeroed struct
    of 1024 bytes, written by strncpy and sprintf and read back as C strings and by atoi. */
module OfflineHeaders {
  import opened Bytes

  type Text = seq<Byte>

  const HEADER_SIZE: nat := 1024
  const TWO31: nat := 0x8000_0000

  /** A text that C string functions see whole. */
  predicate Clean(s: Text) { forall i :: 0 <= i < |s| ==> s[i] != 0 }

  // ---- Numbers as text ----

  predicate IsDigit(b: Byte) { 48 <= b <= 57 }

  /** sprintf with %u. */
  function Decimal(n: nat): (s: Text)
    ensures s != [] && Clean(s) && forall i :: 0 <= i < |s| ==> IsDigit(s[i])
  {
    if n < 10 then [n + 48] else Decimal(n / 10) + [n % 10 + 48]
  }

  function Pow10(k: nat): nat { if k == 0 then 1 else 10 * Pow10(k - 1) }

  lemma {:induction false} DecimalLength(n: nat, k: nat)
    requires 1 <= k && n < Pow10(k)
    ensures |Decimal(n)| <= k
  {
    if n >= 10 {
      DecimalLength(n / 10, k - 1);
    }
  }

  /** The printed form of the integer types of the header. */
  lemma Widths(n: nat)
    ensures n < TWO32 ==> |Decimal(n)| <= 10
    ensures n < TWO31 * TWO32 ==> |Decimal(n)| <= 19
  {
    assert Pow10(5) == 100_000;
    assert Pow10(10) == 10_000_000_000;
    assert Pow10(15) == 1_000_000_000_000_000;
    assert Pow10(19) == 10_000_000_000_000_000_000;
    if n < TWO32 {
      DecimalLength(n, 10);
    }
    if n < TWO31 * TWO32 {
      DecimalLength(n, 19);
    }
  }

  predicate IsSpace(b: Byte) { b == 32 || 9 <= b <= 13 }

  function SkipSpaces(s: Text): Text { if s != [] && IsSpace(s[0]) then SkipSpaces(s[1..]) else s }

  function LeadingNumber(s: Text, acc: nat): nat {
    if s == [] || !IsDigit(s[0]) then acc else LeadingNumber(s[1..], acc * 10 + (s[0] - 48))
  }

  /** The number atoi reads: blanks, a sign, digits up to the first other character. */
  function Atoi(s: Text): int {
    var t := SkipSpaces(s);
    if t != [] && t[0] == '-' as int then 0 - LeadingNumber(t[1..], 0)
    else if t != [] && t[0] == '+' as int then LeadingNumber(t[1..], 0)
    else LeadingNumber(t, 0)
  }

  /** string2int: atoi converted to uint32_t. What atoi makes of a number outside int is left to the C library:
      `wide` is its choice. */
  function String2Int(s: Text, wide: int -> Uint32): Uint32 {
    var v := Atoi(s);
    if 0 - TWO31 <= v < TWO31 then v % TWO32 else wide(v)
  }

  lemma {:induction false} LeadingNext(s: Text, acc: nat, d: Byte)
    requires (forall i :: 0 <= i < |s| ==> IsDigit(s[i])) && IsDigit(d)
    ensures LeadingNumber(s + [d], acc) == LeadingNumber(s, acc) * 10 + (d - 48)
  {
    if s == [] {
      assert s + [d] == [d] && [d][1..] == [];
    } else {
      LeadingNext(s[1..], acc * 10 + (s[0] - 48), d);
      assert (s + [d])[1..] == s[1..] + [d];
    }
  }

  lemma {:induction false} LeadingBack(n: nat)
    ensures LeadingNumber(Decimal(n), 0) == n
  {
    if n < 10 {
      assert [n + 48][1..] == [];
    } else {
      LeadingBack(n / 10);
      LeadingNext(Decimal(n / 10), 0, n % 10 + 48);
    }
  }

  /** A printed uint32_t is read back exactly when it is below 2^31 or the library's atoi happens to wrap. */
  lemma DecimalBack(n: Uint32, wide: int -> Uint32)
    ensures String2Int(Decimal(n), wide) == n <==> n < TWO31 || wide(n) == n
  {
    LeadingBack(n);
    assert IsDigit(Decimal(n)[0]);
  }

  // ---- C strings inside the struct ----

  /** The C string at an offset. Past the last field it ends with the struct. */
  function CText(b: seq<Byte>, at: nat): (s: Text)
    requires at <= |b|
    ensures Clean(s)
    decreases |b| - at
  {
    if at < |b| && b[at] != 0 then [b[at]] + CText(b, at + 1) else []
  }

  lemma {:induction false} CTextIs(b: seq<Byte>, at: nat, s: Text)
    requires at + |s| <= |b| && Clean(s) && (at + |s| < |b| ==> b[at + |s|] == 0)
    requires forall i :: at <= i < at + |s| ==> b[i] == s[i - at]
    ensures CText(b, at) == s
    decreases |s|
  {
    if s != [] {
      assert b[at] == s[0];
      CTextIs(b, at + 1, s[1..]);
    }
  }

  /** What the setters are given; the file name is always empty. */
  datatype Header = Header(taskId: Text, fromUser: Text, toUser: Text, createTime: Text, size: Text, md5: Text)

  /** The fields that sprintf writes stay, with their terminators, inside their arrays. The MD5 text is passed as a
      format string, so it has no '%'. */
  predicate Fits(h: Header) {
    |h.fromUser| < 64 && |h.toUser| < 64 && |h.createTime| < 128 && |h.size| < 64 && |h.md5| < 64 &&
    Clean(h.taskId) && Clean(h.fromUser) && Clean(h.toUser) && Clean(h.createTime) && Clean(h.size) && Clean(h.md5) &&
    '%' as int !in h.md5
  }

  function Field(s: Text, width: nat): (f: seq<Byte>)
    requires |s| <= width
    ensures |f| == width
  {
    s + Zeros(width - |s|)
  }

  /** strncpy takes at most 128 bytes of the task id, and then no terminator. */
  function Clip(s: Text): Text { if |s| > 128 then s[..128] else s }

  const FROM_AT: nat := 128
  const TO_AT: nat := 192
  const TIME_AT: nat := 256
  const SIZE_AT: nat := 896
  const MD5_AT: nat := 960

  function Encode(h: Header): (b: seq<Byte>)
    requires Fits(h)
    ensures |b| == HEADER_SIZE
  {
    Field(Clip(h.taskId), 128) + (Field(h.fromUser, 64) + (Field(h.toUser, 64) + (Field(h.createTime, 128) +
    (Field([], 512) + (Field(h.size, 64) + Field(h.md5, 64))))))
  }

  function Decode(b: seq<Byte>): Header
    requires |b| == HEADER_SIZE
  {
    Header(CText(b, 0), CText(b, FROM_AT), CText(b, TO_AT), CText(b, TIME_AT), CText(b, SIZE_AT), CText(b, MD5_AT))
  }

  /** The struct holds a field at an offset. */
  predicate Holds(b: seq<Byte>, at: nat, s: Text, width: nat) {
    |s| <= width && at + width <= |b| && b[at..at + width] == Field(s, width)
  }

  /** The next field of the struct and what follows it. */
  lemma Next(b: seq<Byte>, at: nat, x: seq<Byte>, y: seq<Byte>)
    requires at <= |b| && b[at..] == x + y
    ensures at + |x| <= |b| && b[at..at + |x|] == x && b[at + |x|..] == y
  {
    assert b[at..at + |x|] == b[at..][..|x|];
    assert b[at + |x|..] == b[at..][|x|..];
  }

  lemma EncodeHolds(h: Header)
    requires Fits(h)
    ensures var b := Encode(h);
            Holds(b, 0, Clip(h.taskId), 128) && Holds(b, FROM_AT, h.fromUser, 64) && Holds(b, TO_AT, h.toUser, 64) &&
            Holds(b, TIME_AT, h.createTime, 128) && Holds(b, SIZE_AT, h.size, 64) && Holds(b, MD5_AT, h.md5, 64)
  {
    hide Field;
    var b, f7 := Encode(h), Field(h.md5, 64);
    var t6 := Field(h.size, 64) + f7;
    var t5 := Field([], 512) + t6;
    var t4 := Field(h.createTime, 128) + t5;
    var t3 := Field(h.toUser, 64) + t4;
    var t2 := Field(h.fromUser, 64) + t3;
    assert b[0..] == b;
    Next(b, 0, Field(Clip(h.taskId), 128), t2);
    Next(b, FROM_AT, Field(h.fromUser, 64), t3);
    Next(b, TO_AT, Field(h.toUser, 64), t4);
    Next(b, TIME_AT, Field(h.createTime, 128), t5);
    Next(b, 384, Field([], 512), t6);
    Next(b, SIZE_AT, Field(h.size, 64), f7);
    assert b[MD5_AT..MD5_AT + 64] == b[MD5_AT..];
  }

  lemma HeldText(b: seq<Byte>, at: nat, s: Text, width: nat)
    requires Holds(b, at, s, width) && |s| < width && Clean(s)
    ensures CText(b, at) == s
  {
    forall i | 0 <= i < width
      ensures b[at + i] == Field(s, width)[i]
    {
      assert b[at + i] == b[at..at + width][i];
    }
    forall i | at <= i < at + |s|
      ensures b[i] == s[i - at]
    {
      assert b[at + (i - at)] == Field(s, width)[i - at];
    }
    assert b[at + |s|] == Field(s, width)[|s|] == 0;
    CTextIs(b, at, s);
  }

  /** A task id that fills its field runs on into the sender's id. */
  lemma FullTaskId(h: Header)
    requires Fits(h) && |h.taskId| >= 128
    ensures CText(Encode(h), 0) == h.taskId[..128] + h.fromUser
  {
    EncodeHolds(h);
    var b, s := Encode(h), h.taskId[..128] + h.fromUser;
    hide Encode;
    HeldFull(b, h.taskId[..128], h.fromUser);
    CTextIs(b, 0, s);
  }

  lemma HeldFull(b: seq<Byte>, s: Text, t: Text)
    requires |s| == 128 && |t| < 64 && Holds(b, 0, s, 128) && Holds(b, FROM_AT, t, 64)
    ensures |b| > 128 + |t| && b[128 + |t|] == 0
    ensures forall i :: 0 <= i < 128 + |t| ==> b[i] == (s + t)[i]
  {
    forall i | 0 <= i < 128 + |t|
      ensures b[i] == (s + t)[i]
    {
      if i < 128 {
        assert b[i] == b[0..128][i] == Field(s, 128)[i];
      } else {
        assert b[i] == b[128..192][i - 128] == Field(t, 64)[i - 128];
      }
    }
    assert b[128 + |t|] == b[128..192][|t|] == Field(t, 64)[|t|];
  }

  /** Every field but the task id is read back; the task id exactly when it leaves room for its terminator, or
      when the bytes it lost happen to be those of the next field. */
  lemma HeaderBack(h: Header)
    requires Fits(h)
    ensures Decode(Encode(h)) == h.(taskId := Decode(Encode(h)).taskId)
    ensures Decode(Encode(h)).taskId == h.taskId <==> |h.taskId| < 128 || h.taskId[128..] == h.fromUser
  {
    EncodeHolds(h);
    if |h.taskId| >= 128 {
      FullTaskId(h);
    }
    var b := Encode(h);
    hide Encode, Holds;
    HeldText(b, FROM_AT, h.fromUser, 64);
    HeldText(b, TO_AT, h.toUser, 64);
    HeldText(b, TIME_AT, h.createTime, 128);
    HeldText(b, SIZE_AT, h.size, 64);
    HeldText(b, MD5_AT, h.md5, 64);
    if |h.taskId| < 128 {
      HeldText(b, 0, h.taskId, 128);
    } else {
      var s, t := h.taskId[..128], h.fromUser;
      assert h.taskId == s + h.taskId[128..];
      assert (s + t)[128..] == t;
    }
  }

  // ---- The struct ----

  /** sprintf into a field: the text and its terminator, the rest as it was. */
  function Printed(field: seq<Byte>, s: Text): (f: seq<Byte>)
    requires |s| < |field|
    ensures |f| == |field| && (field == Zeros(|field|) ==> f == Field(s, |field|))
  {
    s + [0] + field[|s| + 1..]
  }

  /** strncpy(field, s, min(|field|, |s|)). */
  function Copied(field: seq<Byte>, s: Text): (f: seq<Byte>)
    requires |field| == 128
    ensures |f| == 128 && (field == Zeros(128) ==> f == Field(Clip(s), 128))
  {
    Clip(s) + field[|Clip(s)|..]
  }

  class OfflineFileHeader {
    var taskId: seq<Byte>
    var fromUser: seq<Byte>
    var toUser: seq<Byte>
    var createTime: seq<Byte>
    var fileName: seq<Byte>
    var fileSize: seq<Byte>
    var fileMd5: seq<Byte>

    /** The bytes fwrite puts into the file. */
    function Image(): seq<Byte>
      reads this
    {
      taskId + (fromUser + (toUser + (createTime + (fileName + (fileSize + fileMd5)))))
    }

    /** memset. */
    constructor ()
      ensures taskId == Zeros(128) && fromUser == Zeros(64) && toUser == Zeros(64) && createTime == Zeros(128)
      ensures fileName == Zeros(512) && fileSize == Zeros(64) && fileMd5 == Zeros(64)
    {
      taskId, fromUser, toUser, createTime := Zeros(128), Zeros(64), Zeros(64), Zeros(128);
      fileName, fileSize, fileMd5 := Zeros(512), Zeros(64), Zeros(64);
    }
  }

  /** The header written with the first block of an upload. */
  method FillHeader(h: Header) returns (b: seq<Byte>)
    requires Fits(h)
    ensures b == Encode(h)
  {
    var s := new OfflineFileHeader();
    s.createTime := Printed(s.createTime, h.createTime);
    s.taskId := Copied(s.taskId, h.taskId);
    s.fromUser := Printed(s.fromUser, h.fromUser);
    s.toUser := Printed(s.toUser, h.toUser);
    s.fileName := Printed(s.fileName, []);
    s.fileSize := Printed(s.fileSize, h.size);
    s.fileMd5 := Printed(s.fileMd5, h.md5);
    b := s.Image();
  }
}
