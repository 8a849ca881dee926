/** CSimpleBuffer: a growing byte queue, appended at the write offset and consumed at the front
    (base/UtilPdu.cpp:12-68). */
module SimpleBuffers {
  import opened Bytes

  /** The allocation made for a wanted size: a quarter more. */
  function Grown(size: nat): nat { size + size / 4 }

  /** A total for which the 32-bit arithmetic of Extend does not wrap. */
  predicate Fits(size: nat) { Grown(size) < TWO32 }

  function Poked(s: seq<Byte>, at: nat, v: Uint16): (t: seq<Byte>)
    requires at + 2 <= |s|
    ensures |t| == |s|
  {
    s[at := v / 256][at + 1 := v % 256]
  }

  class SimpleBuffer {
    var data: array<Byte>
    var offset: nat

    ghost predicate Valid()
      reads this
    {
      offset <= data.Length
    }

    ghost function Contents(): seq<Byte>
      requires Valid()
      reads this, data
    {
      data[..offset]
    }

    constructor ()
      ensures Valid() && fresh(data) && Contents() == []
    {
      data := new Byte[0];
      offset := 0;
    }

    /** realloc keeps the bytes below the write offset; the rest of the block is arbitrary. */
    method Extend(n: nat)
      requires Valid() && Fits(offset + n)
      modifies this
      ensures Valid() && fresh(data) && offset == old(offset) && data.Length == Grown(offset + n)
      ensures Contents() == old(Contents())
    {
      var size := offset + n;
      size := size + size / 4;
      var block := new Byte[size];
      forall i | 0 <= i < offset {
        block[i] := data[i];
      }
      data := block;
    }

    /** Write with a buffer. */
    method Write(bytes: seq<Byte>)
      requires Valid() && Fits(offset + |bytes|)
      modifies this, data
      ensures Valid() && (data == old(data) || fresh(data))
      ensures Contents() == old(Contents()) + bytes
    {
      if offset + |bytes| > data.Length {
        Extend(|bytes|);
      }
      forall i | 0 <= i < |bytes| {
        data[offset + i] := bytes[i];
      }
      offset := offset + |bytes|;
    }

    /** Write with a null buffer: the offset moves, the bytes are whatever was there. */
    method Reserve(n: nat)
      requires Valid() && Fits(offset + n)
      modifies this, data
      ensures Valid() && (data == old(data) || fresh(data)) && offset == old(offset) + n
      ensures Contents()[..old(offset)] == old(Contents())
    {
      if offset + n > data.Length {
        Extend(n);
      }
      offset := offset + n;
    }

    /** Read: take bytes from the front and move the rest down. */
    method Read(n: nat) returns (bytes: seq<Byte>)
      requires Valid()
      modifies this, data
      ensures Valid() && data == old(data)
      ensures var k := if n > old(offset) then old(offset) else n;
              bytes == old(Contents())[..k] && Contents() == old(Contents())[k..]
    {
      var k := if n > offset then offset else n;
      bytes := data[..k];
      var rest := offset - k;
      forall i | 0 <= i < rest {
        data[i] := data[i + k];
      }
      offset := rest;
    }

    /** Overwrite two bytes in place, as the header setters do. */
    method Poke16(at: nat, v: Uint16)
      requires Valid() && at + 2 <= offset
      modifies data
      ensures Contents() == Poked(old(Contents()), at, v)
    {
      data[at] := v / 256;
      data[at + 1] := v % 256;
    }
  }
}
