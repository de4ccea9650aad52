/** Netty's byte buffer as the packet code uses it: a read cursor with a mark, and appending writes. */
module ByteBufs {
  import opened Wrappers
  import opened IpText
  import opened JavaInt

  type u16 = x: int | 0 <= x < 0x1_0000
  type u32 = x: int | 0 <= x < 0x1_0000_0000

  function U16(b: seq<byte>, i: nat): u16
    requires i + 2 <= |b|
  {
    var hi: int, lo: int := b[i], b[i + 1];
    hi * 0x100 + lo
  }

  function U32(b: seq<byte>, i: nat): u32
    requires i + 4 <= |b|
  {
    var hi: int, lo: int := U16(b, i), U16(b, i + 2);
    hi * 0x1_0000 + lo
  }

  // The low bytes of v, big-endian: what writeByte, writeShort and writeInt keep of an int.
  function Byte(v: int): byte {
    v % 0x100
  }

  function Be16(v: int): (b: seq<byte>)
    ensures |b| == 2
  {
    [Byte(v / 0x100), Byte(v)]
  }

  function Be32(v: int): (b: seq<byte>)
    ensures |b| == 4
  {
    Be16(v / 0x1_0000) + Be16(v)
  }

  lemma SmallByte(v: byte)
    ensures Byte(v) == v
  {
  }

  lemma Be16OfU16(b: seq<byte>, i: nat)
    requires i + 2 <= |b|
    ensures Be16(U16(b, i)) == b[i..i + 2]
  {
  }

  lemma U16OfBe16(v: u16, rest: seq<byte>)
    ensures U16(Be16(v) + rest, 0) == v
  {
  }

  lemma DivMod(x: int, q: int, r: int, m: int)
    requires 0 <= r < m && x == q * m + r
    ensures x / m == q && x % m == r
  {
    DivUnique(x, m, q);
    assert x == x / m * m + x % m;
  }

  lemma Halves(hi: int, lo: int)
    requires 0 <= lo < 0x1_0000
    ensures var x := hi * 0x1_0000 + lo;
            && x / 0x1_0000 == hi && x / 0x100_0000 == hi / 0x100
            && x / 0x100 % 256 == lo / 0x100 % 256 && x % 256 == lo % 256
  {
    var x := hi * 0x1_0000 + lo;
    var q, r := lo / 0x100, lo % 0x100;
    DivMod(x, hi, lo, 0x1_0000);
    DivMod(x, hi * 0x100 + q, r, 0x100);
    DivMod(hi * 0x100 + q, hi, q, 0x100);
    DivMod(x, hi / 0x100, hi % 0x100 * 0x1_0000 + lo, 0x100_0000);
    DivMod(q, 0, q, 0x100);
  }

  lemma Be32OfU32(b: seq<byte>, i: nat)
    requires i + 4 <= |b|
    ensures Be32(U32(b, i)) == b[i..i + 4]
  {
    Be16OfU16(b, i);
    Be16OfU16(b, i + 2);
    Halves(U16(b, i), U16(b, i + 2));
  }

  // Grouping of the pieces of a packet: front, start, field, middle, options, payload.
  lemma Regroup(f: seq<byte>, x: seq<byte>, c: seq<byte>, y: seq<byte>, o: seq<byte>, p: seq<byte>)
    ensures f + (x + c + y) + o + p == f + x + c + (y + o + p)
  {
  }

  lemma SplitTail(b: seq<byte>, i: nat, j: nat, k: nat)
    requires i <= j <= k <= |b|
    ensures b[i..] == b[i..j] + b[j..k] + b[k..]
  {
  }

  class ByteBuf {
    var data: seq<byte>
    var reader: nat
    var mark: nat

    ghost predicate Valid()
      reads this
    {
      reader <= |data| && mark <= |data|
    }

    // What is left to read.
    function Rest(): seq<byte>
      requires Valid()
      reads this
    {
      data[reader..]
    }

    // What resetReaderIndex leaves to read: it does not depend on the cursor.
    function FromMark(): seq<byte>
      requires Valid()
      reads this
    {
      data[mark..]
    }

    constructor (bytes: seq<byte>)
      ensures data == bytes && reader == 0 && mark == 0
    {
      data, reader, mark := bytes, 0, 0;
    }

    function ReadableBytes(): nat
      requires Valid()
      reads this
    {
      |data| - reader
    }

    method MarkReaderIndex()
      modifies `mark
      ensures mark == reader
    {
      mark := reader;
    }

    method ResetReaderIndex()
      modifies `reader
      ensures reader == mark
    {
      reader := mark;
    }

    method ReadUnsignedByte() returns (r: Option<byte>)
      requires Valid()
      modifies `reader
      ensures Valid()
      ensures old(ReadableBytes()) < 1 ==> r == None && reader == old(reader)
      ensures old(ReadableBytes()) >= 1 ==> r == Some(data[old(reader)]) && reader == old(reader) + 1
    {
      if ReadableBytes() < 1 {
        return None;
      }
      r := Some(data[reader]);
      reader := reader + 1;
    }

    method ReadUnsignedShort() returns (r: Option<u16>)
      requires Valid()
      modifies `reader
      ensures Valid()
      ensures old(ReadableBytes()) < 2 ==> r == None && reader == old(reader)
      ensures old(ReadableBytes()) >= 2 ==> r == Some(U16(data, old(reader))) && reader == old(reader) + 2
    {
      if ReadableBytes() < 2 {
        return None;
      }
      r := Some(U16(data, reader));
      reader := reader + 2;
    }

    method ReadUnsignedInt() returns (r: Option<u32>)
      requires Valid()
      modifies `reader
      ensures Valid()
      ensures old(ReadableBytes()) < 4 ==> r == None && reader == old(reader)
      ensures old(ReadableBytes()) >= 4 ==> r == Some(U32(data, old(reader))) && reader == old(reader) + 4
    {
      if ReadableBytes() < 4 {
        return None;
      }
      r := Some(U32(data, reader));
      reader := reader + 4;
    }

    // readBytes into a fresh array, and skipBytes when the result is dropped.
    method ReadBytes(n: int) returns (r: Option<seq<byte>>)
      requires Valid()
      modifies `reader
      ensures Valid()
      ensures n < 0 || old(ReadableBytes()) < n ==> r == None && reader == old(reader)
      ensures 0 <= n <= old(ReadableBytes()) ==>
                r == Some(data[old(reader)..old(reader) + n]) && reader == old(reader) + n
    {
      if n < 0 || ReadableBytes() < n {
        return None;
      }
      r := Some(data[reader..reader + n]);
      reader := reader + n;
    }

    // A view of the next n bytes with a cursor of its own; nothing writes through it.
    method ReadSlice(n: int) returns (r: Option<ByteBuf>)
      requires Valid()
      modifies `reader
      ensures Valid()
      ensures n < 0 || old(ReadableBytes()) < n ==> r == None && reader == old(reader)
      ensures 0 <= n <= old(ReadableBytes()) ==>
                && r.Some? && fresh(r.value) && r.value.Valid() && reader == old(reader) + n
                && r.value.data == data[old(reader)..old(reader) + n] && r.value.reader == 0 && r.value.mark == 0
    {
      var bytes :- ReadBytes(n);
      var slice := new ByteBuf(bytes);
      r := Some(slice);
    }

    method WriteByte(v: int)
      requires Valid()
      modifies `data
      ensures Valid() && data == old(data) + [Byte(v)]
    {
      data := data + [Byte(v)];
    }

    method WriteShort(v: int)
      requires Valid()
      modifies `data
      ensures Valid() && data == old(data) + Be16(v)
    {
      data := data + Be16(v);
    }

    method WriteInt(v: int)
      requires Valid()
      modifies `data
      ensures Valid() && data == old(data) + Be32(v)
    {
      data := data + Be32(v);
    }

    method WriteArray(bytes: seq<byte>)
      requires Valid()
      modifies `data
      ensures Valid() && data == old(data) + bytes
    {
      data := data + bytes;
    }

    // writeBytes(ByteBuf) consumes what it copies: the source's cursor ends at its end.
    method WriteBytes(src: ByteBuf)
      requires Valid() && src.Valid() && src != this
      modifies `data, src`reader
      ensures Valid() && data == old(data) + old(src.Rest())
      ensures src.Valid() && src.reader == |src.data|
    {
      data := data + src.Rest();
      src.reader := |src.data|;
    }
  }

  // Words are read and written with the most significant byte first.
  lemma WordLayout(b: seq<byte>, i: nat)
    requires i + 4 <= |b|
    ensures U16(b, i) as int == b[i] as int * 256 + b[i + 1] as int
    ensures U32(b, i) as int
            == b[i] as int * 0x100_0000 + b[i + 1] as int * 0x1_0000 + b[i + 2] as int * 256 + b[i + 3] as int
  {
  }

  lemma ShortLayout(v: u16)
    ensures Be16(v) == [v / 256, v % 256]
  {
  }

  lemma IntLayout(v: u32)
    ensures Be32(v) == [v / 0x100_0000, v / 0x1_0000 % 256, v / 256 % 256, v % 256]
  {
  }
}
