/** IPv4 packets: decoding over a cursor, and encoding with a computed header checksum. */
module Ipv4 {
  import opened Wrappers
  import opened IpText
  import opened ByteBufs
  import opened Checksum

  // The scalar fields, in the ranges that decoding gives them. Options are left in the payload.
  datatype Header = Header(
    version: int,
    headerLen: int,
    diffServices: byte,
    totalLen: u16,
    id: u16,
    flags: u16,
    liveTime: byte,
    protocol: byte,
    checksum: u16,
    srcIP: string,
    dstIP: string)
  {
    ghost predicate Valid() {
      && 0 <= version < 16
      && 0 <= headerLen <= 60 && headerLen % 4 == 0
      && IsDottedQuad(srcIP)
      && IsDottedQuad(dstIP)
    }
  }

  function MakeHeader(head: byte, diffServices: byte, totalLen: u16, id: u16, flags: u16, liveTime: byte,
                      protocol: byte, checksum: u16, src: seq<byte>, dst: seq<byte>): (h: Header)
    requires |src| == 4 && |dst| == 4
    ensures h.Valid()
  {
    var x: int := head;
    Header(x / 16, x % 16 * 4, diffServices, totalLen, id, flags, liveTime, protocol, checksum,
           BytesToIp(src), BytesToIp(dst))
  }

  function ParseHeader(b: seq<byte>): (h: Header)
    requires |b| >= 20
    ensures h.Valid()
  {
    MakeHeader(b[0], b[1], U16(b, 2), U16(b, 4), U16(b, 6), b[8], b[9], U16(b, 10), b[12..16], b[16..20])
  }

  // The 20 bytes of a header, with a given value in its checksum field.
  function HeaderBytes(h: Header, checksum: int): (b: seq<byte>)
    requires h.Valid()
    ensures |b| == 20
  {
    [Byte(h.version * 16 + h.headerLen / 4)] + [h.diffServices]
    + Be16(h.totalLen) + Be16(h.id) + Be16(h.flags)
    + [h.liveTime] + [h.protocol]
    + Be16(checksum)
    + Quad(h.srcIP) + Quad(h.dstIP)
  }

  function HeaderChecksum(h: Header): u16
    requires h.Valid()
  {
    JavaChecksum(HeaderBytes(h, 0))
  }

  function Encoding(h: Header, payload: seq<byte>): seq<byte>
    requires h.Valid()
  {
    HeaderBytes(h, HeaderChecksum(h)) + payload
  }

  class Ipv4Packet {
    var header: Header
    var payload: ByteBuf

    ghost predicate Valid()
      reads this, payload
    {
      header.Valid() && payload.Valid()
    }

    // What getPayload gives, wherever the cursor stands.
    function Payload(): seq<byte>
      requires Valid()
      reads this, payload
    {
      payload.FromMark()
    }

    constructor (header: Header, payload: ByteBuf)
      requires header.Valid() && payload.Valid()
      modifies payload`mark
      ensures this.header == header && this.payload == payload && payload.mark == payload.reader
      ensures Valid() && Payload() == old(payload.Rest())
    {
      this.header, this.payload := header, payload;
      new;
      payload.MarkReaderIndex();
    }

    method SetPayload(payload: ByteBuf)
      requires header.Valid() && payload.Valid()
      modifies `payload, payload`mark
      ensures this.payload == payload && Valid() && Payload() == old(payload.Rest())
    {
      payload.MarkReaderIndex();
      this.payload := payload;
    }

    method GetPayload() returns (p: ByteBuf)
      requires Valid()
      modifies payload`reader
      ensures p == payload && Valid() && p.Rest() == Payload() == old(Payload())
    {
      payload.ResetReaderIndex();
      p := payload;
    }

    static method ReadHeader(buf: ByteBuf) returns (r: Option<Header>)
      requires buf.Valid()
      modifies buf`reader
      ensures buf.Valid()
      ensures r.Some? <==> old(buf.ReadableBytes()) >= 20
      ensures r.Some? ==> r.value == ParseHeader(old(buf.Rest())) && buf.reader == old(buf.reader) + 20
    {
      hide MakeHeader, Header.Valid, IsDottedQuad;
      ghost var b := buf.Rest();
      var head :- buf.ReadUnsignedByte();
      var diffServices :- buf.ReadUnsignedByte();
      var totalLen :- buf.ReadUnsignedShort();
      var id :- buf.ReadUnsignedShort();
      var flags :- buf.ReadUnsignedShort();
      var liveTime :- buf.ReadUnsignedByte();
      var protocol :- buf.ReadUnsignedByte();
      var checksum :- buf.ReadUnsignedShort();
      var srcIPBytes :- buf.ReadBytes(4);
      var dstIPBytes :- buf.ReadBytes(4);
      assert srcIPBytes == b[12..16] && dstIPBytes == b[16..20];
      r := Some(MakeHeader(head, diffServices, totalLen, id, flags, liveTime, protocol, checksum,
                           srcIPBytes, dstIPBytes));
    }

    static method Decode(buf: ByteBuf) returns (r: Option<Ipv4Packet>)
      requires buf.Valid()
      modifies buf`reader
      ensures buf.Valid()
      ensures r.Some? <==> old(buf.ReadableBytes()) >= 20
      ensures r.Some? ==>
                && fresh(r.value) && fresh(r.value.payload) && r.value.Valid()
                && r.value.header == ParseHeader(old(buf.Rest()))
                && r.value.Payload() == old(buf.Rest())[20..]
                && buf.reader == |buf.data|
    {
      var header :- ReadHeader(buf);
      var payload := buf.ReadSlice(buf.ReadableBytes());
      var packet := new Ipv4Packet(header, payload.value);
      r := Some(packet);
    }

    // Decoding that leaves the cursor where it was.
    static method DecodeMark(buf: ByteBuf) returns (r: Option<Ipv4Packet>)
      requires buf.Valid()
      modifies buf`reader, buf`mark
      ensures r.Some? <==> old(buf.ReadableBytes()) >= 20
      ensures r.Some? ==>
                && buf.reader == buf.mark == old(buf.reader)
                && fresh(r.value) && r.value.Valid()
                && r.value.header == ParseHeader(old(buf.Rest()))
                && r.value.Payload() == old(buf.Rest())[20..]
    {
      buf.MarkReaderIndex();
      var packet :- Decode(buf);
      buf.ResetReaderIndex();
      r := Some(packet);
    }

    // The header with its checksum field at a given value, written field by field.
    method WriteHeader(buf: ByteBuf, checksum: int)
      requires Valid() && buf.Valid() && buf.data == []
      modifies buf`data
      ensures buf.Valid() && buf.data == HeaderBytes(header, checksum)
    {
      SmallByte(header.diffServices);
      SmallByte(header.liveTime);
      SmallByte(header.protocol);
      hide IsDottedQuad, Quad, Byte, Be16;
      buf.WriteByte(header.version * 16 + header.headerLen / 4);
      buf.WriteByte(header.diffServices);
      buf.WriteShort(header.totalLen);
      buf.WriteShort(header.id);
      buf.WriteShort(header.flags);
      buf.WriteByte(header.liveTime);
      buf.WriteByte(header.protocol);
      buf.WriteShort(checksum);
      var src := IpToBytes(header.srcIP);
      buf.WriteArray(src);
      var dst := IpToBytes(header.dstIP);
      buf.WriteArray(dst);
    }

    // None is the failed assertion "checksum error". Only the payload's cursor moves, and encoding
    // resets it before use, so a second call returns the same bytes.
    method Encode(verify: bool) returns (r: Option<ByteBuf>)
      requires Valid()
      modifies payload`reader
      ensures Valid() && Payload() == old(Payload())
      ensures r.None? <==> verify && HeaderChecksum(header) != header.checksum
      ensures r.Some? ==> fresh(r.value) && r.value.Valid() && r.value.Rest() == Encoding(header, old(Payload()))
    {
      var sumBuf := new ByteBuf([]);
      WriteHeader(sumBuf, 0);
      var checksum := CalcChecksum(sumBuf);
      if verify && checksum != header.checksum {
        return None;
      }
      var buf := new ByteBuf([]);
      WriteHeader(buf, checksum);
      var p := GetPayload();
      buf.WriteBytes(p);
      r := Some(buf);
    }
  }

  // Parsing and printing back a header changes nothing but the checksum field.
  lemma HeaderRoundTrip(b: seq<byte>, checksum: u16)
    requires |b| >= 20
    ensures HeaderBytes(ParseHeader(b), checksum) == b[..10] + Be16(checksum) + b[12..20]
  {
    var h := ParseHeader(b);
    QuadOfBytes(b[12..16]);
    QuadOfBytes(b[16..20]);
    Be16OfU16(b, 2);
    Be16OfU16(b, 4);
    Be16OfU16(b, 6);
    assert Byte(h.version * 16 + h.headerLen / 4) == b[0];
    assert b[..10] == [b[0], b[1]] + b[2..4] + b[4..6] + b[6..8] + [b[8], b[9]];
    assert b[12..20] == b[12..16] + b[16..20];
  }

  // The options, which the program leaves in the payload and does not sum.
  function Options(b: seq<byte>): seq<byte>
    requires |b| >= 20 && 20 <= ParseHeader(b).headerLen <= |b|
  {
    b[20..ParseHeader(b).headerLen]
  }

  // A standard receiver sums the header to its length, options included. It accepts an encoded packet
  // exactly when the options sum to nothing, modulo 65535, if one fold was enough, and to 65534 if not.
  lemma HeaderAccepted(b: seq<byte>)
    requires |b| >= 20 && 20 <= ParseHeader(b).headerLen <= |b|
    ensures var h := ParseHeader(b);
            RfcAccepts(Encoding(h, b[20..])[..h.headerLen])
            <==> WordSum(Options(b)) % 0xFFFF == if OneFoldSuffices(HeaderBytes(h, 0)) then 0 else 0xFFFE
    ensures var h := ParseHeader(b);
            h.headerLen == 20 ==> (RfcAccepts(Encoding(h, b[20..])[..20]) <==> OneFoldSuffices(HeaderBytes(h, 0)))
  {
    hide ParseHeader, HeaderBytes, JavaChecksum, OneFoldSuffices, RfcAccepts, Be16, WordSum, Even;
    var h := ParseHeader(b);
    var x, y, o := b[..10], b[12..20], Options(b);
    var v := HeaderChecksum(h);
    HeaderRoundTrip(b, 0);
    HeaderRoundTrip(b, v);
    ZeroField();
    assert b[20..][..h.headerLen - 20] == o;
    assert Encoding(h, b[20..])[..h.headerLen] == x + Be16(v) + y + o;
    HeaderLen(b);
    FirstWord(b);
    EvenLengths();
    AcceptedWithTail(x, y, o);
  }

  lemma EvenLengths()
    ensures Even(10) && Even(8)
  {
  }

  lemma ZeroField()
    ensures Be16(0) == [0, 0] && WordSum([]) == 0
  {
  }

  lemma HeaderLen(b: seq<byte>)
    requires |b| >= 20
    ensures ParseHeader(b).headerLen == b[0] as int % 16 * 4
    ensures Even(ParseHeader(b).headerLen - 20) && (ParseHeader(b).headerLen > 0 ==> b[0] > 0)
  {
  }

  lemma HeaderStep(b: seq<byte>)
    requires |b| >= 20
    ensures ParseHeader(b).headerLen > 20 ==> ParseHeader(b).headerLen >= 24
  {
  }

  lemma FirstWord(b: seq<byte>)
    requires |b| >= 20 && ParseHeader(b).headerLen > 0
    ensures WordSum(b[..10] + [0, 0] + b[12..20]) > 0
  {
    var s := b[..10] + [0, 0] + b[12..20];
    HeaderLen(b);
    hide ParseHeader;
    assert s[0] == b[0] && U16(s, 0) > 0;
  }

  // With its checksum field zero, a header is what the program sums.
  lemma SummedHeader(b: seq<byte>)
    requires |b| >= 20 && b[10] == 0 && b[11] == 0
    ensures HeaderBytes(ParseHeader(b), 0) == b[..20]
  {
    hide HeaderBytes, ParseHeader;
    HeaderRoundTrip(b, 0);
    ZeroField();
  }

  // From 192.168.0.1 to 192.168.0.2, without options.
  function PlainHeader(): (b: seq<byte>)
    ensures |b| == 20
    ensures U16(b, 0) == 0x4500 && U16(b, 2) == 0x14 && U16(b, 4) == 0xF992 && U16(b, 6) == 0 && U16(b, 8) == 0x4006
    ensures U16(b, 10) == 0 && U16(b, 12) == 0xC0A8 && U16(b, 14) == 1 && U16(b, 16) == 0xC0A8 && U16(b, 18) == 2
  {
    [0x45, 0, 0, 0x14, 0xF9, 0x92, 0, 0, 0x40, 6, 0, 0, 192, 168, 0, 1, 192, 168, 0, 2]
  }

  // From 10.0.0.1 to 10.0.0.2, with four bytes of options behind it.
  function LongHeader(): (b: seq<byte>)
    ensures |b| == 20
    ensures U16(b, 0) == 0x4600 && U16(b, 2) == 0x18 && U16(b, 4) == 0 && U16(b, 6) == 0 && U16(b, 8) == 0x4000
    ensures U16(b, 10) == 0 && U16(b, 12) == 0x0A00 && U16(b, 14) == 1 && U16(b, 16) == 0x0A00 && U16(b, 18) == 2
  {
    [0x46, 0, 0, 0x18, 0, 0, 0, 0, 0x40, 0, 0, 0, 10, 0, 0, 1, 10, 0, 0, 2]
  }

  // Both ways to be dropped do happen. A header without options whose fold carries again:
  lemma SecondCarryHeader()
    ensures var b := PlainHeader();
            && ParseHeader(b).headerLen == 20
            && HeaderChecksum(ParseHeader(b)) == 0xFFFE && RfcChecksum(b) == 0xFFFD
            && !OneFoldSuffices(HeaderBytes(ParseHeader(b), 0)) && !RfcAccepts(Encoding(ParseHeader(b), b[20..])[..20])
  {
    hide PlainHeader, ParseHeader, HeaderBytes, Encoding, JavaChecksum, RfcAccepts, RfcChecksum, OneFoldSuffices;
    hide WordSum;
    var b := PlainHeader();
    PlainFacts();
    HeaderLen(b);
    SummedHeader(b);
    HeaderAccepted(b);
  }

  lemma PlainFacts()
    ensures var b := PlainHeader();
            && b[0] == 0x45 && b[10] == 0 && b[11] == 0 && b[..20] == b
            && !OneFoldSuffices(b) && JavaChecksum(b) == 0xFFFE && RfcChecksum(b) == 0xFFFD
  {
    hide PlainHeader, JavaChecksum, RfcChecksum, OneFoldSuffices, WordSum;
    WordSumOf10(PlainHeader());
    SumsTo(PlainHeader(), 0x2_FFFF);
  }

  lemma SumsTo(b: seq<byte>, s: nat)
    requires |b| == 20 && WordSum(b) == s
    ensures OneFoldSuffices(b) <==> s / 0x1_0000 + s % 0x1_0000 <= 0xFFFF
    ensures RfcChecksum(b) == 0xFFFF - Reduce(s)
    ensures JavaChecksum(b) as int == RfcChecksum(b) as int + (if OneFoldSuffices(b) then 0 else 1)
  {
    ChecksumExact(b);
    OnesSumIsReduced(b);
  }

  // A header with options for which one fold is enough:
  lemma OptionsHeader()
    ensures var b := LongHeader() + [1, 1, 1, 0];
            && ParseHeader(b).headerLen == 24
            && OneFoldSuffices(HeaderBytes(ParseHeader(b), 0))
            && !RfcAccepts(Encoding(ParseHeader(b), b[20..])[..24])
  {
    hide LongHeader, ParseHeader, HeaderBytes, Encoding, RfcAccepts, WordSum, JavaChecksum, OneFoldSuffices;
    var b := LongHeader() + [1, 1, 1, 0];
    LongFacts();
    assert b[..20] == LongHeader();
    HeaderLen(b);
    SummedHeader(b);
    assert Options(b) == [1, 1, 1, 0];
    ShortOptions();
    HeaderAccepted(b);
  }

  lemma LongFacts()
    ensures var b := LongHeader(); b[0] == 0x46 && b[10] == 0 && b[11] == 0 && OneFoldSuffices(b)
  {
    hide LongHeader, JavaChecksum, RfcChecksum, OneFoldSuffices, WordSum;
    WordSumOf10(LongHeader());
    SumsTo(LongHeader(), 0x9A1B);
  }

  lemma ShortOptions()
    ensures WordSum([1, 1, 1, 0]) == 0x0201
  {
    var o: seq<byte> := [1, 1, 1, 0];
    assert o[2..] == [1, 0] && o[2..][2..] == [];
  }

  lemma WordSumOf10(b: seq<byte>)
    requires |b| == 20
    ensures WordSum(b) ==
            U16(b, 0) as int + U16(b, 2) as int + U16(b, 4) as int + U16(b, 6) as int + U16(b, 8) as int
            + U16(b, 10) as int + U16(b, 12) as int + U16(b, 14) as int + U16(b, 16) as int + U16(b, 18) as int
  {
    hide WordSum, U16;
    WordSumFrom(b, 0);
    WordSumFrom(b, 2);
    WordSumFrom(b, 4);
    WordSumFrom(b, 6);
    WordSumFrom(b, 8);
    WordSumFrom(b, 10);
    WordSumFrom(b, 12);
    WordSumFrom(b, 14);
    WordSumFrom(b, 16);
    WordSumFrom(b, 18);
    ZeroField();
    assert b[0..] == b && b[20..] == [];
  }

  lemma WordSumFrom(b: seq<byte>, i: nat)
    requires i + 2 <= |b|
    ensures WordSum(b[i..]) == U16(b, i) as int + WordSum(b[i + 2..])
  {
    assert b[i..][2..] == b[i + 2..];
  }

  // The layout of section 3.1 of RFC 791, read.
  lemma ParsedLayout(b: seq<byte>)
    requires |b| >= 20
    ensures var h := ParseHeader(b);
            && h.version == b[0] as int / 16 && h.headerLen == b[0] as int % 16 * 4
            && h.diffServices == b[1]
            && h.totalLen as int == b[2] as int * 256 + b[3] as int
            && h.id as int == b[4] as int * 256 + b[5] as int
            && h.flags as int == b[6] as int * 256 + b[7] as int
            && h.liveTime == b[8] && h.protocol == b[9]
            && h.checksum as int == b[10] as int * 256 + b[11] as int
            && h.srcIP == BytesToIp(b[12..16]) && h.dstIP == BytesToIp(b[16..20])
  {
    hide BytesToIp, IsDottedQuad;
  }

  // And written.
  lemma WrittenLayout(h: Header, payload: seq<byte>)
    requires h.Valid()
    ensures var e := Encoding(h, payload);
            && |e| == 20 + |payload| && e[20..] == payload
            && e[0] as int == h.version * 16 + h.headerLen / 4 && e[1] == h.diffServices
            && e[2..4] == [h.totalLen / 256, h.totalLen % 256]
            && e[4..6] == [h.id / 256, h.id % 256]
            && e[6..8] == [h.flags / 256, h.flags % 256]
            && e[8] == h.liveTime && e[9] == h.protocol
            && e[10..12] == [HeaderChecksum(h) / 256, HeaderChecksum(h) % 256]
            && e[12..16] == Quad(h.srcIP) && e[16..20] == Quad(h.dstIP)
  {
    hide IsDottedQuad, Quad, JavaChecksum;
    ShortLayout(h.totalLen);
    ShortLayout(h.id);
    ShortLayout(h.flags);
    ShortLayout(HeaderChecksum(h));
  }
}
