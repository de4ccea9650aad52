/** TCP segments carried by an IPv4 packet. */
module Tcp {
  import opened Wrappers
  import opened JavaInt
  import opened IpText
  import opened ByteBufs
  import opened Checksum
  import Ipv4

  datatype Header = Header(
    srcPort: u16,
    dstPort: u16,
    seqNo: u32,
    ackNo: u32,
    flags: u16,
    headLen: int,
    reservedFlag: int,
    accurateECNFlag: int,
    echoFlag: int,
    urgFlag: int,
    ackFlag: int,
    pshFlag: int,
    rstFlag: int,
    synFlag: int,
    finFlag: int,
    window: u16,
    checksum: u16,
    urgentPointer: u16)

  // The bits that decoding picks out of the flags word.
  function MakeHeader(srcPort: u16, dstPort: u16, seqNo: u32, ackNo: u32, flags: u16, window: u16,
                      checksum: u16, urgentPointer: u16): Header {
    var f: int := flags;
    Header(srcPort, dstPort, seqNo, ackNo, flags, f / 0x1000 * 4,
           f / 0x100 % 2, f / 0x80 % 2, f / 0x40 % 2, f / 0x20 % 2, f / 0x10 % 2, f / 8 % 2, f / 4 % 2, f / 2 % 2,
           f % 2, window, checksum, urgentPointer)
  }

  // The picked bits are the whole word except the three bits that RFC 9293 reserves next to the offset.
  lemma FlagsRecompose(srcPort: u16, dstPort: u16, seqNo: u32, ackNo: u32, flags: u16, window: u16,
                       checksum: u16, urgentPointer: u16)
    ensures var h := MakeHeader(srcPort, dstPort, seqNo, ackNo, flags, window, checksum, urgentPointer);
            && h.headLen * 0x400 == flags / 0x1000 * 0x1000 && h.headLen <= 60
            && 0x100 * h.reservedFlag + 0x80 * h.accurateECNFlag + 0x40 * h.echoFlag + 0x20 * h.urgFlag
               + 0x10 * h.ackFlag + 8 * h.pshFlag + 4 * h.rstFlag + 2 * h.synFlag + h.finFlag == flags % 0x200
  {
    Bits(flags);
  }

  lemma Scaled(d: int, m: int)
    ensures d * m == d / 2 * (2 * m) + d % 2 * m
  {
    var q := d / 2;
    if d % 2 == 0 {
      assert d == 2 * q;
    } else {
      assert d == 2 * q + 1;
    }
  }

  lemma Halved(f: int, m: int)
    requires m >= 1
    ensures f / m / 2 == f / (2 * m)
  {
    var d := f / m;
    Scaled(d, m);
    assert f == d * m + f % m;
    assert 0 <= d % 2 * m <= m;
    DivUnique(f, 2 * m, d / 2);
  }

  lemma LowBit(f: int, m: int)
    requires m >= 1
    ensures f / m == 2 * (f / (2 * m)) + f / m % 2
  {
    Halved(f, m);
  }

  lemma Bits(f: int)
    ensures f == 0x200 * (f / 0x200) + 0x100 * (f / 0x100 % 2) + 0x80 * (f / 0x80 % 2) + 0x40 * (f / 0x40 % 2)
                 + 0x20 * (f / 0x20 % 2) + 0x10 * (f / 0x10 % 2) + 8 * (f / 8 % 2) + 4 * (f / 4 % 2)
                 + 2 * (f / 2 % 2) + f % 2
  {
    LowBit(f, 2);
    LowBit(f, 4);
    LowBit(f, 8);
    LowBit(f, 0x10);
    LowBit(f, 0x20);
    LowBit(f, 0x40);
    LowBit(f, 0x80);
    LowBit(f, 0x100);
  }

  function ParseHeader(b: seq<byte>): Header
    requires |b| >= 20
  {
    MakeHeader(U16(b, 0), U16(b, 2), U32(b, 4), U32(b, 8), U16(b, 12), U16(b, 14), U16(b, 16), U16(b, 18))
  }

  // A header length below 20 makes the slice of options negative, one past the end too long: both fail.
  predicate WellFormed(b: seq<byte>) {
    && |b| >= 20
    && 20 <= ParseHeader(b).headLen <= |b|
  }

  // The bytes in front, then the 20 header bytes.
  function AppendHeader(front: seq<byte>, h: Header, checksum: int): (b: seq<byte>)
    ensures |b| == |front| + 20
  {
    front + Be16(h.srcPort) + Be16(h.dstPort) + Be32(h.seqNo) + Be32(h.ackNo) + Be16(h.flags) + Be16(h.window)
    + Be16(checksum) + Be16(h.urgentPointer)
  }

  // Addresses, protocol and length, as summed in front of a segment.
  function PseudoHeader(ip: Ipv4.Header, length: nat): (b: seq<byte>)
    requires ip.Valid()
    ensures |b| == 12
  {
    Quad(ip.srcIP) + Quad(ip.dstIP) + [0] + [ip.protocol] + Be16(length)
  }

  // What is summed: the length is that of the IP payload, not of this segment.
  function Summed(ip: Ipv4.Header, length: nat, h: Header, options: seq<byte>, payload: seq<byte>): seq<byte>
    requires ip.Valid()
  {
    AppendHeader(PseudoHeader(ip, length), h, 0) + options + payload
  }

  function Encoding(ip: Ipv4.Header, length: nat, h: Header, options: seq<byte>, payload: seq<byte>): seq<byte>
    requires ip.Valid()
  {
    AppendHeader([], h, JavaChecksum(Summed(ip, length, h, options, payload))) + options + payload
  }

  class TcpPacket {
    var header: Header
    var optionsByteBuf: ByteBuf
    var payload: ByteBuf

    ghost predicate Valid()
      reads this, optionsByteBuf, payload
    {
      optionsByteBuf.Valid() && payload.Valid()
    }

    function Options(): seq<byte>
      requires Valid()
      reads this, optionsByteBuf, payload
    {
      optionsByteBuf.FromMark()
    }

    function Payload(): seq<byte>
      requires Valid()
      reads this, optionsByteBuf, payload
    {
      payload.FromMark()
    }

    constructor (header: Header, options: ByteBuf, payload: ByteBuf)
      requires options.Valid() && payload.Valid() && options != payload
      modifies options`mark, payload`mark
      ensures this.header == header && this.optionsByteBuf == options && this.payload == payload
      ensures Valid() && Options() == old(options.Rest()) && Payload() == old(payload.Rest())
    {
      this.header, this.optionsByteBuf, this.payload := header, options, payload;
      new;
      options.MarkReaderIndex();
      payload.MarkReaderIndex();
    }

    static method ReadHeader(buf: ByteBuf) returns (r: Option<Header>)
      requires buf.Valid()
      modifies buf`reader
      ensures buf.Valid()
      ensures r.Some? <==> old(buf.ReadableBytes()) >= 20
      ensures r.Some? ==> r.value == ParseHeader(old(buf.Rest())) && buf.reader == old(buf.reader) + 20
    {
      var srcPort :- buf.ReadUnsignedShort();
      var dstPort :- buf.ReadUnsignedShort();
      var seqNo :- buf.ReadUnsignedInt();
      var ackNo :- buf.ReadUnsignedInt();
      var flags :- buf.ReadUnsignedShort();
      var window :- buf.ReadUnsignedShort();
      var checksum :- buf.ReadUnsignedShort();
      var urgentPointer :- buf.ReadUnsignedShort();
      r := Some(MakeHeader(srcPort, dstPort, seqNo, ackNo, flags, window, checksum, urgentPointer));
    }

    static method Decode(buf: ByteBuf) returns (r: Option<TcpPacket>)
      requires buf.Valid()
      modifies buf`reader
      ensures buf.Valid()
      ensures r.Some? <==> WellFormed(old(buf.Rest()))
      ensures r.Some? ==>
                var b := old(buf.Rest());
                var h := ParseHeader(b);
                && fresh(r.value) && fresh(r.value.optionsByteBuf) && fresh(r.value.payload) && r.value.Valid()
                && r.value.header == h
                && r.value.Options() == b[20..h.headLen] && r.value.Payload() == b[h.headLen..]
                && buf.reader == |buf.data|
    {
      ghost var b := buf.Rest();
      var header :- ReadHeader(buf);
      var options :- buf.ReadSlice(header.headLen - 20);
      assert options.data == b[20..header.headLen];
      var payload := buf.ReadSlice(buf.ReadableBytes());
      assert payload.value.data == b[header.headLen..];
      var packet := new TcpPacket(header, options, payload.value);
      r := Some(packet);
    }

    method WriteHeader(buf: ByteBuf, checksum: int)
      requires buf.Valid()
      modifies buf`data
      ensures buf.Valid() && buf.data == AppendHeader(old(buf.data), header, checksum)
    {
      buf.WriteShort(header.srcPort);
      buf.WriteShort(header.dstPort);
      buf.WriteInt(header.seqNo);
      buf.WriteInt(header.ackNo);
      buf.WriteShort(header.flags);
      buf.WriteShort(header.window);
      buf.WriteShort(checksum);
      buf.WriteShort(header.urgentPointer);
    }

    // Both getters reset the cursor before it is consumed.
    method WriteBody(buf: ByteBuf)
      requires Valid() && buf.Valid() && buf != optionsByteBuf && buf != payload
      modifies buf`data, optionsByteBuf`reader, payload`reader
      ensures Valid() && Options() == old(Options()) && Payload() == old(Payload())
      ensures buf.Valid() && buf.data == old(buf.data) + Options() + Payload()
    {
      optionsByteBuf.ResetReaderIndex();
      buf.WriteBytes(optionsByteBuf);
      payload.ResetReaderIndex();
      buf.WriteBytes(payload);
    }

    static method WritePseudoHeader(ip: Ipv4.Ipv4Packet, buf: ByteBuf)
      requires ip.Valid() && buf.Valid() && buf.data == [] && buf != ip.payload
      modifies buf`data, ip.payload`reader
      ensures ip.Valid() && ip.Payload() == old(ip.Payload())
      ensures buf.Valid() && buf.data == PseudoHeader(ip.header, |ip.Payload()|)
    {
      var src := IpToBytes(ip.header.srcIP);
      buf.WriteArray(src);
      var dst := IpToBytes(ip.header.dstIP);
      buf.WriteArray(dst);
      buf.WriteByte(0);
      buf.WriteByte(ip.header.protocol);
      var p := ip.GetPayload();
      buf.WriteShort(p.ReadableBytes());
    }

    method Encode(ip: Ipv4.Ipv4Packet, verify: bool) returns (r: Option<ByteBuf>)
      requires Valid() && ip.Valid()
      modifies optionsByteBuf`reader, payload`reader, ip.payload`reader
      ensures Valid() && Options() == old(Options()) && Payload() == old(Payload())
      ensures ip.Valid() && ip.Payload() == old(ip.Payload())
      ensures r.None? <==>
                && verify
                && JavaChecksum(Summed(ip.header, |ip.Payload()|, header, Options(), Payload())) != header.checksum
      ensures r.Some? ==>
                && fresh(r.value) && r.value.Valid()
                && r.value.Rest() == Encoding(ip.header, |ip.Payload()|, header, Options(), Payload())
    {
      hide JavaChecksum, AppendHeader, PseudoHeader;
      var sumBuf := new ByteBuf([]);
      WritePseudoHeader(ip, sumBuf);
      WriteHeader(sumBuf, 0);
      WriteBody(sumBuf);
      var checksum := CalcChecksum(sumBuf);
      if verify && checksum != header.checksum {
        return None;
      }
      var buf := new ByteBuf([]);
      WriteHeader(buf, checksum);
      WriteBody(buf);
      r := Some(buf);
    }
  }

  lemma AppendHeaderSplit(front: seq<byte>, h: Header, checksum: int)
    ensures AppendHeader(front, h, checksum) == front + AppendHeader([], h, checksum)
  {
  }

  lemma HeaderRoundTrip(b: seq<byte>, checksum: u16)
    requires |b| >= 20
    ensures AppendHeader([], ParseHeader(b), checksum) == b[..16] + Be16(checksum) + b[18..20]
  {
    Be16OfU16(b, 0);
    Be16OfU16(b, 2);
    Be32OfU32(b, 4);
    Be32OfU32(b, 8);
    Be16OfU16(b, 12);
    Be16OfU16(b, 14);
    Be16OfU16(b, 18);
    assert b[..16] == b[0..2] + b[2..4] + b[4..8] + b[8..12] + b[12..14] + b[14..16];
  }

  // Decoding a segment and encoding it again changes nothing but its checksum field.
  lemma SegmentRoundTrip(ip: Ipv4.Header, b: seq<byte>)
    requires ip.Valid() && WellFormed(b)
    ensures var h := ParseHeader(b);
            var sum := Summed(ip, |b|, h, b[20..h.headLen], b[h.headLen..]);
            && sum == PseudoHeader(ip, |b|) + b[..16] + [0, 0] + b[18..]
            && Encoding(ip, |b|, h, b[20..h.headLen], b[h.headLen..]) == b[..16] + Be16(JavaChecksum(sum)) + b[18..]
  {
    var h := ParseHeader(b);
    var o, p := b[20..h.headLen], b[h.headLen..];
    var ps := PseudoHeader(ip, |b|);
    SplitTail(b, 18, 20, h.headLen);
    HeaderRoundTrip(b, 0);
    AppendHeaderSplit(ps, h, 0);
    assert Be16(0) == [0, 0];
    Regroup(ps, b[..16], [0, 0], b[18..20], o, p);
    var v := JavaChecksum(Summed(ip, |b|, h, o, p));
    HeaderRoundTrip(b, v);
    Regroup([], b[..16], Be16(v), b[18..20], o, p);
    assert [] + (b[..16] + Be16(v) + b[18..20]) == b[..16] + Be16(v) + b[18..20];
    assert [] + b[..16] == b[..16];
  }

  lemma PseudoSum(ip: Ipv4.Header, n: nat)
    requires ip.Valid() && n < 0x1_0000
    ensures WordSum(PseudoHeader(ip, n)) == WordSum(PseudoHeader(ip, 0)) + n
  {
    var fixed := Quad(ip.srcIP) + Quad(ip.dstIP) + [0] + [ip.protocol];
    hide Quad, IsDottedQuad;
    LengthWord(n);
    LengthWord(0);
    WordSumAppend(fixed, Be16(n));
    WordSumAppend(fixed, Be16(0));
  }

  lemma LengthWord(n: nat)
    requires n < 0x1_0000
    ensures WordSum(Be16(n)) == n
  {
    U16OfBe16(n, []);
    assert Be16(n) + [] == Be16(n) && Be16(n)[2..] == [];
  }

  // What a standard receiver sums: it takes the segment behind the IP header at its length, which is where
  // the program takes it only without IP options.
  function Received(ip: Ipv4.Header, sent: seq<byte>): seq<byte>
    requires ip.Valid() && 20 <= ip.headerLen <= 20 + |sent|
  {
    var k := ip.headerLen - 20;
    PseudoHeader(ip, |sent| - k) + sent[k..]
  }

  // What the program summed, with zero in the field at i.
  function Zeroed(ip: Ipv4.Header, length: nat, sent: seq<byte>, i: nat): seq<byte>
    requires ip.Valid() && i + 2 <= |sent|
  {
    PseudoHeader(ip, length) + sent[..i] + [0, 0] + sent[i + 2..]
  }

  // The receiver accepts exactly when the words that it does not sum, and the length that it does not count,
  // come to nothing modulo 65535, if one fold was enough, and to one if not.
  lemma ReceivedAccepted(ip: Ipv4.Header, length: nat, sent: seq<byte>, i: nat)
    requires ip.Valid() && 20 <= ip.headerLen < 20 + |sent| && |sent| <= length <= 65515
    requires Even(i) && i + 2 <= |sent| && sent[i..i + 2] == Be16(JavaChecksum(Zeroed(ip, length, sent, i)))
    ensures var k := ip.headerLen - 20;
            RfcAccepts(Received(ip, sent))
            <==> (length - |sent| + k + WordSum(sent[..k])) % 0xFFFF
                 == if OneFoldSuffices(Zeroed(ip, length, sent, i)) then 0 else 1
  {
    hide WordSum, OnesSum, JavaChecksum, OneFoldSuffices, Reduce, Padded, Even, Be16, PseudoHeader, Ipv4.Header.Valid;
    var k := ip.headerLen - 20;
    var zeroed := Zeroed(ip, length, sent, i);
    var v := JavaChecksum(zeroed);
    EvenOptions(ip);
    WholeSum(ip, length, sent, i, k);
    PseudoSum(ip, length);
    PseudoSum(ip, |sent| - k);
    EvenTwelve();
    PaddedAppend(PseudoHeader(ip, |sent| - k), sent[k..]);
    Computed(zeroed);
    OnesSumIsReduced(Padded(Received(ip, sent)));
    var received := Received(ip, sent);
    ReduceLess(WordSum(Padded(zeroed)), v, length - |sent| + k + WordSum(sent[..k]), WordSum(Padded(received)));
  }

  lemma EvenTwelve()
    ensures Even(12)
  {
  }

  lemma EvenOptions(ip: Ipv4.Header)
    requires ip.Valid()
    ensures Even(ip.headerLen - 20)
  {
  }

  // What the program summed and filled in, cut behind the options.
  lemma WholeSum(ip: Ipv4.Header, length: nat, sent: seq<byte>, i: nat, k: nat)
    requires ip.Valid() && Even(i) && i + 2 <= |sent| && Even(k) && k <= |sent|
    requires sent[i..i + 2] == Be16(JavaChecksum(Zeroed(ip, length, sent, i)))
    ensures var zeroed := Zeroed(ip, length, sent, i);
            WordSum(Padded(zeroed)) + JavaChecksum(zeroed) as int
            == WordSum(PseudoHeader(ip, length)) + WordSum(sent[..k]) + WordSum(Padded(sent[k..]))
    ensures WordSum(Padded(Zeroed(ip, length, sent, i))) >= WordSum(PseudoHeader(ip, length))
  {
    hide WordSum, JavaChecksum, Padded, Be16, PseudoHeader, Ipv4.Header.Valid;
    var zeroed := Zeroed(ip, length, sent, i);
    var v := JavaChecksum(zeroed);
    var ps := PseudoHeader(ip, length);
    EvenSplit(ps, sent[..i]);
    PaddedFilled(ps + sent[..i], sent[i + 2..], v);
    assert ps + sent[..i] + Be16(v) + sent[i + 2..] == ps + sent by {
      assert sent == sent[..i] + sent[i..i + 2] + sent[i + 2..];
    }
    PaddedAppend(ps, sent);
    assert zeroed == ps + (sent[..i] + [0, 0] + sent[i + 2..]);
    PaddedAppend(ps, sent[..i] + [0, 0] + sent[i + 2..]);
    assert sent == sent[..k] + sent[k..];
    PaddedAppend(sent[..k], sent[k..]);
  }

  lemma EvenSplit(a: seq<byte>, b: seq<byte>)
    requires |a| == 12 && Even(|b|)
    ensures Even(|a|) && Even(|a + b|)
  {
  }

  // Without IP options a standard receiver accepts an encoded segment exactly when one fold of its sum was
  // enough; with options, by what they sum to as sent. The program takes them for the start of the segment:
  // it writes its checksum k bytes in front of the receiver's field, which stays as it was.
  lemma SegmentAccepted(ip: Ipv4.Header, b: seq<byte>)
    requires ip.Valid() && WellFormed(b) && |b| <= 65515 && 20 <= ip.headerLen < 20 + |b|
    ensures var h := ParseHeader(b);
            var sum := Summed(ip, |b|, h, b[20..h.headLen], b[h.headLen..]);
            var sent := Encoding(ip, |b|, h, b[20..h.headLen], b[h.headLen..]);
            var k := ip.headerLen - 20;
            && |sent| == |b| && (forall j | 0 <= j < |b| && j != 16 && j != 17 :: sent[j] == b[j])
            && (RfcAccepts(Received(ip, sent))
                <==> (k + WordSum(sent[..k])) % 0xFFFF == if OneFoldSuffices(sum) then 0 else 1)
            && (k == 0 ==> (RfcAccepts(Received(ip, sent)) <==> OneFoldSuffices(sum)))
            && (k > 0 && k + 18 <= |b| ==> sent[k + 16..k + 18] == b[k + 16..k + 18])
  {
    hide Summed, Encoding, WordSum, JavaChecksum, OneFoldSuffices, RfcAccepts, Received, PseudoHeader, Be16;
    var h := ParseHeader(b);
    var sum := Summed(ip, |b|, h, b[20..h.headLen], b[h.headLen..]);
    SegmentRoundTrip(ip, b);
    EvenSixteen();
    FieldFilled(ip, |b|, b, 16, sum);
  }

  lemma EvenSixteen()
    ensures Even(16) && Even(6)
  {
  }

  // What is sent when the field at i is filled in, summed behind a pseudo header with a given length.
  lemma FieldFilled(ip: Ipv4.Header, length: nat, b: seq<byte>, i: nat, sum: seq<byte>)
    requires ip.Valid() && |b| <= length <= 65515 && 20 <= ip.headerLen < 20 + |b| && Even(i) && i + 2 <= |b|
    requires sum == PseudoHeader(ip, length) + b[..i] + [0, 0] + b[i + 2..]
    ensures var sent := b[..i] + Be16(JavaChecksum(sum)) + b[i + 2..];
            var k := ip.headerLen - 20;
            && |sent| == |b| && (forall j | 0 <= j < |b| && j != i && j != i + 1 :: sent[j] == b[j])
            && (RfcAccepts(Received(ip, sent))
                <==> (length - |b| + k + WordSum(sent[..k])) % 0xFFFF == if OneFoldSuffices(sum) then 0 else 1)
            && (k == 0 && length == |b| ==> (RfcAccepts(Received(ip, sent)) <==> OneFoldSuffices(sum)))
            && (k > 0 && k + i + 2 <= |b| ==> sent[k + i..k + i + 2] == b[k + i..k + i + 2])
  {
    hide WordSum, JavaChecksum, OneFoldSuffices, RfcAccepts, Received, PseudoHeader, Be16, Even;
    var sent := b[..i] + Be16(JavaChecksum(sum)) + b[i + 2..];
    var k := ip.headerLen - 20;
    assert sent[..i] == b[..i] && sent[i + 2..] == b[i + 2..] && sent[i..i + 2] == Be16(JavaChecksum(sum));
    ReceivedAccepted(ip, length, sent, i);
    NoWords(sent[..0]);
    assert k > 0 ==> k >= 4;
  }

  lemma NoWords(b: seq<byte>)
    requires b == []
    ensures WordSum(b) == 0
  {
  }

  lemma TwoAddresses(ip: Ipv4.Header, a: u16, b: u16, c: u16, d: u16, n: nat)
    requires ip.Valid() && n < 0x1_0000
    requires Quad(ip.srcIP) == Be16(a) + Be16(b) && Quad(ip.dstIP) == Be16(c) + Be16(d)
    ensures WordSum(PseudoHeader(ip, n)) == a as int + b as int + c as int + d as int + ip.protocol as int + n
  {
    hide WordSum, Be16;
    var ps := PseudoHeader(ip, n);
    WordAt(ps, 0, a);
    WordAt(ps, 2, b);
    WordAt(ps, 4, c);
    WordAt(ps, 6, d);
    Ipv4.WordSumFrom(ps, 8);
    LengthWord(n);
    assert ps[0..] == ps && ps[10..] == Be16(n);
  }

  lemma WordAt(b: seq<byte>, i: nat, v: u16)
    requires i + 2 <= |b| && b[i..i + 2] == Be16(v)
    ensures WordSum(b[i..]) == v as int + WordSum(b[i + 2..])
  {
    hide WordSum;
    Ipv4.WordSumFrom(b, i);
    U16OfBe16(v, []);
    assert Be16(v) + [] == Be16(v) && U16(b, i) == U16(b[i..i + 2], 0);
  }

  // From 192.168.0.1 to 192.168.0.2, without IP options.
  ghost predicate Local(ip: Ipv4.Header) {
    ip.Valid() && ip.headerLen == 20
    && Quad(ip.srcIP) == [192, 168, 0, 1] && Quad(ip.dstIP) == [192, 168, 0, 2]
  }

  lemma LocalPseudo(ip: Ipv4.Header, n: nat)
    requires Local(ip) && n < 0x1_0000
    ensures WordSum(PseudoHeader(ip, n)) == 0x1_8153 + ip.protocol as int + n
  {
    assert Be16(0xC0A8) == [192, 168] && Be16(1) == [0, 1] && Be16(2) == [0, 2];
    TwoAddresses(ip, 0xC0A8, 1, 0xC0A8, 2, n);
  }

  // A segment without options or payload, from port 11842 to port 80.
  function EmptySegment(): (b: seq<byte>)
    ensures |b| == 20 && b[16] == 0 && b[17] == 0 && WellFormed(b) && ParseHeader(b).headLen == 20
    ensures U16(b, 0) == 0x2E42 && U16(b, 2) == 80 && U16(b, 4) == 0 && U16(b, 6) == 0 && U16(b, 8) == 0
    ensures U16(b, 10) == 0 && U16(b, 12) == 0x5000 && U16(b, 14) == 0 && U16(b, 16) == 0 && U16(b, 18) == 0
  {
    [0x2E, 0x42, 0, 80, 0, 0, 0, 0, 0, 0, 0, 0, 0x50, 0, 0, 0, 0, 0, 0, 0]
  }

  // Its words sum to 0x1FFFF, whose fold carries again, so that it is dropped.
  lemma SegmentDropped(ip: Ipv4.Header)
    requires Local(ip) && ip.protocol == 6
    ensures var b := EmptySegment();
            var sent := Encoding(ip, 20, ParseHeader(b), [], []);
            |sent| == 20 && !RfcAccepts(Received(ip, sent))
  {
    hide EmptySegment, ParseHeader, Summed, Encoding, WordSum, Padded, RfcAccepts, Received;
    var b := EmptySegment();
    assert b[20..20] == [] && b[20..] == [];
    EmptySegmentSum(ip);
    SegmentAccepted(ip, b);
  }

  lemma EmptySegmentSum(ip: Ipv4.Header)
    requires Local(ip) && ip.protocol == 6
    ensures var b := EmptySegment();
            var sum := Summed(ip, 20, ParseHeader(b), [], []);
            Padded(sum) == sum && WordSum(sum) == 0x1_FFFF
  {
    hide EmptySegment, ParseHeader, Summed, WordSum, Even, Quad, IsDottedQuad;
    var b := EmptySegment();
    var ps := PseudoHeader(ip, 20);
    assert b[20..20] == [] && b[20..] == [];
    SegmentRoundTrip(ip, b);
    ZeroInPlace(b, 16);
    assert ps + b[..16] + [0, 0] + b[18..] == ps + (b[..16] + [0, 0] + b[18..]);
    LocalPseudo(ip, 20);
    Ipv4.WordSumOf10(b);
    EvenTwelve();
    EvenTotal(ps, b);
    WordSumAppend(ps, b);
  }

  lemma ZeroInPlace(b: seq<byte>, i: nat)
    requires i + 2 <= |b| && b[i] == 0 && b[i + 1] == 0
    ensures b[..i] + [0, 0] + b[i + 2..] == b
  {
  }

  lemma EvenTotal(a: seq<byte>, b: seq<byte>)
    requires |a| == 12 && (|b| == 8 || |b| == 12 || |b| == 20)
    ensures Even(|a + b|)
  {
  }

  // The layout of section 3.1 of RFC 9293, read; FlagsRecompose has the bits of the flags word.
  lemma ParsedLayout(b: seq<byte>)
    requires |b| >= 20
    ensures var h := ParseHeader(b);
            && h.srcPort as int == b[0] as int * 256 + b[1] as int
            && h.dstPort as int == b[2] as int * 256 + b[3] as int
            && h.seqNo as int
               == b[4] as int * 0x100_0000 + b[5] as int * 0x1_0000 + b[6] as int * 256 + b[7] as int
            && h.ackNo as int
               == b[8] as int * 0x100_0000 + b[9] as int * 0x1_0000 + b[10] as int * 256 + b[11] as int
            && h.flags as int == b[12] as int * 256 + b[13] as int && h.headLen == b[12] as int / 16 * 4
            && h.window as int == b[14] as int * 256 + b[15] as int
            && h.checksum as int == b[16] as int * 256 + b[17] as int
            && h.urgentPointer as int == b[18] as int * 256 + b[19] as int
  {
  }

  // The bits of the second flags byte, and the last of the first, by their names.
  lemma FlagLayout(b: seq<byte>)
    requires |b| >= 20
    ensures var h := ParseHeader(b);
            && h.reservedFlag == b[12] as int % 2 && h.accurateECNFlag == b[13] as int / 128
            && h.echoFlag == b[13] as int / 64 % 2 && h.urgFlag == b[13] as int / 32 % 2
            && h.ackFlag == b[13] as int / 16 % 2 && h.pshFlag == b[13] as int / 8 % 2
            && h.rstFlag == b[13] as int / 4 % 2 && h.synFlag == b[13] as int / 2 % 2 && h.finFlag == b[13] as int % 2
  {
    FlagBits(b[12], b[13]);
    WordLayout(b, 12);
    hide U16, U32;
  }

  lemma FlagBits(hi: byte, lo: byte)
    ensures var f := hi as int * 256 + lo as int;
            && f / 0x100 % 2 == hi as int % 2 && f / 0x80 % 2 == lo as int / 128
            && f / 0x40 % 2 == lo as int / 64 % 2 && f / 0x20 % 2 == lo as int / 32 % 2
            && f / 0x10 % 2 == lo as int / 16 % 2 && f / 8 % 2 == lo as int / 8 % 2
            && f / 4 % 2 == lo as int / 4 % 2 && f / 2 % 2 == lo as int / 2 % 2 && f % 2 == lo as int % 2
  {
    FlagBit(hi, lo, 1, 128);
    FlagBit(hi, lo, 2, 64);
    FlagBit(hi, lo, 4, 32);
    FlagBit(hi, lo, 8, 16);
    FlagBit(hi, lo, 0x10, 8);
    FlagBit(hi, lo, 0x20, 4);
    FlagBit(hi, lo, 0x40, 2);
    TopBit(hi, lo);
  }

  lemma TopBit(hi: byte, lo: byte)
    ensures (hi as int * 256 + lo as int) / 0x80 % 2 == lo as int / 128
    ensures (hi as int * 256 + lo as int) / 0x100 % 2 == hi as int % 2
  {
    FlagBit(hi, lo, 0x80, 1);
    DivUnique(hi as int * 256 + lo as int, 0x100, hi);
  }

  // A bit of the low byte of a word.
  lemma FlagBit(hi: int, lo: int, m: int, k: int)
    requires m >= 1 && m * (2 * k) == 256
    ensures (hi * 256 + lo) / m % 2 == lo / m % 2
  {
    var y := lo / m;
    assert (2 * (k * hi) + y) * m == hi * (m * (2 * k)) + y * m;
    DivUnique(hi * 256 + lo, m, 2 * (k * hi) + y);
    EvenDrops(k * hi, y);
  }

  lemma EvenDrops(z: int, y: int)
    ensures (2 * z + y) % 2 == y % 2
  {
  }

  // And written: the fields, the checksum over the pseudo header and all of it, options, payload.
  lemma WrittenLayout(ip: Ipv4.Header, length: nat, h: Header, options: seq<byte>, payload: seq<byte>)
    requires ip.Valid()
    ensures var e := Encoding(ip, length, h, options, payload);
            var v := JavaChecksum(Summed(ip, length, h, options, payload));
            && |e| == 20 + |options| + |payload| && e[20..] == options + payload
            && e[0..2] == [h.srcPort / 256, h.srcPort % 256] && e[2..4] == [h.dstPort / 256, h.dstPort % 256]
            && e[4..8] == [h.seqNo / 0x100_0000, h.seqNo / 0x1_0000 % 256, h.seqNo / 256 % 256, h.seqNo % 256]
            && e[8..12] == [h.ackNo / 0x100_0000, h.ackNo / 0x1_0000 % 256, h.ackNo / 256 % 256, h.ackNo % 256]
            && e[12..14] == [h.flags / 256, h.flags % 256] && e[14..16] == [h.window / 256, h.window % 256]
            && e[16..18] == [v / 256, v % 256] && e[18..20] == [h.urgentPointer / 256, h.urgentPointer % 256]
  {
    hide JavaChecksum, Summed, Be16, Be32;
    ShortLayout(h.srcPort);
    ShortLayout(h.dstPort);
    IntLayout(h.seqNo);
    IntLayout(h.ackNo);
    ShortLayout(h.flags);
    ShortLayout(h.window);
    ShortLayout(JavaChecksum(Summed(ip, length, h, options, payload)));
    ShortLayout(h.urgentPointer);
  }

  // What is summed in front of a segment: source, destination, zero, protocol, length.
  lemma PseudoLayout(ip: Ipv4.Header, length: u16)
    requires ip.Valid()
    ensures var ps := PseudoHeader(ip, length);
            && ps[0..4] == Quad(ip.srcIP) && ps[4..8] == Quad(ip.dstIP) && ps[8] == 0 && ps[9] == ip.protocol
            && ps[10..12] == [length / 256, length % 256]
  {
    hide Quad, IsDottedQuad;
    ShortLayout(length);
  }
}
