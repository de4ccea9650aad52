/** UDP datagrams carried by an IPv4 packet. */
module Udp {
  import opened Wrappers
  import opened IpText
  import opened ByteBufs
  import opened Checksum
  import Ipv4
  import Tcp

  datatype Header = Header(srcPort: u16, dstPort: u16, len: u16, checksum: u16)

  function ParseHeader(b: seq<byte>): Header
    requires |b| >= 8
  {
    Header(U16(b, 0), U16(b, 2), U16(b, 4), U16(b, 6))
  }

  // The payload is sliced by the length field; bytes after it are dropped.
  predicate WellFormed(b: seq<byte>) {
    && |b| >= 8
    && 8 <= ParseHeader(b).len <= |b|
  }

  function AppendHeader(front: seq<byte>, h: Header, checksum: int): (b: seq<byte>)
    ensures |b| == |front| + 8
  {
    front + Be16(h.srcPort) + Be16(h.dstPort) + Be16(h.len) + Be16(checksum)
  }

  function Summed(ip: Ipv4.Header, length: nat, h: Header, payload: seq<byte>): seq<byte>
    requires ip.Valid()
  {
    AppendHeader(Tcp.PseudoHeader(ip, length), h, 0) + payload
  }

  function Encoding(ip: Ipv4.Header, length: nat, h: Header, payload: seq<byte>): seq<byte>
    requires ip.Valid()
  {
    AppendHeader([], h, JavaChecksum(Summed(ip, length, h, payload))) + payload
  }

  class UdpPacket {
    var header: Header
    var payload: ByteBuf

    ghost predicate Valid()
      reads this, payload
    {
      payload.Valid()
    }

    function Payload(): seq<byte>
      requires Valid()
      reads this, payload
    {
      payload.FromMark()
    }

    constructor (header: Header, payload: ByteBuf)
      requires payload.Valid()
      modifies payload`mark
      ensures this.header == header && this.payload == payload
      ensures Valid() && Payload() == old(payload.Rest())
    {
      this.header, this.payload := header, payload;
      new;
      payload.MarkReaderIndex();
    }

    static method Decode(buf: ByteBuf) returns (r: Option<UdpPacket>)
      requires buf.Valid()
      modifies buf`reader
      ensures buf.Valid()
      ensures r.Some? <==> WellFormed(old(buf.Rest()))
      ensures r.Some? ==>
                var b := old(buf.Rest());
                && fresh(r.value) && fresh(r.value.payload) && r.value.Valid()
                && r.value.header == ParseHeader(b)
                && r.value.Payload() == b[8..ParseHeader(b).len]
    {
      ghost var b := buf.Rest();
      var header :- ReadHeader(buf);
      var payload :- buf.ReadSlice(header.len as int - 8);
      assert payload.data == b[8..header.len];
      var packet := new UdpPacket(header, payload);
      r := Some(packet);
    }

    static method ReadHeader(buf: ByteBuf) returns (r: Option<Header>)
      requires buf.Valid()
      modifies buf`reader
      ensures buf.Valid()
      ensures r.Some? <==> old(buf.ReadableBytes()) >= 8
      ensures r.Some? ==> r.value == ParseHeader(old(buf.Rest())) && buf.reader == old(buf.reader) + 8
    {
      var srcPort :- buf.ReadUnsignedShort();
      var dstPort :- buf.ReadUnsignedShort();
      var len :- buf.ReadUnsignedShort();
      var checksum :- buf.ReadUnsignedShort();
      r := Some(Header(srcPort, dstPort, len, checksum));
    }

    method Write(buf: ByteBuf, checksum: int)
      requires Valid() && buf.Valid() && buf != payload
      modifies buf`data, payload`reader
      ensures Valid() && Payload() == old(Payload())
      ensures buf.Valid() && buf.data == AppendHeader(old(buf.data), header, checksum) + Payload()
    {
      buf.WriteShort(header.srcPort);
      buf.WriteShort(header.dstPort);
      buf.WriteShort(header.len);
      buf.WriteShort(checksum);
      payload.ResetReaderIndex();
      buf.WriteBytes(payload);
    }

    method Encode(ip: Ipv4.Ipv4Packet, verify: bool) returns (r: Option<ByteBuf>)
      requires Valid() && ip.Valid()
      modifies payload`reader, ip.payload`reader
      ensures Valid() && Payload() == old(Payload())
      ensures ip.Valid() && ip.Payload() == old(ip.Payload())
      ensures r.None? <==>
                verify && JavaChecksum(Summed(ip.header, |ip.Payload()|, header, Payload())) != header.checksum
      ensures r.Some? ==>
                && fresh(r.value) && r.value.Valid()
                && r.value.Rest() == Encoding(ip.header, |ip.Payload()|, header, Payload())
    {
      var sumBuf := new ByteBuf([]);
      Tcp.TcpPacket.WritePseudoHeader(ip, sumBuf);
      Write(sumBuf, 0);
      var checksum := CalcChecksum(sumBuf);
      if verify && checksum != header.checksum {
        return None;
      }
      var buf := new ByteBuf([]);
      Write(buf, checksum);
      r := Some(buf);
    }
  }

  // Decoding and encoding again gives back the datagram up to its length field, with its checksum field computed.
  lemma DatagramRoundTrip(ip: Ipv4.Header, b: seq<byte>)
    requires ip.Valid() && WellFormed(b)
    ensures var h := ParseHeader(b);
            var sum := Summed(ip, |b|, h, b[8..h.len]);
            && sum == Tcp.PseudoHeader(ip, |b|) + b[..6] + [0, 0] + b[8..h.len]
            && Encoding(ip, |b|, h, b[8..h.len]) == b[..6] + Be16(JavaChecksum(sum)) + b[8..h.len]
  {
    var h := ParseHeader(b);
    Be16OfU16(b, 0);
    Be16OfU16(b, 2);
    Be16OfU16(b, 4);
    assert Be16(0) == [0, 0];
    assert b[..6] == b[0..2] + b[2..4] + b[4..6];
  }

  // A standard receiver takes the datagram behind the IP header at its length. It takes a zero field for a
  // datagram without a checksum and checks nothing then.
  predicate Accepts(ip: Ipv4.Header, sent: seq<byte>)
    requires ip.Valid() && 20 <= ip.headerLen <= 20 + |sent|
  {
    var datagram := sent[ip.headerLen - 20..];
    |datagram| >= 8 && (ParseHeader(datagram).checksum == 0 || RfcAccepts(Tcp.Received(ip, sent)))
  }

  // What is sent ends at the length field. Without IP options, and when the length field is the length of the
  // IP payload, a receiver accepts exactly when one fold was enough; the field is sent as zero, where RFC 768
  // asks for all ones, exactly when the words sum to a multiple of 65535. Otherwise it depends on what the
  // options sum to as sent and on what was cut; its own field stays as it was.
  lemma DatagramAccepted(ip: Ipv4.Header, b: seq<byte>)
    requires ip.Valid() && WellFormed(b) && |b| <= 65515 && 20 <= ip.headerLen < 20 + ParseHeader(b).len
    ensures var n: int := ParseHeader(b).len;
            var sum := Summed(ip, |b|, ParseHeader(b), b[8..n]);
            var sent := Encoding(ip, |b|, ParseHeader(b), b[8..n]);
            var s := WordSum(Padded(sum));
            var k := ip.headerLen - 20;
            && |sent| == n && (forall j | 0 <= j < n && j != 6 && j != 7 :: sent[j] == b[j])
            && (RfcAccepts(Tcp.Received(ip, sent))
                <==> (|b| - n + k + WordSum(sent[..k])) % 0xFFFF == if OneFoldSuffices(sum) then 0 else 1)
            && (k == 0 && n == |b| ==> (Accepts(ip, sent) <==> OneFoldSuffices(sum)))
            && (ParseHeader(sent).checksum == 0 <==> s > 0 && s % 0xFFFF == 0)
            && (k > 0 && k + 8 <= n ==> sent[k + 6..k + 8] == b[k + 6..k + 8])
  {
    hide Summed, Encoding, WordSum, JavaChecksum, OneFoldSuffices, RfcAccepts, Be16, Padded;
    hide Tcp.Received, Tcp.PseudoHeader;
    var n: int := ParseHeader(b).len;
    var sum := Summed(ip, |b|, ParseHeader(b), b[8..n]);
    var sent := Encoding(ip, |b|, ParseHeader(b), b[8..n]);
    DatagramRoundTrip(ip, b);
    assert b[..n][..6] == b[..6] && b[..n][8..] == b[8..n];
    Tcp.EvenSixteen();
    Tcp.FieldFilled(ip, |b|, b[..n], 6, sum);
    FieldSent(sent, b, n, JavaChecksum(sum));
    if n == |b| {
      SumLength(ip, b);
      ZeroNeedsOneFold(sum);
    }
    SumLength(ip, b);
    ZeroChecksum(sum);
    assert ip.headerLen == 20 ==> sent[ip.headerLen - 20..] == sent;
  }

  lemma SumLength(ip: Ipv4.Header, b: seq<byte>)
    requires ip.Valid() && WellFormed(b)
    ensures |Summed(ip, |b|, ParseHeader(b), b[8..ParseHeader(b).len])| == 12 + ParseHeader(b).len as int
  {
  }

  // Zero comes out only where one fold was enough.
  lemma ZeroNeedsOneFold(sum: seq<byte>)
    requires |sum| <= 0x1_0000
    ensures JavaChecksum(sum) == 0 ==> OneFoldSuffices(sum)
  {
    ChecksumExact(sum);
  }

  lemma FieldSent(sent: seq<byte>, b: seq<byte>, n: int, v: u16)
    requires 8 <= n <= |b| && sent == b[..6] + Be16(v) + b[8..n]
    ensures |sent| >= 8 && ParseHeader(sent).checksum == v
  {
    assert sent[6..] == Be16(v) + b[8..n];
    U16OfBe16(v, b[8..n]);
    assert U16(sent, 6) == U16(sent[6..], 0);
  }

  // An empty datagram to port 53 from a given port, without a checksum.
  function EmptyDatagram(port: u16): (b: seq<byte>)
    ensures WellFormed(b) && ParseHeader(b).len == |b| == 8
    ensures U16(b, 0) == port && U16(b, 2) == 53 && U16(b, 4) == 8 && U16(b, 6) == 0
  {
    Be16OfPort(port);
    Be16(port) + [0, 53, 0, 8, 0, 0]
  }

  lemma Be16OfPort(port: u16)
    ensures var b := Be16(port) + [0, 53, 0, 8, 0, 0];
            U16(b, 0) == port
  {
    U16OfBe16(port, [0, 53, 0, 8, 0, 0]);
  }

  lemma LocalSum(ip: Ipv4.Header, port: u16)
    requires Tcp.Local(ip) && ip.protocol == 17
    ensures var b := EmptyDatagram(port);
            var sum := Summed(ip, 8, ParseHeader(b), b[8..]);
            Padded(sum) == sum && WordSum(sum) == 0x1_81A9 + port as int
  {
    hide EmptyDatagram, ParseHeader, Summed, WordSum, Even;
    var b := EmptyDatagram(port);
    DatagramRoundTrip(ip, b);
    assert b[8..8] == b[8..] == [];
    var sum := Summed(ip, 8, ParseHeader(b), b[8..]);
    Tcp.ZeroInPlace(b, 6);
    assert sum == Tcp.PseudoHeader(ip, 8) + b;
    Tcp.LocalPseudo(ip, 8);
    DatagramSum(b);
    Tcp.EvenTwelve();
    Tcp.EvenTotal(Tcp.PseudoHeader(ip, 8), b);
    WordSumAppend(Tcp.PseudoHeader(ip, 8), b);
  }

  lemma DatagramSum(b: seq<byte>)
    requires |b| == 8
    ensures WordSum(b) == U16(b, 0) as int + U16(b, 2) as int + U16(b, 4) as int + U16(b, 6) as int
  {
    hide WordSum, U16;
    Ipv4.WordSumFrom(b, 0);
    Ipv4.WordSumFrom(b, 2);
    Ipv4.WordSumFrom(b, 4);
    Ipv4.WordSumFrom(b, 6);
    Tcp.NoWords(b[8..]);
    assert b[0..] == b;
  }

  // A datagram that is sent without a checksum, and one that is dropped.
  lemma ZeroFieldSent(ip: Ipv4.Header)
    requires Tcp.Local(ip) && ip.protocol == 17
    ensures var b := EmptyDatagram(0x7E55);
            var sent := Encoding(ip, 8, ParseHeader(b), b[8..]);
            |sent| == 8 && ParseHeader(sent).checksum == 0
  {
    hide EmptyDatagram, Summed, Encoding, ParseHeader, Padded, WordSum;
    var b := EmptyDatagram(0x7E55);
    assert b[8..8] == b[8..];
    LocalSum(ip, 0x7E55);
    DatagramAccepted(ip, b);
  }

  lemma DatagramDropped(ip: Ipv4.Header)
    requires Tcp.Local(ip) && ip.protocol == 17
    ensures var b := EmptyDatagram(0x7E56);
            var sent := Encoding(ip, 8, ParseHeader(b), b[8..]);
            |sent| == 8 && !Accepts(ip, sent)
  {
    hide EmptyDatagram, Summed, Encoding, ParseHeader, Padded, WordSum, Accepts;
    var b := EmptyDatagram(0x7E56);
    assert b[8..8] == b[8..];
    LocalSum(ip, 0x7E56);
    DatagramAccepted(ip, b);
  }

  // A packet with four bytes of IP options, from 10.0.0.1 to 10.0.0.2: the options and, behind them, an empty
  // datagram from port 12 to port 53 with its checksum right.
  function BehindOptions(): (b: seq<byte>)
    ensures |b| == 12 && WellFormed(b) && ParseHeader(b).len == 12
    ensures U16(b, 0) == 0x0101 && U16(b, 2) == 0x0100 && U16(b, 4) == 12 && U16(b, 6) == 53 && U16(b, 8) == 8
    ensures U16(b, 10) == 0xEB9A
  {
    [1, 1, 1, 0, 0, 12, 0, 53, 0, 8, 0xEB, 0x9A]
  }

  ghost predicate WithOptions(ip: Ipv4.Header) {
    ip.Valid() && ip.protocol == 17 && ip.headerLen == 24
    && Quad(ip.srcIP) == [10, 0, 0, 1] && Quad(ip.dstIP) == [10, 0, 0, 2]
  }

  lemma RemotePseudo(ip: Ipv4.Header, n: nat)
    requires WithOptions(ip) && n < 0x1_0000
    ensures WordSum(Tcp.PseudoHeader(ip, n)) == 0x1414 + n
  {
    assert Be16(0x0A00) == [10, 0] && Be16(1) == [0, 1] && Be16(2) == [0, 2];
    Tcp.TwoAddresses(ip, 0x0A00, 1, 0x0A00, 2, n);
  }

  // Words of the packet.
  lemma WordsOf12(b: seq<byte>)
    requires |b| == 12
    ensures WordSum(b[8..]) == U16(b, 8) as int + U16(b, 10) as int
    ensures WordSum(b[4..]) == U16(b, 4) as int + U16(b, 6) as int + WordSum(b[8..])
    ensures WordSum(b) == U16(b, 0) as int + U16(b, 2) as int + WordSum(b[4..])
    ensures WordSum(b[..4]) == U16(b, 0) as int + U16(b, 2) as int
  {
    hide WordSum, U16;
    Ipv4.WordSumFrom(b, 0);
    Ipv4.WordSumFrom(b, 2);
    Ipv4.WordSumFrom(b, 4);
    Ipv4.WordSumFrom(b, 6);
    Ipv4.WordSumFrom(b, 8);
    Ipv4.WordSumFrom(b, 10);
    Tcp.NoWords(b[12..]);
    assert b[0..] == b && b == b[..4] + b[4..];
    FourIsEven(b[..4]);
    WordSumAppend(b[..4], b[4..]);
  }

  lemma FourIsEven(b: seq<byte>)
    requires |b| == 4
    ensures Even(|b|)
  {
  }

  // A receiver accepts it as it came.
  lemma AcceptedAsItCame(ip: Ipv4.Header)
    requires WithOptions(ip)
    ensures Accepts(ip, BehindOptions())
  {
    hide BehindOptions, ParseHeader, WordSum, Padded, Even, OnesSum;
    var b := BehindOptions();
    var ps := Tcp.PseudoHeader(ip, 8);
    RemotePseudo(ip, 8);
    WordsOf12(b);
    Tcp.EvenTwelve();
    Tcp.EvenTotal(ps, b[4..]);
    WordSumAppend(ps, b[4..]);
    PaddedEven(ps + b[4..]);
    OnesSumIsReduced(ps + b[4..]);
  }

  lemma PaddedEven(b: seq<byte>)
    requires Even(|b|)
    ensures Padded(b) == b
  {
  }

  // The program sums and sends it with its checksum in the place of the datagram's destination port. One fold
  // was enough, but the receiver drops it.
  lemma OptionsOverwritten(ip: Ipv4.Header)
    requires WithOptions(ip)
    ensures var b := BehindOptions();
            var sum := Summed(ip, 12, ParseHeader(b), b[8..]);
            var sent := Encoding(ip, 12, ParseHeader(b), b[8..]);
            && OneFoldSuffices(sum) && sent == b[..6] + Be16(0xFE2F) + b[8..]
            && U16(b[4..], 2) == 53 && U16(sent[4..], 2) == 0xFE2F
            && !Accepts(ip, sent)
  {
    hide BehindOptions, ParseHeader, Summed, Encoding, WordSum, Padded, Even, Accepts, Be16;
    var b := BehindOptions();
    var sent := Encoding(ip, 12, ParseHeader(b), b[8..]);
    assert b[8..12] == b[8..];
    SumBehindOptions(ip);
    DatagramRoundTrip(ip, b);
    Computed(Summed(ip, 12, ParseHeader(b), b[8..]));
    DatagramAccepted(ip, b);
    assert sent[..4] == b[..4];
    WordsOf12(b);
    PortSent(b, sent);
    FieldKept(ip, b, sent);
  }

  lemma SumBehindOptions(ip: Ipv4.Header)
    requires WithOptions(ip)
    ensures var b := BehindOptions();
            var sum := Summed(ip, 12, ParseHeader(b), b[8..]);
            |sum| == 24 && Padded(sum) == sum && WordSum(sum) == 0x1_01CF
  {
    hide BehindOptions, ParseHeader, Summed, WordSum, Even, Padded, Be16;
    var b := BehindOptions();
    var ps := Tcp.PseudoHeader(ip, 12);
    assert b[8..12] == b[8..];
    DatagramRoundTrip(ip, b);
    var z := b[..6] + [0, 0] + b[8..];
    assert ps + b[..6] + [0, 0] + b[8..] == ps + z;
    assert z[0] == b[0] && z[1] == b[1] && z[2] == b[2] && z[3] == b[3] && z[4] == b[4] && z[5] == b[5];
    assert z[6] == 0 && z[7] == 0 && z[8] == b[8] && z[9] == b[9] && z[10] == b[10] && z[11] == b[11];
    RemotePseudo(ip, 12);
    WordsOf12(z);
    Tcp.EvenTwelve();
    Tcp.EvenTotal(ps, z);
    WordSumAppend(ps, z);
    PaddedEven(ps + z);
  }

  lemma PortSent(b: seq<byte>, sent: seq<byte>)
    requires |b| == 12 && U16(b, 6) == 53 && sent == b[..6] + Be16(0xFE2F) + b[8..]
    ensures U16(b[4..], 2) == 53 && U16(sent[4..], 2) == 0xFE2F
  {
    assert Be16(0xFE2F) == [0xFE, 0x2F];
    assert sent[6] == 0xFE && sent[7] == 0x2F;
  }

  lemma FieldKept(ip: Ipv4.Header, b: seq<byte>, sent: seq<byte>)
    requires WithOptions(ip) && |b| == |sent| == 12 && U16(b, 10) == 0xEB9A && sent[10..12] == b[10..12]
    ensures Accepts(ip, sent) <==> RfcAccepts(Tcp.Received(ip, sent))
  {
    hide RfcAccepts, Tcp.Received;
    assert sent[10] == b[10] && sent[11] == b[11] by {
      assert sent[10..12][0] == b[10..12][0] && sent[10..12][1] == b[10..12][1];
    }
    assert U16(sent[4..], 6) == 0xEB9A;
  }

  // The layout of RFC 768, read and written.
  lemma ParsedLayout(b: seq<byte>)
    requires |b| >= 8
    ensures var h := ParseHeader(b);
            && h.srcPort as int == b[0] as int * 256 + b[1] as int
            && h.dstPort as int == b[2] as int * 256 + b[3] as int
            && h.len as int == b[4] as int * 256 + b[5] as int
            && h.checksum as int == b[6] as int * 256 + b[7] as int
  {
  }

  lemma WrittenLayout(ip: Ipv4.Header, length: nat, h: Header, payload: seq<byte>)
    requires ip.Valid()
    ensures var e := Encoding(ip, length, h, payload);
            var v := JavaChecksum(Summed(ip, length, h, payload));
            && |e| == 8 + |payload| && e[8..] == payload
            && e[0..2] == [h.srcPort / 256, h.srcPort % 256] && e[2..4] == [h.dstPort / 256, h.dstPort % 256]
            && e[4..6] == [h.len / 256, h.len % 256] && e[6..8] == [v / 256, v % 256]
  {
    hide JavaChecksum, Summed, Be16;
    ShortLayout(h.srcPort);
    ShortLayout(h.dstPort);
    ShortLayout(h.len);
    ShortLayout(JavaChecksum(Summed(ip, length, h, payload)));
  }
}
