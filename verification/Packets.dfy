/** Both layers together: decode a packet and its segment, encode both again. */
module Packets {
  import opened Wrappers
  import opened IpText
  import opened ByteBufs
  import opened Checksum
  import Ipv4
  import Tcp
  import Udp

  function Replace16(b: seq<byte>, i: nat, v: u16): (r: seq<byte>)
    requires i + 2 <= |b|
    ensures |r| == |b|
  {
    b[..i] + Be16(v) + b[i + 2..]
  }

  predicate TcpPacketBytes(b: seq<byte>) {
    |b| >= 20 && Tcp.WellFormed(b[20..])
  }

  predicate UdpPacketBytes(b: seq<byte>) {
    |b| >= 20 && Udp.WellFormed(b[20..])
  }

  // The checksums that encoding computes; neither depends on the checksum fields of b.
  function IpSum(b: seq<byte>): u16
    requires |b| >= 20
  {
    Ipv4.HeaderChecksum(Ipv4.ParseHeader(b))
  }

  function SegmentSum(h: Ipv4.Header, s: seq<byte>, i: nat): u16
    requires h.Valid() && i + 2 <= |s|
  {
    JavaChecksum(Tcp.PseudoHeader(h, |s|) + s[..i] + [0, 0] + s[i + 2..])
  }

  // A packet with both checksum fields filled in; the segment's field is at i.
  function Refreshed(b: seq<byte>, i: nat): (r: seq<byte>)
    requires |b| >= 20 && i + 2 <= |b| - 20
    ensures |r| == |b|
  {
    Replace16(b[..20], 10, IpSum(b)) + Replace16(b[20..], i, SegmentSum(Ipv4.ParseHeader(b), b[20..], i))
  }

  // Refreshing touches only the two fields.
  lemma RefreshedBytes(b: seq<byte>, i: nat, k: nat)
    requires |b| >= 20 && i + 2 <= |b| - 20
    requires k < |b| && k !in {10, 11, 20 + i, 20 + i + 1}
    ensures Refreshed(b, i)[k] == b[k]
  {
    hide Ipv4.ParseHeader, IpSum, SegmentSum, Be16;
  }

  // Without IP options the second field is the segment's. With options it is not: the program takes them for
  // the start of the segment and overwrites a word in front of the segment's field, which keeps its value.
  lemma RefreshedField(b: seq<byte>, i: nat)
    requires |b| >= 20 && Even(i) && 20 <= Ipv4.ParseHeader(b).headerLen
    requires Ipv4.ParseHeader(b).headerLen + i + 2 <= |b|
    ensures var field := Ipv4.ParseHeader(b).headerLen + i;
            && (field == 20 + i <==> Ipv4.ParseHeader(b).headerLen == 20)
            && (field != 20 + i ==>
                  20 + i + 2 <= field && U16(Refreshed(b, i), field) == U16(b, field)
                  && Refreshed(b, i)[20 + i..20 + i + 2] == Be16(SegmentSum(Ipv4.ParseHeader(b), b[20..], i)))
  {
    hide Ipv4.ParseHeader, Refreshed, SegmentSum;
    var field := Ipv4.ParseHeader(b).headerLen + i;
    Ipv4.HeaderStep(b);
    if field != 20 + i {
      RefreshedBytes(b, i, field);
      RefreshedBytes(b, i, field + 1);
      RefreshedWord(b, i);
    }
  }

  lemma RefreshedWord(b: seq<byte>, i: nat)
    requires |b| >= 20 && i + 2 <= |b| - 20
    ensures Refreshed(b, i)[20 + i..20 + i + 2] == Be16(SegmentSum(Ipv4.ParseHeader(b), b[20..], i))
  {
    hide Ipv4.ParseHeader, SegmentSum, IpSum, Be16;
    var head := Replace16(b[..20], 10, IpSum(b));
    var v := SegmentSum(Ipv4.ParseHeader(b), b[20..], i);
    assert Refreshed(b, i)[20..] == Replace16(b[20..], i, v);
    assert Replace16(b[20..], i, v)[i..i + 2] == Be16(v);
  }

  lemma HeaderRefreshed(b: seq<byte>)
    requires |b| >= 20
    ensures Ipv4.HeaderBytes(Ipv4.ParseHeader(b), IpSum(b)) == Replace16(b[..20], 10, IpSum(b))
  {
    Ipv4.HeaderRoundTrip(b, IpSum(b));
    assert b[..20][..10] == b[..10] && b[..20][12..] == b[12..20];
  }

  // Both layers of a pass, as functions of the bytes.
  lemma TcpPass(b: seq<byte>)
    requires TcpPacketBytes(b)
    ensures var ip := Ipv4.ParseHeader(b);
            var s := b[20..];
            var h := Tcp.ParseHeader(s);
            Ipv4.Encoding(ip, Tcp.Encoding(ip, |s|, h, s[20..h.headLen], s[h.headLen..])) == Refreshed(b, 16)
  {
    Tcp.SegmentRoundTrip(Ipv4.ParseHeader(b), b[20..]);
    HeaderRefreshed(b);
  }

  lemma UdpPass(b: seq<byte>)
    requires UdpPacketBytes(b)
    ensures var ip := Ipv4.ParseHeader(b);
            var s := b[20..];
            var h := Udp.ParseHeader(s);
            var e := Ipv4.Encoding(ip, Udp.Encoding(ip, |s|, h, s[8..h.len]));
            |e| == 20 + h.len && (h.len == |s| ==> e == Refreshed(b, 6))
  {
    var s := b[20..];
    var h := Udp.ParseHeader(s);
    Udp.DatagramRoundTrip(Ipv4.ParseHeader(b), s);
    assert h.len == |s| ==> s[8..h.len] == s[8..];
    HeaderRefreshed(b);
  }

  method ReencodeSegment(ip: Ipv4.Ipv4Packet) returns (r: Option<ByteBuf>)
    requires ip.Valid()
    modifies ip.payload`reader
    ensures ip.Valid() && ip.Payload() == old(ip.Payload())
    ensures r.Some? <==> Tcp.WellFormed(ip.Payload())
    ensures r.Some? ==>
              var s := ip.Payload();
              var h := Tcp.ParseHeader(s);
              && fresh(r.value) && r.value.Valid()
              && r.value.Rest() == Tcp.Encoding(ip.header, |s|, h, s[20..h.headLen], s[h.headLen..])
  {
    var p := ip.GetPayload();
    var tcp :- Tcp.TcpPacket.Decode(p);
    r := tcp.Encode(ip, false);
  }

  // Decode a packet and its segment, encode the segment, and encode the packet around it.
  method ReencodeTcp(bytes: seq<byte>) returns (r: Option<seq<byte>>)
    ensures r.Some? <==> TcpPacketBytes(bytes)
    ensures r.Some? ==> r.value == Refreshed(bytes, 16)
  {
    hide Refreshed, Tcp.Encoding, Ipv4.Encoding, Ipv4.ParseHeader, Tcp.ParseHeader;
    var buf := new ByteBuf(bytes);
    assert buf.Rest() == bytes;
    var ip :- Ipv4.Ipv4Packet.Decode(buf);
    var segment :- ReencodeSegment(ip);
    ip.SetPayload(segment);
    TcpPass(bytes);
    var packet := ip.Encode(false);
    r := Some(packet.value.Rest());
  }

  // For UDP the datagram is cut at its length field; when that is the length of the IP payload, nothing is lost.
  method ReencodeUdp(bytes: seq<byte>) returns (r: Option<seq<byte>>)
    ensures r.Some? <==> UdpPacketBytes(bytes)
    ensures r.Some? ==> |r.value| == 20 + Udp.ParseHeader(bytes[20..]).len
    ensures r.Some? && Udp.ParseHeader(bytes[20..]).len == |bytes| - 20 ==> r.value == Refreshed(bytes, 6)
  {
    hide Refreshed, Udp.Encoding, Ipv4.Encoding, Ipv4.ParseHeader, Udp.ParseHeader;
    var buf := new ByteBuf(bytes);
    assert buf.Rest() == bytes;
    var ip :- Ipv4.Ipv4Packet.Decode(buf);
    var p := ip.GetPayload();
    var udp :- Udp.UdpPacket.Decode(p);
    var datagram := udp.Encode(ip, false);
    ip.SetPayload(datagram.value);
    UdpPass(bytes);
    var packet := ip.Encode(false);
    r := Some(packet.value.Rest());
  }

  // Re-encoding again changes nothing: the checksums do not depend on the checksum fields.
  lemma RefreshIdempotent(b: seq<byte>, i: nat)
    requires |b| >= 20 && i + 2 <= |b| - 20
    ensures Refreshed(Refreshed(b, i), i) == Refreshed(b, i)
  {
    hide JavaChecksum, Be16, Ipv4.ParseHeader, IpSum, U16;
    var r := Refreshed(b, i);
    var h, h' := Ipv4.ParseHeader(b), Ipv4.ParseHeader(r);
    SameHeader(b, r);
    SameSegment(b[20..], r[20..], i);
    assert Tcp.PseudoHeader(h', |b| - 20) == Tcp.PseudoHeader(h, |b| - 20);
    assert SegmentSum(h', r[20..], i) == SegmentSum(h, b[20..], i);
    assert r[20..] == Replace16(b[20..], i, SegmentSum(h, b[20..], i));
    assert Replace16(r[..20], 10, IpSum(b)) == r[..20];
    assert Replace16(r[20..], i, SegmentSum(h, b[20..], i)) == r[20..];
  }

  // So a second pass succeeds where the first did, and gives the same bytes.
  lemma SecondTcpPass(b: seq<byte>)
    requires TcpPacketBytes(b)
    ensures TcpPacketBytes(Refreshed(b, 16)) && Refreshed(Refreshed(b, 16), 16) == Refreshed(b, 16)
  {
    var r := Refreshed(b, 16);
    RefreshIdempotent(b, 16);
    SameWord(b, r, 16, 12);
  }

  lemma SecondUdpPass(b: seq<byte>)
    requires UdpPacketBytes(b)
    ensures UdpPacketBytes(Refreshed(b, 6)) && Refreshed(Refreshed(b, 6), 6) == Refreshed(b, 6)
    ensures Udp.ParseHeader(Refreshed(b, 6)[20..]).len == Udp.ParseHeader(b[20..]).len
  {
    var r := Refreshed(b, 6);
    RefreshIdempotent(b, 6);
    SameWord(b, r, 6, 4);
  }

  // A word of the segment in front of its checksum field.
  lemma SameWord(b: seq<byte>, r: seq<byte>, i: nat, j: nat)
    requires |b| >= 20 && j + 2 <= i && i + 2 <= |b| - 20 && r == Refreshed(b, i)
    ensures U16(r[20..], j) == U16(b[20..], j)
  {
    hide Refreshed;
    RefreshedBytes(b, i, 20 + j);
    RefreshedBytes(b, i, 20 + j + 1);
  }

  lemma SameHeader(b: seq<byte>, r: seq<byte>)
    requires |b| >= 20 && |r| >= 20 && r[..10] == b[..10] && r[12..20] == b[12..20]
    ensures Ipv4.ParseHeader(r) == Ipv4.ParseHeader(b).(checksum := U16(r, 10))
    ensures IpSum(r) == IpSum(b)
  {
    assert forall k | 0 <= k < 10 :: r[k] == r[..10][k] == b[..10][k] == b[k];
    assert r[12..16] == r[12..20][..4] == b[12..20][..4] == b[12..16];
    assert r[16..20] == r[12..20][4..] == b[12..20][4..] == b[16..20];
    var h := Ipv4.ParseHeader(b);
    assert Ipv4.HeaderBytes(h.(checksum := U16(r, 10)), 0) == Ipv4.HeaderBytes(h, 0);
  }

  lemma SameSegment(s: seq<byte>, t: seq<byte>, i: nat)
    requires i + 2 <= |s| == |t| && (exists v :: t == Replace16(s, i, v))
    ensures t[..i] == s[..i] && t[i + 2..] == s[i + 2..]
  {
  }
}
