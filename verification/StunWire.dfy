/**
 STUN on the wire, byte by byte: the numbers of section 11 of RFC 3489 and of the program's own message and attribute
 types, the cookie of section 6 of RFC 5389, and the layout of the attribute values.
 */
module StunWire {
  import opened Wrappers
  import opened IpText
  import opened ByteBufs
  import opened StunCodec
  import opened StunTheorems

  // The first two bytes of a message of a type.
  function TypeBytes(t: MessageType): (b: seq<byte>)
    ensures |b| == 2
  {
    match t
    case BindRequest => [0x00, 0x01]
    case BindResponse => [0x01, 0x01]
    case Transfer => [0x03, 0x01]
    case BindRelayRequest => [0x03, 0x03]
    case BindRelayResponse => [0x03, 0x04]
  }

  // The first two bytes of an attribute of a type.
  function AttrBytes(t: AttrType): (b: seq<byte>)
    ensures |b| == 2
  {
    match t
    case MappedAddress => [0x00, 0x01]
    case ChangeRequest => [0x00, 0x03]
    case SourceAddress => [0x00, 0x04]
    case ChangedAddress => [0x00, 0x05]
    case XorMappedAddress => [0x00, 0x20]
    case Data => [0x80, 0x03]
    case RelayToken => [0x80, 0x04]
    case ResponseOrigin => [0x80, 0x2b]
    case OtherAddress => [0x80, 0x2c]
  }

  // A length in two bytes.
  function LengthBytes(n: nat): seq<byte> {
    [n / 256 % 256, n % 256]
  }

  // The bytes of a value: an address is a zero, 1 or 2 for the family, the port and the four numbers of the text; a
  // change request is four bytes with 4 for the address and 2 for the port in the last; the others are as they are.
  predicate ValueBytes(a: Attr, v: seq<byte>) {
    match a
    case AddressAttr(family, ip, port) =>
      && family.Some? && IsDottedQuad(ip)
      && |v| == 8 && v[0] == 0 && v[1] == (if family.value.IPv4? then 1 else 2)
      && v[2] as int * 256 + v[3] as int == port && v[4..8] == Quad(ip)
    case ChangeRequestAttr(changeIP, changePort) =>
      v == [0, 0, 0, (if changeIP then 4 else 0) + (if changePort then 2 else 0)]
    case BytesAttr(data) => v == data
    case StringAttr(text) => v == text
  }

  function ValueLength(a: Attr): nat {
    match a
    case AddressAttr(_, _, _) => 8
    case ChangeRequestAttr(_, _) => 4
    case BytesAttr(data) => |data|
    case StringAttr(text) => |text|
  }

  // The attributes one after another in an order, each with its number, its length and its value, and nothing else.
  ghost predicate AreaBytes(attrs: Attrs, order: seq<AttrType>, b: seq<byte>)
    requires forall k | k in order :: k in attrs
  {
    if order == [] then b == []
    else
      var n := ValueLength(attrs[order[0]]);
      && |b| >= 4 + n
      && b[0..2] == AttrBytes(order[0]) && b[2..4] == LengthBytes(n)
      && ValueBytes(attrs[order[0]], b[4..4 + n])
      && AreaBytes(attrs, order[1..], b[4 + n..])
  }

  lemma ValueWritten(a: Attr)
    requires Writable(a) && (a.AddressAttr? ==> IsDottedQuad(a.ip))
    ensures ValueBytes(a, Value(a)) && |Value(a)| == ValueLength(a)
  {
    hide Quad, IsDottedQuad, BytesToIp;
    match a
    case AddressAttr(family, ip, port) =>
      assert Value(a)[4..8] == Quad(ip);
      ShortLayout(port);
    case _ =>
  }

  lemma FrameWritten(t: AttrType, v: seq<byte>)
    ensures FrameBytes(Frame(AttrCode(t), v)) == AttrBytes(t) + LengthBytes(|v|) + v
  {
    assert Be16(AttrCode(t)) == AttrBytes(t);
  }

  lemma {:induction false} AreaWritten(attrs: Attrs, order: seq<AttrType>)
    requires Encodable(attrs) && forall k | k in order :: k in attrs
    ensures AreaBytes(attrs, order, Bytes(FramesOf(attrs, order)))
  {
    hide Value, ValueBytes, AttrBytes, AttrCode, FrameBytes;
    if order != [] {
      var a := attrs[order[0]];
      var f := Frame(AttrCode(order[0]), Value(a));
      var rest := FramesOf(attrs, order[1..]);
      AreaWritten(attrs, order[1..]);
      ValueWritten(a);
      FrameWritten(order[0], Value(a));
      assert ([f] + rest)[1..] == rest;
      var b := AttrBytes(order[0]) + LengthBytes(|Value(a)|) + Value(a) + Bytes(rest);
      assert b[4..4 + |Value(a)|] == Value(a) && b[4 + |Value(a)|..] == Bytes(rest);
    }
  }

  // Every message that is sent.
  lemma MessageWritten(m: Message, order: seq<AttrType>)
    requires m.messageType.Some? && Encodable(m.attrs) && |m.tranId| == 12 && forall k | k in order :: k in m.attrs
    ensures var b := EncodeMessage(m, order);
            && |b| >= 20 && b[0..2] == TypeBytes(m.messageType.value) && b[2..4] == LengthBytes(|b| - 20)
            && b[4..8] == [0x21, 0x12, 0xa4, 0x42] && b[8..20] == m.tranId
            && AreaBytes(m.attrs, order, b[20..])
  {
    hide AreaBytes, Bytes, FramesOf, Encodable;
    var area := Bytes(FramesOf(m.attrs, order));
    AreaWritten(m.attrs, order);
    assert Be16(TypeCode(m.messageType.value)) == TypeBytes(m.messageType.value);
    assert EncodeMessage(m, order)[20..] == area;
  }

  // Which numbers name a message type, and which an attribute type.
  lemma NumbersRead(hi: byte, lo: byte)
    ensures forall t :: TypeOf(hi as int * 256 + lo as int) == Some(t) <==> [hi, lo] == TypeBytes(t)
    ensures forall t :: AttrOf(hi as int * 256 + lo as int) == Some(t) <==> [hi, lo] == AttrBytes(t)
  {
  }

  // What a value is read as, under the type that its attribute is stored under.
  predicate ReadsAs(t: AttrType, v: seq<byte>, a: Attr) {
    match t
    case ChangeRequest => |v| >= 4 && a == ChangeRequestAttr(v[3] as int / 4 % 2 == 1, v[3] as int / 2 % 2 == 1)
    case Data => a == BytesAttr(v)
    case RelayToken => a == StringAttr(v)
    case _ =>
      && |v| >= 8 && a.AddressAttr?
      && a.family == (if v[1] == 1 then Some(IPv4) else if v[1] == 2 then Some(IPv6) else None)
      && a.port as int == v[2] as int * 256 + v[3] as int && a.ip == BytesToIp(v[4..8])
  }

  function Needed(t: AttrType): nat {
    match t
    case ChangeRequest => 4
    case Data => 0
    case RelayToken => 0
    case _ => 8
  }

  lemma ValueRead(t: AttrType, v: seq<byte>)
    ensures var r := DecodeValue(t, v);
            (r.Some? <==> |v| >= Needed(t)) && (r.Some? ==> ReadsAs(t, v, r.value))
  {
    if t == ChangeRequest && |v| >= 4 {
      FlagsRead(v);
    }
  }

  lemma FlagsRead(v: seq<byte>)
    requires |v| >= 4
    ensures var flag: int := U32(v, 0);
            flag / 4 % 2 == v[3] as int / 4 % 2 && flag / 2 % 2 == v[3] as int / 2 % 2
  {
    var hi := v[0] as int * 0x1_0000 + v[1] as int * 0x100 + v[2] as int;
    assert U32(v, 0) == hi * 256 + v[3] as int;
    var lo: int := v[3];
    assert (hi * 256 + lo) / 4 == hi * 64 + lo / 4 && (hi * 256 + lo) / 2 == hi * 128 + lo / 2;
  }

  // A frame carries the number of a type; the number of OtherAddress is read as ChangedAddress.
  predicate Names(f: Frame, t: AttrType) {
    var number := LengthBytes(f.code);
    && t != OtherAddress
    && (number == AttrBytes(t) || (t == ChangedAddress && number == AttrBytes(OtherAddress)))
  }

  lemma NamesStored(f: Frame, t: AttrType)
    ensures Names(f, t) <==> StoredAs(f) == Some(t)
  {
    NumbersRead(f.code / 256, f.code % 256);
  }

  // The last frame that counts for a type.
  ghost predicate LastOne(fs: seq<Frame>, t: AttrType, i: nat) {
    i < |fs| && Names(fs[i], t) && forall j | i < j < |fs| :: !Names(fs[j], t)
  }

  lemma {:induction false} NoneNamed(fs: seq<Frame>, t: AttrType)
    ensures LastFor(fs, t).None? <==> forall i | 0 <= i < |fs| :: !Names(fs[i], t)
  {
    hide Names, StoredAs;
    if fs != [] {
      var n := |fs| - 1;
      NamesStored(fs[n], t);
      NoneNamed(fs[..n], t);
      assert forall i | 0 <= i < n :: fs[i] == fs[..n][i];
    }
  }

  lemma {:induction false} LastNamed(fs: seq<Frame>, t: AttrType, i: nat)
    requires LastOne(fs, t, i)
    ensures LastFor(fs, t) == Some(fs[i])
  {
    hide Names, StoredAs;
    var n := |fs| - 1;
    NamesStored(fs[n], t);
    if i < n {
      LastNamed(fs[..n], t, i);
    }
  }

  // What the attributes of any message are read as: frames with a number outside the table do not count, a known one
  // that is too short fails the message,
  lemma AreaRead(fs: seq<Frame>)
    requires Short(fs)
    ensures DecodeAttrs(Bytes(fs), map[]).Some?
            <==> forall i, t | 0 <= i < |fs| && Names(fs[i], t) :: |fs[i].value| >= Needed(t)
  {
    hide Names, DecodeValue, StoredAs, Needed;
    DecodeIsFold(Bytes(fs), map[]);
    FramesOfBytes(fs);
    LastWins(fs);
    forall i | 0 <= i < |fs|
      ensures Decodable(fs[i]) <==> forall t | Names(fs[i], t) :: |fs[i].value| >= Needed(t)
    {
      FrameDecodable(fs[i]);
    }
  }

  lemma FrameDecodable(f: Frame)
    ensures Decodable(f) <==> forall t | Names(f, t) :: |f.value| >= Needed(t)
  {
    hide Names, DecodeValue, StoredAs, Needed;
    forall t ensures Names(f, t) <==> StoredAs(f) == Some(t) {
      NamesStored(f, t);
    }
    if StoredAs(f).Some? {
      ValueRead(StoredAs(f).value, f.value);
      assert Names(f, StoredAs(f).value);
    }
  }

  // and of those that are stored alike the last one stays.
  lemma AttributeRead(fs: seq<Frame>, t: AttrType, i: nat)
    requires Short(fs) && DecodeAttrs(Bytes(fs), map[]).Some?
    ensures var attrs := DecodeAttrs(Bytes(fs), map[]).value;
            && (t in attrs <==> exists j :: 0 <= j < |fs| && Names(fs[j], t))
            && (LastOne(fs, t, i) ==> i < |fs| && t in attrs && ReadsAs(t, fs[i].value, attrs[t]))
  {
    hide Names, ReadsAs, DecodeValue, StoredAs, Short, DecodeAttrs, StoreAll, LastFor, Bytes, Frames, Decodable;
    DecodeIsFold(Bytes(fs), map[]);
    FramesOfBytes(fs);
    LastWins(fs);
    NoneNamed(fs, t);
    if LastOne(fs, t, i) {
      LastNamed(fs, t, i);
      ValueRead(t, fs[i].value);
    }
  }

  // Every message that is received; what stands in place of the cookie does not matter.
  lemma MessageRead(b: seq<byte>)
    ensures var r := DecodeMessage(b);
            && (r.Some? <==> Complete(b) && DecodeAttrs(Area(b), map[]).Some?)
            && (r.Some? ==>
                  && (forall t :: r.value.messageType == Some(t) <==> b[0..2] == TypeBytes(t))
                  && r.value.tranId == b[8..20] && Some(r.value.attrs) == DecodeAttrs(Area(b), map[]))
  {
    if |b| >= 20 {
      NumbersRead(b[0], b[1]);
    }
  }

  predicate Complete(b: seq<byte>) {
    |b| >= 20 && |b| >= 20 + (b[2] as int * 256 + b[3] as int)
  }

  // The attribute area, as long as the header says.
  function Area(b: seq<byte>): seq<byte>
    requires Complete(b)
  {
    b[20..20 + (b[2] as int * 256 + b[3] as int)]
  }
}
