/**
 STUN messages on the wire: the header of section 6 of RFC 5389 and unpadded type-length-value
 attributes. Texts are held as their encoded bytes.
 */
module StunCodec {
  import opened Wrappers
  import opened IpText
  import opened ByteBufs

  datatype MessageType = BindRequest | BindResponse | Transfer | BindRelayRequest | BindRelayResponse

  datatype AttrType =
    | MappedAddress | SourceAddress | ChangedAddress | XorMappedAddress | ChangeRequest
    | ResponseOrigin | OtherAddress | Data | RelayToken

  datatype Family = IPv4 | IPv6

  // A family code outside the table decodes to no family at all.
  datatype Attr =
    | AddressAttr(family: Option<Family>, ip: string, port: u16)
    | ChangeRequestAttr(changeIP: bool, changePort: bool)
    | BytesAttr(data: seq<byte>)
    | StringAttr(text: seq<byte>)

  type Attrs = map<AttrType, Attr>

  datatype Message = Message(messageType: Option<MessageType>, tranId: seq<byte>, attrs: Attrs)

  const COOKIE: seq<byte> := [0x21, 0x12, 0xa4, 0x42]

  function TypeCode(t: MessageType): u16 {
    match t
    case BindRequest => 0x0001
    case BindResponse => 0x0101
    case Transfer => 0x0301
    case BindRelayRequest => 0x0303
    case BindRelayResponse => 0x0304
  }

  function TypeOf(code: u16): Option<MessageType> {
    if code == 0x0001 then Some(BindRequest)
    else if code == 0x0101 then Some(BindResponse)
    else if code == 0x0301 then Some(Transfer)
    else if code == 0x0303 then Some(BindRelayRequest)
    else if code == 0x0304 then Some(BindRelayResponse)
    else None
  }

  function AttrCode(t: AttrType): u16 {
    match t
    case MappedAddress => 0x0001
    case SourceAddress => 0x0004
    case ChangedAddress => 0x0005
    case XorMappedAddress => 0x0020
    case ChangeRequest => 0x0003
    case ResponseOrigin => 0x802b
    case OtherAddress => 0x802c
    case Data => 0x8003
    case RelayToken => 0x8004
  }

  function AttrOf(code: u16): Option<AttrType> {
    if code == 0x0001 then Some(MappedAddress)
    else if code == 0x0004 then Some(SourceAddress)
    else if code == 0x0005 then Some(ChangedAddress)
    else if code == 0x0020 then Some(XorMappedAddress)
    else if code == 0x0003 then Some(ChangeRequest)
    else if code == 0x802b then Some(ResponseOrigin)
    else if code == 0x802c then Some(OtherAddress)
    else if code == 0x8003 then Some(Data)
    else if code == 0x8004 then Some(RelayToken)
    else None
  }

  function CompatibleCode(t: AttrType): int {
    if t == OtherAddress then 0x0005 else 0
  }

  // The type an attribute is stored under: OtherAddress becomes ChangedAddress.
  function Stored(t: AttrType): AttrType {
    if t == OtherAddress then ChangedAddress else t
  }

  lemma CodesInvert(m: MessageType, t: AttrType, code: u16)
    ensures TypeOf(TypeCode(m)) == Some(m)
    ensures AttrOf(AttrCode(t)) == Some(t)
    ensures AttrOf(code).Some? ==> AttrCode(AttrOf(code).value) == code
    ensures CompatibleCode(t) > 0 ==> AttrOf(CompatibleCode(t)) == Some(Stored(t))
    ensures CompatibleCode(t) <= 0 ==> Stored(t) == t
  {
  }

  function FamilyCode(f: Family): byte {
    if f == IPv4 then 1 else 2
  }

  function FamilyOf(code: byte): Option<Family> {
    if code == 1 then Some(IPv4) else if code == 2 then Some(IPv6) else None
  }

  // Attr.write. An address without a family has no code to write.
  predicate Writable(a: Attr) {
    a.AddressAttr? ==> a.family.Some?
  }

  function Value(a: Attr): (v: seq<byte>)
    requires Writable(a)
    requires a.AddressAttr? ==> IsDottedQuad(a.ip)
  {
    match a
    case AddressAttr(family, ip, port) => [0] + [FamilyCode(family.value)] + Be16(port) + Quad(ip)
    case ChangeRequestAttr(changeIP, changePort) => Be32((if changeIP then 4 else 0) + (if changePort then 2 else 0))
    case BytesAttr(data) => data
    case StringAttr(text) => text
  }

  // The decoder of an attribute type, on the bytes of its value; bytes it does not read are ignored.
  function DecodeValue(t: AttrType, v: seq<byte>): Option<Attr> {
    match t
    case ChangeRequest =>
      if |v| < 4 then None
      else
        var flag: int := U32(v, 0);
        Some(ChangeRequestAttr(flag / 4 % 2 == 1, flag / 2 % 2 == 1))
    case Data => Some(BytesAttr(v))
    case RelayToken => Some(StringAttr(v))
    case _ =>
      if |v| < 8 then None
      else Some(AddressAttr(FamilyOf(v[1]), BytesToIp(v[4..8]), U16(v, 2)))
  }

  // An attribute of the class that its type declares, with an address as the program prints it.
  ghost predicate OfClass(t: AttrType, a: Attr) {
    match t
    case ChangeRequest => a.ChangeRequestAttr?
    case Data => a.BytesAttr?
    case RelayToken => a.StringAttr?
    case _ => a.AddressAttr? && a.family.Some? && (exists q: seq<byte> | |q| == 4 :: a.ip == BytesToIp(q))
  }

  lemma ClassWritable(t: AttrType, a: Attr)
    requires OfClass(t, a)
    ensures Writable(a) && (a.AddressAttr? ==> IsDottedQuad(a.ip))
  {
  }

  lemma AddressRoundTrip(t: AttrType, family: Family, q: seq<byte>, port: u16)
    requires |q| == 4 && t !in {ChangeRequest, Data, RelayToken}
    ensures DecodeValue(t, [0] + [FamilyCode(family)] + Be16(port) + q)
            == Some(AddressAttr(Some(family), BytesToIp(q), port))
  {
    var v := [0] + [FamilyCode(family)] + Be16(port) + q;
    assert v[4..8] == q && v[1] == FamilyCode(family);
    assert v[2..] == Be16(port) + q;
    U16OfBe16(port, q);
    assert U16(v, 2) == U16(v[2..], 0);
  }

  lemma FlagBytes(flag: byte)
    ensures U32(Be32(flag), 0) == flag
  {
    assert Be32(flag) == [0, 0, 0, flag];
  }

  lemma ChangeRoundTrip(changeIP: bool, changePort: bool)
    ensures var flag: byte := (if changeIP then 4 else 0) + (if changePort then 2 else 0);
            DecodeValue(ChangeRequest, Be32(flag)) == Some(ChangeRequestAttr(changeIP, changePort))
  {
    hide U32, Be32;
    FlagBytes((if changeIP then 4 else 0) + (if changePort then 2 else 0));
  }

  lemma ValueRoundTrip(t: AttrType, a: Attr)
    requires OfClass(t, a)
    ensures Writable(a) && (a.AddressAttr? ==> IsDottedQuad(a.ip))
    ensures DecodeValue(Stored(t), Value(a)) == Some(a)
  {
    hide Be32, Be16, U32, U16;
    ClassWritable(t, a);
    match a
    case AddressAttr(family, ip, port) =>
      var q: seq<byte> :| |q| == 4 && ip == BytesToIp(q);
      QuadOfBytes(q);
      AddressRoundTrip(Stored(t), family.value, q, port);
    case ChangeRequestAttr(changeIP, changePort) =>
      ChangeRoundTrip(changeIP, changePort);
    case BytesAttr(data) =>
    case StringAttr(text) =>
  }

  // A frame: the code of an attribute and the bytes of its value.
  datatype Frame = Frame(code: u16, value: seq<byte>)

  function FrameBytes(f: Frame): seq<byte> {
    Be16(f.code) + Be16(|f.value|) + f.value
  }

  function Bytes(fs: seq<Frame>): seq<byte> {
    if fs == [] then [] else FrameBytes(fs[0]) + Bytes(fs[1..])
  }

  // The first frame of a non-empty attribute area, unless it is truncated.
  function FirstFrame(b: seq<byte>): (f: Option<Frame>)
    ensures f.Some? ==> |b| >= 4 + |f.value.value|
  {
    if |b| < 4 || |b| < 4 + U16(b, 2) as int then None
    else
      var l: int := U16(b, 2);
      Some(Frame(U16(b, 0), b[4..4 + l]))
  }

  function Frames(b: seq<byte>): Option<seq<Frame>>
    decreases |b|
  {
    if b == [] then Some([])
    else
      var f :- FirstFrame(b);
      var rest :- Frames(b[4 + |f.value|..]);
      Some([f] + rest)
  }

  // What one frame does to the attributes collected so far.
  function Store(f: Frame, acc: Attrs): Option<Attrs> {
    var t := AttrOf(f.code);
    if t.None? then Some(acc)
    else
      var a :- DecodeValue(Stored(t.value), f.value);
      Some(acc[Stored(t.value) := a])
  }

  // The attribute loop: frame by frame, failing at the first truncated frame or undecodable value.
  function DecodeAttrs(b: seq<byte>, acc: Attrs): Option<Attrs>
    decreases |b|
  {
    if b == [] then Some(acc)
    else
      var f :- FirstFrame(b);
      var acc' :- Store(f, acc);
      DecodeAttrs(b[4 + |f.value|..], acc')
  }

  function DecodeMessage(b: seq<byte>): Option<Message> {
    if |b| < 20 || |b| < 20 + U16(b, 2) as int then None
    else
      var len: int := U16(b, 2);
      var attrs :- DecodeAttrs(b[20..20 + len], map[]);
      Some(Message(TypeOf(U16(b, 0)), b[8..20], attrs))
  }

  // The frames an encoder writes when the attribute map is visited in a given order.
  function FramesOf(attrs: Attrs, order: seq<AttrType>): seq<Frame>
    requires Encodable(attrs) && forall k | k in order :: k in attrs
  {
    if order == [] then []
    else [Frame(AttrCode(order[0]), Value(attrs[order[0]]))] + FramesOf(attrs, order[1..])
  }

  predicate Encodable(attrs: Attrs) {
    forall k | k in attrs :: Writable(attrs[k]) && (attrs[k].AddressAttr? ==> IsDottedQuad(attrs[k].ip))
  }

  function EncodeMessage(m: Message, order: seq<AttrType>): seq<byte>
    requires m.messageType.Some? && Encodable(m.attrs) && forall k | k in order :: k in m.attrs
  {
    var area := Bytes(FramesOf(m.attrs, order));
    Be16(TypeCode(m.messageType.value)) + Be16(|area|) + COOKIE + m.tranId + area
  }

  // An iteration order of a map's entries: every key once.
  ghost predicate Enumerates(order: seq<AttrType>, attrs: Attrs) {
    && (forall k :: k in order <==> k in attrs)
    && (forall i, j | 0 <= i < j < |order| :: order[i] != order[j])
  }

  // StunDecoder.decode
  method Decode(buf: ByteBuf) returns (r: Option<Message>)
    requires buf.Valid()
    modifies buf`reader
    ensures r == DecodeMessage(old(buf.Rest()))
  {
    ghost var b := buf.Rest();
    var code :- buf.ReadUnsignedShort();
    var len :- buf.ReadUnsignedShort();
    var cookie :- buf.ReadBytes(|COOKIE|);
    var tranId :- buf.ReadBytes(12);
    assert tranId == b[8..20];
    var slice :- buf.ReadSlice(len);
    assert slice.data == b[20..20 + len as int];
    var attrs :- ReadAttrs(slice);
    r := Some(Message(TypeOf(code), tranId, attrs));
  }

  method ReadAttrs(slice: ByteBuf) returns (r: Option<Attrs>)
    requires slice.Valid()
    modifies slice`reader
    ensures r == DecodeAttrs(old(slice.Rest()), map[])
  {
    var attrs: Attrs := map[];
    while slice.ReadableBytes() > 0
      invariant slice.Valid()
      invariant DecodeAttrs(slice.Rest(), attrs) == DecodeAttrs(old(slice.Rest()), map[])
      decreases slice.ReadableBytes()
    {
      ghost var rest := slice.Rest();
      var t, v :- ReadFrame(slice);
      var attrType := AttrOf(t);
      if attrType.None? {
        continue;
      }
      CodesInvert(BindRequest, attrType.value, t);
      if CompatibleCode(attrType.value) > 0 {
        attrType := AttrOf(CompatibleCode(attrType.value));
      }
      var attr :- ReadValue(attrType.value, v);
      attrs := attrs[attrType.value := attr];
    }
    r := Some(attrs);
  }

  method ReadFrame(slice: ByteBuf) returns (t: Option<u16>, v: ByteBuf)
    requires slice.Valid() && slice.ReadableBytes() > 0
    modifies slice`reader
    ensures slice.Valid() && fresh(v) && v.Valid() && v.reader == 0
    ensures var f := FirstFrame(old(slice.Rest()));
            && (t.None? <==> f.None?)
            && (f.Some? ==>
                  && t.value == f.value.code && v.Rest() == f.value.value
                  && slice.Rest() == old(slice.Rest())[4 + |f.value.value|..])
  {
    v := new ByteBuf([]);
    t := slice.ReadUnsignedShort();
    if t.None? {
      return None, v;
    }
    var l := slice.ReadUnsignedShort();
    if l.None? {
      return None, v;
    }
    var value := slice.ReadSlice(l.value);
    if value.None? {
      return None, v;
    }
    v := value.value;
  }

  method ReadValue(t: AttrType, v: ByteBuf) returns (r: Option<Attr>)
    requires v.Valid() && v.reader == 0
    modifies v`reader
    ensures r == DecodeValue(t, old(v.Rest()))
  {
    ghost var b := v.Rest();
    match t
    case ChangeRequest =>
      var x :- v.ReadUnsignedInt();
      var flag: int := x;
      r := Some(ChangeRequestAttr(flag / 4 % 2 == 1, flag / 2 % 2 == 1));
    case Data =>
      var bytes := v.ReadBytes(v.ReadableBytes());
      assert bytes.value == b;
      r := Some(BytesAttr(bytes.value));
    case RelayToken =>
      var bytes := v.ReadBytes(v.ReadableBytes());
      assert bytes.value == b;
      r := Some(StringAttr(bytes.value));
    case _ =>
      var reserved :- v.ReadUnsignedByte();
      var family :- v.ReadUnsignedByte();
      var port :- v.ReadUnsignedShort();
      var bytes :- v.ReadBytes(4);
      assert bytes == b[4..8];
      r := Some(AddressAttr(FamilyOf(family), BytesToIp(bytes), port));
  }

  // StunEncoder.encode; the order is the one in which the map yielded its entries.
  method Encode(m: Message) returns (buf: ByteBuf, ghost order: seq<AttrType>)
    requires m.messageType.Some? && Encodable(m.attrs)
    ensures Enumerates(order, m.attrs)
    ensures fresh(buf) && buf.Valid() && buf.Rest() == EncodeMessage(m, order)
  {
    hide Enumerates, Encodable, FramesOf, Bytes;
    var attrsBuf;
    attrsBuf, order := WriteAttrs(m.attrs);
    buf := new ByteBuf([]);
    buf.WriteShort(TypeCode(m.messageType.value));
    buf.WriteShort(attrsBuf.ReadableBytes());
    buf.WriteArray(COOKIE);
    buf.WriteArray(m.tranId);
    buf.WriteBytes(attrsBuf);
  }

  method WriteAttrs(attrs: Attrs) returns (attrsBuf: ByteBuf, ghost order: seq<AttrType>)
    requires Encodable(attrs)
    ensures Enumerates(order, attrs)
    ensures fresh(attrsBuf) && attrsBuf.Valid() && attrsBuf.reader == 0
    ensures attrsBuf.data == Bytes(FramesOf(attrs, order))
  {
    attrsBuf := new ByteBuf([]);
    order := [];
    var left := attrs.Keys;
    while left != {}
      invariant left <= attrs.Keys
      invariant forall k :: k in order <==> k in attrs && k !in left
      invariant forall i, j | 0 <= i < j < |order| :: order[i] != order[j]
      invariant attrsBuf.Valid() && attrsBuf.reader == 0
      invariant attrsBuf.data == Bytes(FramesOf(attrs, order))
    {
      var key :| key in left;
      left := left - {key};
      WriteFrame(attrsBuf, key, attrs[key]);
      FramesAppend(attrs, order, key);
      order := order + [key];
    }
  }

  method WriteFrame(attrsBuf: ByteBuf, key: AttrType, a: Attr)
    requires attrsBuf.Valid() && Writable(a) && (a.AddressAttr? ==> IsDottedQuad(a.ip))
    modifies attrsBuf`data
    ensures attrsBuf.Valid() && attrsBuf.data == old(attrsBuf.data) + FrameBytes(Frame(AttrCode(key), Value(a)))
  {
    var value := WriteValue(a);
    var attrBuf := new ByteBuf([]);
    attrBuf.WriteShort(AttrCode(key));
    attrBuf.WriteShort(value.ReadableBytes());
    attrBuf.WriteBytes(value);
    assert attrBuf.Rest() == FrameBytes(Frame(AttrCode(key), Value(a)));
    attrsBuf.WriteBytes(attrBuf);
  }

  method WriteValue(a: Attr) returns (buf: ByteBuf)
    requires Writable(a) && (a.AddressAttr? ==> IsDottedQuad(a.ip))
    ensures fresh(buf) && buf.Valid() && buf.reader == 0 && buf.data == Value(a)
  {
    buf := new ByteBuf([]);
    match a
    case AddressAttr(family, ip, port) =>
      buf.WriteByte(0);
      buf.WriteByte(FamilyCode(family.value));
      buf.WriteShort(port);
      var bytes := IpToBytes(ip);
      buf.WriteArray(bytes);
    case ChangeRequestAttr(changeIP, changePort) =>
      var flag := 0;
      if changeIP {
        flag := flag + 4;
      }
      if changePort {
        flag := flag + 2;
      }
      buf.WriteInt(flag);
    case BytesAttr(data) =>
      buf.WriteArray(data);
    case StringAttr(text) =>
      buf.WriteArray(text);
  }

  lemma {:induction false} BytesAppend(fs: seq<Frame>, gs: seq<Frame>)
    ensures Bytes(fs + gs) == Bytes(fs) + Bytes(gs)
  {
    if fs == [] {
      assert fs + gs == gs;
    } else {
      assert (fs + gs)[0] == fs[0] && (fs + gs)[1..] == fs[1..] + gs;
      BytesAppend(fs[1..], gs);
    }
  }

  lemma {:induction false} FramesOfAppend(attrs: Attrs, order: seq<AttrType>, key: AttrType)
    requires Encodable(attrs) && key in attrs && forall k | k in order :: k in attrs
    ensures FramesOf(attrs, order + [key]) == FramesOf(attrs, order) + [Frame(AttrCode(key), Value(attrs[key]))]
  {
    if order == [] {
      assert order + [key] == [key];
    } else {
      assert (order + [key])[0] == order[0] && (order + [key])[1..] == order[1..] + [key];
      FramesOfAppend(attrs, order[1..], key);
    }
  }

  lemma FramesAppend(attrs: Attrs, order: seq<AttrType>, key: AttrType)
    requires Encodable(attrs) && key in attrs && forall k | k in order :: k in attrs
    ensures Bytes(FramesOf(attrs, order + [key]))
            == Bytes(FramesOf(attrs, order)) + FrameBytes(Frame(AttrCode(key), Value(attrs[key])))
  {
    FramesOfAppend(attrs, order, key);
    var f := Frame(AttrCode(key), Value(attrs[key]));
    BytesAppend(FramesOf(attrs, order), [f]);
    assert Bytes([f]) == FrameBytes(f);
  }
}
