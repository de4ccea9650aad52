/** What the STUN decoder makes of any bytes, and of what the encoder writes. */
module StunTheorems {
  import opened Wrappers
  import opened IpText
  import opened ByteBufs
  import opened StunCodec

  function StoreAll(fs: seq<Frame>, acc: Attrs): Option<Attrs> {
    if fs == [] then Some(acc)
    else
      var acc' :- Store(fs[0], acc);
      StoreAll(fs[1..], acc')
  }

  // The loop over bytes is: cut into frames, failing on truncation, then store the frames in turn.
  lemma {:induction false} DecodeIsFold(b: seq<byte>, acc: Attrs)
    ensures DecodeAttrs(b, acc) ==
            var fs := Frames(b);
            if fs.None? then None else StoreAll(fs.value, acc)
    decreases |b|
  {
    if b != [] {
      var f := FirstFrame(b);
      if f.Some? {
        var rest := b[4 + |f.value.value|..];
        var acc' := Store(f.value, acc);
        if acc'.Some? {
          DecodeIsFold(rest, acc'.value);
        }
        if Frames(rest).Some? {
          assert ([f.value] + Frames(rest).value)[1..] == Frames(rest).value;
        }
      }
    }
  }

  ghost predicate Short(fs: seq<Frame>) {
    forall i | 0 <= i < |fs| :: |fs[i].value| <= 0xFFFF
  }

  lemma FirstFrameOfBytes(f: Frame, rest: seq<byte>)
    requires |f.value| <= 0xFFFF
    ensures FirstFrame(FrameBytes(f) + rest) == Some(f)
    ensures (FrameBytes(f) + rest)[4 + |f.value|..] == rest
  {
    var b := FrameBytes(f) + rest;
    U16OfBe16(f.code, b[2..]);
    U16OfBe16(|f.value|, b[4..]);
    assert b == Be16(f.code) + b[2..];
    assert b[2..] == Be16(|f.value|) + b[4..];
    assert U16(b, 2) == U16(b[2..], 0);
    assert b[4..4 + |f.value|] == f.value;
  }

  // Cutting into frames undoes writing them.
  lemma {:induction false} FramesOfBytes(fs: seq<Frame>)
    requires Short(fs)
    ensures Frames(Bytes(fs)) == Some(fs)
  {
    if fs != [] {
      FramesOfBytes(fs[1..]);
      FirstFrameOfBytes(fs[0], Bytes(fs[1..]));
      assert [fs[0]] + fs[1..] == fs;
    }
  }

  lemma BytesOfFirstFrame(b: seq<byte>)
    requires FirstFrame(b).Some?
    ensures var f := FirstFrame(b).value;
            |f.value| <= 0xFFFF && FrameBytes(f) + b[4 + |f.value|..] == b
  {
    var n := |FirstFrame(b).value.value|;
    Be16OfU16(b, 0);
    Be16OfU16(b, 2);
    assert b == b[0..2] + b[2..4] + b[4..4 + n] + b[4 + n..];
  }

  // The bytes that can be cut are exactly the bytes of frames.
  lemma {:induction false} BytesOfFrames(b: seq<byte>)
    requires Frames(b).Some?
    ensures Bytes(Frames(b).value) == b && Short(Frames(b).value)
    decreases |b|
  {
    if b != [] {
      var f := FirstFrame(b).value;
      var rest := b[4 + |f.value|..];
      BytesOfFrames(rest);
      BytesOfFirstFrame(b);
      assert Frames(b).value[0] == f && Frames(b).value[1..] == Frames(rest).value;
    }
  }

  lemma {:induction false} StoreAllAppend(fs: seq<Frame>, gs: seq<Frame>, acc: Attrs)
    ensures StoreAll(fs + gs, acc) ==
            var mid := StoreAll(fs, acc);
            if mid.None? then None else StoreAll(gs, mid.value)
  {
    if fs == [] {
      assert fs + gs == gs;
    } else {
      assert (fs + gs)[0] == fs[0] && (fs + gs)[1..] == fs[1..] + gs;
      var acc' := Store(fs[0], acc);
      if acc'.Some? {
        StoreAllAppend(fs[1..], gs, acc'.value);
      }
    }
  }

  // A message with a given area of frames.
  function MessageBytes(code: u16, tranId: seq<byte>, fs: seq<Frame>): seq<byte> {
    Be16(code) + Be16(|Bytes(fs)|) + COOKIE + tranId + Bytes(fs)
  }

  lemma DecodeFrames(code: u16, tranId: seq<byte>, fs: seq<Frame>)
    requires |tranId| == 12 && Short(fs) && |Bytes(fs)| <= 0xFFFF
    ensures DecodeMessage(MessageBytes(code, tranId, fs)) ==
            var attrs := StoreAll(fs, map[]);
            if attrs.None? then None else Some(Message(TypeOf(code), tranId, attrs.value))
  {
    hide StoreAll, Frames, Bytes, DecodeAttrs, Be16;
    var area := Bytes(fs);
    var b := MessageBytes(code, tranId, fs);
    U16OfBe16(code, b[2..]);
    U16OfBe16(|area|, b[4..]);
    assert b == Be16(code) + b[2..] && b[2..] == Be16(|area|) + b[4..];
    assert U16(b, 2) == U16(b[2..], 0) == |area|;
    assert b[8..20] == tranId && b[20..20 + |area|] == area;
    FramesOfBytes(fs);
    DecodeIsFold(area, map[]);
  }

  // Inserting an attribute of unknown type at any attribute boundary changes nothing.
  lemma UnknownIgnored(code: u16, tranId: seq<byte>, pre: seq<Frame>, unknown: Frame, post: seq<Frame>)
    requires |tranId| == 12 && AttrOf(unknown.code) == None
    requires Short(pre + [unknown] + post) && |Bytes(pre + [unknown] + post)| <= 0xFFFF
    ensures DecodeMessage(MessageBytes(code, tranId, pre + [unknown] + post))
            == DecodeMessage(MessageBytes(code, tranId, pre + post))
  {
    BytesAppend(pre + [unknown], post);
    BytesAppend(pre, [unknown]);
    BytesAppend(pre, post);
    ShortParts(pre, unknown, post);
    DecodeFrames(code, tranId, pre + [unknown] + post);
    DecodeFrames(code, tranId, pre + post);
    StoreAllAppend(pre + [unknown], post, map[]);
    StoreAllAppend(pre, [unknown], map[]);
    StoreAllAppend(pre, post, map[]);
  }

  lemma ShortParts(pre: seq<Frame>, u: Frame, post: seq<Frame>)
    requires Short(pre + [u] + post)
    ensures Short(pre + post)
  {
    var all := pre + [u] + post;
    forall i | 0 <= i < |pre + post| ensures |(pre + post)[i].value| <= 0xFFFF {
      assert (pre + post)[i] == all[if i < |pre| then i else i + 1];
    }
  }

  function StoredAs(f: Frame): Option<AttrType> {
    var t := AttrOf(f.code);
    if t.None? then None else Some(Stored(t.value))
  }

  // The last frame stored under a type.
  function LastFor(fs: seq<Frame>, t: AttrType): Option<Frame> {
    if fs == [] then None
    else
      var n := |fs| - 1;
      if StoredAs(fs[n]) == Some(t) then Some(fs[n]) else LastFor(fs[..n], t)
  }

  predicate Decodable(f: Frame) {
    StoredAs(f).Some? ==> DecodeValue(StoredAs(f).value, f.value).Some?
  }

  // Decoding succeeds exactly when every known attribute decodes, and keeps the last of each stored type.
  lemma {:induction false} LastWins(fs: seq<Frame>)
    ensures var r := StoreAll(fs, map[]);
            && (r.Some? <==> forall i | 0 <= i < |fs| :: Decodable(fs[i]))
            && (r.Some? ==>
                  forall t :: (t in r.value <==> LastFor(fs, t).Some?)
                              && (t in r.value ==> Some(r.value[t]) == DecodeValue(t, LastFor(fs, t).value.value)))
  {
    if fs != [] {
      var n := |fs| - 1;
      LastWins(fs[..n]);
      assert fs == fs[..n] + [fs[n]];
      StoreAllAppend(fs[..n], [fs[n]], map[]);
      assert forall i | 0 <= i < n :: fs[i] == fs[..n][i];
      var r' := StoreAll(fs[..n], map[]);
      if r'.Some? {
        assert StoreAll([fs[n]], r'.value) == Store(fs[n], r'.value);
      }
    }
  }

  // The whole behaviour of the attribute loop on any bytes.
  lemma DecodeExactly(b: seq<byte>)
    ensures var r := DecodeAttrs(b, map[]);
            && (r.Some? <==>
                  exists fs :: Short(fs) && b == Bytes(fs) && forall i | 0 <= i < |fs| :: Decodable(fs[i]))
            && (forall fs :: Short(fs) && b == Bytes(fs) ==> r == StoreAll(fs, map[]))
  {
    DecodeIsFold(b, map[]);
    if Frames(b).Some? {
      BytesOfFrames(b);
      LastWins(Frames(b).value);
    }
    forall fs | Short(fs) && b == Bytes(fs) ensures Frames(b) == Some(fs) {
      FramesOfBytes(fs);
      LastWins(fs);
    }
  }

  // What an encoder's visiting order makes of a map: later entries overwrite earlier ones stored alike.
  function Collected(attrs: Attrs, order: seq<AttrType>): Attrs
    requires forall k | k in order :: k in attrs
  {
    if order == [] then map[]
    else
      var n := |order| - 1;
      Collected(attrs, order[..n])[Stored(order[n]) := attrs[order[n]]]
  }

  ghost predicate WellTyped(attrs: Attrs) {
    && Encodable(attrs)
    && forall k | k in attrs :: OfClass(k, attrs[k])
  }

  lemma {:induction false} StoreEncoded(attrs: Attrs, order: seq<AttrType>)
    requires WellTyped(attrs) && forall k | k in order :: k in attrs
    ensures StoreAll(FramesOf(attrs, order), map[]) == Some(Collected(attrs, order))
  {
    if order != [] {
      var n := |order| - 1;
      var k := order[n];
      StoreEncoded(attrs, order[..n]);
      assert order == order[..n] + [k];
      FramesOfAppend(attrs, order[..n], k);
      var f := Frame(AttrCode(k), Value(attrs[k]));
      StoreAllAppend(FramesOf(attrs, order[..n]), [f], map[]);
      CodesInvert(BindRequest, k, 0);
      ValueRoundTrip(k, attrs[k]);
      var mid := Collected(attrs, order[..n]);
      assert StoreAll([f], mid) == Store(f, mid);
    }
  }

  predicate HasBoth(attrs: Attrs) {
    OtherAddress in attrs && ChangedAddress in attrs
  }

  // OtherAddress renamed to ChangedAddress.
  function Renamed(attrs: Attrs): Attrs {
    if OtherAddress in attrs then (attrs - {OtherAddress})[ChangedAddress := attrs[OtherAddress]] else attrs
  }

  lemma {:induction false} CollectedValues(attrs: Attrs, order: seq<AttrType>)
    requires forall k | k in order :: k in attrs
    ensures forall t :: t in Collected(attrs, order) <==> exists k | k in order :: Stored(k) == t
    ensures forall t | t in order && t !in {ChangedAddress, OtherAddress} :: Collected(attrs, order)[t] == attrs[t]
  {
    if order != [] {
      var n := |order| - 1;
      CollectedValues(attrs, order[..n]);
      assert order == order[..n] + [order[n]];
      assert forall k :: k in order <==> k in order[..n] || k == order[n];
      assert Stored(order[n]) in Collected(attrs, order);
    }
  }

  // Whichever of the two address attributes comes last in the order is the one kept.
  lemma {:induction false} LaterKept(attrs: Attrs, order: seq<AttrType>, i: nat)
    requires forall k | k in order :: k in attrs
    requires i < |order| && Stored(order[i]) == ChangedAddress
    requires forall j | i < j < |order| :: Stored(order[j]) != ChangedAddress
    ensures ChangedAddress in Collected(attrs, order) && Collected(attrs, order)[ChangedAddress] == attrs[order[i]]
  {
    var n := |order| - 1;
    if i < n {
      LaterKept(attrs, order[..n], i);
    }
  }

  lemma CollectedKeys(attrs: Attrs, order: seq<AttrType>, t: AttrType)
    requires Enumerates(order, attrs)
    ensures t in Collected(attrs, order) <==>
              t != OtherAddress && (t in attrs || (t == ChangedAddress && OtherAddress in attrs))
  {
    CollectedValues(attrs, order);
    if t in attrs && t != OtherAddress {
      assert t in order && Stored(t) == t;
    }
    if t == ChangedAddress && OtherAddress in attrs {
      assert OtherAddress in order && Stored(OtherAddress) == t;
    }
  }

  // With one address attribute alone, that one is kept.
  lemma OnlyKept(attrs: Attrs, order: seq<AttrType>, k: AttrType)
    requires Enumerates(order, attrs) && !HasBoth(attrs)
    requires k in attrs && Stored(k) == ChangedAddress
    ensures ChangedAddress in Collected(attrs, order) && Collected(attrs, order)[ChangedAddress] == attrs[k]
  {
    var i :| 0 <= i < |order| && order[i] == k;
    forall j | i < j < |order| ensures Stored(order[j]) != ChangedAddress {
      assert order[j] in attrs;
    }
    LaterKept(attrs, order, i);
  }

  lemma CollectedIsRenamed(attrs: Attrs, order: seq<AttrType>)
    requires Enumerates(order, attrs) && !HasBoth(attrs)
    ensures Collected(attrs, order) == Renamed(attrs)
  {
    hide Collected;
    CollectedValues(attrs, order);
    forall t ensures t in Collected(attrs, order) <==> t in Renamed(attrs) {
      CollectedKeys(attrs, order, t);
    }
    if OtherAddress in attrs {
      OnlyKept(attrs, order, OtherAddress);
    } else if ChangedAddress in attrs {
      OnlyKept(attrs, order, ChangedAddress);
    }
  }

  lemma {:induction false} EncodedFramesShort(attrs: Attrs, order: seq<AttrType>)
    requires Encodable(attrs) && forall k | k in order :: k in attrs
    requires |Bytes(FramesOf(attrs, order))| <= 0xFFFF
    ensures Short(FramesOf(attrs, order))
  {
    if order != [] {
      EncodedFramesShort(attrs, order[1..]);
    }
  }

  predicate Sendable(m: Message)
    requires Encodable(m.attrs)
  {
    m.messageType.Some? && |m.tranId| == 12
  }

  // For every order in which the map yields its entries, decoding an encoded message gives what was collected.
  lemma DecodeEncoded(m: Message, order: seq<AttrType>)
    requires WellTyped(m.attrs) && Sendable(m) && Enumerates(order, m.attrs)
    requires |Bytes(FramesOf(m.attrs, order))| <= 0xFFFF
    ensures DecodeMessage(EncodeMessage(m, order)) == Some(m.(attrs := Collected(m.attrs, order)))
  {
    EncodedFramesShort(m.attrs, order);
    DecodeFrames(TypeCode(m.messageType.value), m.tranId, FramesOf(m.attrs, order));
    StoreEncoded(m.attrs, order);
    CodesInvert(m.messageType.value, Data, 0);
  }

  // The round trip: without both address attributes, every order gives the message back, renamed.
  lemma RoundTrip(m: Message, order: seq<AttrType>)
    requires WellTyped(m.attrs) && Sendable(m) && Enumerates(order, m.attrs) && !HasBoth(m.attrs)
    requires |Bytes(FramesOf(m.attrs, order))| <= 0xFFFF
    ensures DecodeMessage(EncodeMessage(m, order)) == Some(m.(attrs := Renamed(m.attrs)))
  {
    DecodeEncoded(m, order);
    CollectedIsRenamed(m.attrs, order);
  }

  ghost predicate OrderFree(attrs: Attrs) {
    forall o, p | Enumerates(o, attrs) && Enumerates(p, attrs) :: Collected(attrs, o) == Collected(attrs, p)
  }

  lemma {:induction false} SomeOrder(keys: set<AttrType>, attrs: Attrs) returns (order: seq<AttrType>)
    requires keys <= attrs.Keys
    ensures forall k :: k in order <==> k in keys
    ensures forall i, j | 0 <= i < j < |order| :: order[i] != order[j]
  {
    if keys == {} {
      order := [];
    } else {
      var k :| k in keys;
      var rest := SomeOrder(keys - {k}, attrs);
      order := rest + [k];
    }
  }

  // With both address attributes, an order that ends with either is possible.
  lemma OrderEndingWith(attrs: Attrs, last: AttrType) returns (order: seq<AttrType>)
    requires last in attrs
    ensures Enumerates(order, attrs) && order != [] && order[|order| - 1] == last
  {
    var rest := SomeOrder(attrs.Keys - {last}, attrs);
    order := rest + [last];
  }

  // An encoded message decodes to the same whatever the order, exactly unless both address attributes are
  // present and differ.
  lemma OrderFreeExactly(m: Message)
    requires WellTyped(m.attrs) && Sendable(m)
    requires forall o | Enumerates(o, m.attrs) :: |Bytes(FramesOf(m.attrs, o))| <= 0xFFFF
    ensures (forall o, p | Enumerates(o, m.attrs) && Enumerates(p, m.attrs) ::
               DecodeMessage(EncodeMessage(m, o)) == DecodeMessage(EncodeMessage(m, p)))
            <==> !(HasBoth(m.attrs) && m.attrs[OtherAddress] != m.attrs[ChangedAddress])
  {
    hide DecodeMessage, EncodeMessage, Collected;
    CollectedOrderFree(m.attrs);
    forall o | Enumerates(o, m.attrs)
      ensures DecodeMessage(EncodeMessage(m, o)) == Some(m.(attrs := Collected(m.attrs, o)))
    {
      DecodeEncoded(m, o);
    }
  }

  lemma CollectedOrderFree(attrs: Attrs)
    ensures OrderFree(attrs) <==> !(HasBoth(attrs) && attrs[OtherAddress] != attrs[ChangedAddress])
  {
    if HasBoth(attrs) {
      var o := OrderEndingWith(attrs, OtherAddress);
      var p := OrderEndingWith(attrs, ChangedAddress);
      LaterKept(attrs, o, |o| - 1);
      LaterKept(attrs, p, |p| - 1);
      if attrs[OtherAddress] == attrs[ChangedAddress] {
        forall o, p | Enumerates(o, attrs) && Enumerates(p, attrs)
          ensures Collected(attrs, o) == Collected(attrs, p)
        {
          SameCollected(attrs, o);
          SameCollected(attrs, p);
        }
      }
    } else {
      forall o, p | Enumerates(o, attrs) && Enumerates(p, attrs)
        ensures Collected(attrs, o) == Collected(attrs, p)
      {
        CollectedIsRenamed(attrs, o);
        CollectedIsRenamed(attrs, p);
      }
    }
  }

  lemma SameCollected(attrs: Attrs, order: seq<AttrType>)
    requires Enumerates(order, attrs) && HasBoth(attrs) && attrs[OtherAddress] == attrs[ChangedAddress]
    ensures Collected(attrs, order) == attrs - {OtherAddress}
  {
    CollectedValues(attrs, order);
    var c := Collected(attrs, order);
    var i := LastAddress(order);
    LaterKept(attrs, order, i);
    forall t ensures t in c <==> t in attrs && t != OtherAddress {
      CollectedKeys(attrs, order, t);
    }
    forall t | t in c ensures c[t] == attrs[t] {
    }
  }

  lemma {:induction false} LastAddress(order: seq<AttrType>) returns (i: nat)
    requires ChangedAddress in order
    ensures i < |order| && Stored(order[i]) == ChangedAddress
    ensures forall j | i < j < |order| :: Stored(order[j]) != ChangedAddress
  {
    var n := |order| - 1;
    if Stored(order[n]) == ChangedAddress {
      i := n;
    } else {
      assert order == order[..n] + [order[n]];
      i := LastAddress(order[..n]);
    }
  }
}
