/** Dotted-decimal addresses: printing, parsing, and the 32-bit and 4-byte forms. */
module IpText {
  import opened JavaInt

  type byte = x: int | 0 <= x < 256

  function DigitChar(d: int): char
    requires 0 <= d < 10
  {
    '0' + d as char
  }

  predicate IsDigit(c: char) {
    '0' <= c <= '9'
  }

  // The decimal text that String.format("%s", d) prints.
  function Dec(d: nat): (s: string)
    ensures s != [] && AllDigits(s)
    decreases d
  {
    if d < 10 then [DigitChar(d)] else Dec(d / 10) + [DigitChar(d % 10)]
  }

  predicate AllDigits(s: string) {
    forall i | 0 <= i < |s| :: IsDigit(s[i])
  }

  // Integer.parseInt on a text of digits.
  function ParseDec(s: string): nat
    requires AllDigits(s)
  {
    if s == [] then 0 else 10 * ParseDec(s[..|s| - 1]) + (s[|s| - 1] as int - '0' as int)
  }

  lemma {:induction false} ParseDecOfDec(d: nat)
    ensures ParseDec(Dec(d)) == d
  {
    if d >= 10 {
      ParseDecOfDec(d / 10);
      assert Dec(d)[..|Dec(d)| - 1] == Dec(d / 10);
    }
  }

  // ip.split("\\."): the parts between dots.
  function Split(s: string): (parts: seq<string>)
    ensures parts != []
    decreases |s|
  {
    if s == [] then [[]]
    else if s[0] == '.' then [[]] + Split(s[1..])
    else var rest := Split(s[1..]); [[s[0]] + rest[0]] + rest[1..]
  }

  lemma {:induction false} SplitAtDot(a: string, b: string)
    requires AllDigits(a)
    ensures Split(a + "." + b) == [a] + Split(b)
  {
    var s := a + "." + b;
    if a == [] {
      assert s[1..] == b;
    } else {
      assert s[0] == a[0] && s[1..] == a[1..] + "." + b;
      SplitAtDot(a[1..], b);
      assert [a[0]] + a[1..] == a;
    }
  }

  lemma {:induction false} SplitDigits(a: string)
    requires AllDigits(a)
    ensures Split(a) == [a]
  {
    if a != [] {
      SplitDigits(a[1..]);
      assert [a[0]] + a[1..] == a;
    }
  }

  // String.format("%s.%s.%s.%s", ...)
  function Join4(a: string, b: string, c: string, d: string): string {
    a + "." + (b + "." + (c + "." + d))
  }

  lemma SplitJoin4(a: string, b: string, c: string, d: string)
    requires AllDigits(a) && AllDigits(b) && AllDigits(c) && AllDigits(d)
    ensures Split(Join4(a, b, c, d)) == [a, b, c, d]
  {
    SplitAtDot(a, b + "." + (c + "." + d));
    SplitAtDot(b, c + "." + d);
    SplitAtDot(c, d);
    SplitDigits(d);
  }

  // The texts the controller and the nodes exchange: four decimal numbers below 256.
  predicate IsDottedQuad(ip: string) {
    var parts := Split(ip);
    && |parts| == 4
    && forall i | 0 <= i < 4 :: parts[i] != [] && AllDigits(parts[i]) && ParseDec(parts[i]) < 256
  }

  // IPUtil.bytes2ip
  function BytesToIp(b: seq<byte>): (ip: string)
    requires |b| == 4
    ensures IsDottedQuad(ip)
  {
    SplitJoin4(Dec(b[0]), Dec(b[1]), Dec(b[2]), Dec(b[3]));
    ParseDecOfDec(b[0]);
    ParseDecOfDec(b[1]);
    ParseDecOfDec(b[2]);
    ParseDecOfDec(b[3]);
    Join4(Dec(b[0]), Dec(b[1]), Dec(b[2]), Dec(b[3]))
  }

  // The four numbers of a dotted quad.
  function Quad(ip: string): (b: seq<byte>)
    requires IsDottedQuad(ip)
    ensures |b| == 4
  {
    var parts := Split(ip);
    [ParseDec(parts[0]), ParseDec(parts[1]), ParseDec(parts[2]), ParseDec(parts[3])]
  }

  lemma QuadOfBytes(b: seq<byte>)
    requires |b| == 4
    ensures Quad(BytesToIp(b)) == b
  {
    SplitJoin4(Dec(b[0]), Dec(b[1]), Dec(b[2]), Dec(b[3]));
    ParseDecOfDec(b[0]);
    ParseDecOfDec(b[1]);
    ParseDecOfDec(b[2]);
    ParseDecOfDec(b[3]);
  }

  // IPUtil.ip2bytes
  method IpToBytes(ip: string) returns (bytes: seq<byte>)
    requires IsDottedQuad(ip)
    ensures bytes == Quad(ip)
  {
    var split := Split(ip);
    var a := new byte[|split|];
    for i := 0 to |split|
      invariant a.Length == |split|
      invariant forall k | 0 <= k < i :: a[k] == Quad(ip)[k]
    {
      a[i] := ParseDec(split[i]);
    }
    bytes := a[..];
  }

  // Four bytes as a big-endian number.
  function BigEndian(a: int, b: int, c: int, d: int): int {
    a * 0x100_0000 + b * 0x1_0000 + c * 0x100 + d
  }

  function QuadValue(q: seq<byte>): int32
    requires |q| == 4
  {
    Wrap32(BigEndian(q[0], q[1], q[2], q[3]))
  }

  function IpValue(ip: string): int32
    requires IsDottedQuad(ip)
  {
    QuadValue(Quad(ip))
  }

  // The value of the first i parts of a quad, in place.
  ghost function FirstParts(q: seq<byte>, i: nat): int
    requires |q| == 4
  {
    BigEndian(if i > 0 then q[0] else 0, if i > 1 then q[1] else 0,
              if i > 2 then q[2] else 0, if i > 3 then q[3] else 0)
  }

  lemma NextPart(q: seq<byte>, i: nat)
    requires |q| == 4 && i < 4
    ensures FirstParts(q, i + 1) == FirstParts(q, i) + q[i] as int * Pow2(24 - 8 * i)
  {
    ByteShifts();
    assert Pow2(0) == 1;
  }

  lemma NextWrapped(q: seq<byte>, i: nat, s: int32)
    requires |q| == 4 && i < 4 && s == Wrap32(FirstParts(q, i))
    ensures Wrap32(s + Shl(q[i], 24 - 8 * i)) == Wrap32(FirstParts(q, i + 1))
  {
    NextPart(q, i);
    WrapAdd(FirstParts(q, i), q[i] as int * Pow2(24 - 8 * i));
  }

  // IPUtil.ip2int. Each part fills bits that are still zero, so `s |= n` adds n.
  method Ip2Int(ip: string) returns (s: int32)
    requires IsDottedQuad(ip)
    ensures s == IpValue(ip)
  {
    hide Wrap32, Shl, FirstParts;
    var split := Split(ip);
    ghost var q := Quad(ip);
    s := 0;
    var bit := 24;
    AllParts(q);
    for i := 0 to |split|
      invariant bit == 24 - 8 * i
      invariant s == Wrap32(FirstParts(q, i))
    {
      var n := Shl(ParseDec(split[i]), bit);
      NextWrapped(q, i, s);
      s := Wrap32(s + n);
      bit := bit - 8;
    }
  }

  lemma NoParts()
    ensures BigEndian(0, 0, 0, 0) == 0
  {
  }

  lemma AllParts(q: seq<byte>)
    requires |q| == 4
    ensures Wrap32(FirstParts(q, 0)) == 0 && Wrap32(FirstParts(q, 4)) == QuadValue(q)
  {
    hide Wrap32, BigEndian;
    WrapId(0);
    assert BigEndian(0, 0, 0, 0) == 0 by { NoParts(); }
    assert FirstParts(q, 4) == BigEndian(q[0], q[1], q[2], q[3]);
  }

  lemma ByteShifts()
    ensures Pow2(8) == 0x100 && Pow2(16) == 0x1_0000 && Pow2(24) == 0x100_0000
  {
    assert Pow2(4) == 16;
    Pow2Add(4, 4);
    Pow2Add(8, 8);
    Pow2Add(8, 16);
  }

  // The four bytes of an int, most significant first.
  function IntBytes(s: int32): (b: seq<byte>)
    ensures |b| == 4
  {
    [Shr(s, 24) % 256, Shr(s, 16) % 256, Shr(s, 8) % 256, s % 256]
  }

  // IPUtil.int2ip
  function Int2Ip(s: int32): (ip: string)
    ensures IsDottedQuad(ip)
  {
    BytesToIp(IntBytes(s))
  }

  // Two byte splits: of any int, and of any four bytes.
  lemma SplitInt(s: int)
    requires MIN_INT <= s <= MAX_INT
    ensures Wrap32(BigEndian(s / 0x100_0000 % 256, s / 0x1_0000 % 256, s / 0x100 % 256, s % 256)) == s
  {
    var x := s / 0x100;
    var y := x / 0x100;
    var z := y / 0x100;
    assert s / 0x1_0000 == y && s / 0x100_0000 == z;
    assert -0x80 <= z < 0x80;
    assert BigEndian(z % 256, y % 256, x % 256, s % 256) == s + 0x1_0000_0000 * (if s < 0 then 1 else 0);
  }

  lemma SplitBytes(a: int, b: int, c: int, d: int)
    requires 0 <= a < 256 && 0 <= b < 256 && 0 <= c < 256 && 0 <= d < 256
    ensures var s := Wrap32(BigEndian(a, b, c, d));
            s / 0x100_0000 % 256 == a && s / 0x1_0000 % 256 == b && s / 0x100 % 256 == c && s % 256 == d
  {
    var a' := if a < 128 then a else a - 256;
    var s := Wrap32(BigEndian(a, b, c, d));
    assert s == BigEndian(a', b, c, d);
    assert s / 0x100 == a' * 0x1_0000 + b * 0x100 + c;
    assert s / 0x1_0000 == a' * 0x100 + b;
    assert s / 0x100_0000 == a';
  }

  lemma IpValueOfInt2Ip(s: int32)
    ensures IpValue(Int2Ip(s)) == s
  {
    QuadOfBytes(IntBytes(s));
    ByteShifts();
    SplitInt(s);
  }

  lemma Int2IpInjective(a: int32, b: int32)
    requires Int2Ip(a) == Int2Ip(b)
    ensures a == b
  {
    IpValueOfInt2Ip(a);
    IpValueOfInt2Ip(b);
  }

  // A quad printed by the program, unlike "010.0.0.1", is what its value prints as.
  lemma Int2IpOfIpValue(b: seq<byte>)
    requires |b| == 4
    ensures Int2Ip(IpValue(BytesToIp(b))) == BytesToIp(b)
  {
    QuadOfBytes(b);
    ByteShifts();
    SplitBytes(b[0], b[1], b[2], b[3]);
    assert IntBytes(QuadValue(b)) == b;
  }

  lemma DecShort(d: byte)
    ensures |Dec(d)| <= 3
  {
    if d >= 10 {
      assert |Dec(d / 10 / 10)| == 1;
      assert d >= 100 ==> |Dec(d / 10)| == 2;
    }
  }

  // A printed address fits into the 15 characters of an address literal.
  lemma PrintedShort(s: int32)
    ensures |Int2Ip(s)| <= 15
  {
    var b := IntBytes(s);
    DecShort(b[0]);
    DecShort(b[1]);
    DecShort(b[2]);
    DecShort(b[3]);
  }

  // Numbers are printed and read with the most significant digit first.
  lemma DigitsInOrder(d: byte)
    ensures Dec(d) == if d < 10 then [DigitChar(d)]
                      else if d < 100 then [DigitChar(d / 10), DigitChar(d % 10)]
                      else [DigitChar(d / 100), DigitChar(d / 10 % 10), DigitChar(d % 10)]
    ensures forall k | 0 <= k < 10 :: DigitChar(k) == "0123456789"[k]
  {
    if 10 <= d < 100 {
      assert Dec(d / 10) == [DigitChar(d / 10)];
    } else if d >= 100 {
      assert d / 10 / 10 == d / 100;
      assert Dec(d / 10 / 10) == [DigitChar(d / 100)];
    }
  }

  function TenTo(n: nat): nat {
    if n == 0 then 1 else 10 * TenTo(n - 1)
  }

  // Any text of digits, leading zeros included: what comes first weighs more.
  lemma {:induction false} ReadInOrder(a: string, b: string)
    requires AllDigits(a) && AllDigits(b)
    ensures ParseDec(a + b) == ParseDec(a) * TenTo(|b|) + ParseDec(b)
  {
    if b == [] {
      assert a + b == a;
    } else {
      var front := b[..|b| - 1];
      ReadInOrder(a, front);
      assert (a + b)[..|a + b| - 1] == a + front && (a + b)[|a + b| - 1] == b[|b| - 1];
      Weigh(ParseDec(a), TenTo(|front|), ParseDec(front));
    }
  }

  lemma Weigh(x: nat, y: nat, z: nat)
    ensures 10 * (x * y + z) == x * (10 * y) + 10 * z
  {
  }

  lemma ReadDigit(d: int)
    requires 0 <= d < 10
    ensures ParseDec([DigitChar(d)]) == d
  {
  }

  // The text of four bytes: their numbers in order, with dots between them.
  lemma TextInOrder(b: seq<byte>)
    requires |b| == 4
    ensures BytesToIp(b) == Dec(b[0]) + "." + Dec(b[1]) + "." + Dec(b[2]) + "." + Dec(b[3])
  {
    hide Dec, Join4, IsDottedQuad;
    Dotted(Dec(b[0]), Dec(b[1]), Dec(b[2]), Dec(b[3]));
  }

  // For one, 10.1.203.7.
  lemma TextExample()
    ensures BytesToIp([10, 1, 203, 7]) == "10.1.203.7"
  {
    hide Dec, BytesToIp;
    TextInOrder([10, 1, 203, 7]);
    SomeNumbers();
  }

  lemma SomeNumbers()
    ensures Dec(10) == "10" && Dec(1) == "1" && Dec(203) == "203" && Dec(7) == "7"
  {
    DigitsInOrder(10);
    DigitsInOrder(1);
    DigitsInOrder(203);
    DigitsInOrder(7);
  }

  lemma Dotted(a: string, b: string, c: string, d: string)
    ensures Join4(a, b, c, d) == a + "." + b + "." + c + "." + d
  {
  }

  // The value of an address: its first number is the most significant byte.
  lemma ValueInOrder(b: seq<byte>)
    requires |b| == 4
    ensures Unsigned(IpValue(BytesToIp(b)))
            == b[0] as int * 0x100_0000 + b[1] as int * 0x1_0000 + b[2] as int * 0x100 + b[3] as int
  {
    QuadOfBytes(b);
    hide IsDottedQuad;
    WrappedValue(b[0], b[1], b[2], b[3]);
  }

  lemma WrappedValue(a: int, b: int, c: int, d: int)
    requires 0 <= a < 256 && 0 <= b < 256 && 0 <= c < 256 && 0 <= d < 256
    ensures Unsigned(Wrap32(BigEndian(a, b, c, d))) == a * 0x100_0000 + b * 0x1_0000 + c * 0x100 + d
  {
  }
}
