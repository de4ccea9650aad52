/**
 The Internet checksum as the packet classes compute it, in a Java int and folded once, against the
 one's complement sum of section 1 of RFC 1071.
 */
module Checksum {
  import opened JavaInt
  import opened IpText
  import opened ByteBufs

  predicate Even(n: int) {
    n % 2 == 0
  }

  function Padded(b: seq<byte>): (r: seq<byte>)
    ensures Even(|r|) && b <= r
    ensures Even(|b|) ==> r == b
  {
    if Even(|b|) then b else b + [0]
  }

  function WordSum(b: seq<byte>): (s: nat)
    ensures s <= |b| / 2 * 0xFFFF
  {
    if |b| < 2 then 0 else U16(b, 0) as int + WordSum(b[2..])
  }

  // sum >> 16, plus sum & 0xFFFF
  function FoldOnce(sum: int32): int32 {
    assert Pow2(16) == 0x1_0000 by { ByteShifts(); }
    Shr(sum, 16) + sum % 0x1_0000
  }

  // 0xFFFF & ~x
  function Complement16(x: int): u16 {
    (-x - 1) % 0x1_0000
  }

  // What calcChecksum computes over the bytes of its buffer.
  function JavaChecksum(b: seq<byte>): u16 {
    Complement16(FoldOnce(Wrap32(WordSum(Padded(b)))))
  }

  // One's complement addition: the carry out of 16 bits is added back in.
  function OnesAdd(x: u16, y: u16): u16 {
    var s: int := x + y;
    if s > 0xFFFF then s - 0xFFFF else s
  }

  function OnesSum(b: seq<byte>): u16 {
    if |b| < 2 then 0 else OnesAdd(U16(b, 0), OnesSum(b[2..]))
  }

  function RfcChecksum(b: seq<byte>): u16 {
    0xFFFF - OnesSum(Padded(b))
  }

  // A receiver accepts what sums, checksum field included, to all ones.
  predicate RfcAccepts(b: seq<byte>) {
    OnesSum(Padded(b)) == 0xFFFF
  }

  // One fold is enough: it does not carry out of 16 bits again.
  predicate OneFoldSuffices(b: seq<byte>) {
    var sum := WordSum(Padded(b));
    sum / 0x1_0000 + sum % 0x1_0000 <= 0xFFFF
  }

  lemma TwoLess(n: nat)
    requires Even(n) && n > 0
    ensures n >= 2 && Even(n - 2)
  {
  }

  // The loop of calcChecksum.
  method SumWords(buf: ByteBuf) returns (sum: int32)
    requires buf.Valid() && Even(buf.ReadableBytes())
    modifies buf`reader
    ensures sum == Wrap32(WordSum(old(buf.Rest())))
  {
    hide Even;
    ghost var total, laps := WordSum(buf.Rest()), 0;
    sum := 0;
    while buf.ReadableBytes() > 0
      invariant buf.Valid() && Even(buf.ReadableBytes())
      invariant sum + laps * TWO32 + WordSum(buf.Rest()) == total
      decreases buf.ReadableBytes()
    {
      ghost var rest := buf.Rest();
      TwoLess(buf.ReadableBytes());
      var word := buf.ReadUnsignedShort();
      assert buf.Rest() == rest[2..];
      var next := sum + word.value as int;
      laps := laps + Laps(next);
      sum := Wrap32(next);
    }
    FinalSum(sum, laps);
  }

  // calcChecksum, over a buffer filled by its caller: pad to whole words, sum, fold, complement.
  method CalcChecksum(buf: ByteBuf) returns (sum: int)
    requires buf.Valid() && buf.reader == 0
    modifies buf`data, buf`reader
    ensures sum == JavaChecksum(old(buf.data))
  {
    if buf.ReadableBytes() % 2 != 0 {
      buf.WriteByte(0);
    }
    assert buf.Rest() == Padded(old(buf.data));
    var total := SumWords(buf);
    sum := Complement16(FoldOnce(total));
  }

  lemma FinalSum(sum: int, laps: int)
    requires MIN_INT <= sum <= MAX_INT
    ensures Wrap32(sum + laps * TWO32) == sum
  {
    WrapShift(sum, laps);
    WrapId(sum);
  }

  // A sum reduced to 16 bits, with zero only for zero.
  function Reduce(s: nat): u16 {
    if s == 0 then 0 else (s - 1) % 0xFFFF + 1
  }

  lemma ReduceAdd(x: u16, s: nat)
    ensures OnesAdd(x, Reduce(s)) == Reduce(x as int + s)
  {
    if s > 0 {
      var q, t := (s - 1) / 0xFFFF, (s - 1) % 0xFFFF;
      assert x + s - 1 == q * 0xFFFF + (x + t);
      if x + t < 0xFFFF {
        assert (x + s - 1) % 0xFFFF == x + t;
      } else {
        assert (x + s - 1) % 0xFFFF == x + t - 0xFFFF;
      }
    }
  }

  lemma {:induction false} OnesSumIsReduced(b: seq<byte>)
    ensures OnesSum(b) == Reduce(WordSum(b))
  {
    if |b| >= 2 {
      OnesSumIsReduced(b[2..]);
      ReduceAdd(U16(b, 0), WordSum(b[2..]));
    }
  }

  // Up to 65536 bytes the running sum never leaves the range of an int.
  lemma NoOverflow(b: seq<byte>, i: nat)
    requires |b| <= 0x1_0000 && i <= |Padded(b)|
    ensures WordSum(Padded(b)[..i]) <= MAX_INT && Wrap32(WordSum(Padded(b)[..i])) == WordSum(Padded(b)[..i])
  {
    WrapId(WordSum(Padded(b)[..i]));
  }

  // The program's checksum is the standard's exactly when one fold is enough, and one more otherwise.
  lemma ChecksumExact(b: seq<byte>)
    requires |b| <= 0x1_0000
    ensures JavaChecksum(b) == RfcChecksum(b) <==> OneFoldSuffices(b)
    ensures !OneFoldSuffices(b) ==> JavaChecksum(b) as int == RfcChecksum(b) as int + 1
  {
    var s := WordSum(Padded(b));
    OnesSumIsReduced(Padded(b));
    WrapId(s);
    ByteShifts();
    FoldExact(s);
  }

  lemma FoldExact(s: nat)
    requires s <= MAX_INT
    ensures var t := s / 0x1_0000 + s % 0x1_0000;
            Complement16(t) as int == 0xFFFF - Reduce(s) as int + (if t <= 0xFFFF then 0 else 1)
  {
    var h, l := s / 0x1_0000, s % 0x1_0000;
    var t := h + l;
    assert s == h * 0xFFFF + t;
    if s > 0 {
      if t <= 0xFFFF {
        assert (s - 1) % 0xFFFF == t - 1;
      } else {
        assert (s - 1) == (h + 1) * 0xFFFF + (t - 1 - 0xFFFF);
        assert (s - 1) % 0xFFFF == t - 1 - 0xFFFF;
      }
    }
  }

  // Filling in a zeroed 16-bit field adds its value to the sum.
  lemma {:induction false} FillField(b: seq<byte>, i: nat, v: u16)
    requires Even(i) && i + 2 <= |b| && b[i] == 0 && b[i + 1] == 0
    ensures WordSum(b[..i] + Be16(v) + b[i + 2..]) == WordSum(b) + v as int
  {
    var f := b[..i] + Be16(v) + b[i + 2..];
    if i == 0 {
      assert f[2..] == b[2..];
      assert U16(f, 0) == v;
    } else {
      FillField(b[2..], i - 2, v);
      assert f[2..] == b[2..][..i - 2] + Be16(v) + b[2..][i - 2 + 2..];
      assert U16(f, 0) == U16(b, 0);
    }
  }

  lemma ReduceComplement(s: nat, c: nat)
    requires c == 0xFFFF - Reduce(s) as int || c == 0xFFFF - Reduce(s) as int + 1
    ensures Reduce(s + c) == 0xFFFF <==> c == 0xFFFF - Reduce(s) as int
  {
    if s > 0 {
      var q := (s - 1) / 0xFFFF;
      assert s == q * 0xFFFF + Reduce(s) as int;
      if c == 0xFFFF - Reduce(s) as int {
        assert s + c - 1 == q * 0xFFFF + 0xFFFE;
        assert (s + c - 1) % 0xFFFF == 0xFFFE;
      } else {
        assert s + c - 1 == (q + 1) * 0xFFFF;
        assert (s + c - 1) % 0xFFFF == 0;
      }
    }
  }

  // What the program sends, summed with its checksum field x|..|y zero and sent with it filled in, is
  // accepted by a standard receiver exactly when one fold was enough.
  lemma AcceptedExactly(x: seq<byte>, y: seq<byte>)
    requires |x| + |y| <= 0xFFFE && |x| % 2 == 0
    ensures var sum := x + [0, 0] + y;
            RfcAccepts(x + Be16(JavaChecksum(sum)) + y) <==> OneFoldSuffices(sum)
  {
    var b := x + [0, 0] + y;
    var v := JavaChecksum(b);
    var p, q := Padded(b), Padded(x + Be16(v) + y);
    assert p[..|x|] == x && q == p[..|x|] + Be16(v) + p[|x| + 2..];
    FillField(p, |x|, v);
    ChecksumExact(b);
    OnesSumIsReduced(p);
    OnesSumIsReduced(q);
    ReduceComplement(WordSum(p), v);
  }

  // The same, for a packet summed behind a pseudo header and sent without it.
  lemma AcceptedBehind(front: seq<byte>, b: seq<byte>, i: nat)
    requires |front| + |b| <= 0x1_0000 && |front| % 2 == 0 && i % 2 == 0 && i + 2 <= |b|
    ensures var sum := front + b[..i] + [0, 0] + b[i + 2..];
            RfcAccepts(front + (b[..i] + Be16(JavaChecksum(sum)) + b[i + 2..])) <==> OneFoldSuffices(sum)
  {
    AcceptedExactly(front + b[..i], b[i + 2..]);
    var v := Be16(JavaChecksum(front + b[..i] + [0, 0] + b[i + 2..]));
    Assoc(front, b[..i], v, b[i + 2..]);
  }

  lemma Assoc(a: seq<byte>, b: seq<byte>, c: seq<byte>, d: seq<byte>)
    ensures a + b + c + d == a + (b + c + d)
  {
  }

  lemma {:induction false} WordSumAppend(a: seq<byte>, b: seq<byte>)
    requires Even(|a|)
    ensures WordSum(a + b) == WordSum(a) + WordSum(b)
  {
    if a == [] {
      assert a + b == b;
    } else {
      assert (a + b)[2..] == a[2..] + b && U16(a + b, 0) == U16(a, 0);
      WordSumAppend(a[2..], b);
    }
  }

  // Words that follow what was summed bring it back to all ones only if they make up for the one too many.
  lemma ReduceTail(s: nat, c: nat, w: nat)
    requires s > 0 && (c == 0xFFFF - Reduce(s) as int || c == 0xFFFF - Reduce(s) as int + 1)
    ensures Reduce(s + c + w) == 0xFFFF <==> w % 0xFFFF == if c == 0xFFFF - Reduce(s) as int then 0 else 0xFFFE
  {
    var q, k, r := (s - 1) / 0xFFFF, w / 0xFFFF, w % 0xFFFF;
    assert s == q * 0xFFFF + Reduce(s) as int;
    if c == 0xFFFF - Reduce(s) as int {
      SumRemainder(s + c + w - 1, q + k, 0xFFFE + r);
    } else {
      SumRemainder(s + c + w - 1, q + 1 + k, r);
    }
  }

  lemma SumRemainder(x: int, q: int, r: int)
    requires x == q * 0xFFFF + r && 0 <= r < 2 * 0xFFFF
    ensures x % 0xFFFF == if r < 0xFFFF then r else r - 0xFFFF
  {
  }

  // A receiver that sums more than the program did, by an even number of bytes.
  lemma AcceptedWithTail(x: seq<byte>, y: seq<byte>, tail: seq<byte>)
    requires |x| + |y| <= 0xFFFE && Even(|x|) && Even(|y|) && Even(|tail|)
    requires WordSum(x + [0, 0] + y) > 0
    ensures var sum := x + [0, 0] + y;
            RfcAccepts(x + Be16(JavaChecksum(sum)) + y + tail)
            <==> WordSum(tail) % 0xFFFF == if OneFoldSuffices(sum) then 0 else 0xFFFE
  {
    hide WordSum, JavaChecksum, OneFoldSuffices, RfcAccepts, Padded, Even, Be16;
    var b := x + [0, 0] + y;
    EvenParts(x, y, JavaChecksum(b), tail);
    AcceptedSum(b, x + Be16(JavaChecksum(b)) + y + tail, WordSum(tail));
  }

  // What arrives, f, is what was summed, b, with the checksum and words of sum w added.
  lemma AcceptedSum(b: seq<byte>, f: seq<byte>, w: nat)
    requires |b| <= 0x1_0000 && Padded(b) == b && Padded(f) == f && WordSum(b) > 0
    requires WordSum(f) == WordSum(b) + JavaChecksum(b) as int + w
    ensures RfcAccepts(f) <==> w % 0xFFFF == if OneFoldSuffices(b) then 0 else 0xFFFE
  {
    hide WordSum, OnesSum, JavaChecksum, OneFoldSuffices, Reduce, Padded;
    Computed(b);
    OnesSumIsReduced(f);
    ReduceTail(WordSum(b), JavaChecksum(b), w);
  }

  lemma Computed(b: seq<byte>)
    requires |b| <= 0x1_0000
    ensures JavaChecksum(b) as int
            == 0xFFFF - Reduce(WordSum(Padded(b))) as int + (if OneFoldSuffices(b) then 0 else 1)
  {
    hide WordSum, OnesSum, JavaChecksum, OneFoldSuffices, Reduce, Padded;
    ChecksumExact(b);
    OnesSumIsReduced(Padded(b));
  }

  lemma EvenParts(x: seq<byte>, y: seq<byte>, v: u16, tail: seq<byte>)
    requires Even(|x|) && Even(|y|) && Even(|tail|)
    ensures Padded(x + [0, 0] + y) == x + [0, 0] + y
    ensures Padded(x + Be16(v) + y + tail) == x + Be16(v) + y + tail
    ensures WordSum(x + Be16(v) + y + tail) == WordSum(x + [0, 0] + y) + v as int + WordSum(tail)
  {
    hide WordSum, Even, Padded, Be16;
    EvenThree(x, [0, 0], y);
    EvenThree(x, Be16(v), y);
    EvenTwo(x + Be16(v) + y, tail);
    FilledIn(x, y, v);
    WordSumAppend(x + Be16(v) + y, tail);
  }

  lemma EvenTwo(a: seq<byte>, b: seq<byte>)
    requires Even(|a|) && Even(|b|)
    ensures Even(|a + b|)
  {
  }

  lemma EvenThree(a: seq<byte>, b: seq<byte>, c: seq<byte>)
    requires Even(|a|) && |b| == 2 && Even(|c|)
    ensures Even(|a + b + c|)
  {
  }

  lemma FilledIn(x: seq<byte>, y: seq<byte>, v: u16)
    requires Even(|x|)
    ensures WordSum(x + Be16(v) + y) == WordSum(x + [0, 0] + y) + v as int
  {
    hide WordSum, Even, Be16;
    var b := x + [0, 0] + y;
    assert b[..|x|] == x && b[|x| + 2..] == y;
    FillField(b, |x|, v);
  }

  lemma PaddedAppend(a: seq<byte>, b: seq<byte>)
    requires Even(|a|)
    ensures Padded(a + b) == a + Padded(b)
    ensures WordSum(Padded(a + b)) == WordSum(a) + WordSum(Padded(b))
  {
    hide WordSum, Even, Padded;
    PaddedConcat(a, b);
    WordSumAppend(a, Padded(b));
  }

  lemma PaddedConcat(a: seq<byte>, b: seq<byte>)
    requires Even(|a|)
    ensures Padded(a + b) == a + Padded(b)
  {
    hide Even;
    SameParity(|a|, |b|);
    assert |a + b| == |a| + |b|;
    assert a + (b + [0]) == (a + b) + [0];
  }

  lemma SameParity(m: int, n: int)
    requires Even(m)
    ensures Even(m + n) == Even(n)
  {
  }

  // Filling in the field of a buffer of any length.
  lemma PaddedFilled(x: seq<byte>, y: seq<byte>, v: u16)
    requires Even(|x|)
    ensures WordSum(Padded(x + Be16(v) + y)) == WordSum(Padded(x + [0, 0] + y)) + v as int
  {
    hide WordSum, Padded, Be16, Even;
    EvenField(x, Be16(v));
    EvenField(x, [0, 0]);
    PaddedAppend(x + Be16(v), y);
    PaddedAppend(x + [0, 0], y);
    FilledIn(x, Padded(y), v);
    WordSumAppend(x + Be16(v), Padded(y));
    WordSumAppend(x + [0, 0], Padded(y));
  }

  lemma EvenField(a: seq<byte>, b: seq<byte>)
    requires Even(|a|) && |b| == 2
    ensures Even(|a + b|)
  {
  }

  // A receiver that sums what the program did, with its checksum c, but for words of sum d.
  lemma ReduceLess(s: nat, c: nat, d: nat, r: nat)
    requires s > 0 && r > 0 && s + c == r + d
    requires c == 0xFFFF - Reduce(s) as int || c == 0xFFFF - Reduce(s) as int + 1
    ensures Reduce(r) == 0xFFFF <==> d % 0xFFFF == if c == 0xFFFF - Reduce(s) as int then 0 else 1
  {
    var e := if c == 0xFFFF - Reduce(s) as int then 0 else 1;
    var q, k, m := (s - 1) / 0xFFFF, d / 0xFFFF, d % 0xFFFF;
    assert s == q * 0xFFFF + Reduce(s) as int;
    assert r == (q + 1 - k) * 0xFFFF + e - m;
    var z := r - 1;
    if m <= e - 1 {
      assert z == (q + 1 - k) * 0xFFFF + (e - m - 1);
      Remainder(z, q + 1 - k, e - m - 1);
    } else {
      assert z == (q - k) * 0xFFFF + (0xFFFF + e - m - 1);
      Remainder(z, q - k, 0xFFFF + e - m - 1);
    }
  }

  lemma Remainder(x: int, q: int, r: int)
    requires x == q * 0xFFFF + r && 0 <= r < 0xFFFF
    ensures x % 0xFFFF == r
  {
  }

  // The checksum comes out as zero exactly when the words sum to a multiple of 65535.
  lemma ZeroChecksum(b: seq<byte>)
    requires |b| <= 0x1_0000
    ensures var s := WordSum(Padded(b));
            JavaChecksum(b) == 0 <==> s > 0 && s % 0xFFFF == 0
  {
    var s := WordSum(Padded(b));
    ChecksumExact(b);
    OnesSumIsReduced(Padded(b));
    if s > 0 {
      var q, r := (s - 1) / 0xFFFF, (s - 1) % 0xFFFF;
      assert s == q * 0xFFFF + (r + 1);
      SumRemainder(s, q, r + 1);
    }
    SmallSum(s);
    WrapId(s);
    ByteShifts();
  }

  lemma SmallSum(s: nat)
    requires s <= MAX_INT
    ensures var t := s / 0x1_0000 + s % 0x1_0000;
            t < 2 * 0xFFFF && (t > 0xFFFF ==> Complement16(t) != 0)
  {
  }
}
