/** Address blocks in signed 32-bit arithmetic. */
module Cidr {
  import opened JavaInt
  import opened IpText

  datatype Cidr = Cidr(
    address: string,
    maskBits: int,
    maskAddress: string,
    networkIdentifier: string,
    broadcastAddress: string,
    gatewayAddress: string,
    ipList: seq<string>,
    availableIpList: seq<string>)

  predicate ValidMask(maskBits: int) {
    1 <= maskBits <= 32
  }

  // (addr >> (32 - maskBits)) << (32 - maskBits)
  function Network(addr: int32, maskBits: int): int32
    requires ValidMask(maskBits)
  {
    Shl(Shr(addr, 32 - maskBits), 32 - maskBits)
  }

  // (int) Math.pow(2, 32 - maskBits) - 1
  function Count(maskBits: int): int32
    requires ValidMask(maskBits)
  {
    IntPow2(32 - maskBits) - 1
  }

  // The last address the program gives a block.
  function Broadcast(addr: int32, maskBits: int): int32
    requires ValidMask(maskBits)
  {
    Wrap32(Network(addr, maskBits) + Count(maskBits))
  }

  // Integer.MAX_VALUE << (32 - maskBits)
  function Mask(maskBits: int): int32
    requires ValidMask(maskBits)
  {
    Shl(MAX_INT, 32 - maskBits)
  }

  // What a block is: the addresses whose top maskBits bits are those of addr.
  ghost predicate SamePrefix(addr: int32, ip: int32, maskBits: int)
    requires ValidMask(maskBits)
  {
    Unsigned(addr) / Pow2(32 - maskBits) == Unsigned(ip) / Pow2(32 - maskBits)
  }

  // What the program takes a block to be: all of those, but for the last address of a /1.
  ghost predicate InBlock(addr: int32, ip: int32, maskBits: int)
    requires ValidMask(maskBits)
  {
    SamePrefix(addr, ip, maskBits) && !(maskBits == 1 && Unsigned(ip) % 0x8000_0000 == 0x7FFF_FFFF)
  }

  lemma HalfRange(k: nat)
    requires k <= 31
    ensures Pow2(31 - k) * Pow2(k) == 0x8000_0000
    ensures Pow2(32 - k) * Pow2(k) == TWO32
  {
    Pow2Add(31 - k, k);
    Pow2Add(32 - k, k);
    Pow2Bound(k);
  }

  lemma MulAdd(a: int, b: int, c: int)
    ensures (a + b) * c == a * c + b * c
  {
  }

  // Quotients by a divisor p of H stay within H / p; the multiples around a stay within H.
  lemma DivideRange(a: int, p: int, q: int, H: int)
    requires p >= 1 && q >= 1 && q * p == H
    requires -H <= a < H
    ensures -q <= a / p < q
    ensures -H <= a / p * p <= a < a / p * p + p <= H
  {
    var d := a / p;
    assert d * p <= a < d * p + p;
    if d >= q {
      MulMono(q, d, p);
    } else if d < -q {
      MulMono(d + 1, -q, p);
      MulAdd(-q, q, p);
      MulAdd(d, 1, p);
    }
    MulMono(-q, d, p);
    MulAdd(-q, q, p);
    MulMono(d + 1, q, p);
    MulAdd(d, 1, p);
  }

  // Quotients of ints by a power of two stay within the shorter range.
  lemma QuotientRange(a: int32, k: nat)
    requires k <= 31
    ensures -Pow2(31 - k) <= a / Pow2(k) < Pow2(31 - k)
  {
    HalfRange(k);
    DivideRange(a, Pow2(k), Pow2(31 - k), 0x8000_0000);
  }

  // Clearing the low bits rounds down to a multiple; the whole block is in range.
  lemma NetworkIsFloor(addr: int32, maskBits: int)
    requires ValidMask(maskBits)
    ensures var p := Pow2(32 - maskBits);
            Network(addr, maskBits) == addr / p * p <= addr < addr / p * p + p <= 0x8000_0000
  {
    var k := 32 - maskBits;
    HalfRange(k);
    DivideRange(addr, Pow2(k), Pow2(31 - k), 0x8000_0000);
    WrapId(addr / Pow2(k) * Pow2(k));
  }

  lemma QuotientOfSum(a: int, p: int, m: int)
    requires p >= 1
    ensures (a + m * p) / p == a / p + m
  {
    var d := a / p;
    assert d * p <= a < d * p + p;
    MulAdd(d, m, p);
    DivUnique(a + m * p, p, d + m);
  }

  lemma UnsignedQuotient(a: int32, k: nat)
    requires k <= 31
    ensures Unsigned(a) / Pow2(k) == a / Pow2(k) + (if a < 0 then Pow2(32 - k) else 0)
  {
    if a < 0 {
      HalfRange(k);
      QuotientOfSum(a, Pow2(k), Pow2(32 - k));
      assert Unsigned(a) == a + TWO32;
    }
  }

  // Comparing top bits is comparing the signed quotients.
  lemma SamePrefixIsSameQuotient(a: int32, b: int32, maskBits: int)
    requires ValidMask(maskBits)
    ensures SamePrefix(a, b, maskBits) <==> a / Pow2(32 - maskBits) == b / Pow2(32 - maskBits)
  {
    var k := 32 - maskBits;
    UnsignedQuotient(a, k);
    UnsignedQuotient(b, k);
    QuotientRange(a, k);
    QuotientRange(b, k);
    DivShrinks(a, Pow2(k));
    DivShrinks(b, Pow2(k));
    assert Pow2(32 - k) == 2 * Pow2(31 - k);
  }

  // How many addresses the program counts in a block: all, except that the cast makes a /1 lose one.
  function BlockSize(maskBits: int): nat
    requires ValidMask(maskBits)
  {
    if maskBits == 1 then 0x7FFF_FFFF else Pow2(32 - maskBits)
  }

  lemma CountIsSize(maskBits: int)
    requires ValidMask(maskBits)
    ensures Count(maskBits) == BlockSize(maskBits) - 1
    ensures Pow2(32 - maskBits) == BlockSize(maskBits) + (if maskBits == 1 then 1 else 0)
  {
    Pow2Bound(32 - maskBits);
  }

  // The block as an interval of ints.
  lemma BlockIsInterval(addr: int32, ip: int32, maskBits: int)
    requires ValidMask(maskBits)
    ensures var min := Network(addr, maskBits);
            SamePrefix(addr, ip, maskBits) <==> min <= ip < min + Pow2(32 - maskBits)
  {
    var p := Pow2(32 - maskBits);
    SamePrefixIsSameQuotient(addr, ip, maskBits);
    NetworkIsFloor(addr, maskBits);
    NetworkIsFloor(ip, maskBits);
    if Network(addr, maskBits) <= ip < Network(addr, maskBits) + p {
      DivUnique(ip, p, addr / p);
    }
  }

  lemma BroadcastInBlock(addr: int32, maskBits: int)
    requires ValidMask(maskBits)
    ensures Broadcast(addr, maskBits) == Network(addr, maskBits) + BlockSize(maskBits) - 1
    ensures SamePrefix(addr, Broadcast(addr, maskBits), maskBits)
  {
    NetworkIsFloor(addr, maskBits);
    CountIsSize(maskBits);
    WrapId(Network(addr, maskBits) + Count(maskBits));
    BlockIsInterval(addr, Broadcast(addr, maskBits), maskBits);
  }

  lemma ShiftedOnes(p: int, h: int)
    requires p == 2 * h && 1 <= h <= 0x4000_0000
    ensures Wrap32(MAX_INT * p) == -p && -p % TWO32 == TWO32 - p
  {
    assert MAX_INT * p == -p + h * TWO32;
    WrapShift(-p, h);
  }

  // The mask has exactly the top maskBits bits set; /32 comes out as 127.255.255.255.
  lemma MaskIsRight(maskBits: int)
    requires ValidMask(maskBits)
    ensures Unsigned(Mask(maskBits)) == TWO32 - Pow2(32 - maskBits) <==> maskBits != 32
    ensures Mask(32) == MAX_INT
  {
    hide Wrap32;
    var k := 32 - maskBits;
    if k > 0 {
      Pow2Bound(k - 1);
      ShiftedOnes(Pow2(k), Pow2(k - 1));
    }
    WrapId(MAX_INT);
    assert Pow2(0) == 1 && Mask(32) == MAX_INT;
  }

  lemma HalfNetwork(addr: int32)
    ensures Network(addr, 1) == if addr < 0 then MIN_INT else 0
  {
    NetworkIsFloor(addr, 1);
    Pow2Bound(31);
  }

  // The interval test that the program makes.
  lemma IntervalTest(addr: int32, ip: int32, maskBits: int)
    requires ValidMask(maskBits)
    ensures Network(addr, maskBits) <= ip <= Broadcast(addr, maskBits) <==> InBlock(addr, ip, maskBits)
  {
    hide Pow2, SamePrefix, Broadcast, Network;
    BlockIsInterval(addr, ip, maskBits);
    BroadcastInBlock(addr, maskBits);
    CountIsSize(maskBits);
    if maskBits == 1 {
      HalfNetwork(addr);
    }
  }

  // Cidr.check on a dotted quad and a number: an address literal has at most 15 characters.
  predicate Passes(address: string, maskBits: int) {
    |address| <= 15 && ValidMask(maskBits)
  }

  datatype ContainsResult = Answer(contains: bool) | CheckError

  // Cidr.contains, on a block text already split at its slash and an address already read.
  method ContainsValue(address: string, maskBits: int, checkAddr: int32) returns (r: ContainsResult)
    requires IsDottedQuad(address)
    ensures r.CheckError? <==> !Passes(address, maskBits)
    ensures r.Answer? ==> (r.contains <==> InBlock(IpValue(address), checkAddr, maskBits))
  {
    hide IsDottedQuad, IpValue, Network, Count, InBlock;
    if |address| > 15 || maskBits < 1 || maskBits > 32 {
      return CheckError;
    }
    var addr := Ip2Int(address);
    var minAddr := Network(addr, maskBits);
    var maxAddr := Wrap32(minAddr + Count(maskBits));
    r := Answer(checkAddr >= minAddr && checkAddr <= maxAddr);
    IntervalTest(addr, checkAddr, maskBits);
  }

  method Contains(address: string, maskBits: int, ip: string) returns (r: ContainsResult)
    requires IsDottedQuad(address) && IsDottedQuad(ip)
    ensures r.CheckError? <==> !Passes(address, maskBits)
    ensures r.Answer? ==> (r.contains <==> InBlock(IpValue(address), IpValue(ip), maskBits))
  {
    var checkAddr := Ip2Int(ip);
    r := ContainsValue(address, maskBits, checkAddr);
  }

  // A list of addresses that are exactly the ints from min on.
  ghost predicate Consecutive(list: seq<string>, min: int, size: nat) {
    && MIN_INT <= min && min + size <= 0x8000_0000
    && |list| == size
    && forall i | 0 <= i < size :: list[i] == Int2Ip(min + i)
  }

  lemma ConsecutiveEmpty(min: int32)
    ensures Consecutive([], min, 0)
  {
  }

  lemma ConsecutiveAppend(list: seq<string>, min: int, n: nat)
    requires Consecutive(list, min, n) && min + n <= MAX_INT
    ensures Consecutive(list + [Int2Ip(min + n)], min, n + 1)
  {
  }

  // Cidr.parseIpList
  method ParseIpList(addr: int32, maskBits: int) returns (list: seq<string>)
    requires ValidMask(maskBits)
    ensures Consecutive(list, Network(addr, maskBits), BlockSize(maskBits))
  {
    hide Pow2, Network, Int2Ip, Consecutive;
    var network: int := Network(addr, maskBits);
    var count := Count(maskBits);
    CountIsSize(maskBits);
    NetworkIsFloor(addr, maskBits);
    ConsecutiveEmpty(network);
    list := [];
    var s := network;
    var n := 0;
    while n <= count
      invariant 0 <= n <= count + 1
      invariant s == Wrap32(network + n)
      invariant Consecutive(list, network, n)
    {
      WrapId(network + n);
      ConsecutiveAppend(list, network, n);
      list := list + [Int2Ip(s)];
      s := Wrap32(s + 1);
      n := n + 1;
    }
  }

  // A text as the program prints it.
  ghost predicate Printed(ip: string) {
    IsDottedQuad(ip) && Int2Ip(IpValue(ip)) == ip
  }

  // The addresses of a block, once each and in ascending order.
  ghost predicate ListsBlock(list: seq<string>, addr: int32, maskBits: int)
    requires ValidMask(maskBits)
  {
    && (forall ip: int32 :: Int2Ip(ip) in list <==> InBlock(addr, ip, maskBits))
    && (forall ip | ip in list :: Printed(ip))
    && Ascending(list)
  }

  ghost predicate Less(a: string, b: string) {
    IsDottedQuad(a) && IsDottedQuad(b) && IpValue(a) < IpValue(b)
  }

  ghost predicate Ordered<T>(xs: seq<T>, less: (T, T) -> bool) {
    forall i, j | 0 <= i < j < |xs| :: less(xs[i], xs[j])
  }

  ghost predicate Ascending(list: seq<string>) {
    Ordered(list, (a, b) => Less(a, b))
  }

  lemma ConsecutiveAscends(list: seq<string>, min: int, size: nat)
    requires Consecutive(list, min, size)
    ensures Ascending(list)
  {
    forall i | 0 <= i < |list| ensures IsDottedQuad(list[i]) && IpValue(list[i]) == min + i {
      IpValueOfInt2Ip(min + i);
    }
  }

  lemma ConsecutiveMembers(list: seq<string>, min: int, size: nat, ip: int32)
    requires Consecutive(list, min, size)
    ensures Int2Ip(ip) in list <==> min <= ip < min + size
  {
    if Int2Ip(ip) in list {
      var i :| 0 <= i < |list| && list[i] == Int2Ip(ip);
      Int2IpInjective(ip, min + i);
    }
    if min <= ip < min + size {
      assert list[ip - min] == Int2Ip(ip);
    }
  }

  lemma ConsecutiveListsBlock(list: seq<string>, addr: int32, maskBits: int)
    requires ValidMask(maskBits)
    requires Consecutive(list, Network(addr, maskBits), BlockSize(maskBits))
    ensures ListsBlock(list, addr, maskBits)
  {
    hide InBlock;
    ConsecutiveAscends(list, Network(addr, maskBits), BlockSize(maskBits));
    BroadcastInBlock(addr, maskBits);
    forall ip: int32 ensures Int2Ip(ip) in list <==> InBlock(addr, ip, maskBits) {
      IntervalTest(addr, ip, maskBits);
      ConsecutiveMembers(list, Network(addr, maskBits), BlockSize(maskBits), ip);
    }
    ConsecutivePrinted(list, Network(addr, maskBits), BlockSize(maskBits));
  }

  lemma ConsecutivePrinted(list: seq<string>, min: int, size: nat)
    requires Consecutive(list, min, size)
    ensures forall ip | ip in list :: Printed(ip)
  {
    forall ip | ip in list ensures Printed(ip) {
      var i :| 0 <= i < |list| && list[i] == ip;
      IpValueOfInt2Ip(min + i);
    }
  }

  // List.remove(Object): the first equal element, if any.
  function RemoveFirst<T(==)>(xs: seq<T>, x: T): seq<T> {
    if xs == [] then [] else if xs[0] == x then xs[1..] else [xs[0]] + RemoveFirst(xs[1..], x)
  }

  lemma {:induction false} RemoveFirstAt<T>(xs: seq<T>, x: T, i: nat)
    requires i < |xs| && xs[i] == x && x !in xs[..i]
    ensures RemoveFirst(xs, x) == xs[..i] + xs[i + 1..]
  {
    if i > 0 {
      assert xs[0] in xs[..i];
      assert xs[1..][..i - 1] == xs[1..i];
      RemoveFirstAt(xs[1..], x, i - 1);
    }
  }

  lemma {:induction false} RemoveFirstAbsent<T>(xs: seq<T>, x: T)
    requires x !in xs
    ensures RemoveFirst(xs, x) == xs
  {
    if xs != [] {
      assert xs[0] in xs;
      RemoveFirstAbsent(xs[1..], x);
    }
  }

  lemma DroppedMembers<T>(xs: seq<T>, i: nat)
    requires i < |xs| && forall j | 0 <= j < |xs| && j != i :: xs[j] != xs[i]
    ensures forall y :: y in xs[..i] + xs[i + 1..] <==> y in xs && y != xs[i]
  {
    var r := xs[..i] + xs[i + 1..];
    forall y ensures y in r <==> y in xs && y != xs[i] {
      if y in xs && y != xs[i] {
        var j :| 0 <= j < |xs| && xs[j] == y;
        assert r[if j < i then j else j - 1] == y;
      }
    }
  }

  lemma RemoveFirstOrdered<T>(xs: seq<T>, x: T, less: (T, T) -> bool)
    requires Ordered(xs, less)
    requires forall y | y in xs :: !less(y, y)
    ensures Ordered(RemoveFirst(xs, x), less)
    ensures forall y :: y in RemoveFirst(xs, x) <==> y in xs && y != x
    ensures |RemoveFirst(xs, x)| == |xs| - (if x in xs then 1 else 0)
  {
    hide RemoveFirst;
    if x in xs {
      var i :| 0 <= i < |xs| && xs[i] == x;
      forall j | 0 <= j < |xs| && j != i ensures xs[j] != x {
        assert !less(x, x);
      }
      RemoveFirstAt(xs, x, i);
      DroppedMembers(xs, i);
    } else {
      RemoveFirstAbsent(xs, x);
    }
  }

  lemma RemoveFirstAscending(xs: seq<string>, x: string)
    requires Ascending(xs)
    ensures Ascending(RemoveFirst(xs, x))
    ensures forall y :: y in RemoveFirst(xs, x) <==> y in xs && y != x
    ensures |RemoveFirst(xs, x)| == |xs| - (if x in xs then 1 else 0)
  {
    RemoveFirstOrdered(xs, x, (a, b) => Less(a, b));
  }

  // What parseCidr leaves leasable: the list without the configured address and the broadcast address.
  ghost predicate Leasable(available: seq<string>, list: seq<string>, address: string, broadcast: string) {
    && Ascending(available)
    && (forall ip :: ip in available <==> ip in list && ip != address && ip != broadcast)
    && |available| == |list| - |set ip | ip in [address, broadcast] && ip in list|
  }

  lemma RemoveBoth(list: seq<string>, address: string, broadcast: string)
    requires Ascending(list) && broadcast in list
    ensures Leasable(RemoveFirst(RemoveFirst(list, address), broadcast), list, address, broadcast)
  {
    RemoveFirstAscending(list, address);
    RemoveFirstAscending(RemoveFirst(list, address), broadcast);
    var removed := set ip | ip in [address, broadcast] && ip in list;
    assert removed == if address in list then {address, broadcast} else {broadcast};
  }

  // Cidr.parseCidr(String), on a text already split at its slash.
  method ParseCidr(address: string, maskBits: int) returns (cidr: Cidr)
    requires IsDottedQuad(address) && ValidMask(maskBits)
    ensures cidr.address == address && cidr.maskBits == maskBits
    ensures var addr := IpValue(address);
            && ListsBlock(cidr.ipList, addr, maskBits) && |cidr.ipList| == BlockSize(maskBits)
            && cidr.networkIdentifier == cidr.ipList[0] == Int2Ip(Network(addr, maskBits))
            && cidr.broadcastAddress == cidr.ipList[BlockSize(maskBits) - 1] == Int2Ip(Broadcast(addr, maskBits))
            && cidr.gatewayAddress == Int2Ip(Wrap32(Network(addr, maskBits) + 1))
            && cidr.maskAddress == Int2Ip(Mask(maskBits))
    ensures Leasable(cidr.availableIpList, cidr.ipList, address, cidr.broadcastAddress)
    // Configured with its network address, a prefix from 2 to 31 gives a pool of 2^(32-m) - 2.
    ensures 2 <= maskBits <= 31 && address == cidr.networkIdentifier ==>
              |cidr.availableIpList| == Pow2(32 - maskBits) - 2
  {
    hide IsDottedQuad, IpValue, Int2Ip, RemoveFirst, Pow2, Mask, Leasable, Consecutive, Network, Broadcast;
    var addr := Ip2Int(address);
    var ipList := ParseIpList(addr, maskBits);
    var networkIdentifier := Int2Ip(Network(addr, maskBits));
    var broadcastAddress := Int2Ip(Broadcast(addr, maskBits));
    var gatewayAddress := Int2Ip(Wrap32(Network(addr, maskBits) + 1));
    var availableIpList := RemoveFirst(RemoveFirst(ipList, address), broadcastAddress);
    BlockEnds(ipList, addr, maskBits);
    RemoveBoth(ipList, address, broadcastAddress);
    if 2 <= maskBits <= 31 && address == networkIdentifier {
      BothRemoved(availableIpList, ipList, address, broadcastAddress);
    }
    cidr := Cidr(address, maskBits, Int2Ip(Mask(maskBits)), networkIdentifier, broadcastAddress,
                 gatewayAddress, ipList, availableIpList);
  }

  lemma BothRemoved(available: seq<string>, list: seq<string>, address: string, broadcast: string)
    requires Leasable(available, list, address, broadcast)
    requires address in list && broadcast in list && address != broadcast
    ensures |available| == |list| - 2
  {
    assert (set ip | ip in [address, broadcast] && ip in list) == {address, broadcast};
  }

  lemma BlockEnds(list: seq<string>, addr: int32, maskBits: int)
    requires ValidMask(maskBits)
    requires Consecutive(list, Network(addr, maskBits), BlockSize(maskBits))
    ensures ListsBlock(list, addr, maskBits) && |list| == BlockSize(maskBits) >= 1
    ensures list[0] == Int2Ip(Network(addr, maskBits))
    ensures list[|list| - 1] == Int2Ip(Broadcast(addr, maskBits))
    ensures maskBits != 32 ==> Int2Ip(Network(addr, maskBits)) != Int2Ip(Broadcast(addr, maskBits))
    ensures 2 <= maskBits ==> |list| == Pow2(32 - maskBits)
  {
    hide ListsBlock, SamePrefix, Int2Ip, Network, Broadcast;
    ConsecutiveListsBlock(list, addr, maskBits);
    Pow2Bound(32 - maskBits);
    BroadcastInBlock(addr, maskBits);
    if maskBits != 32 {
      assert Pow2(32 - maskBits) == 2 * Pow2(31 - maskBits);
      if Int2Ip(Network(addr, maskBits)) == Int2Ip(Broadcast(addr, maskBits)) {
        Int2IpInjective(Network(addr, maskBits), Broadcast(addr, maskBits));
      }
    }
  }
}
