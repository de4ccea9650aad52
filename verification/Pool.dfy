/** The pool of addresses that the controller is configured with. */
module Pool {
  import opened Wrappers
  import opened JavaInt
  import opened IpText
  import opened Cidr
  import opened Lease
  import LeaseTheorems
  import Controller = ControlService

  // The texts that a configured block leaves to lease: its addresses as the program prints them, without the
  // configured text and the broadcast address.
  ghost predicate IsLeasable(ip: string, address: string, maskBits: int)
    requires IsDottedQuad(address) && ValidMask(maskBits)
  {
    && Printed(ip) && InBlock(IpValue(address), IpValue(ip), maskBits)
    && ip != address && ip != Int2Ip(Broadcast(IpValue(address), maskBits))
  }

  ghost predicate IsPool(pool: set<Vip>, address: string, maskBits: int)
    requires IsDottedQuad(address) && ValidMask(maskBits)
  {
    forall ip :: ip in pool <==> IsLeasable(ip, address, maskBits)
  }

  // What parseCidr leaves available is what is leasable.
  lemma AvailableIsLeasable(available: seq<string>, list: seq<string>, address: string, maskBits: int)
    requires IsDottedQuad(address) && ValidMask(maskBits)
    requires ListsBlock(list, IpValue(address), maskBits)
    requires Leasable(available, list, address, Int2Ip(Broadcast(IpValue(address), maskBits)))
    ensures forall ip :: ip in available <==> IsLeasable(ip, address, maskBits)
  {
    hide IsDottedQuad, IpValue, Int2Ip, Broadcast, InBlock;
    forall ip ensures ip in list <==> Printed(ip) && InBlock(IpValue(address), IpValue(ip), maskBits) {
      if Printed(ip) {
        assert Int2Ip(IpValue(ip)) in list <==> InBlock(IpValue(address), IpValue(ip), maskBits);
      }
    }
  }

  lemma {:induction false} SetCount(list: seq<string>)
    requires Ascending(list)
    ensures |set ip | ip in list| == |list|
  {
    hide Ascending;
    if list != [] {
      var n := |list| - 1;
      LastIsNew(list);
      SetCount(list[..n]);
      assert list == list[..n] + [list[n]];
      assert (set ip | ip in list) == (set ip | ip in list[..n]) + {list[n]};
    }
  }

  lemma LastIsNew(list: seq<string>)
    requires Ascending(list) && list != []
    ensures var n := |list| - 1; Ascending(list[..n]) && list[n] !in list[..n]
  {
    hide IsDottedQuad, IpValue;
    var n := |list| - 1;
    forall ip | ip in list[..n] ensures ip != list[n] {
      var i :| 0 <= i < n && list[i] == ip;
      assert Less(list[i], list[n]);
    }
  }

  // afterPropertiesSet: a free slot for every leasable address of the configured block, and no other.
  method AfterPropertiesSet(address: string, maskBits: int)
    returns (service: Controller.ControlService, pool: set<Vip>)
    requires IsDottedQuad(address) && ValidMask(maskBits)
    ensures fresh(service) && service.Valid() && service.Now() == Start(pool)
    ensures IsPool(pool, address, maskBits)
  {
    hide Inv, Controller.Calm, IsDottedQuad, IpValue, Int2Ip, Network, ListsBlock, Leasable, IsLeasable;
    var cidr := ParseCidr(address, maskBits);
    AvailableIsLeasable(cidr.availableIpList, cidr.ipList, address, maskBits);
    pool := set ip | ip in cidr.availableIpList;
    service := new Controller.ControlService(pool);
  }

  // A prefix from 2 to 31 configured with its network address has 2^(32-m) - 2 leasable addresses.
  lemma PoolSize(address: string, maskBits: int, pool: set<Vip>)
    requires IsDottedQuad(address) && 2 <= maskBits <= 31 && IsPool(pool, address, maskBits)
    requires address == Int2Ip(Network(IpValue(address), maskBits))
    ensures |pool| == Pow2(32 - maskBits) - 2
  {
    hide IsDottedQuad, IpValue, Int2Ip, InBlock, Network, Broadcast, Printed, Pow2;
    var addr := IpValue(address);
    var broadcast := Int2Ip(Broadcast(addr, maskBits));
    var list := BlockList(addr, maskBits);
    var available := RemoveFirst(RemoveFirst(list, address), broadcast);
    BlockEnds(list, addr, maskBits);
    RemoveBoth(list, address, broadcast);
    BothRemoved(available, list, address, broadcast);
    AvailableIsLeasable(available, list, address, maskBits);
    SetCount(available);
    assert pool == set ip | ip in available;
  }

  lemma BlockList(addr: int32, maskBits: int) returns (list: seq<string>)
    requires ValidMask(maskBits)
    ensures Consecutive(list, Network(addr, maskBits), BlockSize(maskBits))
  {
    hide Int2Ip, Pow2;
    CountIsSize(maskBits);
    NetworkIsFloor(addr, maskBits);
    var min: int := Network(addr, maskBits);
    list := seq(BlockSize(maskBits), i requires 0 <= i < BlockSize(maskBits) => Int2Ip(min + i));
  }

  // So in every run the open registered channels number at most that.
  lemma CapacityOfBlock(address: string, maskBits: int, pool: set<Vip>, es: seq<Event>, s: State)
    requires IsDottedQuad(address) && 2 <= maskBits <= 31 && IsPool(pool, address, maskBits)
    requires address == Int2Ip(Network(IpValue(address), maskBits))
    requires LeaseTheorems.Reached(pool, es, s)
    ensures |set c | c in s.attr && s.Open(c)| <= Pow2(32 - maskBits) - 2
  {
    PoolSize(address, maskBits, pool);
    LeaseTheorems.Capacity(pool, es, s);
  }

  // updateNode accepts every text that is read as an address of the block. Not leasable among them are the
  // configured address, the broadcast address, and what the program prints otherwise.
  lemma AcceptedButNotLeasable(address: string, maskBits: int, vip: string, parsed: int32)
    requires IsDottedQuad(address) && ValidMask(maskBits)
    requires InBlock(IpValue(address), parsed, maskBits) && (IsDottedQuad(vip) ==> parsed == IpValue(vip))
    ensures !IsLeasable(vip, address, maskBits) <==>
            vip == address || vip == Int2Ip(Broadcast(IpValue(address), maskBits)) || !Printed(vip)
  {
  }

  // The configured address and the broadcast address are accepted and of that kind for every prefix from 2 on.
  lemma TwoNotLeasable(address: string, maskBits: int)
    requires IsDottedQuad(address) && Passes(address, maskBits) && 2 <= maskBits
    ensures var addr := IpValue(address);
            var broadcast := Int2Ip(Broadcast(addr, maskBits));
            && InBlock(addr, IpValue(address), maskBits) && !IsLeasable(address, address, maskBits)
            && IsDottedQuad(broadcast) && |broadcast| <= 15 && InBlock(addr, IpValue(broadcast), maskBits)
            && !IsLeasable(broadcast, address, maskBits)
  {
    hide IsDottedQuad, IpValue, Int2Ip, Broadcast;
    BroadcastInBlock(IpValue(address), maskBits);
    IpValueOfInt2Ip(Broadcast(IpValue(address), maskBits));
    PrintedShort(Broadcast(IpValue(address), maskBits));
  }

  // What a registration of a node on a channel can have come to, when ok says whether its address is in the pool.
  ghost predicate Underway(s: State, c: Chan, m: Mac, vip: Vip, ok: bool) {
    var p := s.Phase(c);
    && m in s.nodes && s.nodes[m] == vip && (vip in s.slots <==> ok)
    && (|| (c !in s.attr && (p == Looking(m) || p == Found(m, vip)))
        || (c !in s.attr && !ok && (p == Failing(SysError) || p == Rejected(SysError)))
        || (c !in s.attr && ok && (p == Failing(VipBound) || p == Rejected(VipBound)))
        || (c !in s.attr && ok && (p == Bound(m, vip, true) || p == Naming(m, vip)))
        || (ok && c in s.attr && s.attr[c] == Node(m, vip)
            && (p == Indexing(m, vip) || p == Putting(m, vip) || p == Replying(m, vip) || p == Idle)))
  }

  lemma StepKeepsUnderway(s: State, e: Event, c: Chan, m: Mac, vip: Vip, ok: bool)
    requires Underway(s, c, m, vip, ok) && Step(s, e).Some?
    requires !LeaseTheorems.Touches(e, m) && !(e.Regist? && e.chan == c)
    ensures Underway(Step(s, e).value, c, m, vip, ok)
  {
    hide SeekStep, SettleStep, OutsideStep;
    LeaseTheorems.NodeKept(s, e, m);
    LeaseTheorems.StepKeepsPool(s, e);
    if HandlerStep(e) && e.chan == c {
      if Seeks(e) {
        OwnSeek(s, e, m, vip, ok);
      } else {
        OwnSettle(s, e, m, vip, ok);
      }
    } else if Seeks(e) {
      LeaseTheorems.SeekFrame(s, e);
    } else if Settles(e) {
      LeaseTheorems.SettleFrame(s, e);
    } else {
      LeaseTheorems.OutsideFrame(s, e);
    }
  }

  lemma OwnSeek(s: State, e: Event, m: Mac, vip: Vip, ok: bool)
    requires Seeks(e) && !e.Regist? && SeekStep(s, e).Some? && Underway(s, e.chan, m, vip, ok)
    requires SeekStep(s, e).value.slots.Keys == s.slots.Keys
    ensures Underway(SeekStep(s, e).value, e.chan, m, vip, ok)
  {
  }

  lemma OwnSettle(s: State, e: Event, m: Mac, vip: Vip, ok: bool)
    requires Settles(e) && SettleStep(s, e).Some? && Underway(s, e.chan, m, vip, ok)
    ensures Underway(SettleStep(s, e).value, e.chan, m, vip, ok)
  {
  }

  lemma {:induction false} RunKeepsUnderway(s: State, es: seq<Event>, c: Chan, m: Mac, vip: Vip, ok: bool)
    requires Underway(s, c, m, vip, ok) && Run(s, es).Some? && LeaseTheorems.Untouched(es, m)
    requires forall e | e in es :: !(e.Regist? && e.chan == c)
    ensures Underway(Run(s, es).value, c, m, vip, ok)
    decreases |es|
  {
    if es != [] {
      StepKeepsUnderway(s, es[0], c, m, vip, ok);
      RunKeepsUnderway(Step(s, es[0]).value, es[1..], c, m, vip, ok);
    }
  }

  lemma {:induction false} AddressStays(s: State, es: seq<Event>, m: Mac)
    requires m in s.nodes && Run(s, es).Some? && LeaseTheorems.Untouched(es, m)
    ensures var t := Run(s, es).value; m in t.nodes && t.nodes[m] == s.nodes[m]
    decreases |es|
  {
    if es != [] {
      LeaseTheorems.NodeKept(s, es[0], m);
      AddressStays(Step(s, es[0]).value, es[1..], m);
    }
  }

  // The administrator changes a node's address and leaves it alone from then on. Whatever happens, the node's
  // next registrations, on channels without a name, are turned away with SysError if and only if the address is
  // not leasable; otherwise they end with the address or, while it is bound, with VipBound.
  lemma RegistrableExactly(address: string, maskBits: int, s: State, m: Mac, vip: Vip, before: seq<Event>, r: State,
                           c: Chan, after: seq<Event>, t: State)
    requires IsDottedQuad(address) && ValidMask(maskBits) && IsPool(s.slots.Keys, address, maskBits)
    requires Run(s, [UpdateNode(m, vip)] + before) == Some(r) && LeaseTheorems.Untouched(before, m)
    requires !Malformed(m) && c !in r.attr && Run(r, [Regist(c, m)] + after) == Some(t)
    requires LeaseTheorems.Untouched(after, m) && forall e | e in after :: !(e.Regist? && e.chan == c)
    ensures Underway(t, c, m, vip, IsLeasable(vip, address, maskBits))
    ensures t.Phase(c) == Failing(SysError) ==> !IsLeasable(vip, address, maskBits)
    ensures t.Phase(c).Rejected? || t.Phase(c).Idle? ==>
              (t.Phase(c) == Rejected(SysError) <==> !IsLeasable(vip, address, maskBits))
    ensures t.Phase(c).Rejected? ==> c !in t.attr && t.Phase(c).code in {SysError, VipBound}
    ensures t.Phase(c).Idle? ==> c in t.attr && t.attr[c] == Node(m, vip)
  {
    hide IsDottedQuad, IsLeasable;
    var s1 := UpdateStep(s, m, vip, before);
    var r1 := RegistStep(r, c, m, after);
    AddressStays(s1, before, m);
    LeaseTheorems.RunKeepsPool(s1, before);
    assert vip in r.slots.Keys <==> IsLeasable(vip, address, maskBits);
    RunKeepsUnderway(r1, after, c, m, vip, IsLeasable(vip, address, maskBits));
  }

  lemma UpdateStep(s: State, m: Mac, vip: Vip, before: seq<Event>) returns (t: State)
    requires Run(s, [UpdateNode(m, vip)] + before).Some?
    ensures Run(s, [UpdateNode(m, vip)] + before) == Run(t, before)
    ensures t.slots.Keys == s.slots.Keys && m in t.nodes && t.nodes[m] == vip
  {
    assert ([UpdateNode(m, vip)] + before)[1..] == before;
    t := Step(s, UpdateNode(m, vip)).value;
  }

  lemma RegistStep(s: State, c: Chan, m: Mac, after: seq<Event>) returns (t: State)
    requires !Malformed(m) && c !in s.attr && Run(s, [Regist(c, m)] + after).Some?
    ensures Run(s, [Regist(c, m)] + after) == Run(t, after)
    ensures t == s.Goto(c, Looking(m))
  {
    assert ([Regist(c, m)] + after)[1..] == after;
    t := Step(s, Regist(c, m)).value;
  }
}
