/**
 A node's routes: the cached list, the destinations that the operating system routes to the tunnel, and the
 choice of the next hop. The commands that add and delete a route act on a set of destinations.
 */
module RouteManager {
  import opened Wrappers
  import opened IpText
  import Cidr

  datatype Destination = Destination(address: string, maskBits: int) {
    predicate Valid() {
      IsDottedQuad(address)
    }

    // Cidr.check
    predicate Passes() {
      Cidr.Passes(address, maskBits)
    }
  }

  datatype Route = Route(destination: Destination, nexthop: string)

  // The cached list, all routes of the operating system, and every destination that a command has named.
  datatype Table = Table(cache: seq<Route>, os: set<Destination>, touched: set<Destination>)

  datatype Op =
    | InitRoute(vip: string, list: seq<Route>)
    | UpdateRouteList(vip: string, list: seq<Route>)
    | ReleaseRoute(vip: string)

  function Destinations(list: seq<Route>): set<Destination> {
    set r | r in list :: r.destination
  }

  // The routes that do not lead to the node itself.
  function Others(list: seq<Route>, vip: string): (others: seq<Route>)
    ensures forall r :: r in others <==> r in list && r.nexthop != vip
  {
    if list == [] then []
    else
      assert list == [list[0]] + list[1..];
      (if list[0].nexthop != vip then [list[0]] else []) + Others(list[1..], vip)
  }

  // doUpdateRouteList: all deletions, then all additions.
  function Replaced(t: Table, olds: seq<Route>, news: seq<Route>, cache: seq<Route>): Table {
    Table(cache, t.os - Destinations(olds) + Destinations(news), t.touched + Destinations(olds) + Destinations(news))
  }

  function Apply(t: Table, op: Op): Table {
    match op
    case InitRoute(vip, list) => Replaced(t, t.cache, Others(list, vip), list)
    case UpdateRouteList(vip, list) => Replaced(t, Others(t.cache, vip), Others(list, vip), list)
    case ReleaseRoute(vip) => Replaced(t, Others(t.cache, vip), [], [])
  }

  // What the node manages is exactly the destinations of cached routes that lead elsewhere; of the routes
  // that were there before it, those remain that no command has named.
  ghost predicate Synced(t: Table, vip: string, foreign: set<Destination>) {
    && t.os == Destinations(Others(t.cache, vip)) + (foreign - t.touched)
    && Destinations(Others(t.cache, vip)) <= t.touched
  }

  lemma OthersWithin(list: seq<Route>, vip: string)
    ensures Destinations(Others(list, vip)) <= Destinations(list)
  {
  }

  // Initialising puts the table in step with a new own address, whatever the old one was; updating and
  // releasing do so when the address is still the same.
  lemma ApplySynced(t: Table, op: Op, vip: string, foreign: set<Destination>)
    requires Synced(t, vip, foreign) && (op.InitRoute? || op.vip == vip)
    ensures Synced(Apply(t, op), op.vip, foreign)
    ensures op.ReleaseRoute? ==> Apply(t, op).os == foreign - Apply(t, op).touched
  {
    OthersWithin(t.cache, vip);
  }

  // With another address, an update leaves the routes to that address behind: exactly those that neither
  // the rest of the old list nor the new list names.
  lemma UpdateUnderNewAddress(t: Table, op: Op, vip: string, foreign: set<Destination>)
    requires Synced(t, vip, foreign) && op.UpdateRouteList? && op.vip != vip
    ensures var left := Destinations(Others(t.cache, vip)) - Destinations(Others(t.cache, op.vip))
                        - Destinations(Others(op.list, op.vip));
            Apply(t, op).os == Destinations(Others(op.list, op.vip)) + left + (foreign - Apply(t, op).touched)
  {
  }

  // It happens: a node takes over the address that its only route leads to, and updates without initialising.
  lemma RouteLeftBehind(d: Destination, vip: string, other: string)
    requires vip != other
    ensures var r := Route(d, other);
            var t := Apply(Table([], {}, {}), InitRoute(vip, [r]));
            Synced(t, vip, {}) && Apply(t, UpdateRouteList(other, [])).os == {d}
  {
    var r := Route(d, other);
    assert Others([r], vip) == [r] by { assert [r][1..] == []; }
    assert Others([r], other) == [] by { assert [r][1..] == []; }
    assert r in [r];
  }

  function Run(t: Table, ops: seq<Op>): Table
    decreases |ops|
  {
    if ops == [] then t else Run(Apply(t, ops[0]), ops[1..])
  }

  // The own address changes only with an initialisation.
  predicate Steady(vip: string, ops: seq<Op>)
    decreases |ops|
  {
    ops == [] || ((ops[0].InitRoute? || ops[0].vip == vip) && Steady(ops[0].vip, ops[1..]))
  }

  lemma {:induction false} RunSynced(t: Table, vip: string, ops: seq<Op>, foreign: set<Destination>)
    requires Synced(t, vip, foreign) && Steady(vip, ops)
    ensures Synced(Run(t, ops), if ops == [] then vip else ops[|ops| - 1].vip, foreign)
    decreases |ops|
  {
    if ops != [] {
      ApplySynced(t, ops[0], vip, foreign);
      RunSynced(Apply(t, ops[0]), ops[0].vip, ops[1..], foreign);
    }
  }

  // The commands of a run name destinations of its lists only.
  lemma {:induction false} RunTouches(t: Table, ops: seq<Op>, d: Destination)
    requires d !in t.touched && d !in Destinations(t.cache)
    requires forall i | 0 <= i < |ops| && !ops[i].ReleaseRoute? :: d !in Destinations(ops[i].list)
    ensures d !in Run(t, ops).touched
    decreases |ops|
  {
    if ops != [] {
      OthersWithin(t.cache, ops[0].vip);
      if !ops[0].ReleaseRoute? {
        OthersWithin(ops[0].list, ops[0].vip);
      }
      assert forall i | 0 <= i < |ops[1..]| :: ops[1..][i] == ops[i + 1];
      RunTouches(Apply(t, ops[0]), ops[1..], d);
    }
  }

  // After any run from an empty cache the managed routes are the destinations of cached routes that lead
  // elsewhere, duplicates included, and after a release there are none; a route that was there before and
  // that no list names is still there.
  lemma ManagedRoutes(vip: string, ops: seq<Op>, foreign: set<Destination>, d: Destination)
    requires Steady(vip, ops)
    ensures var t := Run(Table([], foreign, {}), ops);
            var own := if ops == [] then vip else ops[|ops| - 1].vip;
            && (d !in foreign ==> (d in t.os <==> exists r | r in t.cache :: r.destination == d && r.nexthop != own))
            && (d in foreign && (forall i | 0 <= i < |ops| && !ops[i].ReleaseRoute? :: d !in Destinations(ops[i].list))
                ==> d in t.os)
            && (ops != [] && ops[|ops| - 1].ReleaseRoute? ==> t.os <= foreign)
  {
    var start := Table([], foreign, {});
    RunSynced(start, vip, ops, foreign);
    if forall i | 0 <= i < |ops| && !ops[i].ReleaseRoute? :: d !in Destinations(ops[i].list) {
      RunTouches(start, ops, d);
    }
    if ops != [] && ops[|ops| - 1].ReleaseRoute? {
      LastReleases(start, ops);
    }
  }

  lemma {:induction false} LastReleases(t: Table, ops: seq<Op>)
    requires ops != [] && ops[|ops| - 1].ReleaseRoute?
    ensures Run(t, ops).cache == []
    decreases |ops|
  {
    if |ops| > 1 {
      LastReleases(Apply(t, ops[0]), ops[1..]);
    }
  }

  // After any run the cache is the list of the last operation, as it came, whichever routes lead to the node itself.
  lemma {:induction false} CacheIsLastList(t: Table, ops: seq<Op>)
    requires ops != []
    ensures Run(t, ops).cache == match ops[|ops| - 1]
                                 case InitRoute(_, list) => list
                                 case UpdateRouteList(_, list) => list
                                 case ReleaseRoute(_) => []
    decreases |ops|
  {
    if |ops| > 1 {
      CacheIsLastList(Apply(t, ops[0]), ops[1..]);
    }
  }

  // A list has a route to a destination that leads to another address than the given one.
  predicate LeadsAway(list: seq<Route>, d: Destination, vip: string) {
    exists r | r in list :: r.destination == d && r.nexthop != vip
  }

  // What the commands of an operation do to any destination: the routes of the old cache are deleted, all of them by
  // an initialisation and else those that lead elsewhere, and then those of the list that lead elsewhere are added.
  lemma RoutedExactly(t: Table, op: Op, d: Destination)
    ensures var added := !op.ReleaseRoute? && LeadsAway(op.list, d, op.vip);
            var deleted := if op.InitRoute? then exists r | r in t.cache :: r.destination == d
                           else LeadsAway(t.cache, d, op.vip);
            && (d in Apply(t, op).os <==> added || (d in t.os && !deleted))
            && (d in Apply(t, op).touched <==> d in t.touched || added || deleted)
  {
    LeadAway(t.cache, d, op.vip);
    if !op.ReleaseRoute? {
      LeadAway(op.list, d, op.vip);
    }
    assert d in Destinations(t.cache) <==> exists r | r in t.cache :: r.destination == d;
  }

  lemma LeadAway(list: seq<Route>, d: Destination, vip: string)
    ensures d in Destinations(Others(list, vip)) <==> LeadsAway(list, d, vip)
  {
    if LeadsAway(list, d, vip) {
      var r :| r in list && r.destination == d && r.nexthop != vip;
      assert r in Others(list, vip);
    }
  }

  // Where a packet goes: to an address, nowhere, or into the exception of a destination that fails its check.
  datatype Routed = Via(nexthop: string) | Drop | CheckError

  // A block has an address, as Cidr.contains decides it.
  ghost predicate Covers(d: Destination, ip: string)
    requires d.Valid() && IsDottedQuad(ip) && Cidr.ValidMask(d.maskBits)
  {
    Cidr.InBlock(IpValue(d.address), IpValue(ip), d.maskBits)
  }

  // The first route of a list that covers an address, unless a destination that fails its check comes first.
  ghost predicate FirstRoute(list: seq<Route>, ip: string, n: nat)
    requires n <= |list| && IsDottedQuad(ip) && forall r | r in list :: r.destination.Valid()
  {
    forall i | 0 <= i < n :: list[i].destination.Passes() && !Covers(list[i].destination, ip)
  }

  class RouteManager {
    var cache: seq<Route>
    var cidr: Option<Destination>
    var os: set<Destination>
    ghost var touched: set<Destination>

    ghost function Now(): Table
      reads this
    {
      Table(cache, os, touched)
    }

    ghost predicate Valid()
      reads this
    {
      && (forall r | r in cache :: r.destination.Valid())
      && (cidr.Some? ==> cidr.value.Valid())
    }

    constructor (foreign: set<Destination>)
      ensures Valid() && Now() == Table([], foreign, {}) && cidr == None
    {
      cache, cidr, os, touched := [], None, foreign, {};
    }

    method InitRoute(vip: string, maskBits: int, list: seq<Route>)
      requires Valid() && IsDottedQuad(vip) && Cidr.ValidMask(maskBits)
      requires forall r | r in list :: r.destination.Valid()
      modifies this
      ensures Valid() && Now() == Apply(old(Now()), Op.InitRoute(vip, list))
      ensures cidr == Some(Destination(Int2Ip(Cidr.Network(IpValue(vip), maskBits)), maskBits))
    {
      var addr := Ip2Int(vip);
      cidr := Some(Destination(Int2Ip(Cidr.Network(addr, maskBits)), maskBits));
      DoUpdateRouteList(cache, Others(list, vip));
      cache := list;
    }

    method UpdateRouteList(vip: string, list: seq<Route>)
      requires Valid() && forall r | r in list :: r.destination.Valid()
      modifies `cache, `os, `touched
      ensures Valid() && Now() == Apply(old(Now()), Op.UpdateRouteList(vip, list))
    {
      DoUpdateRouteList(Others(cache, vip), Others(list, vip));
      cache := list;
    }

    method ReleaseRoute(vip: string)
      requires Valid()
      modifies this
      ensures Valid() && Now() == Apply(old(Now()), Op.ReleaseRoute(vip)) && cidr == None
    {
      DoUpdateRouteList(Others(cache, vip), []);
      cache := [];
      cidr := None;
    }

    method DoUpdateRouteList(oldList: seq<Route>, newList: seq<Route>)
      modifies `os, `touched
      ensures Now() == Replaced(old(Now()), oldList, newList, cache)
    {
      for i := 0 to |oldList|
        invariant touched == old(touched) && os == old(os) - Destinations(oldList[..i])
      {
        DestinationsAppend(oldList[..i], oldList[i]);
        assert oldList[..i + 1] == oldList[..i] + [oldList[i]];
        os := os - {oldList[i].destination};
      }
      assert oldList[..|oldList|] == oldList;
      for i := 0 to |newList|
        invariant touched == old(touched) && os == old(os) - Destinations(oldList) + Destinations(newList[..i])
      {
        DestinationsAppend(newList[..i], newList[i]);
        assert newList[..i + 1] == newList[..i] + [newList[i]];
        os := os + {newList[i].destination};
      }
      assert newList[..|newList|] == newList;
      touched := touched + Destinations(oldList) + Destinations(newList);
    }

    // The first cached route that covers an address; no route, or none because of a destination that fails its check.
    method FindRoute(dstIP: string) returns (route: Option<Route>, ok: bool)
      requires Valid() && IsDottedQuad(dstIP)
      ensures exists n | 0 <= n <= |cache| ::
                && FirstRoute(cache, dstIP, n)
                && (n == |cache| ==> ok && route == None)
                && (n < |cache| ==> ok == cache[n].destination.Passes())
                && (n < |cache| && ok ==> Covers(cache[n].destination, dstIP) && route == Some(cache[n]))
    {
      for n := 0 to |cache|
        invariant FirstRoute(cache, dstIP, n)
      {
        assert cache[n] in cache;
        var answer := Cidr.Contains(cache[n].destination.address, cache[n].destination.maskBits, dstIP);
        if answer.CheckError? {
          return None, false;
        }
        if answer.contains {
          return Some(cache[n]), true;
        }
      }
      return None, true;
    }

    // The next hop of a packet that has passed the route chains: its route's, or its own destination inside
    // the node's network.
    method RouteOut(dstIP: string) returns (r: Routed)
      requires Valid() && IsDottedQuad(dstIP)
      ensures exists n | 0 <= n <= |cache| ::
                && FirstRoute(cache, dstIP, n)
                && (n < |cache| ==>
                      r == if cache[n].destination.Passes() then Via(cache[n].nexthop) else CheckError)
                && (n < |cache| && r.Via? ==> Covers(cache[n].destination, dstIP))
                && (n == |cache| ==> r == Direct(dstIP))
    {
      var route, ok := FindRoute(dstIP);
      if !ok {
        return CheckError;
      }
      if route.Some? {
        return Via(route.value.nexthop);
      }
      if cidr.None? {
        return Drop;
      }
      var answer := Cidr.Contains(cidr.value.address, cidr.value.maskBits, dstIP);
      r := match answer
           case CheckError => CheckError
           case Answer(inside) => if inside then Via(dstIP) else Drop;
    }

    // What becomes of a packet without a route.
    ghost function Direct(dstIP: string): Routed
      requires Valid() && IsDottedQuad(dstIP)
      reads this
    {
      if cidr.None? then Drop
      else if !cidr.value.Passes() then CheckError
      else if Covers(cidr.value, dstIP) then Via(dstIP)
      else Drop
    }
  }

  lemma DestinationsAppend(list: seq<Route>, r: Route)
    ensures Destinations(list + [r]) == Destinations(list) + {r.destination}
  {
  }

  // The network kept at initialisation has exactly the addresses that share the own address's prefix.
  lemma OwnNetwork(vip: string, maskBits: int, ip: string)
    requires IsDottedQuad(vip) && IsDottedQuad(ip) && Cidr.ValidMask(maskBits)
    ensures var d := Destination(Int2Ip(Cidr.Network(IpValue(vip), maskBits)), maskBits);
            Covers(d, ip) <==> Covers(Destination(vip, maskBits), ip)
  {
    var addr := IpValue(vip);
    IpValueOfInt2Ip(Cidr.Network(addr, maskBits));
    Cidr.NetworkIsFloor(addr, maskBits);
    Cidr.BlockIsInterval(addr, Cidr.Network(addr, maskBits), maskBits);
  }
}
