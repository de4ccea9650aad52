/**
 The node's NAT classification, against a NAT of one of the four types of section 5 of RFC 3489 and a
 STUN server with two addresses and two ports. Packets are not lost, and NAT entries do not expire
 between the requests of a check; for repeated checks, not between them either.
 */
module NatDiscovery {
  import opened Wrappers

  datatype Endpoint = Endpoint(ip: int, port: int)

  datatype NatType = FullCone | RestrictedCone | PortRestrictedCone | Symmetric

  // The NAT's table for the node's STUN socket. Cones map the socket once, under None; a symmetric
  // NAT maps it once for each destination.
  datatype Nat = Nat(kind: NatType, publicIp: int, mappings: map<Option<Endpoint>, int>, sent: set<Endpoint>, next: int)
  {
    ghost predicate Valid() {
      && (forall k | k in mappings :: mappings[k] < next)
      && (forall j, k | j in mappings && k in mappings && mappings[j] == mappings[k] :: j == k)
      && (kind == Symmetric ==> None !in mappings)
      && (kind != Symmetric ==> forall k | k in mappings :: k == None)
    }

    function Key(dst: Endpoint): Option<Endpoint> {
      if kind == Symmetric then Some(dst) else None
    }

    // An outgoing packet: a mapping, new or old, and a permission for its destination.
    function Send(dst: Endpoint): (table: Nat)
      ensures Valid() ==> table.Valid()
      ensures table.Key(dst) in table.mappings
    {
      var table := this.(sent := sent + {dst});
      if Key(dst) in mappings then table
      else table.(mappings := mappings[Key(dst) := next], next := next + 1)
    }

    // The external address of a packet to a destination already sent to.
    function External(dst: Endpoint): Endpoint
      requires Key(dst) in mappings
    {
      Endpoint(publicIp, mappings[Key(dst)])
    }

    // Whether a packet from outside to an external address reaches the socket.
    predicate Admits(from: Endpoint, external: Endpoint) {
      && external.ip == publicIp
      && match kind
         case FullCone => None in mappings && mappings[None] == external.port
         case RestrictedCone =>
           None in mappings && mappings[None] == external.port && exists d | d in sent :: d.ip == from.ip
         case PortRestrictedCone => None in mappings && mappings[None] == external.port && from in sent
         case Symmetric => Some(from) in mappings && mappings[Some(from)] == external.port
    }
  }

  datatype Server = Server(primary: Endpoint, other: Endpoint) {
    ghost predicate Valid() {
      primary.ip != other.ip && primary.port != other.port
    }

    // The address a reply comes from, for a request that arrived at one of the server's addresses.
    function ReplyFrom(at: Endpoint, changeIP: bool, changePort: bool): Endpoint {
      var opposite := Opposite(at);
      Endpoint(if changeIP then opposite.ip else at.ip, if changePort then opposite.port else at.port)
    }

    function Opposite(at: Endpoint): Endpoint {
      if at == primary then other else primary
    }
  }

  datatype Response = Response(mappedAddress: Endpoint, changedAddress: Endpoint)

  datatype MappingAddress = MappingAddress(mappingType: NatType, mappingAddress: Endpoint)

  // A bind request and its reply, or none when nothing answers or the NAT drops the reply.
  function Reply(table: Nat, server: Server, dst: Endpoint, changeIP: bool, changePort: bool): Option<Response>
    requires table.Key(dst) in table.mappings
  {
    var external := table.External(dst);
    if dst !in {server.primary, server.other} then None
    else if !table.Admits(server.ReplyFrom(dst, changeIP, changePort), external) then None
    else Some(Response(external, server.Opposite(dst)))
  }

  class StunClient {
    var table: Nat
    const server: Server

    constructor (table: Nat, server: Server)
      ensures this.table == table && this.server == server
    {
      this.table, this.server := table, server;
    }

    method SendChangeBind(dst: Endpoint, changeIP: bool, changePort: bool) returns (r: Option<Response>)
      modifies this
      ensures table == old(table).Send(dst) && r == Reply(table, server, dst, changeIP, changePort)
    {
      table := table.Send(dst);
      r := Reply(table, server, dst, changeIP, changePort);
    }

    method SendBind(dst: Endpoint) returns (r: Option<Response>)
      modifies this
      ensures table == old(table).Send(dst) && r == Reply(table, server, dst, false, false)
    {
      r := SendChangeBind(dst, false, false);
    }
  }

  // What one check finds and what it leaves in the NAT's table, in the order of its requests.
  function Checked(table: Nat, server: Server, remote: Endpoint): (Nat, Option<MappingAddress>) {
    var table1 := table.Send(remote);
    var first := Reply(table1, server, remote, false, false);
    if first.None? then (table1, None)
    else
      var mapped1 := first.value.mappedAddress;
      var table2 := table1.Send(remote);
      if Reply(table2, server, remote, true, true).Some? then (table2, Some(MappingAddress(FullCone, mapped1)))
      else
        var table3 := table2.Send(remote);
        if Reply(table3, server, remote, false, true).Some? then (table3, Some(MappingAddress(RestrictedCone, mapped1)))
        else
          var changed := first.value.changedAddress;
          var table4 := table3.Send(changed);
          var last := Reply(table4, server, changed, false, false);
          if last.Some? && last.value.mappedAddress == mapped1 then
            (table4, Some(MappingAddress(PortRestrictedCone, mapped1)))
          else (table4, Some(MappingAddress(Symmetric, mapped1)))
  }

  class MappingManager {
    var ref: Option<MappingAddress>

    constructor ()
      ensures ref == None
    {
      ref := None;
    }

    // None is the exception of a first bind that times out.
    method Check(client: StunClient, remote: Endpoint) returns (r: Option<MappingAddress>)
      modifies client
      ensures (client.table, r) == Checked(old(client.table), client.server, remote)
    {
      var response :- client.SendBind(remote);
      var changedAddress := response.changedAddress;
      var mappedAddress1 := response.mappedAddress;
      var reply := client.SendChangeBind(remote, true, true);
      if reply.Some? {
        return Some(MappingAddress(FullCone, mappedAddress1));
      }
      reply := client.SendChangeBind(remote, false, true);
      if reply.Some? {
        return Some(MappingAddress(RestrictedCone, mappedAddress1));
      }
      reply := client.SendBind(changedAddress);
      if reply.None? {
        return Some(MappingAddress(Symmetric, mappedAddress1));
      }
      if mappedAddress1 == reply.value.mappedAddress {
        r := Some(MappingAddress(PortRestrictedCone, mappedAddress1));
      } else {
        r := Some(MappingAddress(Symmetric, mappedAddress1));
      }
    }

    // One round of run: a failed check leaves the last mapping in place.
    method RunOnce(client: StunClient, remote: Endpoint)
      requires this as object != client
      modifies this, client
      ensures var (table', r) := Checked(old(client.table), client.server, remote);
              client.table == table' && ref == (if r.Some? then r else old(ref))
    {
      var mappingAddress := Check(client, remote);
      if mappingAddress.Some? {
        ref := mappingAddress;
      }
    }
  }

  // No permission left over from earlier traffic that lets a test reply through.
  predicate NoStalePermission(table: Nat, server: Server) {
    match table.kind
    case FullCone => true
    case RestrictedCone => forall d | d in table.sent :: d.ip != server.other.ip
    case PortRestrictedCone =>
      server.other !in table.sent && Endpoint(server.primary.ip, server.other.port) !in table.sent
    case Symmetric => true
  }

  // What a stale permission makes of a type.
  function Misread(table: Nat, server: Server): NatType {
    if table.kind == PortRestrictedCone && server.other !in table.sent then RestrictedCone else FullCone
  }

  // The first bind is answered; a test is answered exactly when the NAT admits what the server sends back.
  lemma FirstReplies(table: Nat, server: Server)
    requires table.Valid() && server.Valid()
    ensures var table1 := table.Send(server.primary);
            var e := table1.External(server.primary);
            && table1.Send(server.primary) == table1
            && Reply(table1, server, server.primary, false, false) == Some(Response(e, server.other))
            && (Reply(table1, server, server.primary, true, true).Some? <==> table1.Admits(server.other, e))
            && (Reply(table1, server, server.primary, false, true).Some?
                <==> table1.Admits(Endpoint(server.primary.ip, server.other.port), e))
  {
    var table1 := table.Send(server.primary);
    assert table1.sent + {server.primary} == table1.sent;
    assert server.primary in table1.sent;
  }

  // The last bind is answered, from the same external address exactly when the NAT is a cone.
  lemma LastReply(table: Nat, server: Server)
    requires table.Valid() && server.Valid()
    ensures var table1 := table.Send(server.primary);
            var last := Reply(table1.Send(server.other), server, server.other, false, false);
            && last.Some?
            && (last.value.mappedAddress == table1.External(server.primary) <==> table.kind != Symmetric)
  {
    var table4 := table.Send(server.primary).Send(server.other);
    assert server.other in table4.sent;
    assert table4.Valid() && table4.Key(server.primary) in table4.mappings;
    if table.kind == Symmetric {
      assert table4.Key(server.other) != table4.Key(server.primary);
    }
  }

  // What the two tests are answered with.
  lemma TestsAdmitted(table: Nat, server: Server)
    requires table.Valid() && server.Valid()
    ensures var table1 := table.Send(server.primary);
            var e := table1.External(server.primary);
            var port := Endpoint(server.primary.ip, server.other.port);
            && (table1.Admits(server.other, e) <==>
                  || table.kind == FullCone
                  || (table.kind == RestrictedCone && !NoStalePermission(table, server))
                  || (table.kind == PortRestrictedCone && server.other in table.sent))
            && (table1.Admits(port, e) <==>
                  || table.kind == FullCone || table.kind == RestrictedCone
                  || (table.kind == PortRestrictedCone && port in table.sent))
  {
    var table1 := table.Send(server.primary);
    assert server.primary in table1.sent && server.other != server.primary;
    if table.kind == Symmetric {
      assert table1.Key(server.primary) == Some(server.primary);
    }
    if table.kind == RestrictedCone && !NoStalePermission(table, server) {
      var d :| d in table.sent && d.ip == server.other.ip;
      assert d in table1.sent;
    }
  }

  // A check always answers, with the address that its first bind was seen from; the type it reports is the
  // NAT's exactly when no stale permission is in the way.
  lemma CheckExact(table: Nat, server: Server)
    requires table.Valid() && server.Valid()
    ensures var r := Checked(table, server, server.primary).1;
            && r.Some?
            && r.value.mappingAddress == table.Send(server.primary).External(server.primary)
            && (r.value.mappingType == table.kind <==> NoStalePermission(table, server))
            && (!NoStalePermission(table, server) ==> r.value.mappingType == Misread(table, server))
  {
    hide Reply, Nat.Admits, Nat.Send, Nat.External;
    FirstReplies(table, server);
    TestsAdmitted(table, server);
    LastReply(table, server);
  }

  // The third request is made exactly when neither test was answered.
  lemma ThirdRequest(table: Nat, server: Server)
    requires table.Valid() && server.Valid()
    ensures var (table', r) := Checked(table, server, server.primary);
            var table1 := table.Send(server.primary);
            r.Some? && table' == if r.value.mappingType in {FullCone, RestrictedCone} then table1
                                 else table1.Send(server.other)
  {
    hide Reply, Nat.Admits, Nat.Send, Nat.External;
    FirstReplies(table, server);
  }

  lemma SendGrows(table: Nat, dst: Endpoint)
    requires table.Valid()
    ensures var table' := table.Send(dst);
            table'.Valid() && table'.kind == table.kind && table'.sent == table.sent + {dst}
  {
  }

  // A check goes as far as its last request.
  predicate AsksOther(table: Nat, server: Server) {
    table.kind == Symmetric || (table.kind == PortRestrictedCone && NoStalePermission(table, server))
  }

  // The table after a check: only the server's own addresses gained a permission.
  lemma CheckedTable(table: Nat, server: Server)
    requires table.Valid() && server.Valid()
    ensures var table' := Checked(table, server, server.primary).0;
            && table'.Valid() && table'.kind == table.kind
            && table'.sent == table.sent + {server.primary} + (if AsksOther(table, server) then {server.other} else {})
  {
    CheckExact(table, server);
    ThirdRequest(table, server);
    SendGrows(table, server.primary);
    SendGrows(table.Send(server.primary), server.other);
  }

  // The table after n checks.
  function AfterChecks(table: Nat, server: Server, n: nat): Nat {
    if n == 0 then table else Checked(AfterChecks(table, server, n - 1), server, server.primary).0
  }

  function Report(table: Nat, server: Server, n: nat): Option<MappingAddress> {
    Checked(AfterChecks(table, server, n), server, server.primary).1
  }

  // A clean table, or one that a check has left behind.
  ghost predicate Settled(table: Nat, kind: NatType, server: Server, checkedBefore: bool) {
    && table.Valid() && table.kind == kind
    && (NoStalePermission(table, server) <==> !checkedBefore || kind != PortRestrictedCone)
    && (checkedBefore && kind == PortRestrictedCone ==> server.other in table.sent)
  }

  lemma CheckSettles(table: Nat, server: Server, checkedBefore: bool)
    requires server.Valid() && Settled(table, table.kind, server, checkedBefore)
    ensures Settled(Checked(table, server, server.primary).0, table.kind, server, true)
  {
    CheckedTable(table, server);
  }

  lemma {:induction false} TableAfter(table: Nat, server: Server, n: nat)
    requires server.Valid() && Settled(table, table.kind, server, false)
    ensures Settled(AfterChecks(table, server, n), table.kind, server, n > 0)
  {
    hide Checked;
    if n > 0 {
      TableAfter(table, server, n - 1);
      CheckSettles(AfterChecks(table, server, n - 1), server, n - 1 > 0);
    }
  }

  // The node checks every five seconds, and entries live longer than that. From a clean table the first check
  // is right; every later one is right too, except that a port restricted cone is reported as a full cone,
  // because the first check's last request went to the very address that the next check's first test is
  // answered from.
  lemma RepeatedChecks(table: Nat, server: Server, n: nat)
    requires table.Valid() && server.Valid() && NoStalePermission(table, server)
    ensures Report(table, server, n).Some?
    ensures Report(table, server, n).value.mappingType == table.kind <==> n == 0 || table.kind != PortRestrictedCone
    ensures n > 0 && table.kind == PortRestrictedCone ==> Report(table, server, n).value.mappingType == FullCone
  {
    TableAfter(table, server, n);
    CheckExact(AfterChecks(table, server, n), server);
  }
}
