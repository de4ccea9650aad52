/**
 The offer and answer exchange between two nodes, the choice of an address, and the lookup of packets in the
 peers' tunnel maps.
 */
module P2p {
  import opened Wrappers
  import opened Futures

  datatype Scheme = Host | Srflx | Prflx | Relay

  // An address URI, with the value of its query parameter.
  datatype Uri = Uri(scheme: Scheme, host: string, port: int, query: Option<string>)

  datatype Endpoint = Endpoint(host: string, port: int)

  datatype Info = Info(src: Uri, dst: Uri)

  datatype Answer = NotFound | Success(src: Uri, dst: Uri)

  function PrflxUri(e: Endpoint): Uri {
    Uri(Prflx, e.host, e.port, None)
  }

  // The addresses that sendBind offers: a direct bind that was answered adds one.
  function AddressList(host: Uri, srflx: Uri, relay: Uri, bind: Option<Endpoint>): seq<Uri> {
    if bind.None? then [host, srflx, relay] else [host, srflx, PrflxUri(bind.value), relay]
  }

  // How the probe of an offered address ends: a direct one with the address that the bind was seen from, if
  // it is answered; the relay one always with success.
  function Probed(uri: Uri, reply: Option<Endpoint>, ownRelay: Uri): Status<Info, ()> {
    if uri.scheme.Relay? then Done(Info(ownRelay, uri))
    else if reply.None? then Failed(())
    else Done(Info(PrflxUri(reply.value), uri))
  }

  function Probes(offered: seq<Uri>, replies: seq<Option<Endpoint>>, ownRelay: Uri): (fs: seq<Status<Info, ()>>)
    requires |replies| == |offered|
    ensures |fs| == |offered|
  {
    seq(|offered|, i requires 0 <= i < |offered| => Probed(offered[i], replies[i], ownRelay))
  }

  function Picked(list: seq<Info>): Answer {
    if list == [] then NotFound else Success(list[0].src, list[0].dst)
  }

  function Pick(offered: seq<Uri>, replies: seq<Option<Endpoint>>, ownRelay: Uri): Answer
    requires |replies| == |offered|
  {
    Picked(Successes(Probes(offered, replies, ownRelay)))
  }

  predicate Reachable(uri: Uri, reply: Option<Endpoint>) {
    uri.scheme.Relay? || reply.Some?
  }

  // The answer names the first offered address whose probe succeeded, with the address it was seen from.
  lemma PickIsFirst(offered: seq<Uri>, replies: seq<Option<Endpoint>>, ownRelay: Uri, n: nat)
    requires |replies| == |offered| && n < |offered| && Reachable(offered[n], replies[n])
    requires forall i | 0 <= i < n :: !Reachable(offered[i], replies[i])
    ensures var src := if offered[n].scheme.Relay? then ownRelay else PrflxUri(replies[n].value);
            Pick(offered, replies, ownRelay) == Success(src, offered[n])
  {
    var fs := Probes(offered, replies, ownRelay);
    FailuresSkipped(fs, n);
    assert fs[n..][0] == fs[n];
  }

  lemma PickNone(offered: seq<Uri>, replies: seq<Option<Endpoint>>, ownRelay: Uri)
    requires |replies| == |offered| && forall i | 0 <= i < |offered| :: !Reachable(offered[i], replies[i])
    ensures Pick(offered, replies, ownRelay) == NotFound
  {
    var fs := Probes(offered, replies, ownRelay);
    FailuresSkipped(fs, |fs|);
  }

  // An offer that names a relay anywhere is never answered NotFound.
  lemma RelayAnswers(offered: seq<Uri>, replies: seq<Option<Endpoint>>, ownRelay: Uri, i: nat)
    requires |replies| == |offered| && i < |offered| && offered[i].scheme.Relay?
    ensures Pick(offered, replies, ownRelay).Success?
  {
    var n := FirstReachable(offered, replies, i);
    PickIsFirst(offered, replies, ownRelay, n);
  }

  // Every offer starts with the host address and the one that the server sees; a direct bind that was answered adds the
  // address that it was seen from, and the relay closes the list.
  lemma OfferedAddresses(host: Uri, srflx: Uri, relay: Uri, bind: Option<Endpoint>)
    ensures var list := AddressList(host, srflx, relay, bind);
            && |list| == (if bind.Some? then 4 else 3)
            && list[0] == host && list[1] == srflx && list[|list| - 1] == relay
            && (bind.Some? ==>
                  && list[2].scheme == Prflx && list[2].query == None
                  && list[2].host == bind.value.host && list[2].port == bind.value.port)
  {
  }

  // An offer that sendBind builds is never answered NotFound, and the relay is picked exactly when every
  // direct probe fails.
  lemma RelayIsLast(host: Uri, srflx: Uri, relay: Uri, bind: Option<Endpoint>, replies: seq<Option<Endpoint>>,
                    ownRelay: Uri)
    requires host.scheme == Host && srflx.scheme == Srflx && relay.scheme == Relay
    requires |replies| == |AddressList(host, srflx, relay, bind)|
    ensures var answer := Pick(AddressList(host, srflx, relay, bind), replies, ownRelay);
            && answer.Success?
            && (answer.dst.scheme.Relay? <==> forall i | 0 <= i < |replies| - 1 :: replies[i].None?)
            && (answer.dst.scheme.Relay? ==> answer == Success(ownRelay, relay))
  {
    var offered := AddressList(host, srflx, relay, bind);
    var last := |offered| - 1;
    if i :| 0 <= i < last && replies[i].Some? {
      var n := FirstReachable(offered, replies, i);
      PickIsFirst(offered, replies, ownRelay, n);
    } else {
      PickIsFirst(offered, replies, ownRelay, last);
    }
  }

  lemma FirstReachable(offered: seq<Uri>, replies: seq<Option<Endpoint>>, i: nat) returns (n: nat)
    requires |replies| == |offered| && i < |offered| && Reachable(offered[i], replies[i])
    ensures n <= i && Reachable(offered[n], replies[n])
    ensures forall j | 0 <= j < n :: !Reachable(offered[j], replies[j])
  {
    n := 0;
    while !Reachable(offered[n], replies[n])
      invariant n <= i && forall j | 0 <= j < n :: !Reachable(offered[j], replies[j])
      decreases i - n
    {
      n := n + 1;
    }
  }

  type NodeId = nat

  // The id of a request, which its answer carries too.
  type Exchange = nat

  datatype Role = Initiator | Responder

  datatype Packet = Packet(src: Uri, dst: Uri, payload: seq<int>)

  // A tunnel, made on one side of an exchange.
  datatype Tunnel = Tunnel(exchange: Exchange, role: Role, info: Info) {
    function Send(payload: seq<int>): Packet {
      Packet(info.src, info.dst, payload)
    }
  }

  // computeIfAbsent
  function Kept(tunnelMap: map<Uri, Tunnel>, t: Tunnel): map<Uri, Tunnel> {
    if t.info.dst in tunnelMap then tunnelMap else tunnelMap[t.info.dst := t]
  }

  // An answer that a responder has sent, as the message has it.
  datatype Sent = Sent(initiator: NodeId, responder: NodeId, src: Uri, dst: Uri, received: bool)

  // The answers sent, the tunnels made, and the tunnel map of every node.
  datatype Network = Network(answers: map<Exchange, Sent>, made: map<(Exchange, Role), Tunnel>,
                             tables: map<NodeId, map<Uri, Tunnel>>)
  {
    function Table(n: NodeId): map<Uri, Tunnel> {
      if n in tables then tables[n] else map[]
    }

    function Make(n: NodeId, t: Tunnel): Network {
      this.(made := made[(t.exchange, t.role) := t], tables := tables[n := Kept(Table(n), t)])
    }
  }

  datatype Event =
    | Respond(exchange: Exchange, initiator: NodeId, responder: NodeId, info: Info)
    | Receive(exchange: Exchange)
    | HeartFail(node: NodeId, uri: Uri)

  // One step at one node, or None when the event cannot happen.
  function Step(s: Network, e: Event): Option<Network> {
    match e
    case Respond(x, initiator, responder, info) =>
      if x in s.answers then None
      else
        Some(s.(answers := s.answers[x := Sent(initiator, responder, info.src, info.dst, false)])
              .Make(responder, Tunnel(x, Responder, info)))
    case Receive(x) =>
      if x !in s.answers || s.answers[x].received then None
      else
        var m := s.answers[x];
        Some(s.(answers := s.answers[x := m.(received := true)])
              .Make(m.initiator, Tunnel(x, Initiator, Info(m.dst, m.src))))
    case HeartFail(node, uri) => Some(s.(tables := s.tables[node := s.Table(node) - {uri}]))
  }

  function Run(s: Network, es: seq<Event>): Option<Network>
    decreases |es|
  {
    if es == [] then Some(s)
    else
      var t :- Step(s, es[0]);
      Run(t, es[1..])
  }

  // The node at which an event happens.
  function Where(s: Network, e: Event): NodeId
    requires e.Receive? ==> e.exchange in s.answers
  {
    match e
    case Respond(_, _, responder, _) => responder
    case Receive(x) => s.answers[x].initiator
    case HeartFail(node, _) => node
  }

  // A step leaves the maps of all other nodes alone.
  lemma StepIsLocal(s: Network, e: Event, n: NodeId)
    requires Step(s, e).Some? && n != Where(s, e)
    ensures Step(s, e).value.Table(n) == s.Table(n)
  {
  }

  // A node's tunnel map. The network s is what its steps are part of; its table for the node is the map.
  class P2pManager {
    var tunnelMap: map<Uri, Tunnel>
    const id: NodeId
    const ownRelay: Uri

    // Tunnels are kept under their destination.
    ghost predicate Valid()
      reads this
    {
      forall u | u in tunnelMap :: tunnelMap[u].info.dst == u
    }

    constructor (id: NodeId, ownRelay: Uri)
      ensures Valid() && tunnelMap == map[] && this.id == id && this.ownRelay == ownRelay
    {
      this.tunnelMap, this.id, this.ownRelay := map[], id, ownRelay;
    }

    // The direct probes finish in any order; the answer does not depend on it.
    method ProcessP2pOffer(x: Exchange, initiator: NodeId, offered: seq<Uri>, replies: seq<Option<Endpoint>>,
                           order: seq<nat>, ghost s: Network) returns (answer: Answer, ghost t: Network)
      requires Valid() && s.Table(id) == tunnelMap && x !in s.answers
      requires |replies| == |offered|
      requires forall i :: i in order <==> 0 <= i < |offered| && !offered[i].scheme.Relay?
      requires forall i, j | 0 <= i < j < |order| :: order[i] != order[j]
      modifies this
      ensures Valid() && t.Table(id) == tunnelMap
      ensures answer == Pick(offered, replies, ownRelay)
      ensures if answer.NotFound? then t == s
              else Step(s, Respond(x, initiator, id, Info(answer.src, answer.dst))) == Some(t)
    {
      answer := Probe(offered, replies, order);
      t := s;
      if answer.Success? {
        var dataTunnel := Tunnel(x, Responder, Info(answer.src, answer.dst));
        t := Step(s, Respond(x, initiator, id, dataTunnel.info)).value;
        tunnelMap := Kept(tunnelMap, dataTunnel);
      }
    }

    method Probe(offered: seq<Uri>, replies: seq<Option<Endpoint>>, order: seq<nat>) returns (answer: Answer)
      requires |replies| == |offered|
      requires forall i :: i in order <==> 0 <= i < |offered| && !offered[i].scheme.Relay?
      requires forall i, j | 0 <= i < j < |order| :: order[i] != order[j]
      ensures answer == Pick(offered, replies, ownRelay)
    {
      var futureList := seq(|offered|, i requires 0 <= i < |offered| =>
        if offered[i].scheme.Relay? then Done(Info(ownRelay, offered[i])) else Pending);
      var all := new AllOf(futureList);
      ghost var ends := Probes(offered, replies, ownRelay);
      for k := 0 to |order|
        invariant all.Valid() && |all.futures| == |offered|
        invariant forall i | 0 <= i < |offered| ::
                    all.futures[i] == if offered[i].scheme.Relay? || i in order[..k] then ends[i] else Pending
      {
        var i := order[k];
        assert i in order && i !in order[..k] && order[..k + 1] == order[..k] + [i];
        all.Complete(i, Probed(offered[i], replies[i], ownRelay));
      }
      assert order[..|order|] == order;
      assert all.futures == ends;
      answer := Picked(all.result.value);
    }

    // The initiator's side, when the answer has arrived. The tunnel is returned even when an older one stays
    // in the map.
    method Create(x: Exchange, answer: Answer, ghost s: Network) returns (tunnel: Option<Tunnel>, ghost t: Network)
      requires Valid() && s.Table(id) == tunnelMap
      requires answer.Success? ==>
                 x in s.answers && s.answers[x] == Sent(id, s.answers[x].responder, answer.src, answer.dst, false)
      modifies this
      ensures Valid() && t.Table(id) == tunnelMap
      ensures if answer.NotFound? then tunnel == None && t == s
              else Step(s, Receive(x)) == Some(t) && tunnel == Some(t.made[(x, Initiator)])
      ensures tunnel.Some? ==> tunnel.value.info == Info(answer.dst, answer.src)
    {
      t := s;
      if answer.NotFound? {
        return None, t;
      }
      var dataTunnel := Tunnel(x, Initiator, Info(answer.dst, answer.src));
      t := Step(s, Receive(x)).value;
      tunnelMap := Kept(tunnelMap, dataTunnel);
      tunnel := Some(dataTunnel);
    }

    // A packet is handed to the tunnel that leads back to where it says it comes from.
    method OnData(packet: Packet) returns (tunnel: Option<Tunnel>)
      requires Valid()
      ensures tunnel.Some? ==> tunnel.value in tunnelMap.Values && tunnel.value.info.dst == packet.src
      ensures tunnel.None? ==> forall t | t in tunnelMap.Values :: t.info.dst != packet.src
      ensures forall t | t in tunnelMap.Values && t.info.dst == packet.src :: tunnel == Some(t)
    {
      tunnel := if packet.src in tunnelMap then Some(tunnelMap[packet.src]) else None;
    }

    // A failed heartbeat removes by address.
    method HeartTimeout(uri: Uri, ghost s: Network) returns (ghost t: Network)
      requires Valid() && s.Table(id) == tunnelMap
      modifies this
      ensures Valid() && t.Table(id) == tunnelMap
      ensures Step(s, HeartFail(id, uri)) == Some(t)
    {
      t := Step(s, HeartFail(id, uri)).value;
      tunnelMap := tunnelMap - {uri};
    }
  }

  function NodeOf(s: Network, x: Exchange, role: Role): NodeId
    requires x in s.answers
  {
    match role
    case Responder => s.answers[x].responder
    case Initiator => s.answers[x].initiator
  }

  function Peer(role: Role): Role {
    match role
    case Responder => Initiator
    case Initiator => Responder
  }

  function Swapped(i: Info): Info {
    Info(i.dst, i.src)
  }

  // A side has made its tunnel exactly when it has sent or received the answer, with the addresses in it.
  ghost predicate MadeAsAnswered(s: Network) {
    forall x, role ::
      ((x, role) in s.made <==> x in s.answers && (role == Initiator ==> s.answers[x].received))
      && ((x, role) in s.made ==>
            && s.made[(x, role)].exchange == x && s.made[(x, role)].role == role
            && var sent := Info(s.answers[x].src, s.answers[x].dst);
               s.made[(x, role)].info == if role == Responder then sent else Swapped(sent))
  }

  // Entries are tunnels that were made, kept at their node under their destination.
  ghost predicate KeptInPlace(s: Network) {
    forall n, u | u in s.Table(n) ::
      var t := s.Table(n)[u];
      && (t.exchange, t.role) in s.made && s.made[(t.exchange, t.role)] == t
      && t.exchange in s.answers && NodeOf(s, t.exchange, t.role) == n && t.info.dst == u
  }

  ghost predicate Inv(s: Network) {
    MadeAsAnswered(s) && KeptInPlace(s)
  }

  lemma MakeKeepsPlaces(s: Network, n: NodeId, t: Tunnel)
    requires KeptInPlace(s) && (t.exchange, t.role) !in s.made
    requires t.exchange in s.answers && NodeOf(s, t.exchange, t.role) == n
    ensures KeptInPlace(s.Make(n, t))
  {
    var u := s.Make(n, t);
    assert forall m :: u.Table(m) == if m == n then Kept(s.Table(n), t) else s.Table(m);
  }

  lemma AnswersKeepPlaces(s: Network, answers: map<Exchange, Sent>)
    requires KeptInPlace(s)
    requires forall x | x in s.answers :: x in answers && answers[x].initiator == s.answers[x].initiator
                                          && answers[x].responder == s.answers[x].responder
    ensures KeptInPlace(s.(answers := answers))
  {
    assert forall n :: s.(answers := answers).Table(n) == s.Table(n);
  }

  lemma StepKeepsInv(s: Network, e: Event)
    requires Inv(s) && Step(s, e).Some?
    ensures Inv(Step(s, e).value)
  {
    var t := Step(s, e).value;
    match e
    case Respond(x, initiator, responder, info) =>
      AnswersKeepPlaces(s, t.answers);
      MakeKeepsPlaces(s.(answers := t.answers), responder, Tunnel(x, Responder, info));
    case Receive(x) =>
      var m := s.answers[x];
      AnswersKeepPlaces(s, t.answers);
      MakeKeepsPlaces(s.(answers := t.answers), m.initiator, Tunnel(x, Initiator, Info(m.dst, m.src)));
    case HeartFail(node, uri) =>
      assert forall n :: t.Table(n) == if n == node then s.Table(n) - {uri} else s.Table(n);
  }

  lemma {:induction false} RunKeepsInv(s: Network, es: seq<Event>)
    requires Inv(s) && Run(s, es).Some?
    ensures Inv(Run(s, es).value)
    decreases |es|
  {
    if es != [] {
      StepKeepsInv(s, es[0]);
      RunKeepsInv(Step(s, es[0]).value, es[1..]);
    }
  }

  const NOBODY := Network(map[], map[], map[])

  // In every run, the two sides of an exchange hold each other's addresses: what the initiator has made from
  // the answer that arrived is the responder's pair, swapped.
  lemma AddressesMirrored(es: seq<Event>, s: Network, x: Exchange)
    requires Run(NOBODY, es) == Some(s) && (x, Initiator) in s.made
    ensures (x, Responder) in s.made && s.made[(x, Initiator)].info == Swapped(s.made[(x, Responder)].info)
  {
    RunKeepsInv(NOBODY, es);
  }

  // The tunnel of a side is in its node's map.
  predicate Found(s: Network, x: Exchange, role: Role) {
    && x in s.answers && (x, role) in s.made
    && var table, t := s.Table(NodeOf(s, x, role)), s.made[(x, role)];
       t.info.dst in table && table[t.info.dst] == t
  }

  // The failed heartbeat that takes the tunnel of a side out.
  function Loss(s: Network, x: Exchange, role: Role): Event
    requires x in s.answers && (x, role) in s.made
  {
    HeartFail(NodeOf(s, x, role), s.made[(x, role)].info.dst)
  }

  // What a side has made stays as it is.
  lemma MadeStays(s: Network, e: Event, x: Exchange, role: Role)
    requires Inv(s) && Step(s, e).Some? && (x, role) in s.made
    ensures var t := Step(s, e).value;
            && x in s.answers && x in t.answers && (x, role) in t.made && t.made[(x, role)] == s.made[(x, role)]
            && NodeOf(t, x, role) == NodeOf(s, x, role)
  {
  }

  lemma FoundStep(s: Network, e: Event, x: Exchange, role: Role)
    requires Inv(s) && Step(s, e).Some? && (x, role) in s.made && x in s.answers
    ensures Found(Step(s, e).value, x, role) <==> Found(s, x, role) && e != Loss(s, x, role)
  {
    MadeStays(s, e, x, role);
    var t := Step(s, e).value;
    assert forall n :: t.Table(n) == s.Table(n) || n == Where(s, e);
  }

  lemma {:induction false} FoundUntilLost(s: Network, es: seq<Event>, x: Exchange, role: Role)
    requires Inv(s) && (x, role) in s.made && x in s.answers && Run(s, es).Some?
    ensures var t := Run(s, es).value;
            && x in t.answers && (x, role) in t.made && t.made[(x, role)] == s.made[(x, role)]
            && NodeOf(t, x, role) == NodeOf(s, x, role)
            && (Found(t, x, role) <==> Found(s, x, role) && Loss(s, x, role) !in es)
    decreases |es|
  {
    if es != [] {
      var t := Step(s, es[0]).value;
      StepKeepsInv(s, es[0]);
      MadeStays(s, es[0], x, role);
      FoundStep(s, es[0], x, role);
      FoundUntilLost(t, es[1..], x, role);
      assert es == [es[0]] + es[1..];
    }
  }

  // The event at which a side makes its tunnel.
  predicate Makes(e: Event, x: Exchange, role: Role) {
    match role
    case Responder => e.Respond? && e.exchange == x
    case Initiator => e.Receive? && e.exchange == x
  }

  lemma MadeAndFound(s: Network, e: Event, x: Exchange, role: Role)
    requires Inv(s) && Makes(e, x, role) && Step(s, e).Some?
    ensures var t := Step(s, e).value;
            && x in t.answers && (x, role) in t.made && NodeOf(t, x, role) == Where(s, e)
            && (Found(t, x, role) <==> t.made[(x, role)].info.dst !in s.Table(Where(s, e)))
  {
    assert (x, role) !in s.made;
  }

  // What either side sends carries the payload, from the address that the other side sends to, to the address that the
  // other side sends from.
  lemma PacketsAddressed(es: seq<Event>, s: Network, x: Exchange, role: Role, payload: seq<int>)
    requires Run(NOBODY, es) == Some(s) && (x, role) in s.made && (x, Peer(role)) in s.made
    ensures var packet, peer := s.made[(x, role)].Send(payload), s.made[(x, Peer(role))].info;
            packet.payload == payload && packet.src == peer.dst && packet.dst == peer.src
  {
    RunKeepsInv(NOBODY, es);
  }

  // What a node finds a packet's tunnel to be.
  function Lookup(s: Network, n: NodeId, packet: Packet): Option<Tunnel> {
    if packet.src in s.Table(n) then Some(s.Table(n)[packet.src]) else None
  }

  // Once both sides have made their tunnels, a packet that either sends finds the other's tunnel at its node
  // exactly when the address was free there when that was made and no heartbeat has failed there since.
  lemma PacketsFindTheirTunnel(before: seq<Event>, s: Network, e: Event, after: seq<Event>, t: Network,
                               x: Exchange, role: Role, payload: seq<int>)
    requires Run(NOBODY, before) == Some(s) && Makes(e, x, Peer(role)) && Run(s, [e] + after) == Some(t)
    requires (x, role) in t.made
    ensures (x, Peer(role)) in t.made && x in t.answers && (e.Receive? ==> e.exchange in s.answers)
    ensures var n := NodeOf(t, x, Peer(role));
            var packet := t.made[(x, role)].Send(payload);
            && n == Where(s, e)
            && (Lookup(t, n, packet) == Some(t.made[(x, Peer(role))])
                <==> packet.src !in s.Table(n) && HeartFail(n, packet.src) !in after)
  {
    RunKeepsInv(NOBODY, before);
    assert ([e] + after)[0] == e && ([e] + after)[1..] == after;
    var s1 := Step(s, e).value;
    StepKeepsInv(s, e);
    MadeAndFound(s, e, x, Peer(role));
    FoundUntilLost(s1, after, x, Peer(role));
    RunKeepsInv(s1, after);
  }
}
