/**
 The controller's stored nodes and routes, and the operations of its configuration service. Transactions
 are atomic; tables list their rows by descending id, as every query does.
 */
module ConfigService {
  import opened Wrappers
  import opened JavaInt
  import opened IpText
  import Cidr
  import Controller = ControlService

  datatype NodeType = Simple | Mesh

  datatype Node = Node(id: nat, nodeType: NodeType, vip: string, mac: string, remark: string)

  // A destination text: a block, one whose first part is no address, one without a slash behind its address,
  // or one whose slash no number follows.
  datatype Destination =
    | Block(address: string, maskBits: int)
    | NoAddress(text: string)
    | NoSlash(text: string)
    | NoNumber(text: string)

  datatype Route = Route(id: nat, destination: Destination, meshId: nat, remark: string)

  // An entry of the route list that nodes receive.
  datatype Hop = Hop(destination: Destination, nexthop: string)

  datatype Error =
    | NotFoundNode | NodeIsNotMesh | CidrError | NotFoundRoute | MeshUsed | VipNotInCidr | Ipv4Format
    | CidrParse | IndexOutOfBounds | NumberFormat | DuplicateKey

  datatype Tables = Tables(nodes: seq<Node>, routes: seq<Route>, nextNode: nat, nextRoute: nat)

  // What an operation leaves, and the exception that ended it, if any.
  datatype Outcome = Outcome(tables: Tables, error: Option<Error>)

  // Cidr.check
  function Check(d: Destination): Option<Error> {
    match d
    case Block(_, maskBits) => if 1 <= maskBits <= 32 then None else Some(CidrParse)
    case NoAddress(_) => Some(CidrParse)
    case NoSlash(_) => Some(IndexOutOfBounds)
    case NoNumber(_) => Some(NumberFormat)
  }

  function FindNode(nodes: seq<Node>, id: nat): (n: Option<Node>)
    ensures n.Some? ==> n.value in nodes && n.value.id == id
    ensures n.None? <==> forall m | m in nodes :: m.id != id
  {
    if nodes == [] then None
    else if nodes[0].id == id then Some(nodes[0])
    else
      assert nodes == [nodes[0]] + nodes[1..];
      FindNode(nodes[1..], id)
  }

  function FindRoute(routes: seq<Route>, id: nat): (r: Option<Route>)
    ensures r.Some? ==> r.value in routes && r.value.id == id
    ensures r.None? <==> forall q | q in routes :: q.id != id
  {
    if routes == [] then None
    else if routes[0].id == id then Some(routes[0])
    else
      assert routes == [routes[0]] + routes[1..];
      FindRoute(routes[1..], id)
  }

  function Where<T(!new)>(xs: seq<T>, p: T -> bool): (ys: seq<T>)
    ensures forall x :: x in ys <==> x in xs && p(x)
  {
    if xs == [] then []
    else
      assert xs == [xs[0]] + xs[1..];
      (if p(xs[0]) then [xs[0]] else []) + Where(xs[1..], p)
  }

  function PutNode(nodes: seq<Node>, node: Node): (after: seq<Node>)
    ensures |after| == |nodes|
    ensures forall i | 0 <= i < |nodes| :: after[i] == if nodes[i].id == node.id then node else nodes[i]
  {
    seq(|nodes|, i requires 0 <= i < |nodes| => if nodes[i].id == node.id then node else nodes[i])
  }

  function PutRoute(routes: seq<Route>, route: Route): (after: seq<Route>)
    ensures |after| == |routes|
    ensures forall i | 0 <= i < |routes| :: after[i] == if routes[i].id == route.id then route else routes[i]
  {
    seq(|routes|, i requires 0 <= i < |routes| => if routes[i].id == route.id then route else routes[i])
  }

  // The unique indexes on address and hardware address.
  predicate Duplicate(nodes: seq<Node>, node: Node) {
    exists n | n in nodes :: n.id != node.id && (n.vip == node.vip || n.mac == node.mac)
  }

  predicate IsMesh(nodes: seq<Node>, id: nat) {
    exists n | n in nodes :: n.id == id && n.nodeType.Mesh?
  }

  datatype Op =
    | SaveRoute(meshId: nat, destination: Destination, remark: string)
    | UpdateRoute(id: nat, newMesh: Option<nat>, newDestination: Option<Destination>, newRemark: Option<string>)
    | DeleteRoute(id: nat)
    | UpdateNode(id: nat, vip: string, refusal: Option<Error>, remark: string)
    | DeleteNode(id: nat)
    | Regist(nodeType: NodeType, vip: string, mac: string)

  function Insert(t: Tables, meshId: nat, destination: Destination, remark: string): Tables {
    t.(routes := [Route(t.nextRoute, destination, meshId, remark)] + t.routes, nextRoute := t.nextRoute + 1)
  }

  function Changed(r: Route, op: Op): Route
    requires op.UpdateRoute?
  {
    Route(r.id,
          if op.newDestination.Some? then op.newDestination.value else r.destination,
          if op.newMesh.Some? then op.newMesh.value else r.meshId,
          if op.newRemark.Some? then op.newRemark.value else r.remark)
  }

  function Apply(t: Tables, op: Op): Outcome {
    match op
    case SaveRoute(meshId, destination, remark) =>
      var node := FindNode(t.nodes, meshId);
      if node.None? then Outcome(t, Some(NotFoundNode))
      else if !node.value.nodeType.Mesh? then Outcome(t, Some(NodeIsNotMesh))
      else if Check(destination) == Some(CidrParse) then Outcome(t, Some(CidrError))
      else if Check(destination).Some? then Outcome(t, Check(destination))
      else Outcome(Insert(t, meshId, destination, remark), None)
    case UpdateRoute(id, _, newDestination, _) =>
      var route := FindRoute(t.routes, id);
      if route.None? then Outcome(t, Some(NotFoundRoute))
      else if newDestination.Some? && Check(newDestination.value).Some? then Outcome(t, Check(newDestination.value))
      else Outcome(t.(routes := PutRoute(t.routes, Changed(route.value, op))), None)
    case DeleteRoute(id) =>
      Outcome(t.(routes := WithoutRoute(t.routes, id)), None)
    case UpdateNode(id, vip, refusal, remark) =>
      var node := FindNode(t.nodes, id);
      if node.None? then Outcome(t, None)
      else if refusal.Some? then Outcome(t, refusal)
      else
        var n := node.value.(vip := vip, remark := remark);
        if Duplicate(t.nodes, n) then Outcome(t, Some(DuplicateKey))
        else Outcome(t.(nodes := PutNode(t.nodes, n)), None)
    case DeleteNode(id) =>
      if FindNode(t.nodes, id).None? then Outcome(t, None)
      else if CountByMesh(t.routes, id) > 0 then Outcome(t, Some(MeshUsed))
      else Outcome(t.(nodes := WithoutNode(t.nodes, id)), None)
    case Regist(nodeType, vip, mac) =>
      var n := Node(t.nextNode, nodeType, vip, mac, "");
      if Duplicate(t.nodes, n) then Outcome(t, Some(DuplicateKey))
      else Outcome(t.(nodes := [n] + t.nodes, nextNode := t.nextNode + 1), None)
  }

  function WithoutRoute(routes: seq<Route>, id: nat): (after: seq<Route>)
    ensures forall r :: r in after <==> r in routes && r.id != id
  {
    Where(routes, (r: Route) => r.id != id)
  }

  function WithoutNode(nodes: seq<Node>, id: nat): (after: seq<Node>)
    ensures forall n :: n in after <==> n in nodes && n.id != id
  {
    Where(nodes, (n: Node) => n.id != id)
  }

  function CountByMesh(routes: seq<Route>, id: nat): (count: nat)
    ensures count == 0 <==> forall r | r in routes :: r.meshId != id
  {
    if routes == [] then 0
    else
      assert routes == [routes[0]] + routes[1..];
      (if routes[0].meshId == id then 1 else 0) + CountByMesh(routes[1..], id)
  }

  // Ids are given out once; addresses and hardware addresses are unique.
  ghost predicate WellKept(t: Tables) {
    NodesKept(t.nodes, t.nextNode) && RoutesKept(t.routes, t.nextRoute)
  }

  ghost predicate NodesKept(nodes: seq<Node>, next: nat) {
    && (forall m, n | m in nodes && n in nodes :: m.id == n.id || m.vip == n.vip || m.mac == n.mac ==> m == n)
    && (forall n | n in nodes :: n.id < next)
  }

  ghost predicate RoutesKept(routes: seq<Route>, next: nat) {
    && (forall q, r | q in routes && r in routes :: q.id == r.id ==> q == r)
    && (forall r | r in routes :: r.id < next)
  }

  // Every route goes to an existing mesh node.
  ghost predicate MeshRefs(t: Tables) {
    forall r | r in t.routes :: IsMesh(t.nodes, r.meshId)
  }

  // An update that gives an existing route the id of something that is not a mesh node.
  predicate Wild(t: Tables, op: Op) {
    && op.UpdateRoute?
    && FindRoute(t.routes, op.id).Some?
    && (op.newDestination.Some? ==> Check(op.newDestination.value).None?)
    && op.newMesh.Some? && !IsMesh(t.nodes, op.newMesh.value)
  }

  lemma InsertedNode(nodes: seq<Node>, next: nat, n: Node)
    requires NodesKept(nodes, next) && n.id == next && !Duplicate(nodes, n)
    ensures NodesKept([n] + nodes, next + 1)
  {
    assert forall m | m in nodes :: m.id != n.id && m.vip != n.vip && m.mac != n.mac;
  }

  lemma RewrittenNode(nodes: seq<Node>, next: nat, n: Node)
    requires NodesKept(nodes, next) && n.id < next && !Duplicate(nodes, n)
    ensures NodesKept(PutNode(nodes, n), next)
  {
    var after := PutNode(nodes, n);
    forall m | m in after ensures m == n || (m in nodes && m.id != n.id) {
      var i :| 0 <= i < |after| && after[i] == m;
      assert nodes[i] in nodes;
    }
  }

  lemma RewrittenRoute(routes: seq<Route>, next: nat, r: Route)
    requires RoutesKept(routes, next) && r.id < next
    ensures RoutesKept(PutRoute(routes, r), next)
  {
    var after := PutRoute(routes, r);
    forall q | q in after ensures q == r || (q in routes && q.id != r.id) {
      var i :| 0 <= i < |after| && after[i] == q;
      assert routes[i] in routes;
    }
  }

  lemma ApplyKeepsTables(t: Tables, op: Op)
    requires WellKept(t)
    ensures WellKept(Apply(t, op).tables)
  {
    match op
    case SaveRoute(meshId, destination, remark) =>
    case UpdateRoute(id, _, _, _) =>
      var route := FindRoute(t.routes, id);
      if route.Some? {
        RewrittenRoute(t.routes, t.nextRoute, Changed(route.value, op));
      }
    case DeleteRoute(id) =>
    case UpdateNode(id, vip, refusal, remark) =>
      var node := FindNode(t.nodes, id);
      if node.Some? && refusal.None? && !Duplicate(t.nodes, node.value.(vip := vip, remark := remark)) {
        RewrittenNode(t.nodes, t.nextNode, node.value.(vip := vip, remark := remark));
      }
    case DeleteNode(id) =>
    case Regist(nodeType, vip, mac) =>
      var n := Node(t.nextNode, nodeType, vip, mac, "");
      if !Duplicate(t.nodes, n) {
        InsertedNode(t.nodes, t.nextNode, n);
      }
  }

  // A node rewritten with its own type, or one added, is a mesh node as before.
  lemma RewrittenMesh(nodes: seq<Node>, next: nat, was: Node, n: Node, id: nat)
    requires NodesKept(nodes, next) && was in nodes && n.id == was.id && n.nodeType == was.nodeType
    ensures IsMesh(PutNode(nodes, n), id) <==> IsMesh(nodes, id)
  {
    var after := PutNode(nodes, n);
    if IsMesh(nodes, id) {
      var i :| 0 <= i < |nodes| && nodes[i].id == id && nodes[i].nodeType.Mesh?;
      assert after[i] in after && (nodes[i].id == n.id ==> nodes[i] == was);
    }
    if IsMesh(after, id) {
      var i :| 0 <= i < |after| && after[i].id == id && after[i].nodeType.Mesh?;
      assert nodes[i] in nodes;
    }
  }

  lemma MoreMesh(nodes: seq<Node>, n: Node, id: nat)
    requires IsMesh(nodes, id)
    ensures IsMesh([n] + nodes, id)
  {
    var m :| m in nodes && m.id == id && m.nodeType.Mesh?;
    assert m in [n] + nodes;
  }

  lemma UnusedGone(nodes: seq<Node>, id: nat, used: nat)
    requires IsMesh(nodes, used) && used != id
    ensures IsMesh(WithoutNode(nodes, id), used)
  {
    var m :| m in nodes && m.id == used && m.nodeType.Mesh?;
    assert m in WithoutNode(nodes, id);
  }

  lemma RewrittenRefs(t: Tables, r: Route, q: Route)
    requires MeshRefs(t) && r in t.routes && q.id == r.id
    ensures MeshRefs(t.(routes := PutRoute(t.routes, q))) <==> IsMesh(t.nodes, q.meshId)
  {
    var after := PutRoute(t.routes, q);
    var i :| 0 <= i < |t.routes| && t.routes[i] == r;
    assert after[i] in after;
    forall p | p in after ensures p == q || p in t.routes {
      var j :| 0 <= j < |after| && after[j] == p;
      assert t.routes[j] in t.routes;
    }
  }

  // Every operation keeps the references on mesh nodes, except a wild update, which breaks them.
  lemma ApplyKeepsMeshRefs(t: Tables, op: Op)
    requires WellKept(t) && MeshRefs(t)
    ensures MeshRefs(Apply(t, op).tables) <==> !Wild(t, op)
  {
    hide IsMesh, PutNode, PutRoute, NodesKept;
    var u := Apply(t, op).tables;
    match op
    case SaveRoute(meshId, destination, remark) =>
      FoundMesh(t.nodes, meshId);
    case UpdateRoute(id, _, _, _) =>
      var route := FindRoute(t.routes, id);
      if route.Some? {
        RewrittenRefs(t, route.value, Changed(route.value, op));
      }
    case DeleteRoute(id) =>
    case UpdateNode(id, vip, refusal, remark) =>
      var node := FindNode(t.nodes, id);
      if node.Some? {
        forall r | r in t.routes ensures
            IsMesh(PutNode(t.nodes, node.value.(vip := vip, remark := remark)), r.meshId) == IsMesh(t.nodes, r.meshId)
        {
          RewrittenMesh(t.nodes, t.nextNode, node.value, node.value.(vip := vip, remark := remark), r.meshId);
        }
      }
    case DeleteNode(id) =>
      forall r | r in t.routes && r.meshId != id ensures IsMesh(WithoutNode(t.nodes, id), r.meshId) {
        UnusedGone(t.nodes, id, r.meshId);
      }
    case Regist(nodeType, vip, mac) =>
      forall r | r in t.routes ensures IsMesh([Node(t.nextNode, nodeType, vip, mac, "")] + t.nodes, r.meshId) {
        MoreMesh(t.nodes, Node(t.nextNode, nodeType, vip, mac, ""), r.meshId);
      }
  }

  lemma FoundMesh(nodes: seq<Node>, id: nat)
    ensures var n := FindNode(nodes, id); n.Some? && n.value.nodeType.Mesh? ==> IsMesh(nodes, id)
  {
  }

  // The next hops of routes, looked up among some nodes: none if a lookup fails.
  function Hops(nodes: seq<Node>, routes: seq<Route>): (hops: Option<seq<Hop>>)
    ensures hops.Some? <==> forall r | r in routes :: FindNode(nodes, r.meshId).Some?
    ensures hops.Some? ==>
              && |hops.value| == |routes|
              && forall i | 0 <= i < |routes| ::
                   && hops.value[i].destination == routes[i].destination
                   && var n := FindNode(nodes, routes[i].meshId); n.Some? && n.value.vip == hops.value[i].nexthop
  {
    if routes == [] then Some([])
    else
      assert routes == [routes[0]] + routes[1..];
      var node := FindNode(nodes, routes[0].meshId);
      var rest := Hops(nodes, routes[1..]);
      if node.None? || rest.None? then None else Some([Hop(routes[0].destination, node.value.vip)] + rest.value)
  }

  function MeshIds(routes: seq<Route>): (ids: set<nat>) {
    set r | r in routes :: r.meshId
  }

  // queryByIdList
  function NodesOf(nodes: seq<Node>, ids: set<nat>): (ns: seq<Node>)
    ensures forall n :: n in ns <==> n in nodes && n.id in ids
  {
    Where(nodes, (n: Node) => n.id in ids)
  }

  // getMeshNodeList
  function MeshNodes(nodes: seq<Node>): (ns: seq<Node>)
    ensures forall n :: n in ns <==> n in nodes && n.nodeType.Mesh?
  {
    Where(nodes, (n: Node) => n.nodeType.Mesh?)
  }

  // What getRouteList builds and pushRouteRuleList sends to every channel.
  function Pushed(t: Tables): Option<seq<Hop>> {
    Hops(NodesOf(t.nodes, MeshIds(t.routes)), t.routes)
  }

  // What processRouteList answers.
  function Answered(t: Tables): Option<seq<Hop>> {
    Hops(MeshNodes(t.nodes), t.routes)
  }

  // Lookups agree wherever both find something.
  lemma FindInPart(nodes: seq<Node>, part: seq<Node>, id: nat, next: nat)
    requires NodesKept(nodes, next) && (forall n | n in part :: n in nodes) && FindNode(part, id).Some?
    ensures FindNode(nodes, id) == FindNode(part, id)
  {
  }

  // A push fails exactly when some route's node is gone.
  lemma PushedExactly(t: Tables)
    requires WellKept(t)
    ensures Pushed(t).Some? <==> forall r | r in t.routes :: FindNode(t.nodes, r.meshId).Some?
    ensures Pushed(t).Some? ==> Pushed(t) == Hops(t.nodes, t.routes)
  {
    var part := NodesOf(t.nodes, MeshIds(t.routes));
    forall r | r in t.routes ensures FindNode(part, r.meshId) == FindNode(t.nodes, r.meshId) {
      var n := FindNode(t.nodes, r.meshId);
      if n.Some? {
        assert n.value in part;
        FindInPart(t.nodes, part, r.meshId, t.nextNode);
      }
    }
    SameHops(part, t.nodes, t.routes);
  }

  lemma {:induction false} SameHops(part: seq<Node>, nodes: seq<Node>, routes: seq<Route>)
    requires forall r | r in routes :: FindNode(part, r.meshId) == FindNode(nodes, r.meshId)
    ensures Hops(part, routes) == Hops(nodes, routes)
  {
    if routes != [] {
      assert routes[0] in routes;
      SameHops(part, nodes, routes[1..]);
    }
  }

  // A request is answered exactly when every route goes to a mesh node, and then with the pushed list.
  lemma AnsweredExactly(t: Tables)
    requires WellKept(t)
    ensures Answered(t).Some? <==> MeshRefs(t)
    ensures MeshRefs(t) ==> Pushed(t) == Answered(t)
  {
    var mesh := MeshNodes(t.nodes);
    forall r | r in t.routes ensures FindNode(mesh, r.meshId).Some? <==> IsMesh(t.nodes, r.meshId) {
      if IsMesh(t.nodes, r.meshId) {
        var n :| n in t.nodes && n.id == r.meshId && n.nodeType.Mesh?;
        assert n in mesh;
      }
    }
    if MeshRefs(t) {
      forall r | r in t.routes ensures FindNode(mesh, r.meshId) == FindNode(t.nodes, r.meshId) {
        FindInPart(t.nodes, mesh, r.meshId, t.nextNode);
      }
      SameHops(mesh, t.nodes, t.routes);
      PushedExactly(t);
    }
  }

  function Run(t: Tables, ops: seq<Op>): Tables
    decreases |ops|
  {
    if ops == [] then t else Run(Apply(t, ops[0]).tables, ops[1..])
  }

  // No operation of a run is a wild update.
  predicate Tame(t: Tables, ops: seq<Op>)
    decreases |ops|
  {
    ops == [] || (!Wild(t, ops[0]) && Tame(Apply(t, ops[0]).tables, ops[1..]))
  }

  const EMPTY := Tables([], [], 0, 0)

  lemma {:induction false} RunKeeps(t: Tables, ops: seq<Op>)
    requires WellKept(t) && MeshRefs(t) && Tame(t, ops)
    ensures WellKept(Run(t, ops)) && MeshRefs(Run(t, ops))
    decreases |ops|
  {
    if ops != [] {
      ApplyKeepsTables(t, ops[0]);
      ApplyKeepsMeshRefs(t, ops[0]);
      RunKeeps(Apply(t, ops[0]).tables, ops[1..]);
    }
  }

  // After every run without a wild update, the list pushed and the list answered are one sequence.
  lemma OneRouteList(ops: seq<Op>)
    requires Tame(EMPTY, ops)
    ensures var t := Run(EMPTY, ops);
            Answered(t).Some? && Pushed(t) == Answered(t) && |Pushed(t).value| == |t.routes|
  {
    RunKeeps(EMPTY, ops);
    AnsweredExactly(Run(EMPTY, ops));
  }

  // A wild update is possible, and then nodes get no list: neither pushed nor answered.
  lemma WildUpdate()
    ensures var ops := [Regist(Mesh, "10.1.0.2", "02:00:00:00:00:01"), SaveRoute(0, Block("10.2.0.0", 16), ""),
                        UpdateRoute(0, Some(7), None, None)];
            var t := Run(EMPTY, ops);
            !Tame(EMPTY, ops) && Pushed(t).None? && Answered(t).None?
  {
    var n := Node(0, Mesh, "10.1.0.2", "02:00:00:00:00:01", "");
    var r := Route(0, Block("10.2.0.0", 16), 0, "");
    var ops := [Regist(Mesh, "10.1.0.2", "02:00:00:00:00:01"), SaveRoute(0, Block("10.2.0.0", 16), ""),
                UpdateRoute(0, Some(7), None, None)];
    var t1 := Tables([n], [], 1, 0);
    var t2 := Tables([n], [r], 1, 1);
    var t3 := Tables([n], [r.(meshId := 7)], 1, 1);
    assert Apply(EMPTY, ops[0]).tables == t1;
    assert Apply(t1, ops[1]).tables == t2;
    assert Wild(t2, ops[2]);
    assert Apply(t2, ops[2]).tables == t3;
    assert ops[1..] == [ops[1], ops[2]] && ops[1..][1..] == [ops[2]] && ops[1..][1..][1..] == [];
    assert Run(t2, [ops[2]]) == t3;
    assert Run(t1, ops[1..]) == t3;
    assert !Tame(t2, [ops[2]]);
    assert !Tame(t1, ops[1..]);
    assert r.(meshId := 7) in t3.routes;
  }

  // With the id of a node that is no mesh node, the list is pushed but no request is answered.
  lemma SimpleUpdate()
    ensures var ops := [Regist(Mesh, "10.1.0.2", "02:00:00:00:00:01"), Regist(Simple, "10.1.0.3", "02:00:00:00:00:02"),
                        SaveRoute(0, Block("10.2.0.0", 16), ""), UpdateRoute(0, Some(1), None, None)];
            var t := Run(EMPTY, ops);
            Pushed(t) == Some([Hop(Block("10.2.0.0", 16), "10.1.0.3")]) && Answered(t).None?
  {
    var n := Node(0, Mesh, "10.1.0.2", "02:00:00:00:00:01", "");
    var k := Node(1, Simple, "10.1.0.3", "02:00:00:00:00:02", "");
    var r := Route(0, Block("10.2.0.0", 16), 0, "");
    var ops := [Regist(Mesh, n.vip, n.mac), Regist(Simple, k.vip, k.mac),
                SaveRoute(0, Block("10.2.0.0", 16), ""), UpdateRoute(0, Some(1), None, None)];
    var t1 := Tables([n], [], 1, 0);
    var t2 := Tables([k, n], [], 2, 0);
    var t3 := Tables([k, n], [r], 2, 1);
    var t4 := Tables([k, n], [r.(meshId := 1)], 2, 1);
    assert n.vip[7] != k.vip[7] && n.mac[16] != k.mac[16];
    assert Apply(EMPTY, ops[0]).tables == t1;
    assert Apply(t1, ops[1]).tables == t2;
    TwoNodes(n, k);
    assert Apply(t2, ops[2]).tables == t3;
    assert Apply(t3, ops[3]).tables == t4;
    RunFour(ops, t1, t2, t3, t4);
    OneHop(t4, k, n, r.(meshId := 1));
  }

  lemma TwoNodes(n: Node, k: Node)
    requires n.id == 0 && k.id == 1
    ensures FindNode([k, n], 0) == Some(n) && FindNode([k, n], 1) == Some(k)
  {
    assert [k, n][1..] == [n];
  }

  lemma RunFour(ops: seq<Op>, t1: Tables, t2: Tables, t3: Tables, t4: Tables)
    requires |ops| == 4 && Apply(EMPTY, ops[0]).tables == t1 && Apply(t1, ops[1]).tables == t2
    requires Apply(t2, ops[2]).tables == t3 && Apply(t3, ops[3]).tables == t4
    ensures Run(EMPTY, ops) == t4
  {
    hide Apply;
    assert ops[1..][0] == ops[1] && ops[1..][1..] == ops[2..] && ops[2..][0] == ops[2];
    assert ops[2..][1..] == ops[3..] && ops[3..][0] == ops[3] && ops[3..][1..] == [];
    assert Run(t4, []) == t4;
    assert Run(t3, ops[3..]) == t4;
    assert Run(t2, ops[2..]) == t4;
    assert Run(t1, ops[1..]) == t4;
  }

  lemma OneHop(t: Tables, k: Node, n: Node, r: Route)
    requires t.nodes == [k, n] && t.routes == [r] && r.meshId == k.id == 1 && k.nodeType == Simple && n.id == 0
    requires WellKept(t)
    ensures Pushed(t) == Some([Hop(r.destination, k.vip)]) && Answered(t).None?
  {
    hide WellKept, Pushed, Answered;
    TwoNodes(n, k);
    PushedExactly(t);
    AnsweredExactly(t);
    assert !IsMesh(t.nodes, 1);
    forall q | q in t.routes ensures FindNode(t.nodes, q.meshId).Some? {
      assert q == r;
    }
    assert r in t.routes && [r][1..] == [];
    assert Hops(t.nodes, []) == Some([]);
    assert [Hop(r.destination, k.vip)] + [] == [Hop(r.destination, k.vip)];
    assert Hops(t.nodes, [r]) == Some([Hop(r.destination, k.vip)]);
  }

  // What a caller of the service sees: an exception, a push to all channels, or neither.
  datatype Reply = Failed(error: Error) | PushFailed | PushedList(hops: seq<Hop>) | Quiet

  // The push after a committed transaction.
  function Announce(o: Outcome): Reply {
    if o.error.Some? then Failed(o.error.value)
    else if Pushed(o.tables).None? then PushFailed
    else PushedList(Pushed(o.tables).value)
  }

  function Plain(o: Outcome): Reply {
    if o.error.Some? then Failed(o.error.value) else Quiet
  }

  // The list that each channel was sent last: a push goes to every indexed channel.
  function Delivered(sent: map<nat, seq<Hop>>, online: set<nat>, r: Reply): map<nat, seq<Hop>> {
    if r.PushedList? then sent + (map c | c in online :: r.hops) else sent
  }

  // The index after deleteChannel.
  function Deleted(channelMap: map<string, nat>, vip: string): map<string, nat> {
    if vip in channelMap then Controller.Without(channelMap, {channelMap[vip]}) else channelMap
  }

  class ConfigService {
    const poolAddress: string
    const poolMask: int
    var nodes: seq<Node>
    var routes: seq<Route>
    var nextNode: nat
    var nextRoute: nat
    // The index of channels, and what each was sent last.
    var channelMap: map<string, nat>
    var sent: map<nat, seq<Hop>>

    function Now(): Tables
      reads this
    {
      Tables(nodes, routes, nextNode, nextRoute)
    }

    ghost predicate Valid()
      reads this
    {
      WellKept(Now()) && IsDottedQuad(poolAddress) && Cidr.ValidMask(poolMask)
    }

    // Why updateNode refuses an address text, in the order of its tests, given what ip2int makes of the text
    // and whether it is an IPv4 literal.
    ghost function Refusal(parsed: Option<int32>, literal: bool): Option<Error>
      requires IsDottedQuad(poolAddress) && Cidr.ValidMask(poolMask)
    {
      if !Cidr.Passes(poolAddress, poolMask) then Some(CidrParse)
      else if parsed.None? then Some(NumberFormat)
      else if !Cidr.InBlock(IpValue(poolAddress), parsed.value, poolMask) then Some(VipNotInCidr)
      else if !literal then Some(Ipv4Format)
      else None
    }

    constructor (poolAddress: string, poolMask: int)
      requires IsDottedQuad(poolAddress) && Cidr.ValidMask(poolMask)
      ensures Valid() && Now() == EMPTY && channelMap == map[] && sent == map[]
    {
      this.poolAddress, this.poolMask := poolAddress, poolMask;
      nodes, routes, nextNode, nextRoute := [], [], 0, 0;
      channelMap, sent := map[], map[];
    }

    // A registration stores its node.
    method SaveNode(nodeType: NodeType, vip: string, mac: string) returns (r: Reply)
      requires Valid()
      modifies `nodes, `nextNode
      ensures var o := Apply(old(Now()), Op.Regist(nodeType, vip, mac));
              Valid() && Now() == o.tables && r == Plain(o)
    {
      ApplyKeepsTables(Now(), Op.Regist(nodeType, vip, mac));
      var node := Node(nextNode, nodeType, vip, mac, "");
      if Duplicate(nodes, node) {
        return Failed(DuplicateKey);
      }
      nodes := [node] + nodes;
      nextNode := nextNode + 1;
      r := Quiet;
    }

    method SaveRoute(meshId: nat, destination: Destination, remark: string) returns (r: Reply)
      requires Valid()
      modifies `routes, `nextRoute, `sent
      ensures var o := Apply(old(Now()), Op.SaveRoute(meshId, destination, remark));
              && Valid() && Now() == o.tables && r == Announce(o)
              && sent == Delivered(old(sent), Controller.Channels(channelMap), r)
    {
      hide NodesKept, RoutesKept, Pushed, IsDottedQuad;
      ApplyKeepsTables(Now(), Op.SaveRoute(meshId, destination, remark));
      var node := FindNode(nodes, meshId);
      if node.None? {
        return Failed(NotFoundNode);
      }
      if node.value.nodeType != Mesh {
        return Failed(NodeIsNotMesh);
      }
      var error := Check(destination);
      if error.Some? {
        return Failed(if error.value == CidrParse then CidrError else error.value);
      }
      routes := [Route(nextRoute, destination, node.value.id, remark)] + routes;
      nextRoute := nextRoute + 1;
      r := PushRouteRuleList();
    }

    method DeleteRoute(id: nat) returns (r: Reply)
      requires Valid()
      modifies `routes, `sent
      ensures var o := Apply(old(Now()), Op.DeleteRoute(id));
              && Valid() && Now() == o.tables && r == Announce(o)
              && sent == Delivered(old(sent), Controller.Channels(channelMap), r)
    {
      hide NodesKept, RoutesKept, Pushed, IsDottedQuad;
      ApplyKeepsTables(Now(), Op.DeleteRoute(id));
      routes := WithoutRoute(routes, id);
      r := PushRouteRuleList();
    }

    method UpdateRoute(id: nat, newMesh: Option<nat>, newDestination: Option<Destination>, newRemark: Option<string>)
      returns (r: Reply)
      requires Valid()
      modifies `routes, `sent
      ensures var o := Apply(old(Now()), Op.UpdateRoute(id, newMesh, newDestination, newRemark));
              && Valid() && Now() == o.tables && r == Announce(o)
              && sent == Delivered(old(sent), Controller.Channels(channelMap), r)
    {
      hide NodesKept, RoutesKept, Pushed, IsDottedQuad;
      ApplyKeepsTables(Now(), Op.UpdateRoute(id, newMesh, newDestination, newRemark));
      var found := FindRoute(routes, id);
      if found.None? {
        return Failed(NotFoundRoute);
      }
      var route := found.value;
      if newMesh.Some? {
        route := route.(meshId := newMesh.value);
      }
      if newDestination.Some? {
        var error := Check(newDestination.value);
        if error.Some? {
          return Failed(error.value);
        }
        route := route.(destination := newDestination.value);
      }
      if newRemark.Some? {
        route := route.(remark := newRemark.value);
      }
      routes := PutRoute(routes, route);
      r := PushRouteRuleList();
    }

    method PushRouteRuleList() returns (r: Reply)
      modifies `sent
      ensures r == Announce(Outcome(Now(), None)) && sent == Delivered(old(sent), Controller.Channels(channelMap), r)
    {
      var list := GetRouteList();
      if list.None? {
        return PushFailed;
      }
      var online := Controller.Channels(channelMap);
      var left := online;
      while left != {}
        invariant left <= online
        invariant sent == old(sent) + (map c | c in online && c !in left :: list.value)
        decreases left
      {
        var channel :| channel in left;
        left := left - {channel};
        sent := sent[channel := list.value];
      }
      r := PushedList(list.value);
    }

    // None is the exception of a route whose node is gone.
    method GetRouteList() returns (list: Option<seq<Hop>>)
      ensures list == Pushed(Now())
    {
      hide Hops, FindNode, MeshIds, NodesOf;
      var nodeIdList := MeshIds(routes);
      SomeRoute(routes);
      NoHops(NodesOf(nodes, nodeIdList));
      if nodeIdList == {} {
        return Some([]);
      }
      var nodeMap := NodesOf(nodes, nodeIdList);
      var hops := [];
      assert routes[..0] == [];
      for i := 0 to |routes|
        invariant Hops(nodeMap, routes[..i]) == Some(hops)
      {
        var node := FindNode(nodeMap, routes[i].meshId);
        if node.None? {
          NoHop(nodeMap, routes, i);
          return None;
        }
        HopsAppend(nodeMap, routes[..i], routes[i]);
        assert routes[..i + 1] == routes[..i] + [routes[i]];
        hops := hops + [Hop(routes[i].destination, node.value.vip)];
      }
      assert routes[..|routes|] == routes;
      list := Some(hops);
    }

    // SDWanNodeManager.addChannel and deleteChannel, whose close takes out every entry of the channel.
    method AddChannel(vip: string, c: nat)
      modifies `channelMap
      ensures channelMap == old(channelMap)[vip := c]
    {
      channelMap := channelMap[vip := c];
    }

    method DeleteChannel(vip: string)
      modifies `channelMap
      ensures channelMap == Deleted(old(channelMap), vip)
    {
      if vip in channelMap {
        channelMap := Controller.Without(channelMap, {channelMap[vip]});
      }
    }

    // What ip2int makes of the text, and whether the library takes it for an IPv4 literal, are given.
    method UpdateNode(id: nat, vip: string, parsed: Option<int32>, literal: bool, remark: string) returns (r: Reply)
      requires Valid()
      requires IsDottedQuad(vip) ==> parsed == Some(IpValue(vip)) && literal == (|vip| <= 15)
      modifies `nodes, `channelMap
      ensures var o := Apply(old(Now()), Op.UpdateNode(id, vip, Refusal(parsed, literal), remark));
              var node := FindNode(old(nodes), id);
              && Valid() && Now() == o.tables && r == Plain(o)
              && channelMap == if node.Some? && r.Quiet? && node.value.vip != vip
                               then Deleted(old(channelMap), node.value.vip) else old(channelMap)
      ensures r.Failed? ==> nodes == old(nodes)
      ensures r.Quiet? ==>
                && |nodes| == |old(nodes)|
                && forall i | 0 <= i < |nodes| ::
                     var m := old(nodes)[i];
                     nodes[i] == if m.id == id then m.(vip := vip, remark := remark) else m
    {
      hide NodesKept, RoutesKept, IsDottedQuad, IpValue, Cidr.InBlock, Duplicate, Deleted;
      FoundAlone(nodes, nextNode, id);
      ApplyKeepsTables(Now(), Op.UpdateNode(id, vip, Refusal(parsed, literal), remark));
      var node := FindNode(nodes, id);
      if node.None? {
        return Quiet;
      }
      r := CheckVip(parsed, literal);
      if r.Failed? {
        return;
      }
      var curVip := node.value.vip;
      var changed := node.value.(vip := vip, remark := remark);
      if Duplicate(nodes, changed) {
        return Failed(DuplicateKey);
      }
      nodes := PutNode(nodes, changed);
      if curVip != vip {
        DeleteChannel(curVip);
      }
    }

    // Cidr.contains, then setVip.
    method CheckVip(parsed: Option<int32>, literal: bool) returns (r: Reply)
      requires Valid()
      ensures r == if Refusal(parsed, literal).Some? then Failed(Refusal(parsed, literal).value) else Quiet
      ensures r == Failed(CidrParse) <==> !Cidr.Passes(poolAddress, poolMask)
      ensures r == Failed(NumberFormat) <==> Cidr.Passes(poolAddress, poolMask) && parsed.None?
      ensures r == Quiet || r == Failed(Ipv4Format) <==>
              && Cidr.Passes(poolAddress, poolMask) && parsed.Some?
              && Cidr.InBlock(IpValue(poolAddress), parsed.value, poolMask)
      ensures r == Quiet ==> literal
    {
      hide NodesKept, RoutesKept, IsDottedQuad, IpValue, Cidr.InBlock;
      var value: int32 := if parsed.Some? then parsed.value else 0;
      var answer := Cidr.ContainsValue(poolAddress, poolMask, value);
      if answer.CheckError? {
        return Failed(CidrParse);
      }
      if parsed.None? {
        return Failed(NumberFormat);
      }
      if !answer.contains {
        return Failed(VipNotInCidr);
      }
      r := if literal then Quiet else Failed(Ipv4Format);
    }

    method DeleteNode(id: nat) returns (r: Reply)
      requires Valid()
      modifies `nodes, `channelMap
      ensures var o := Apply(old(Now()), Op.DeleteNode(id));
              var node := FindNode(old(nodes), id);
              && Valid() && Now() == o.tables && r == Plain(o)
              && channelMap == if node.Some? && r.Quiet?
                               then Deleted(old(channelMap), node.value.vip) else old(channelMap)
    {
      ApplyKeepsTables(Now(), Op.DeleteNode(id));
      var node := FindNode(nodes, id);
      if node.None? {
        return Quiet;
      }
      if CountByMesh(routes, id) > 0 {
        return Failed(MeshUsed);
      }
      nodes := WithoutNode(nodes, id);
      DeleteChannel(node.value.vip);
      r := Quiet;
    }
  }

  lemma FoundAlone(nodes: seq<Node>, next: nat, id: nat)
    requires NodesKept(nodes, next)
    ensures forall i | 0 <= i < |nodes| && nodes[i].id == id :: FindNode(nodes, id) == Some(nodes[i])
  {
    assert forall i | 0 <= i < |nodes| :: nodes[i] in nodes;
  }

  lemma NoHops(nodes: seq<Node>)
    ensures Hops(nodes, []) == Some([])
  {
  }

  lemma NoHop(nodes: seq<Node>, routes: seq<Route>, i: nat)
    requires i < |routes| && FindNode(nodes, routes[i].meshId).None?
    ensures Hops(nodes, routes).None?
  {
    assert routes[i] in routes;
  }

  lemma SomeRoute(routes: seq<Route>)
    ensures routes != [] ==> MeshIds(routes) != {}
  {
    if routes != [] {
      assert routes[0].meshId in MeshIds(routes);
    }
  }

  lemma {:induction false} HopsAppend(nodes: seq<Node>, routes: seq<Route>, r: Route)
    ensures Hops(nodes, routes + [r]) ==
            var hops := Hops(nodes, routes);
            var node := FindNode(nodes, r.meshId);
            if hops.None? || node.None? then None else Some(hops.value + [Hop(r.destination, node.value.vip)])
  {
    if routes == [] {
      var node := FindNode(nodes, r.meshId);
      assert routes + [r] == [r] && [r][1..] == [];
      assert node.Some? ==> [Hop(r.destination, node.value.vip)] + [] == [] + [Hop(r.destination, node.value.vip)];
    } else {
      assert (routes + [r])[0] == routes[0] && (routes + [r])[1..] == routes[1..] + [r];
      HopsAppend(nodes, routes[1..], r);
      var rest := Hops(nodes, routes[1..]);
      if rest.Some? && FindNode(nodes, r.meshId).Some? && FindNode(nodes, routes[0].meshId).Some? {
        var first := Hop(routes[0].destination, FindNode(nodes, routes[0].meshId).value.vip);
        var last := Hop(r.destination, FindNode(nodes, r.meshId).value.vip);
        assert [first] + (rest.value + [last]) == ([first] + rest.value) + [last];
      }
    }
  }
}
