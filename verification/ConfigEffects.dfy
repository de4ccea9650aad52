/**
 What each operation of the configuration service does to the rows of the tables, when it fails, and what the nodes
 then receive.
 */
module ConfigEffects {
  import opened Wrappers
  import opened ConfigService
  import Controller = ControlService

  function NodeId(n: Node): nat {
    n.id
  }

  function RouteId(r: Route): nat {
    r.id
  }

  ghost predicate Falls<T(!new)>(xs: seq<T>, id: T -> nat) {
    forall i, j | 0 <= i < j < |xs| :: id(xs[i]) > id(xs[j])
  }

  // The rows by descending id, as the queries list them: with the rows in it a table is known.
  ghost predicate Descending(t: Tables) {
    Falls(t.nodes, NodeId) && Falls(t.routes, RouteId)
  }

  // A destination that the program refuses: one that is no block, or a block of no width that exists.
  function Fault(d: Destination): Option<Error> {
    match d
    case Block(_, maskBits) => if 0 < maskBits < 33 then None else Some(CidrParse)
    case NoAddress(_) => Some(CidrParse)
    case NoSlash(_) => Some(IndexOutOfBounds)
    case NoNumber(_) => Some(NumberFormat)
  }

  predicate HasNode(t: Tables, id: nat) {
    exists n | n in t.nodes :: n.id == id
  }

  predicate HasRoute(t: Tables, id: nat) {
    exists r | r in t.routes :: r.id == id
  }

  // The whole effect of a row that is rewritten.
  ghost predicate NodeRewritten(t: Tables, u: Tables, id: nat, vip: string, remark: string) {
    && u.(nodes := t.nodes) == t && |u.nodes| == |t.nodes|
    && forall i | 0 <= i < |t.nodes| ::
         var m, n := t.nodes[i], u.nodes[i];
         n == if m.id == id then Node(id, m.nodeType, vip, m.mac, remark) else m
  }

  // An update finds its node, passes the tests, and collides with no other row, or changes nothing.
  lemma UpdateNodeExactly(t: Tables, id: nat, vip: string, refusal: Option<Error>, remark: string)
    requires WellKept(t)
    ensures var o := Apply(t, Op.UpdateNode(id, vip, refusal, remark));
            && o.error == (if !HasNode(t, id) then None
                           else if refusal.Some? then refusal
                           else if exists m | m in t.nodes :: m.id != id && m.vip == vip then Some(DuplicateKey)
                           else None)
            && (o.error.None? ==> NodeRewritten(t, o.tables, id, vip, remark))
            && (o.error.Some? ==> o.tables == t)
  {
    var node := FindNode(t.nodes, id);
    if node.Some? {
      assert HasNode(t, id);
      var n := node.value.(vip := vip, remark := remark);
      assert Duplicate(t.nodes, n) <==> exists m | m in t.nodes :: m.id != id && m.vip == vip;
    }
    forall i | 0 <= i < |t.nodes| && t.nodes[i].id == id ensures node == Some(t.nodes[i]) {
      assert t.nodes[i] in t.nodes;
    }
  }

  // A node goes only if it is in no route, and then alone.
  lemma DeleteNodeExactly(t: Tables, id: nat)
    ensures var o := Apply(t, Op.DeleteNode(id));
            var used := exists r | r in t.routes :: r.meshId == id;
            && o.error == (if HasNode(t, id) && used then Some(MeshUsed) else None)
            && o.tables.(nodes := t.nodes) == t
            && forall n :: n in o.tables.nodes <==> n in t.nodes && (n.id != id || used)
  {
  }

  // A registered node gets an id of its own, in front of all others.
  lemma RegistExactly(t: Tables, nodeType: NodeType, vip: string, mac: string)
    requires WellKept(t)
    ensures var o := Apply(t, Op.Regist(nodeType, vip, mac));
            var n := Node(t.nextNode, nodeType, vip, mac, "");
            && !HasNode(t, n.id)
            && o == if exists m | m in t.nodes :: m.vip == vip || m.mac == mac then Outcome(t, Some(DuplicateKey))
                    else Outcome(Tables([n] + t.nodes, t.routes, t.nextNode + 1, t.nextRoute), None)
  {
    assert forall m | m in t.nodes :: m.id != t.nextNode;
  }

  // So does a route, to a mesh node, whose destination is a block.
  lemma SaveRouteExactly(t: Tables, meshId: nat, d: Destination, remark: string)
    requires WellKept(t)
    ensures var o := Apply(t, Op.SaveRoute(meshId, d, remark));
            && !HasRoute(t, t.nextRoute)
            && o.error == (if !HasNode(t, meshId) then Some(NotFoundNode)
                           else if !(exists n | n in t.nodes :: n.id == meshId && n.nodeType == Mesh)
                             then Some(NodeIsNotMesh)
                           else if Fault(d) == Some(CidrParse) then Some(CidrError)
                           else Fault(d))
            && o.tables == if o.error.Some? then t
                           else Tables(t.nodes, [Route(t.nextRoute, d, meshId, remark)] + t.routes,
                                       t.nextNode, t.nextRoute + 1)
  {
    var node := FindNode(t.nodes, meshId);
    if node.Some? {
      assert HasNode(t, meshId);
    }
    assert forall r | r in t.routes :: r.id != t.nextRoute;
  }

  // What an update makes of a route: what is given is new, what is not stays.
  predicate Updated(r: Route, q: Route, op: Op)
    requires op.UpdateRoute?
  {
    && q.id == r.id
    && (match op.newDestination case Some(d) => q.destination == d case None => q.destination == r.destination)
    && (match op.newMesh case Some(m) => q.meshId == m case None => q.meshId == r.meshId)
    && (match op.newRemark case Some(text) => q.remark == text case None => q.remark == r.remark)
  }

  lemma UpdateRouteExactly(t: Tables, op: Op)
    requires WellKept(t) && op.UpdateRoute?
    ensures var o := Apply(t, op);
            && o.error == (if !HasRoute(t, op.id) then Some(NotFoundRoute)
                           else if op.newDestination.Some? then Fault(op.newDestination.value) else None)
            && o.tables.(routes := t.routes) == t && |o.tables.routes| == |t.routes|
            && forall i | 0 <= i < |t.routes| ::
                 var r, q := t.routes[i], o.tables.routes[i];
                 if r.id == op.id && o.error.None? then Updated(r, q, op) else q == r
  {
    var route := FindRoute(t.routes, op.id);
    if route.Some? {
      assert HasRoute(t, op.id);
    }
    forall i | 0 <= i < |t.routes| && t.routes[i].id == op.id ensures route == Some(t.routes[i]) {
      assert t.routes[i] in t.routes;
    }
  }

  lemma DeleteRouteExactly(t: Tables, id: nat)
    ensures var o := Apply(t, Op.DeleteRoute(id));
            && o.error == None && o.tables.(routes := t.routes) == t
            && forall r :: r in o.tables.routes <==> r in t.routes && r.id != id
  {
  }

  lemma FallsInFront<T(!new)>(x: T, xs: seq<T>, id: T -> nat)
    requires Falls(xs, id) && forall y | y in xs :: id(x) > id(y)
    ensures Falls([x] + xs, id)
  {
    var ys := [x] + xs;
    forall i, j | 0 <= i < j < |ys| ensures id(ys[i]) > id(ys[j]) {
      assert ys[j] == xs[j - 1] && (i > 0 ==> ys[i] == xs[i - 1]);
    }
  }

  lemma {:induction false} FallsWhere<T(!new)>(xs: seq<T>, p: T -> bool, id: T -> nat)
    requires Falls(xs, id)
    ensures Falls(Where(xs, p), id)
  {
    if xs != [] {
      var rest := Where(xs[1..], p);
      FallsWhere(xs[1..], p, id);
      if p(xs[0]) {
        forall y | y in rest ensures id(xs[0]) > id(y) {
          var k :| 0 <= k < |xs| - 1 && xs[1..][k] == y;
          assert xs[k + 1] == y;
        }
        FallsInFront(xs[0], rest, id);
      } else {
        assert [] + rest == rest;
      }
    }
  }

  // Every operation keeps the order of the rows.
  lemma ApplyKeepsOrder(t: Tables, op: Op)
    requires WellKept(t) && Descending(t)
    ensures Descending(Apply(t, op).tables)
  {
    hide Apply;
    match op
    case SaveRoute(meshId, d, remark) =>
      SaveRouteExactly(t, meshId, d, remark);
      FallsInFront(Route(t.nextRoute, d, meshId, remark), t.routes, RouteId);
    case UpdateRoute(_, _, _, _) => UpdateRouteExactly(t, op);
    case DeleteRoute(id) => RemovedKeepsOrder(t, op);
    case UpdateNode(id, vip, refusal, remark) => UpdateNodeExactly(t, id, vip, refusal, remark);
    case DeleteNode(id) => RemovedKeepsOrder(t, op);
    case Regist(nodeType, vip, mac) =>
      RegistExactly(t, nodeType, vip, mac);
      FallsInFront(Node(t.nextNode, nodeType, vip, mac, ""), t.nodes, NodeId);
  }

  lemma RemovedKeepsOrder(t: Tables, op: Op)
    requires Descending(t) && (op.DeleteRoute? || op.DeleteNode?)
    ensures Descending(Apply(t, op).tables)
  {
    hide Where, Falls;
    FallsWhere(t.routes, (r: Route) => r.id != op.id, RouteId);
    FallsWhere(t.nodes, (n: Node) => n.id != op.id, NodeId);
  }

  lemma {:induction false} RunKeepsOrder(t: Tables, ops: seq<Op>)
    requires WellKept(t) && Descending(t)
    ensures WellKept(Run(t, ops)) && Descending(Run(t, ops))
    decreases |ops|
  {
    if ops != [] {
      ApplyKeepsTables(t, ops[0]);
      ApplyKeepsOrder(t, ops[0]);
      RunKeepsOrder(Apply(t, ops[0]).tables, ops[1..]);
    }
  }

  // So after any operations the two tables are known from their rows alone.
  lemma RowsAreTables(ops: seq<Op>, t: Tables)
    requires Descending(t)
    requires var u := Run(EMPTY, ops);
             && (forall n :: n in t.nodes <==> n in u.nodes) && (forall r :: r in t.routes <==> r in u.routes)
    ensures t.nodes == Run(EMPTY, ops).nodes && t.routes == Run(EMPTY, ops).routes
  {
    RunKeepsOrder(EMPTY, ops);
    SameRows(t.nodes, Run(EMPTY, ops).nodes, NodeId);
    SameRows(t.routes, Run(EMPTY, ops).routes, RouteId);
  }

  lemma {:induction false} SameRows<T(!new)>(xs: seq<T>, ys: seq<T>, id: T -> nat)
    requires Falls(xs, id) && Falls(ys, id)
    requires forall x :: x in xs <==> x in ys
    ensures xs == ys
  {
    BothEmpty(xs, ys);
    if xs != [] {
      assert xs[0] in ys;
      assert ys[0] in xs;
      assert xs[0] == ys[0];
      forall x ensures x in xs[1..] <==> x in ys[1..] {
        assert x in xs[1..] <==> x in xs && x != xs[0];
        assert x in ys[1..] <==> x in ys && x != ys[0];
      }
      SameRows(xs[1..], ys[1..], id);
    }
  }

  lemma BothEmpty<T(!new)>(xs: seq<T>, ys: seq<T>)
    requires forall x :: x in xs <==> x in ys
    ensures xs == [] <==> ys == []
  {
    if xs != [] {
      assert xs[0] in xs;
    }
    if ys != [] {
      assert ys[0] in ys;
    }
  }

  // After an operation that pushes: its exception, or the failure of the push when a route goes to a node that is
  // gone, or a hop for each route, in their order, to the address of its node.
  lemma AnnouncedExactly(o: Outcome)
    requires WellKept(o.tables)
    ensures match Announce(o)
            case Failed(e) => o.error == Some(e)
            case PushFailed => o.error.None? && exists r | r in o.tables.routes :: !HasNode(o.tables, r.meshId)
            case PushedList(hops) =>
              && o.error.None? && |hops| == |o.tables.routes|
              && (forall i | 0 <= i < |hops| ::
                    var r := o.tables.routes[i];
                    && hops[i].destination == r.destination
                    && exists n | n in o.tables.nodes :: n.id == r.meshId && n.vip == hops[i].nexthop)
            case Quiet => false
  {
    hide WellKept, Pushed;
    PushedExactly(o.tables);
    if Announce(o).PushFailed? {
      var r :| r in o.tables.routes && FindNode(o.tables.nodes, r.meshId).None?;
      assert !HasNode(o.tables, r.meshId);
    }
  }

  // A push reaches the channels of the index and nobody else.
  lemma DeliveredExactly(sent: map<nat, seq<Hop>>, channelMap: map<string, nat>, r: Reply, c: nat)
    ensures var after := Delivered(sent, Controller.Channels(channelMap), r);
            if r.PushedList? && exists v | v in channelMap :: channelMap[v] == c
            then c in after && after[c] == r.hops
            else (c in after <==> c in sent) && (c in sent ==> after[c] == sent[c])
  {
    if v :| v in channelMap && channelMap[v] == c {
      assert c in Controller.Channels(channelMap);
    }
  }

  // A channel leaves the index under every address it has there, the others stay.
  lemma DeletedExactly(channelMap: map<string, nat>, vip: string, v: string)
    ensures var after := Deleted(channelMap, vip);
            && (v in after <==> v in channelMap && (vip in channelMap ==> channelMap[v] != channelMap[vip]))
            && (v in after ==> after[v] == channelMap[v])
  {
  }
}
