/**
 A node's connections and tunnels: the futures of `connectionMap`, the connections built on a tunnel, and
 `tunnelMap`. Each completion and the callbacks it runs are one step.
 */
module Connections {
  import opened Wrappers

  type Vip = int
  type Uri = int

  // An entry of connectionMap; a future that fails is taken out in the same step.
  datatype Future = Pending | Ready(conn: nat)

  // Connections and tunnels are numbered as they are created.
  datatype Connection = Connection(key: Vip, tunnel: nat, closed: bool)

  // A tunnel, with how many of its heartbeats are out. Its close listeners close connections.
  datatype Tunnel = Tunnel(uri: Uri, checks: nat, closed: bool, listeners: seq<nat>)

  datatype Tables = Tables(
    connectionMap: map<Vip, Future>,
    conns: seq<Connection>,
    tunnelMap: map<Uri, nat>,
    tunnels: seq<Tunnel>)

  datatype Event =
    | Get(key: Vip, active: bool)
    | Established(key: Vip, uri: Uri)
    | Failed(key: Vip)
    | Answered(uri: Uri)
    | Data(uri: Uri, key: Vip)
    | Check(uri: Uri)
    | Beat(tunnel: nat, alive: bool)

  const EMPTY := Tables(map[], [], map[], [])

  // A new tunnel; computeIfAbsent keeps an older one under the same address.
  function NewTunnel(t: Tables, uri: Uri): Tables {
    var absent := uri !in t.tunnelMap;
    t.(tunnels := t.tunnels + [Tunnel(uri, 0, false, [])],
       tunnelMap := if absent then t.tunnelMap[uri := |t.tunnels|] else t.tunnelMap)
  }

  // A new connection on a tunnel, with a close listener on either.
  function Connect(t: Tables, key: Vip, n: nat): Tables
    requires n < |t.tunnels|
  {
    var c := |t.conns|;
    t.(conns := t.conns + [Connection(key, n, false)],
       tunnels := t.tunnels[n := t.tunnels[n].(listeners := t.tunnels[n].listeners + [c])],
       connectionMap := t.connectionMap[key := Ready(c)])
  }

  function KeysOf(conns: seq<Connection>, cs: seq<nat>): set<Vip> {
    set c | c in cs && c < |conns| :: conns[c].key
  }

  function WithClosed(conns: seq<Connection>, cs: seq<nat>): (after: seq<Connection>)
    ensures |after| == |conns|
  {
    seq(|conns|, c requires 0 <= c < |conns| => conns[c].(closed := conns[c].closed || c in cs))
  }

  // Completing a tunnel's close future closes its connections, whose listeners remove their keys.
  function CloseTunnel(t: Tables, n: nat): Tables
    requires n < |t.tunnels|
  {
    if t.tunnels[n].closed then t
    else
      var cs := t.tunnels[n].listeners;
      t.(tunnels := t.tunnels[n := t.tunnels[n].(closed := true)],
         conns := WithClosed(t.conns, cs),
         connectionMap := t.connectionMap - KeysOf(t.conns, cs))
  }

  // A heartbeat goes out, or comes back.
  function WithChecks(t: Tables, n: nat, d: int): Tables
    requires n < |t.tunnels| && t.tunnels[n].checks + d >= 0
  {
    t.(tunnels := t.tunnels[n := t.tunnels[n].(checks := t.tunnels[n].checks + d)])
  }

  // One step, or None when the event cannot happen.
  function Step(t: Tables, e: Event): Option<Tables> {
    match e
    case Get(key, active) =>
      if key in t.connectionMap || !active then Some(t) else Some(t.(connectionMap := t.connectionMap[key := Pending]))
    case Established(key, uri) =>
      if key !in t.connectionMap || !t.connectionMap[key].Pending? then None
      else Some(Connect(NewTunnel(t, uri), key, |t.tunnels|))
    case Failed(key) =>
      if key !in t.connectionMap || !t.connectionMap[key].Pending? then None
      else Some(t.(connectionMap := t.connectionMap - {key}))
    case Answered(uri) => Some(NewTunnel(t, uri))
    case Data(uri, key) =>
      if uri !in t.tunnelMap || key in t.connectionMap then Some(t)
      else if t.tunnelMap[uri] >= |t.tunnels| then None
      else Some(Connect(t, key, t.tunnelMap[uri]))
    case Check(uri) =>
      if uri !in t.tunnelMap || t.tunnelMap[uri] >= |t.tunnels| then None else Some(WithChecks(t, t.tunnelMap[uri], 1))
    case Beat(n, alive) =>
      if n >= |t.tunnels| || t.tunnels[n].checks == 0 then None
      else if alive then Some(WithChecks(t, n, -1))
      else Some(CloseTunnel(WithChecks(t, n, -1).(tunnelMap := t.tunnelMap - {t.tunnels[n].uri}), n))
  }

  function Run(t: Tables, es: seq<Event>): Option<Tables>
    decreases |es|
  {
    if es == [] then Some(t)
    else
      var u :- Step(t, es[0]);
      Run(u, es[1..])
  }

  // A finished entry is an unclosed connection under its own key, and every unclosed connection has one.
  ghost predicate EntriesLive(t: Tables) {
    && (forall k | k in t.connectionMap && t.connectionMap[k].Ready? ::
          var c := t.connectionMap[k].conn; c < |t.conns| && t.conns[c].key == k && !t.conns[c].closed)
    && (forall c | 0 <= c < |t.conns| && !t.conns[c].closed ::
          t.conns[c].key in t.connectionMap && t.connectionMap[t.conns[c].key] == Ready(c))
  }

  // A connection is closed exactly when its tunnel is.
  ghost predicate ClosedTogether(t: Tables) {
    forall c | 0 <= c < |t.conns| ::
      t.conns[c].tunnel < |t.tunnels| && t.conns[c].closed == t.tunnels[t.conns[c].tunnel].closed
  }

  // The listeners of a tunnel are the connections built on it.
  ghost predicate Listening(t: Tables) {
    forall n | 0 <= n < |t.tunnels| ::
      forall c: nat :: c in t.tunnels[n].listeners <==> c < |t.conns| && t.conns[c].tunnel == n
  }

  ghost predicate MapOpen(t: Tables) {
    forall u | u in t.tunnelMap ::
      var n := t.tunnelMap[u]; n < |t.tunnels| && t.tunnels[n].uri == u && !t.tunnels[n].closed
  }

  ghost predicate Inv(t: Tables) {
    EntriesLive(t) && ClosedTogether(t) && Listening(t) && MapOpen(t)
  }

  lemma NewTunnelKeeps(t: Tables, uri: Uri)
    requires Inv(t)
    ensures Inv(NewTunnel(t, uri))
  {
  }

  lemma ConnectListens(t: Tables, key: Vip, n: nat)
    requires ClosedTogether(t) && Listening(t) && n < |t.tunnels|
    ensures Listening(Connect(t, key, n))
  {
    var u := Connect(t, key, n);
    var d := |t.conns|;
    forall m | 0 <= m < |u.tunnels|
      ensures forall c: nat :: c in u.tunnels[m].listeners <==> c < |u.conns| && u.conns[c].tunnel == m
    {
      assert forall c: nat :: c in t.tunnels[m].listeners <==> c < d && t.conns[c].tunnel == m;
      assert u.tunnels[m].listeners == t.tunnels[m].listeners + (if m == n then [d] else []);
    }
  }

  lemma ConnectCloses(t: Tables, key: Vip, n: nat)
    requires ClosedTogether(t) && MapOpen(t) && n < |t.tunnels| && !t.tunnels[n].closed
    ensures ClosedTogether(Connect(t, key, n)) && MapOpen(Connect(t, key, n))
  {
    var u := Connect(t, key, n);
    forall m | 0 <= m < |u.tunnels| ensures u.tunnels[m] == t.tunnels[m].(listeners := u.tunnels[m].listeners) {
    }
    forall c | 0 <= c < |u.conns|
      ensures u.conns[c] == if c < |t.conns| then t.conns[c] else Connection(key, n, false)
    {
    }
  }

  lemma ConnectLives(t: Tables, key: Vip, n: nat)
    requires EntriesLive(t) && n < |t.tunnels|
    requires key in t.connectionMap ==> t.connectionMap[key].Pending?
    ensures EntriesLive(Connect(t, key, n))
  {
    var u := Connect(t, key, n);
    forall c | 0 <= c < |u.conns|
      ensures u.conns[c] == if c < |t.conns| then t.conns[c] else Connection(key, n, false)
    {
    }
  }

  lemma ConnectKeeps(t: Tables, key: Vip, n: nat)
    requires Inv(t) && n < |t.tunnels| && !t.tunnels[n].closed
    requires key in t.connectionMap ==> t.connectionMap[key].Pending?
    ensures Inv(Connect(t, key, n))
  {
    hide EntriesLive, ClosedTogether, Listening, MapOpen, Connect;
    ConnectListens(t, key, n);
    ConnectCloses(t, key, n);
    ConnectLives(t, key, n);
  }

  lemma CloseKeeps(t: Tables, n: nat)
    requires Inv(t) && n < |t.tunnels| && !t.tunnels[n].closed
    requires forall u | u in t.tunnelMap :: t.tunnelMap[u] != n
    ensures Inv(CloseTunnel(t, n))
  {
    var u := CloseTunnel(t, n);
    var cs := t.tunnels[n].listeners;
    assert forall c | 0 <= c < |t.conns| :: c in cs <==> t.conns[c].tunnel == n;
    assert forall k | k in KeysOf(t.conns, cs) :: exists c :: c in cs && c < |t.conns| && t.conns[c].key == k;
    forall m | 0 <= m < |u.tunnels|
      ensures forall c: nat :: c in u.tunnels[m].listeners <==> c < |u.conns| && u.conns[c].tunnel == m
    {
      assert u.tunnels[m].listeners == t.tunnels[m].listeners;
    }
  }

  lemma PendingKeeps(t: Tables, key: Vip)
    requires Inv(t) && (key in t.connectionMap ==> t.connectionMap[key].Pending?)
    ensures Inv(t.(connectionMap := t.connectionMap[key := Pending]))
    ensures Inv(t.(connectionMap := t.connectionMap - {key}))
  {
    assert forall c | 0 <= c < |t.conns| && !t.conns[c].closed :: t.conns[c].key != key;
  }

  lemma UnmapKeeps(t: Tables, uri: Uri)
    requires Inv(t)
    ensures Inv(t.(tunnelMap := t.tunnelMap - {uri}))
  {
  }

  lemma StepKeepsInv(t: Tables, e: Event)
    requires Inv(t) && Step(t, e).Some?
    ensures Inv(Step(t, e).value)
  {
    hide EntriesLive, ClosedTogether, Listening;
    match e
    case Get(key, active) =>
      if key !in t.connectionMap {
        PendingKeeps(t, key);
      }
    case Established(key, uri) =>
      NewTunnelKeeps(t, uri);
      ConnectKeeps(NewTunnel(t, uri), key, |t.tunnels|);
    case Failed(key) => PendingKeeps(t, key);
    case Answered(uri) => NewTunnelKeeps(t, uri);
    case Data(uri, key) =>
      if uri in t.tunnelMap && key !in t.connectionMap {
        ConnectKeeps(t, key, t.tunnelMap[uri]);
      }
    case Check(uri) => ChecksKeep(t, t.tunnelMap[uri], 1);
    case Beat(n, alive) =>
      ChecksKeep(t, n, -1);
      if !alive {
        var u := WithChecks(t, n, -1);
        UnmapKeeps(u, t.tunnels[n].uri);
        if !t.tunnels[n].closed {
          CloseKeeps(u.(tunnelMap := u.tunnelMap - {t.tunnels[n].uri}), n);
        }
      }
  }

  lemma ChecksKeep(t: Tables, n: nat, d: int)
    requires Inv(t) && n < |t.tunnels| && t.tunnels[n].checks + d >= 0
    ensures Inv(WithChecks(t, n, d))
  {
    var u := WithChecks(t, n, d);
    assert forall m | 0 <= m < |t.tunnels| :: u.tunnels[m] == t.tunnels[m].(checks := u.tunnels[m].checks);
  }

  lemma {:induction false} RunKeepsInv(t: Tables, es: seq<Event>)
    requires Inv(t) && Run(t, es).Some?
    ensures Inv(Run(t, es).value)
    decreases |es|
  {
    if es != [] {
      StepKeepsInv(t, es[0]);
      RunKeepsInv(Step(t, es[0]).value, es[1..]);
    }
  }

  ghost predicate Reached(es: seq<Event>, t: Tables) {
    Run(EMPTY, es) == Some(t)
  }

  // No entry holds a finished connection whose tunnel is closed.
  lemma NoDeadEntry(es: seq<Event>, t: Tables, k: Vip)
    requires Reached(es, t) && k in t.connectionMap && t.connectionMap[k].Ready?
    ensures var c := t.connectionMap[k].conn;
            && c < |t.conns| && t.conns[c].key == k && !t.conns[c].closed
            && t.conns[c].tunnel < |t.tunnels| && !t.tunnels[t.conns[c].tunnel].closed
  {
    RunKeepsInv(EMPTY, es);
  }

  // There is at most one unclosed connection to an address.
  lemma OneConnection(es: seq<Event>, t: Tables, c: nat, d: nat)
    requires Reached(es, t) && c < |t.conns| && d < |t.conns|
    requires !t.conns[c].closed && !t.conns[d].closed && t.conns[c].key == t.conns[d].key
    ensures c == d
  {
    RunKeepsInv(EMPTY, es);
  }

  // Closing a tunnel takes out exactly the entries of connections built on it.
  lemma CloseRemovesExactly(es: seq<Event>, t: Tables, n: nat, k: Vip)
    requires Reached(es, t) && n < |t.tunnels| && k in t.connectionMap
    ensures k !in CloseTunnel(t, n).connectionMap <==>
              && t.connectionMap[k].Ready?
              && t.connectionMap[k].conn < |t.conns| && t.conns[t.connectionMap[k].conn].tunnel == n
    ensures forall j | j in CloseTunnel(t, n).connectionMap ::
              j in t.connectionMap && CloseTunnel(t, n).connectionMap[j] == t.connectionMap[j]
  {
    RunKeepsInv(EMPTY, es);
    if t.connectionMap[k].Ready? {
      var c := t.connectionMap[k].conn;
      assert c in t.tunnels[n].listeners ==> k in KeysOf(t.conns, t.tunnels[n].listeners);
    }
  }

  // A tunnel is in the map.
  predicate Mapped(t: Tables, n: nat) {
    n < |t.tunnels| && t.tunnels[n].uri in t.tunnelMap && t.tunnelMap[t.tunnels[n].uri] == n
  }

  // An open tunnel that is not in the map and has no heartbeat out is never closed, and a connection on it keeps
  // its entry for good.
  ghost predicate Stuck(t: Tables, k: Vip, n: nat) {
    && n < |t.tunnels| && !Mapped(t, n) && t.tunnels[n].checks == 0 && !t.tunnels[n].closed
    && k in t.connectionMap && t.connectionMap[k].Ready?
    && t.connectionMap[k].conn < |t.conns| && t.conns[t.connectionMap[k].conn].tunnel == n
  }

  lemma StepKeepsStuck(t: Tables, e: Event, k: Vip, n: nat)
    requires Inv(t) && Stuck(t, k, n) && Step(t, e).Some?
    ensures Stuck(Step(t, e).value, k, n) && Step(t, e).value.connectionMap[k] == t.connectionMap[k]
  {
    if e.Beat? && !e.alive && !t.tunnels[e.tunnel].closed {
      assert k !in KeysOf(t.conns, t.tunnels[e.tunnel].listeners);
    }
  }

  lemma {:induction false} StuckForever(t: Tables, es: seq<Event>, k: Vip, n: nat)
    requires Inv(t) && Stuck(t, k, n) && Run(t, es).Some?
    ensures Stuck(Run(t, es).value, k, n) && Run(t, es).value.connectionMap[k] == t.connectionMap[k]
    decreases |es|
  {
    if es != [] {
      StepKeepsStuck(t, es[0], k, n);
      StepKeepsInv(t, es[0]);
      StuckForever(Step(t, es[0]).value, es[1..], k, n);
    }
  }

  // An open tunnel under a connection stays open for good exactly when it is stuck: a heartbeat that is out may
  // fail, and one in the map may be sent one that fails.
  lemma StuckExactly(es: seq<Event>, t: Tables, k: Vip)
    requires Reached(es, t) && k in t.connectionMap && t.connectionMap[k].Ready?
    ensures var c := t.connectionMap[k].conn;
            && c < |t.conns| && t.conns[c].tunnel < |t.tunnels|
            && (Stuck(t, k, t.conns[c].tunnel) <==>
                  forall fs | Run(t, fs).Some? :: k in Run(t, fs).value.connectionMap)
  {
    RunKeepsInv(EMPTY, es);
    var c := t.connectionMap[k].conn;
    var n := t.conns[c].tunnel;
    if Stuck(t, k, n) {
      forall fs | Run(t, fs).Some? ensures k in Run(t, fs).value.connectionMap {
        StuckForever(t, fs, k, n);
      }
    } else {
      var fs := ClosingRun(t, n);
      var u := Run(t, fs).value;
      RunKeepsInv(t, fs);
      assert k !in u.connectionMap;
    }
  }

  // A run that closes a tunnel which is not stuck.
  lemma ClosingRun(t: Tables, n: nat) returns (fs: seq<Event>)
    requires Inv(t) && n < |t.tunnels| && !t.tunnels[n].closed && (Mapped(t, n) || t.tunnels[n].checks > 0)
    ensures Run(t, fs).Some?
    ensures forall c | 0 <= c < |t.conns| && t.conns[c].tunnel == n && !t.conns[c].closed ::
              t.conns[c].key !in Run(t, fs).value.connectionMap
  {
    if t.tunnels[n].checks > 0 {
      fs := [Beat(n, false)] + [];
      Run1(t, Beat(n, false), []);
      BeatCloses(t, n);
    } else {
      var u := WithChecks(t, n, 1);
      ChecksKeep(t, n, 1);
      fs := [Check(t.tunnels[n].uri)] + ([Beat(n, false)] + []);
      Run1(t, Check(t.tunnels[n].uri), [Beat(n, false)] + []);
      Run1(u, Beat(n, false), []);
      BeatCloses(u, n);
    }
  }

  lemma BeatCloses(t: Tables, n: nat)
    requires Inv(t) && n < |t.tunnels| && !t.tunnels[n].closed && t.tunnels[n].checks > 0
    ensures Step(t, Beat(n, false)).Some?
    ensures forall c | 0 <= c < |t.conns| && t.conns[c].tunnel == n && !t.conns[c].closed ::
              t.conns[c].key !in Step(t, Beat(n, false)).value.connectionMap
  {
    forall c | 0 <= c < |t.conns| && t.conns[c].tunnel == n && !t.conns[c].closed
      ensures t.conns[c].key in KeysOf(t.conns, t.tunnels[n].listeners)
    {
      assert c in t.tunnels[n].listeners;
    }
  }

  // It comes to that exactly when a connection is established under an address that is taken,
  lemma EstablishedStuck(es: seq<Event>, t: Tables, key: Vip, uri: Uri)
    requires Reached(es, t) && Step(t, Established(key, uri)).Some?
    ensures Stuck(Step(t, Established(key, uri)).value, key, |t.tunnels|) <==> uri in t.tunnelMap
  {
    RunKeepsInv(EMPTY, es);
  }

  // or when a late heartbeat drops a tunnel that has none of its own out.
  lemma DroppedStuck(es: seq<Event>, t: Tables, n: nat, key: Vip)
    requires Reached(es, t) && Step(t, Beat(n, false)).Some?
    requires key in t.connectionMap && t.connectionMap[key].Ready?
    ensures var u := Step(t, Beat(n, false)).value;
            var c := t.connectionMap[key].conn;
            c < |t.conns| && t.conns[c].tunnel < |t.tunnels| &&
            var m := t.conns[c].tunnel;
            !Stuck(t, key, m) ==>
              (Stuck(u, key, m) <==>
                 && Mapped(t, m) && m != n
                 && t.tunnels[m].uri == t.tunnels[n].uri && t.tunnels[m].checks == 0)
  {
    RunKeepsInv(EMPTY, es);
    var c := t.connectionMap[key].conn;
    var m := t.conns[c].tunnel;
    if m != n && !t.tunnels[n].closed {
      assert c !in t.tunnels[n].listeners;
      assert key !in KeysOf(t.conns, t.tunnels[n].listeners);
    }
  }

  // A failed heartbeat closes the tunnel it belongs to. It takes an open tunnel out of the map that it does
  // not close exactly when the address has been given to another one since.
  lemma HeartFailExactly(es: seq<Event>, t: Tables, n: nat)
    requires Reached(es, t) && Step(t, Beat(n, false)).Some?
    ensures n < |t.tunnels|
    ensures var uri := t.tunnels[n].uri;
            uri in t.tunnelMap ==> t.tunnelMap[uri] < |t.tunnels| && !t.tunnels[t.tunnelMap[uri]].closed
    ensures var u := Step(t, Beat(n, false)).value;
            var uri := t.tunnels[n].uri;
            && |u.tunnels| == |t.tunnels| && u.tunnels[n].closed && uri !in u.tunnelMap
            && (uri in t.tunnelMap ==> (!u.tunnels[t.tunnelMap[uri]].closed <==> t.tunnelMap[uri] != n))
            && (forall m | 0 <= m < |t.tunnels| && m != n :: u.tunnels[m] == t.tunnels[m])
  {
    RunKeepsInv(EMPTY, es);
  }

  lemma Run1(t: Tables, e: Event, es: seq<Event>)
    requires Step(t, e).Some?
    ensures Run(t, [e] + es) == Run(Step(t, e).value, es)
  {
    assert ([e] + es)[1..] == es;
  }

  // Both happen. The peer's offer has made a tunnel under an address; the node's own request comes to the same.
  lemma StuckReached(k: Vip, u: Uri)
    ensures var r := Run(EMPTY, [Answered(u)] + ([Get(k, true)] + ([Established(k, u)] + [])));
            r.Some? && Stuck(r.value, k, 1) && r.value.tunnelMap == map[u := 0]
  {
    var t1 := Step(EMPTY, Answered(u)).value;
    var t2 := Step(t1, Get(k, true)).value;
    Run1(EMPTY, Answered(u), [Get(k, true)] + ([Established(k, u)] + []));
    Run1(t1, Get(k, true), [Established(k, u)] + []);
    Run1(t2, Established(k, u), []);
    assert t2.tunnelMap == map[u := 0];
  }

  // Two heartbeats of a tunnel are out; the first fails, the address is used again, the second fails.
  function LateBeats(u: Uri, k: Vip): seq<Event> {
    [Answered(u)] + ([Check(u)] + ([Check(u)] + ([Beat(0, false)]
    + ([Answered(u)] + ([Data(u, k)] + ([Beat(0, false)] + []))))))
  }

  lemma LateHeartReached(u: Uri, k: Vip)
    ensures var r := Run(EMPTY, LateBeats(u, k));
            r.Some? && u !in r.value.tunnelMap && Stuck(r.value, k, 1)
  {
    hide Run;
    var o := Tunnel(u, 0, true, []);
    var t1 := Tables(map[], [], map[u := 0], [Tunnel(u, 0, false, [])]);
    var t2 := t1.(tunnels := [Tunnel(u, 1, false, [])]);
    var t3 := t1.(tunnels := [Tunnel(u, 2, false, [])]);
    var t4 := Tables(map[], [], map[], [Tunnel(u, 1, true, [])]);
    var t5 := Tables(map[], [], map[u := 1], [Tunnel(u, 1, true, []), Tunnel(u, 0, false, [])]);
    var t6 := Tables(map[k := Ready(0)], [Connection(k, 1, false)], map[u := 1],
                     [Tunnel(u, 1, true, []), Tunnel(u, 0, false, [0])]);
    var t7 := t6.(tunnelMap := map[], tunnels := [o, Tunnel(u, 0, false, [0])]);
    LateStep1(u, t1, t2, t3, t4);
    LateStep2(u, k, t4, t5, t6, t7);
    var f6 := [Beat(0, false)] + [];
    var f5 := [Data(u, k)] + f6;
    var f4 := [Answered(u)] + f5;
    var f3 := [Beat(0, false)] + f4;
    var f2 := [Check(u)] + f3;
    Run1(EMPTY, Answered(u), [Check(u)] + f2);
    Run1(t1, Check(u), f2);
    Run1(t2, Check(u), f3);
    Run1(t3, Beat(0, false), f4);
    Run1(t4, Answered(u), f5);
    Run1(t5, Data(u, k), f6);
    Run1(t6, Beat(0, false), []);
    RunNothing(t7);
  }

  lemma RunNothing(t: Tables)
    ensures Run(t, []) == Some(t)
  {
  }

  lemma LateStep1(u: Uri, t1: Tables, t2: Tables, t3: Tables, t4: Tables)
    requires t1 == Tables(map[], [], map[u := 0], [Tunnel(u, 0, false, [])])
    requires t2 == t1.(tunnels := [Tunnel(u, 1, false, [])]) && t3 == t1.(tunnels := [Tunnel(u, 2, false, [])])
    requires t4 == Tables(map[], [], map[], [Tunnel(u, 1, true, [])])
    ensures Step(EMPTY, Answered(u)) == Some(t1) && Step(t1, Check(u)) == Some(t2)
    ensures Step(t2, Check(u)) == Some(t3) && Step(t3, Beat(0, false)) == Some(t4)
  {
    assert Step(EMPTY, Answered(u)).value.tunnels == t1.tunnels;
    assert WithChecks(t1, 0, 1).tunnels == t2.tunnels && WithChecks(t2, 0, 1).tunnels == t3.tunnels;
    assert Step(t3, Beat(0, false)).value.tunnels == t4.tunnels;
    assert Step(t3, Beat(0, false)).value.tunnelMap == map[];
    assert Step(t3, Beat(0, false)).value.conns == [];
    assert Step(t3, Beat(0, false)).value.connectionMap == map[];
  }

  lemma LateStep2(u: Uri, k: Vip, t4: Tables, t5: Tables, t6: Tables, t7: Tables)
    requires t4 == Tables(map[], [], map[], [Tunnel(u, 1, true, [])])
    requires t5 == Tables(map[], [], map[u := 1], [Tunnel(u, 1, true, []), Tunnel(u, 0, false, [])])
    requires t6 == Tables(map[k := Ready(0)], [Connection(k, 1, false)], map[u := 1],
                          [Tunnel(u, 1, true, []), Tunnel(u, 0, false, [0])])
    requires t7 == t6.(tunnelMap := map[], tunnels := [Tunnel(u, 0, true, []), Tunnel(u, 0, false, [0])])
    ensures Step(t4, Answered(u)) == Some(t5) && Step(t5, Data(u, k)) == Some(t6)
    ensures Step(t6, Beat(0, false)) == Some(t7)
  {
    assert Step(t4, Answered(u)).value.tunnels == t5.tunnels;
    var none: seq<nat> := [];
    assert none + [0] == [0];
    assert Step(t5, Data(u, k)).value.conns == t6.conns;
    assert Step(t5, Data(u, k)).value.tunnels[1] == t6.tunnels[1];
    assert Step(t5, Data(u, k)).value.tunnels == t6.tunnels;
    assert Step(t6, Beat(0, false)).value.tunnels == t7.tunnels;
    assert Step(t6, Beat(0, false)).value.tunnelMap == map[];
  }

  lemma EmptyInv()
    ensures Inv(EMPTY)
  {
  }

  // The tables as ConnectionManager, P2pManager, and their connections and tunnels hold them.
  class ConnectionManager {
    var connectionMap: map<Vip, Future>
    var conns: seq<Connection>
    var tunnelMap: map<Uri, nat>
    var tunnels: seq<Tunnel>

    function Now(): Tables
      reads this
    {
      Tables(connectionMap, conns, tunnelMap, tunnels)
    }

    ghost predicate Valid()
      reads this
    {
      Inv(Now())
    }

    constructor ()
      ensures Valid() && Now() == EMPTY
    {
      connectionMap, conns, tunnelMap, tunnels := map[], [], map[], [];
      new;
      EmptyInv();
    }

    // None is the exception of a closed channel.
    method GetConnection(dstVip: Vip, active: bool) returns (r: Option<Future>)
      requires Valid()
      modifies `connectionMap
      ensures Valid() && Step(old(Now()), Get(dstVip, active)) == Some(Now())
      ensures r.None? <==> dstVip !in old(connectionMap) && !active
      ensures r.Some? ==> dstVip in connectionMap && r.value == connectionMap[dstVip]
    {
      StepKeepsInv(Now(), Get(dstVip, active));
      if dstVip !in connectionMap {
        if !active {
          return None;
        }
        connectionMap := connectionMap[dstVip := Pending];
      }
      r := Some(connectionMap[dstVip]);
    }

    // The offer was answered with success: the pending future is completed with a connection on a new tunnel.
    method CreateConnection(dstVip: Vip, uri: Uri) returns (c: nat)
      requires Valid() && dstVip in connectionMap && connectionMap[dstVip] == Pending
      modifies this
      ensures Valid() && Step(old(Now()), Established(dstVip, uri)) == Some(Now())
      ensures c < |conns| && conns[c] == Connection(dstVip, |old(tunnels)|, false) && connectionMap[dstVip] == Ready(c)
      ensures |tunnels| == |old(tunnels)| + 1 && tunnels[|old(tunnels)|].uri == uri
    {
      StepKeepsInv(Now(), Established(dstVip, uri));
      var n := Create(uri);
      c := CreateOn(dstVip, n);
    }

    // Some stage of the request failed.
    method WhenFailed(dstVip: Vip)
      requires Valid() && dstVip in connectionMap && connectionMap[dstVip] == Pending
      modifies `connectionMap
      ensures Valid() && Step(old(Now()), Failed(dstVip)) == Some(Now())
    {
      StepKeepsInv(Now(), Failed(dstVip));
      connectionMap := connectionMap - {dstVip};
    }

    // A new tunnel under an address, on either side of an offer.
    method Create(uri: Uri) returns (n: nat)
      modifies `tunnelMap, `tunnels
      ensures Now() == NewTunnel(old(Now()), uri) && n == |old(tunnels)| && n < |tunnels|
    {
      n := |tunnels|;
      if uri in tunnelMap {
        tunnels := tunnels + [Tunnel(uri, 0, false, [])];
      } else {
        tunnels := tunnels + [Tunnel(uri, 0, false, [])];
        tunnelMap := tunnelMap[uri := n];
      }
    }

    method CreateOn(key: Vip, n: nat) returns (c: nat)
      requires n < |tunnels|
      modifies `conns, `tunnels, `connectionMap
      ensures Now() == Connect(old(Now()), key, n) && c == |old(conns)|
    {
      c := |conns|;
      conns := conns + [Connection(key, n, false)];
      tunnels := tunnels[n := tunnels[n].(listeners := tunnels[n].listeners + [c])];
      connectionMap := connectionMap[key := Ready(c)];
    }

    // A packet from a peer; the connection that gets its data, once there is one.
    method OnData(uri: Uri, srcVip: Vip) returns (r: Option<Future>)
      requires Valid()
      modifies this
      ensures Valid() && Step(old(Now()), Data(uri, srcVip)) == Some(Now())
      ensures r.Some? <==> uri in old(tunnelMap)
      ensures r.Some? ==> srcVip in connectionMap && r.value == connectionMap[srcVip]
      ensures if uri in old(tunnelMap) && srcVip !in old(connectionMap) then
                && r == Some(Ready(|old(conns)|))
                && conns == old(conns) + [Connection(srcVip, old(tunnelMap)[uri], false)]
              else Now() == old(Now())
    {
      StepKeepsInv(Now(), Data(uri, srcVip));
      if uri !in tunnelMap {
        return None;
      }
      if srcVip !in connectionMap {
        var c := CreateOn(srcVip, tunnelMap[uri]);
      }
      r := Some(connectionMap[srcVip]);
    }

    // The heartbeat thread sends a check to a tunnel of the map.
    method HeartCheck(uri: Uri)
      requires Valid() && uri in tunnelMap
      modifies `tunnels
      ensures Valid() && Step(old(Now()), Check(uri)) == Some(Now())
    {
      StepKeepsInv(Now(), Check(uri));
      var n := tunnelMap[uri];
      tunnels := tunnels[n := tunnels[n].(checks := tunnels[n].checks + 1)];
    }

    // A check comes back.
    method HeartResult(n: nat, alive: bool)
      requires Valid() && n < |tunnels| && tunnels[n].checks > 0
      modifies this
      ensures Valid() && Step(old(Now()), Beat(n, alive)) == Some(Now())
    {
      StepKeepsInv(Now(), Beat(n, alive));
      tunnels := tunnels[n := tunnels[n].(checks := tunnels[n].checks - 1)];
      if alive {
        return;
      }
      tunnelMap := tunnelMap - {tunnels[n].uri};
      Close(n);
    }

    // The close listeners close the connections, and those remove their keys.
    method Close(n: nat)
      requires n < |tunnels|
      modifies `connectionMap, `conns, `tunnels
      ensures Now() == CloseTunnel(old(Now()), n)
    {
      if tunnels[n].closed {
        return;
      }
      tunnels := tunnels[n := tunnels[n].(closed := true)];
      FireListeners(tunnels[n].listeners);
    }

    method FireListeners(cs: seq<nat>)
      modifies `connectionMap, `conns
      ensures conns == WithClosed(old(conns), cs)
      ensures connectionMap == old(connectionMap) - KeysOf(old(conns), cs)
    {
      hide WithClosed, KeysOf;
      ghost var before, keys := conns, connectionMap;
      NoneClosed(before, keys);
      assert cs[..0] == [];
      for i := 0 to |cs|
        invariant conns == WithClosed(before, cs[..i])
        invariant connectionMap == keys - KeysOf(before, cs[..i])
      {
        CloseOne(before, keys, cs, i);
        var c := cs[i];
        if c < |conns| {
          connectionMap := connectionMap - {conns[c].key};
          conns := conns[c := conns[c].(closed := true)];
        }
      }
      assert cs[..|cs|] == cs;
    }
  }

  lemma NoneClosed(conns: seq<Connection>, keys: map<Vip, Future>)
    ensures WithClosed(conns, []) == conns && keys - KeysOf(conns, []) == keys
  {
    assert KeysOf(conns, []) == {};
  }

  lemma CloseOne(conns: seq<Connection>, keys: map<Vip, Future>, cs: seq<nat>, i: nat)
    requires i < |cs|
    ensures var before := WithClosed(conns, cs[..i]);
            var left := keys - KeysOf(conns, cs[..i]);
            if cs[i] < |conns| then
              && WithClosed(conns, cs[..i + 1]) == before[cs[i] := before[cs[i]].(closed := true)]
              && keys - KeysOf(conns, cs[..i + 1]) == left - {before[cs[i]].key}
            else WithClosed(conns, cs[..i + 1]) == before && keys - KeysOf(conns, cs[..i + 1]) == left
  {
    assert forall c :: c in cs[..i + 1] <==> c in cs[..i] || c == cs[i];
    assert KeysOf(conns, cs[..i + 1]) ==
           KeysOf(conns, cs[..i]) + (if cs[i] < |conns| then {conns[cs[i]].key} else {});
  }
}
