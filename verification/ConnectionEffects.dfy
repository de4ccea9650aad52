/**
 What each event does to a node's connections and tunnels, and, over whole runs, whom each connection leads to: the
 address that the packet came from, or that the peer answered with.
 */
module ConnectionEffects {
  import opened Wrappers
  import opened Connections

  function Entry(t: Tables, k: Vip): Option<Future> {
    if k in t.connectionMap then Some(t.connectionMap[k]) else None
  }

  function TunnelAt(t: Tables, uri: Uri): Option<nat> {
    if uri in t.tunnelMap then Some(t.tunnelMap[uri]) else None
  }

  // The entries but for one key, the addresses but for one.
  ghost predicate EntriesKept(t: Tables, u: Tables, k: Vip) {
    forall j | j != k :: Entry(u, j) == Entry(t, j)
  }

  ghost predicate AddressesKept(t: Tables, u: Tables, uri: Uri) {
    forall w | w != uri :: TunnelAt(u, w) == TunnelAt(t, w)
  }

  // The tunnels but for one.
  ghost predicate TunnelsKept(t: Tables, u: Tables, n: nat) {
    |u.tunnels| == |t.tunnels| && forall m | 0 <= m < |t.tunnels| && m != n :: u.tunnels[m] == t.tunnels[m]
  }

  // A request makes a pending entry when there is none and the controller can be asked, and nothing else.
  lemma GetExactly(t: Tables, key: Vip, active: bool)
    ensures var u := Step(t, Get(key, active));
            && u.Some? && EntriesKept(t, u.value, key)
            && u.value.(connectionMap := t.connectionMap) == t
            && Entry(u.value, key) == if Entry(t, key).None? && active then Some(Pending) else Entry(t, key)
  {
  }

  // A failure takes the pending entry out, and only that.
  lemma FailedExactly(t: Tables, key: Vip)
    ensures var u := Step(t, Failed(key));
            && (u.Some? <==> Entry(t, key) == Some(Pending))
            && (u.Some? ==>
                  && Entry(u.value, key) == None && EntriesKept(t, u.value, key)
                  && u.value.(connectionMap := t.connectionMap) == t)
  {
  }

  // An answered offer makes a tunnel, found under its address unless that leads to an older one.
  lemma AnsweredExactly(t: Tables, uri: Uri)
    ensures var u := Step(t, Answered(uri));
            && u.Some? && |u.value.tunnels| == |t.tunnels| + 1 && u.value.tunnels[..|t.tunnels|] == t.tunnels
            && u.value.tunnels[|t.tunnels|] == Tunnel(uri, 0, false, [])
            && AddressesKept(t, u.value, uri)
            && TunnelAt(u.value, uri) == (if TunnelAt(t, uri).Some? then TunnelAt(t, uri) else Some(|t.tunnels|))
            && u.value.conns == t.conns && u.value.connectionMap == t.connectionMap
  {
  }

  // A packet through a tunnel of the map, from an address without an entry, is answered on that same tunnel: the new
  // entry is a connection on it, which it will close. Any other packet changes nothing.
  lemma DataExactly(t: Tables, uri: Uri, key: Vip)
    requires Inv(t)
    ensures var r := Step(t, Data(uri, key));
            && r.Some?
            && if TunnelAt(t, uri).Some? && Entry(t, key).None? then
                 var u := r.value;
                 var n, c := t.tunnelMap[uri], |t.conns|;
                 && n < |t.tunnels| && t.tunnels[n].uri == uri && !t.tunnels[n].closed
                 && u.conns == t.conns + [Connection(key, n, false)]
                 && Entry(u, key) == Some(Ready(c)) && EntriesKept(t, u, key)
                 && TunnelsKept(t, u, n) && u.tunnels[n] == t.tunnels[n].(listeners := t.tunnels[n].listeners + [c])
                 && u.tunnelMap == t.tunnelMap
               else r.value == t
  {
  }

  // The answer to a request completes the pending entry with a connection on a tunnel of its own.
  lemma EstablishedExactly(t: Tables, key: Vip, uri: Uri)
    ensures var r := Step(t, Established(key, uri));
            && (r.Some? <==> Entry(t, key) == Some(Pending))
            && (r.Some? ==>
                  var u := r.value;
                  var n, c := |t.tunnels|, |t.conns|;
                  && u.conns == t.conns + [Connection(key, n, false)]
                  && Entry(u, key) == Some(Ready(c)) && EntriesKept(t, u, key)
                  && u.tunnels == t.tunnels + [Tunnel(uri, 0, false, [c])]
                  && AddressesKept(t, u, uri)
                  && TunnelAt(u, uri) == (if TunnelAt(t, uri).Some? then TunnelAt(t, uri) else Some(n)))
  {
    var none: seq<nat> := [];
    assert none + [|t.conns|] == [|t.conns|];
    var mid := t.tunnels + [Tunnel(uri, 0, false, [])];
    assert mid[|t.tunnels| := Tunnel(uri, 0, false, [|t.conns|])] == t.tunnels + [Tunnel(uri, 0, false, [|t.conns|])];
  }

  // A heartbeat goes out on the tunnel that the address leads to.
  lemma CheckExactly(t: Tables, uri: Uri)
    requires Inv(t)
    ensures var r := Step(t, Check(uri));
            && (r.Some? <==> TunnelAt(t, uri).Some?)
            && (r.Some? ==>
                  var n := t.tunnelMap[uri];
                  && n < |t.tunnels| && TunnelsKept(t, r.value, n)
                  && r.value.tunnels[n] == t.tunnels[n].(checks := t.tunnels[n].checks + 1)
                  && r.value.(tunnels := t.tunnels) == t)
  {
  }

  // One that comes back is counted off; one that does not takes the address out of the map and closes its tunnel with
  // exactly the connections that were built on it, whose entries go.
  lemma BeatExactly(t: Tables, n: nat, alive: bool)
    requires Inv(t)
    ensures var r := Step(t, Beat(n, alive));
            && (r.Some? <==> n < |t.tunnels| && t.tunnels[n].checks > 0)
            && (r.Some? ==>
                  var u := r.value;
                  && TunnelsKept(t, u, n)
                  && u.tunnels[n]
                     == t.tunnels[n].(checks := t.tunnels[n].checks - 1, closed := t.tunnels[n].closed || !alive)
                  && AddressesKept(t, u, t.tunnels[n].uri)
                  && TunnelAt(u, t.tunnels[n].uri) == (if alive then TunnelAt(t, t.tunnels[n].uri) else None))
  {
  }

  lemma BeatConnections(t: Tables, n: nat, alive: bool)
    requires Inv(t) && Step(t, Beat(n, alive)).Some?
    ensures var u := Step(t, Beat(n, alive)).value;
            && |u.conns| == |t.conns|
            && (forall c | 0 <= c < |t.conns| ::
                  u.conns[c] == t.conns[c].(closed := t.conns[c].closed || (t.conns[c].tunnel == n && !alive)))
            && (forall k :: Entry(u, k) == if LedThrough(t, k, n) && !alive then None else Entry(t, k))
  {
    if !alive && !t.tunnels[n].closed {
      var cs := t.tunnels[n].listeners;
      forall k ensures k in KeysOf(t.conns, cs) <==> LedThrough(t, k, n) {
        if LedThrough(t, k, n) {
          assert t.connectionMap[k].conn in cs;
        }
      }
    }
  }

  // The finished connection to a key is on a tunnel.
  predicate LedThrough(t: Tables, k: Vip, n: nat) {
    && k in t.connectionMap && t.connectionMap[k].Ready?
    && t.connectionMap[k].conn < |t.conns| && t.conns[t.connectionMap[k].conn].tunnel == n
  }

  // The connection that an event makes: to whom, and under which address.
  function Builds(t: Tables, e: Event): seq<(Vip, Uri)> {
    match e
    case Established(key, uri) => [(key, uri)]
    case Data(uri, key) => if TunnelAt(t, uri).Some? && Entry(t, key).None? then [(key, uri)] else []
    case _ => []
  }

  function Built(t: Tables, es: seq<Event>): seq<(Vip, Uri)>
    decreases |es|
  {
    if es == [] || Step(t, es[0]).None? then [] else Builds(t, es[0]) + Built(Step(t, es[0]).value, es[1..])
  }

  // The connections by key and the address that their tunnel leads to.
  ghost predicate Leads(t: Tables, ps: seq<(Vip, Uri)>) {
    && |ps| == |t.conns|
    && forall c | 0 <= c < |ps| ::
         t.conns[c].tunnel < |t.tunnels| && ps[c] == (t.conns[c].key, t.tunnels[t.conns[c].tunnel].uri)
  }

  lemma LeadsStep(t: Tables, e: Event, ps: seq<(Vip, Uri)>)
    requires Inv(t) && Leads(t, ps) && Step(t, e).Some?
    ensures Leads(Step(t, e).value, ps + Builds(t, e))
  {
    hide Inv, Step;
    match e
    case Get(key, active) => GetExactly(t, key, active);
    case Established(key, uri) => EstablishedExactly(t, key, uri);
    case Failed(key) => FailedExactly(t, key);
    case Answered(uri) => AnsweredExactly(t, uri);
    case Data(uri, key) => DataExactly(t, uri, key);
    case Check(uri) => CheckExactly(t, uri);
    case Beat(n, alive) =>
      BeatExactly(t, n, alive);
      BeatConnections(t, n, alive);
  }

  lemma {:induction false} LeadsRun(t: Tables, es: seq<Event>, ps: seq<(Vip, Uri)>)
    requires Inv(t) && Leads(t, ps) && Run(t, es).Some?
    ensures Leads(Run(t, es).value, ps + Built(t, es))
    decreases |es|
  {
    if es == [] {
      assert ps + [] == ps;
    } else {
      var u := Step(t, es[0]).value;
      LeadsStep(t, es[0], ps);
      StepKeepsInv(t, es[0]);
      LeadsRun(u, es[1..], ps + Builds(t, es[0]));
      assert ps + Builds(t, es[0]) + Built(u, es[1..]) == ps + Built(t, es);
    }
  }

  // In every run each connection leads to the address that it was made for, in order: what is sent to a key that a
  // packet opened goes back to where the packet came from.
  lemma ConnectionsLeadBack(es: seq<Event>, t: Tables)
    requires Reached(es, t)
    ensures Leads(t, Built(EMPTY, es))
  {
    EmptyInv();
    LeadsRun(EMPTY, es, []);
    assert [] + Built(EMPTY, es) == Built(EMPTY, es);
  }
}
