/**
 The controller's address leases as a protocol of atomic steps. Handlers of one channel run one after
 another; handlers of different channels, the heartbeat sweep, closes, close listeners and the
 administrator's changes interleave freely.
 */
module Lease {
  import opened Wrappers

  // Addresses by their text, as the program's maps hold them; hardware addresses by a number.
  type Vip = string
  type Mac = int

  // Texts that are no hardware address have negative numbers.
  predicate Malformed(m: Mac) {
    m < 0
  }

  type Chan = nat

  datatype Code = VipBound | NotEnough | SysError | MacFormat

  // A close listener: `ref.set(null)` of the lease table, or `channelMap.remove(vip)` of the index.
  datatype Listener = Release(vip: Vip) | Unindex(vip: Vip)

  datatype Node = Node(mac: Mac, vip: Vip)

  // Where the registration handler of a channel stands; mac is the hardware address of the request.
  datatype Phase =
    | Idle
    | Looking(mac: Mac)
    | Found(mac: Mac, vip: Vip)
    | Listing(mac: Mac)
    | Scanning(mac: Mac, stored: set<Vip>, left: set<Vip>)
    | Bound(mac: Mac, vip: Vip, known: bool)
    | Saving(mac: Mac, vip: Vip)
    | Naming(mac: Mac, vip: Vip)
    | Indexing(mac: Mac, vip: Vip)
    | Putting(mac: Mac, vip: Vip)
    | Replying(mac: Mac, vip: Vip)
    | Failing(code: Code)
    | Rejected(code: Code)

  // Where the heartbeat sweep stands with the entry it took.
  datatype Sweep = Resting | Picked(vip: Vip, chan: Chan) | Evicting(vip: Vip)

  datatype State = State(
    slots: map<Vip, Option<Chan>>,
    nodes: map<Mac, Vip>,
    closed: set<Chan>,
    attr: map<Chan, Node>,
    phases: map<Chan, Phase>,
    pending: multiset<(Chan, Listener)>,
    channelMap: map<Vip, Chan>,
    sweep: Sweep)
  {
    function Phase(c: Chan): Phase {
      if c in phases then phases[c] else Idle
    }

    function Goto(c: Chan, p: Phase): State {
      this.(phases := phases[c := p])
    }

    predicate Open(c: Chan) {
      c !in closed
    }

    predicate Holds(c: Chan, v: Vip) {
      v in slots && slots[v] == Some(c)
    }
  }

  datatype Event =
    | Regist(chan: Chan, mac: Mac)
    | Query(chan: Chan)
    | List(chan: Chan)
    | Cas(chan: Chan)
    | TryNext(chan: Chan, vip: Vip)
    | GiveUp(chan: Chan)
    | AddRelease(chan: Chan)
    | Save(chan: Chan)
    | SetAttr(chan: Chan)
    | AddUnindex(chan: Chan)
    | Put(chan: Chan)
    | Reply(chan: Chan)
    | Fail(chan: Chan)
    | Close(chan: Chan)
    | Fire(chan: Chan, listener: Listener)
    | SweepTake(vip: Vip)
    | SweepClose
    | SweepRemove
    | UpdateNode(mac: Mac, vip: Vip)
    | DeleteNode(mac: Mac)

  // Nothing registered, every address of the pool free.
  function Start(pool: set<Vip>): State {
    State(map v | v in pool :: None, map[], {}, map[], map[], multiset{}, map[], Resting)
  }

  // Events of a registration handler, which move their own channel only: seeking an address, up to its
  // release listener, and settling, up to the reply.
  predicate Seeks(e: Event) {
    e.Regist? || e.Query? || e.List? || e.Cas? || e.TryNext? || e.GiveUp? || e.AddRelease?
  }

  predicate Settles(e: Event) {
    e.Save? || e.SetAttr? || e.AddUnindex? || e.Put? || e.Reply? || e.Fail?
  }

  predicate HandlerStep(e: Event) {
    Seeks(e) || Settles(e)
  }

  // One atomic step, or None when the event cannot happen in the state.
  function Step(s: State, e: Event): Option<State> {
    if Seeks(e) then SeekStep(s, e) else if Settles(e) then SettleStep(s, e) else OutsideStep(s, e)
  }

  function SeekStep(s: State, e: Event): Option<State>
    requires Seeks(e)
  {
    match e
    case Regist(c, m) =>
      if !(s.Phase(c).Idle? || s.Phase(c).Rejected?) then None
      else if c in s.attr then Some(s.Goto(c, Indexing(m, s.attr[c].vip)))
      else Some(s.Goto(c, if Malformed(m) then Failing(MacFormat) else Looking(m)))
    case Query(c) =>
      if !s.Phase(c).Looking? then None
      else
        var m := s.Phase(c).mac;
        Some(s.Goto(c, if m in s.nodes then Found(m, s.nodes[m]) else Listing(m)))
    case List(c) =>
      if !s.Phase(c).Listing? then None
      else Some(s.Goto(c, Scanning(s.Phase(c).mac, s.nodes.Values, s.slots.Keys)))
    case Cas(c) =>
      if !s.Phase(c).Found? then None
      else
        var v := s.Phase(c).vip;
        if v !in s.slots then Some(s.Goto(c, Failing(SysError)))
        else if s.slots[v] != None then Some(s.Goto(c, Failing(VipBound)))
        else Some(s.(slots := s.slots[v := Some(c)]).Goto(c, Bound(s.Phase(c).mac, v, true)))
    case TryNext(c, v) =>
      if !s.Phase(c).Scanning? || v !in s.Phase(c).left || v !in s.slots then None
      else
        var p := s.Phase(c);
        if v in p.stored || s.slots[v] != None then Some(s.Goto(c, p.(left := p.left - {v})))
        else Some(s.(slots := s.slots[v := Some(c)]).Goto(c, Bound(p.mac, v, false)))
    case GiveUp(c) =>
      if !s.Phase(c).Scanning? || s.Phase(c).left != {} then None
      else Some(s.Goto(c, Failing(NotEnough)))
    case AddRelease(c) =>
      if !s.Phase(c).Bound? then None
      else
        var p := s.Phase(c);
        Some(s.(pending := s.pending + multiset{(c, Release(p.vip))})
              .Goto(c, if p.known then Naming(p.mac, p.vip) else Saving(p.mac, p.vip)))
  }

  function SettleStep(s: State, e: Event): Option<State>
    requires Settles(e)
  {
    match e
    case Save(c) =>
      if !s.Phase(c).Saving? then None
      else
        var p := s.Phase(c);
        if p.mac in s.nodes || p.vip in s.nodes.Values then Some(s.Goto(c, Failing(SysError)))
        else Some(s.(nodes := s.nodes[p.mac := p.vip]).Goto(c, Naming(p.mac, p.vip)))
    case SetAttr(c) =>
      if !s.Phase(c).Naming? then None
      else
        var p := s.Phase(c);
        Some(s.(attr := s.attr[c := Node(p.mac, p.vip)]).Goto(c, Indexing(p.mac, p.vip)))
    case AddUnindex(c) =>
      if !s.Phase(c).Indexing? then None
      else
        var p := s.Phase(c);
        Some(s.(pending := s.pending + multiset{(c, Unindex(p.vip))}).Goto(c, Putting(p.mac, p.vip)))
    case Put(c) =>
      if !s.Phase(c).Putting? then None
      else
        var p := s.Phase(c);
        Some(s.(channelMap := s.channelMap[p.vip := c]).Goto(c, Replying(p.mac, p.vip)))
    case Reply(c) =>
      if !s.Phase(c).Replying? then None else Some(s.Goto(c, Idle))
    case Fail(c) =>
      if !s.Phase(c).Failing? then None
      else Some(s.(closed := s.closed + {c}).Goto(c, Rejected(s.Phase(c).code)))
  }

  // Closes, close listeners, the sweep and the administrator.
  function OutsideStep(s: State, e: Event): Option<State>
    requires !HandlerStep(e)
  {
    match e
    case Close(c) =>
      Some(s.(closed := s.closed + {c}))
    case Fire(c, l) =>
      if s.Open(c) || s.pending[(c, l)] == 0 then None
      else
        var t := s.(pending := s.pending - multiset{(c, l)});
        Some(match l
             case Release(v) => if v in t.slots then t.(slots := t.slots[v := None]) else t
             case Unindex(v) => t.(channelMap := t.channelMap - {v}))
    case SweepTake(v) =>
      if !s.sweep.Resting? || v !in s.channelMap then None
      else Some(s.(sweep := Picked(v, s.channelMap[v])))
    case SweepClose =>
      if !s.sweep.Picked? then None
      else Some(s.(closed := s.closed + {s.sweep.chan}, sweep := Evicting(s.sweep.vip)))
    case SweepRemove =>
      if !s.sweep.Evicting? then None
      else Some(s.(channelMap := s.channelMap - {s.sweep.vip}, sweep := Resting))
    case UpdateNode(m, v) =>
      if m !in s.nodes || v in (s.nodes - {m}).Values then None
      else Some(s.(nodes := s.nodes[m := v]))
    case DeleteNode(m) =>
      Some(s.(nodes := s.nodes - {m}))
  }

  // A channel indexed and answered: addChannel and the reply.
  function Indexed(s: State, c: Chan, v: Vip): State {
    s.(pending := s.pending + multiset{(c, Unindex(v))}, channelMap := s.channelMap[v := c],
       phases := s.phases[c := Idle])
  }

  function Run(s: State, es: seq<Event>): Option<State>
    decreases |es|
  {
    if es == [] then Some(s)
    else
      var t :- Step(s, es[0]);
      Run(t, es[1..])
  }

  lemma {:induction false} RunAppend(s: State, es: seq<Event>, fs: seq<Event>)
    ensures Run(s, es + fs) ==
            var t := Run(s, es);
            if t.None? then None else Run(t.value, fs)
    decreases |es|
  {
    if es == [] {
      assert es + fs == fs;
    } else {
      assert (es + fs)[0] == es[0] && (es + fs)[1..] == es[1..] + fs;
      var t := Step(s, es[0]);
      if t.Some? {
        RunAppend(t.value, es[1..], fs);
      }
    }
  }

  // Between its compare-and-set and its addListener.
  predicate Between(s: State, c: Chan, v: Vip) {
    s.Phase(c).Bound? && s.Phase(c).vip == v
  }

  // A slot's holder owns exactly one unfired release listener for it, or is about to add it; nobody
  // else owns one.
  ghost predicate SlotsOwned(s: State) {
    && (forall c, v :: s.pending[(c, Release(v))] == if s.Holds(c, v) && !Between(s, c, v) then 1 else 0)
    && (forall c, v :: Between(s, c, v) ==> s.Holds(c, v))
  }

  // A channel that is on the way to a name, or has one, still holds its address unless it was closed.
  ghost predicate NamesHeld(s: State) {
    && (forall c :: s.Open(c) && (s.Phase(c).Saving? || s.Phase(c).Naming?) ==> s.Holds(c, s.Phase(c).vip))
    && (forall c :: s.Open(c) && c in s.attr ==> s.Holds(c, s.attr[c].vip))
  }

  // A handler works on the name its channel has, and names a channel only once.
  ghost predicate NamesUsed(s: State) {
    && (forall c :: s.Phase(c).Indexing? || s.Phase(c).Putting? || s.Phase(c).Replying? ==>
                      c in s.attr && s.attr[c].vip == s.Phase(c).vip)
    && (forall c :: c in s.attr ==>
                      s.Phase(c).Idle? || s.Phase(c).Rejected? || s.Phase(c).Indexing? || s.Phase(c).Putting?
                      || s.Phase(c).Replying?)
  }

  ghost predicate IndexSafe(s: State) {
    forall v :: v in s.channelMap && s.Open(s.channelMap[v]) ==>
                  s.channelMap[v] in s.attr && s.attr[s.channelMap[v]].vip == v
  }

  ghost predicate NodesUnique(s: State) {
    forall m, n :: m in s.nodes && n in s.nodes && s.nodes[m] == s.nodes[n] ==> m == n
  }

  ghost predicate RejectedClosed(s: State) {
    forall c :: s.Phase(c).Rejected? ==> !s.Open(c)
  }

  ghost predicate Inv(s: State) {
    && SlotsOwned(s) && NamesHeld(s) && NamesUsed(s) && IndexSafe(s) && NodesUnique(s) && RejectedClosed(s)
  }

  // Moving on without touching the tables: allowed into any phase that claims nothing new.
  lemma MoveKeeps(s: State, c: Chan, p: Phase)
    requires Inv(s)
    requires !s.Phase(c).Bound? && !p.Bound? && !p.Saving? && !p.Naming?
    requires p.Rejected? ==> !s.Open(c)
    requires p.Indexing? || p.Putting? || p.Replying? ==> c in s.attr && s.attr[c].vip == p.vip
    requires c in s.attr ==> p.Idle? || p.Rejected? || p.Indexing? || p.Putting? || p.Replying?
    ensures Inv(s.Goto(c, p))
  {
    var t := s.Goto(c, p);
    assert forall d :: t.Phase(d) == if d == c then p else s.Phase(d);
    assert forall d, v :: t.Holds(d, v) == s.Holds(d, v) && Between(t, d, v) == Between(s, d, v);
    assert forall d :: t.Open(d) == s.Open(d);
  }

  lemma CloseKeeps(s: State, c: Chan)
    requires Inv(s)
    ensures Inv(s.(closed := s.closed + {c}))
  {
    var t := s.(closed := s.closed + {c});
    assert forall d :: t.Phase(d) == s.Phase(d) && (t.Open(d) ==> s.Open(d));
    assert forall d, v :: t.Holds(d, v) == s.Holds(d, v) && Between(t, d, v) == Between(s, d, v);
  }

  lemma AcquireKeeps(s: State, c: Chan, v: Vip, p: Phase)
    requires Inv(s) && v in s.slots && s.slots[v] == None
    requires s.Phase(c).Found? || s.Phase(c).Scanning?
    requires p.Bound? && p.vip == v
    ensures Inv(s.(slots := s.slots[v := Some(c)]).Goto(c, p))
  {
    var t := s.(slots := s.slots[v := Some(c)]).Goto(c, p);
    assert forall d :: t.Phase(d) == if d == c then p else s.Phase(d);
    assert forall d, u :: t.Holds(d, u) == if u == v then d == c else s.Holds(d, u);
    assert forall d, u :: Between(t, d, u) == if d == c then u == v else Between(s, d, u);
    assert forall d :: t.Open(d) == s.Open(d);
    assert forall d :: !s.Holds(d, v);
  }

  lemma AddReleaseKeeps(s: State, c: Chan, p: Phase)
    requires Inv(s) && s.Phase(c).Bound?
    requires (p.Saving? || p.Naming?) && p.vip == s.Phase(c).vip
    ensures Inv(s.(pending := s.pending + multiset{(c, Release(p.vip))}).Goto(c, p))
  {
    var v := p.vip;
    var t := s.(pending := s.pending + multiset{(c, Release(v))}).Goto(c, p);
    assert forall d :: t.Phase(d) == if d == c then p else s.Phase(d);
    assert forall d, u :: t.Holds(d, u) == s.Holds(d, u);
    assert forall d, u :: Between(t, d, u) == (d != c && Between(s, d, u));
    assert forall d :: t.Open(d) == s.Open(d);
    assert Between(s, c, v) && s.pending[(c, Release(v))] == 0;
    forall d, u
      ensures t.pending[(d, Release(u))] == if t.Holds(d, u) && !Between(t, d, u) then 1 else 0
    {
      if d == c && u != v {
        assert !Between(s, c, u);
      }
    }
  }

  lemma SaveKeeps(s: State, c: Chan, p: Phase)
    requires Inv(s) && s.Phase(c).Saving? && p == Naming(s.Phase(c).mac, s.Phase(c).vip)
    requires p.vip !in s.nodes.Values
    ensures Inv(s.(nodes := s.nodes[p.mac := p.vip]).Goto(c, p))
  {
    var t := s.(nodes := s.nodes[p.mac := p.vip]).Goto(c, p);
    assert forall d :: t.Phase(d) == if d == c then p else s.Phase(d);
    assert forall d, v :: t.Holds(d, v) == s.Holds(d, v) && Between(t, d, v) == Between(s, d, v);
    assert forall d :: t.Open(d) == s.Open(d);
    assert forall m :: m in s.nodes ==> s.nodes[m] in s.nodes.Values;
  }

  lemma SetAttrKeeps(s: State, c: Chan)
    requires Inv(s) && s.Phase(c).Naming?
    ensures var p := s.Phase(c);
            Inv(s.(attr := s.attr[c := Node(p.mac, p.vip)]).Goto(c, Indexing(p.mac, p.vip)))
  {
    var p := s.Phase(c);
    var t := s.(attr := s.attr[c := Node(p.mac, p.vip)]).Goto(c, Indexing(p.mac, p.vip));
    assert forall d :: t.Phase(d) == if d == c then Indexing(p.mac, p.vip) else s.Phase(d);
    assert forall d, v :: t.Holds(d, v) == s.Holds(d, v) && Between(t, d, v) == Between(s, d, v);
    assert forall d :: t.Open(d) == s.Open(d);
    assert c !in s.attr;
  }

  lemma AddUnindexKeeps(s: State, c: Chan)
    requires Inv(s) && s.Phase(c).Indexing?
    ensures var p := s.Phase(c);
            Inv(s.(pending := s.pending + multiset{(c, Unindex(p.vip))}).Goto(c, Putting(p.mac, p.vip)))
  {
    var m, v := s.Phase(c).mac, s.Phase(c).vip;
    var t := s.(pending := s.pending + multiset{(c, Unindex(v))});
    assert forall d, u :: t.pending[(d, Release(u))] == s.pending[(d, Release(u))];
    assert forall d :: t.Phase(d) == s.Phase(d) && t.Open(d) == s.Open(d);
    assert forall d, u :: t.Holds(d, u) == s.Holds(d, u) && Between(t, d, u) == Between(s, d, u);
    assert Inv(t);
    MoveKeeps(t, c, Putting(m, v));
  }

  lemma PutKeeps(s: State, c: Chan)
    requires Inv(s) && s.Phase(c).Putting?
    ensures var p := s.Phase(c);
            Inv(s.(channelMap := s.channelMap[p.vip := c]).Goto(c, Replying(p.mac, p.vip)))
  {
    var m, v := s.Phase(c).mac, s.Phase(c).vip;
    IndexChangeKeeps(s, s.channelMap[v := c]);
    MoveKeeps(s.(channelMap := s.channelMap[v := c]), c, Replying(m, v));
  }

  // The index may lose entries, or gain an entry of a channel under its own name.
  lemma IndexChangeKeeps(s: State, m: map<Vip, Chan>)
    requires Inv(s)
    requires forall v :: v in m ==>
                (v in s.channelMap && m[v] == s.channelMap[v]) || (m[v] in s.attr && s.attr[m[v]].vip == v)
    ensures Inv(s.(channelMap := m))
  {
    var t := s.(channelMap := m);
    assert forall d :: t.Phase(d) == s.Phase(d) && t.Open(d) == s.Open(d);
    assert forall d, v :: t.Holds(d, v) == s.Holds(d, v) && Between(t, d, v) == Between(s, d, v);
  }

  // A release listener that fires frees the slot of its own channel, which is closed.
  lemma ReleaseKeeps(s: State, c: Chan, v: Vip)
    requires Inv(s) && !s.Open(c) && s.pending[(c, Release(v))] > 0
    ensures s.Holds(c, v) && !Between(s, c, v)
    ensures Inv(s.(pending := s.pending - multiset{(c, Release(v))}, slots := s.slots[v := None]))
  {
    var t := s.(pending := s.pending - multiset{(c, Release(v))}, slots := s.slots[v := None]);
    assert forall d :: t.Phase(d) == s.Phase(d) && t.Open(d) == s.Open(d);
    assert forall d, u :: t.Holds(d, u) == (u != v && s.Holds(d, u)) && Between(t, d, u) == Between(s, d, u);
    assert forall d :: s.Holds(d, v) ==> d == c;
  }

  lemma UnindexKeeps(s: State, c: Chan, v: Vip)
    requires Inv(s) && s.pending[(c, Unindex(v))] > 0
    ensures Inv(s.(pending := s.pending - multiset{(c, Unindex(v))}, channelMap := s.channelMap - {v}))
  {
    var t := s.(pending := s.pending - multiset{(c, Unindex(v))});
    assert forall d, u :: t.pending[(d, Release(u))] == s.pending[(d, Release(u))];
    assert forall d :: t.Phase(d) == s.Phase(d) && t.Open(d) == s.Open(d);
    assert forall d, u :: t.Holds(d, u) == s.Holds(d, u) && Between(t, d, u) == Between(s, d, u);
    assert Inv(t);
    IndexChangeKeeps(t, s.channelMap - {v});
  }

  lemma NodesChangeKeeps(s: State, nodes: map<Mac, Vip>)
    requires Inv(s) && forall m, n :: m in nodes && n in nodes && nodes[m] == nodes[n] ==> m == n
    ensures Inv(s.(nodes := nodes))
  {
    var t := s.(nodes := nodes);
    assert forall d :: t.Phase(d) == s.Phase(d) && t.Open(d) == s.Open(d);
    assert forall d, v :: t.Holds(d, v) == s.Holds(d, v) && Between(t, d, v) == Between(s, d, v);
  }

  lemma SweepKeeps(s: State, w: Sweep)
    requires Inv(s)
    ensures Inv(s.(sweep := w))
  {
    var t := s.(sweep := w);
    assert forall d :: t.Phase(d) == s.Phase(d) && t.Open(d) == s.Open(d);
    assert forall d, v :: t.Holds(d, v) == s.Holds(d, v) && Between(t, d, v) == Between(s, d, v);
  }

  lemma UniqueAfterUpdate(nodes: map<Mac, Vip>, m: Mac, v: Vip)
    requires forall i, j :: i in nodes && j in nodes && nodes[i] == nodes[j] ==> i == j
    requires v !in (nodes - {m}).Values
    ensures var u := nodes[m := v];
            forall i, j :: i in u && j in u && u[i] == u[j] ==> i == j
  {
    assert forall i :: i in nodes - {m} ==> (nodes - {m})[i] in (nodes - {m}).Values;
    assert forall i :: i in nodes && i != m ==> i in nodes - {m};
  }

  lemma SeekKeepsInv(s: State, e: Event)
    requires Inv(s) && Seeks(e) && SeekStep(s, e).Some?
    ensures Inv(SeekStep(s, e).value)
  {
    hide SlotsOwned, NamesHeld, IndexSafe, NodesUnique, RejectedClosed;
    var t := SeekStep(s, e).value;
    match e
    case Regist(c, m) => MoveKeeps(s, c, t.Phase(c));
    case Query(c) => MoveKeeps(s, c, t.Phase(c));
    case List(c) => MoveKeeps(s, c, t.Phase(c));
    case Cas(c) =>
      var v := s.Phase(c).vip;
      if v in s.slots && s.slots[v] == None {
        AcquireKeeps(s, c, v, Bound(s.Phase(c).mac, v, true));
      } else {
        MoveKeeps(s, c, t.Phase(c));
      }
    case TryNext(c, v) =>
      if v !in s.Phase(c).stored && s.slots[v] == None {
        AcquireKeeps(s, c, v, Bound(s.Phase(c).mac, v, false));
      } else {
        MoveKeeps(s, c, t.Phase(c));
      }
    case GiveUp(c) => MoveKeeps(s, c, t.Phase(c));
    case AddRelease(c) => AddReleaseKeeps(s, c, t.Phase(c));
  }

  lemma SettleKeepsInv(s: State, e: Event)
    requires Inv(s) && Settles(e) && SettleStep(s, e).Some?
    ensures Inv(SettleStep(s, e).value)
  {
    hide SlotsOwned, NamesHeld, IndexSafe, NodesUnique, RejectedClosed;
    match e
    case Save(c) =>
      var p := s.Phase(c);
      if p.mac in s.nodes || p.vip in s.nodes.Values {
        MoveKeeps(s, c, Failing(SysError));
      } else {
        SaveKeeps(s, c, Naming(p.mac, p.vip));
      }
    case SetAttr(c) => SetAttrKeeps(s, c);
    case AddUnindex(c) => AddUnindexKeeps(s, c);
    case Put(c) => PutKeeps(s, c);
    case Reply(c) => MoveKeeps(s, c, Idle);
    case Fail(c) =>
      CloseKeeps(s, c);
      MoveKeeps(s.(closed := s.closed + {c}), c, Rejected(s.Phase(c).code));
  }

  lemma OutsideKeepsInv(s: State, e: Event)
    requires Inv(s) && !HandlerStep(e) && OutsideStep(s, e).Some?
    ensures Inv(OutsideStep(s, e).value)
  {
    hide SlotsOwned, NamesHeld, NamesUsed, IndexSafe, RejectedClosed;
    var t := OutsideStep(s, e).value;
    match e
    case Close(c) => CloseKeeps(s, c);
    case Fire(c, l) =>
      match l {
        case Release(v) => ReleaseKeeps(s, c, v);
        case Unindex(v) => UnindexKeeps(s, c, v);
      }
    case SweepTake(v) => SweepKeeps(s, t.sweep);
    case SweepClose =>
      CloseKeeps(s, s.sweep.chan);
      SweepKeeps(s.(closed := s.closed + {s.sweep.chan}), t.sweep);
    case SweepRemove =>
      IndexChangeKeeps(s, s.channelMap - {s.sweep.vip});
      SweepKeeps(s.(channelMap := s.channelMap - {s.sweep.vip}), Resting);
    case UpdateNode(m, v) =>
      UniqueAfterUpdate(s.nodes, m, v);
      NodesChangeKeeps(s, s.nodes[m := v]);
    case DeleteNode(m) => NodesChangeKeeps(s, s.nodes - {m});
  }

  lemma StepKeepsInv(s: State, e: Event)
    requires Inv(s) && Step(s, e).Some?
    ensures Inv(Step(s, e).value)
  {
    hide Inv, SeekStep, SettleStep, OutsideStep;
    if Seeks(e) {
      SeekKeepsInv(s, e);
    } else if Settles(e) {
      SettleKeepsInv(s, e);
    } else {
      OutsideKeepsInv(s, e);
    }
  }

  lemma {:induction false} RunKeepsInv(s: State, es: seq<Event>)
    requires Inv(s) && Run(s, es).Some?
    ensures Inv(Run(s, es).value)
    decreases |es|
  {
    if es != [] {
      StepKeepsInv(s, es[0]);
      RunKeepsInv(Step(s, es[0]).value, es[1..]);
    }
  }
}
