/**
 The controller's registration service and its channel index, run one operation at a time. Every
 operation is a run of the lease protocol, and between operations the two indexes agree.
 */
module ControlService {
  import opened Wrappers
  import opened Lease

  datatype Response = Success(vip: Vip) | Error(code: Code)

  // Between operations: no handler under way, closed channels have fired their listeners, a slot is held
  // by the channel that carries its address, and the index and the occupied slots are the same map.
  ghost predicate Calm(s: State) {
    Quiet(s) && Live(s) && Matching(s)
  }

  ghost predicate Quiet(s: State) {
    && s.sweep.Resting?
    && (forall c :: s.Phase(c).Idle? || s.Phase(c).Rejected?)
  }

  ghost predicate Live(s: State) {
    PendingOpen(s.pending, s.closed) && PendingNamed(s.pending, s.attr) && NamedPending(s.pending, s.attr, s.closed)
  }

  // Only open channels have listeners left to fire.
  ghost predicate PendingOpen(pending: multiset<(Chan, Listener)>, closed: set<Chan>) {
    forall c, l :: pending[(c, l)] > 0 ==> c !in closed
  }

  // The removal of an index entry is that of the channel's own address.
  ghost predicate PendingNamed(pending: multiset<(Chan, Listener)>, attr: map<Chan, Node>) {
    forall c, v :: pending[(c, Unindex(v))] > 0 ==> c in attr && attr[c].vip == v
  }

  ghost predicate NamedPending(pending: multiset<(Chan, Listener)>, attr: map<Chan, Node>, closed: set<Chan>) {
    forall c :: c in attr && c !in closed ==> pending[(c, Unindex(attr[c].vip))] > 0
  }

  ghost predicate Matching(s: State) {
    && (forall c, v :: s.Holds(c, v) ==> c in s.attr && s.attr[c].vip == v)
    && s.channelMap == Occupied(s.slots)
  }

  ghost function Occupied(slots: map<Vip, Option<Chan>>): map<Vip, Chan> {
    map v | v in slots && slots[v].Some? :: slots[v].value
  }

  // Pool addresses that applyVIP can take.
  ghost predicate Free(slots: map<Vip, Option<Chan>>, nodes: map<Mac, Vip>, v: Vip) {
    v in slots && slots[v] == None && v !in nodes.Values
  }

  ghost predicate NoneFree(slots: map<Vip, Option<Chan>>, nodes: map<Mac, Vip>) {
    forall v :: !Free(slots, nodes, v)
  }

  lemma Run1(s: State, e: Event)
    ensures Run(s, [e]) == Step(s, e)
  {
    assert [e][1..] == [];
    var t := Step(s, e);
    if t.Some? {
      assert Run(t.value, []) == t;
    }
  }

  lemma RunThen(s: State, es: seq<Event>, t: State, e: Event)
    requires Run(s, es) == Some(t)
    ensures Run(s, es + [e]) == Step(t, e)
  {
    RunAppend(s, es, [e]);
    Run1(t, e);
  }

  lemma EmptyOrNot(left: set<Vip>)
    ensures left == {} || exists v :: v in left
  {
    if forall v :: v !in left {
      assert left == {};
    }
  }

  // The slot taken and its release listener added.
  function Taken(s: State, c: Chan, v: Vip, p: Phase): State {
    s.(slots := s.slots[v := Some(c)], pending := s.pending + multiset{(c, Release(v))}, phases := s.phases[c := p])
  }

  // And the node stored.
  function Saved(s: State, c: Chan, mac: Mac, v: Vip): State {
    Taken(s, c, v, Naming(mac, v)).(nodes := s.nodes[mac := v])
  }

  // And the channel named.
  function Named(s: State, c: Chan, mac: Mac, v: Vip): State {
    Taken(s, c, v, Indexing(mac, v)).(nodes := s.nodes[mac := v], attr := s.attr[c := Node(mac, v)])
  }

  // applyChannel on a free slot.
  lemma ApplyChannelRun(s: State, c: Chan, mac: Mac, v: Vip)
    requires s.Phase(c) == Found(mac, v) && v in s.slots && s.slots[v] == None
    ensures Run(s, [Cas(c)] + [AddRelease(c)]) == Some(Taken(s, c, v, Naming(mac, v)))
  {
    var t := Step(s, Cas(c)).value;
    Run1(s, Cas(c));
    RunThen(s, [Cas(c)], t, AddRelease(c));
    assert s.phases[c := Bound(mac, v, true)][c := Naming(mac, v)] == s.phases[c := Naming(mac, v)];
  }

  // One turn of applyVIP: take the slot, or go on.
  lemma TakeRun(s: State, es: seq<Event>, c: Chan, p: Phase, v: Vip)
    requires p.Scanning? && Run(s, es) == Some(s.Goto(c, p)) && v in p.left && v in s.slots
    ensures v !in p.stored && s.slots[v] == None ==>
              Run(s, es + [TryNext(c, v)] + [AddRelease(c)]) == Some(Taken(s, c, v, Saving(p.mac, v)))
    ensures v in p.stored || s.slots[v] != None ==>
              Run(s, es + [TryNext(c, v)]) == Some(s.Goto(c, p.(left := p.left - {v})))
  {
    var t := s.Goto(c, p);
    var q := p.(left := p.left - {v});
    RunThen(s, es, t, TryNext(c, v));
    assert t.phases[c := q] == s.phases[c := q];
    if v !in p.stored && s.slots[v] == None {
      var u := Step(t, TryNext(c, v)).value;
      RunThen(s, es + [TryNext(c, v)], u, AddRelease(c));
      assert u.phases[c := Saving(p.mac, v)] == s.phases[c := Saving(p.mac, v)];
    }
  }

  lemma ListRun(s: State, c: Chan, mac: Mac)
    requires s.Phase(c) == Listing(mac)
    ensures Run(s, [Event.List(c)]) == Some(s.Goto(c, Scanning(mac, s.nodes.Values, s.slots.Keys)))
  {
    Run1(s, Event.List(c));
  }

  lemma GiveUpRun(s: State, es: seq<Event>, c: Chan, p: Phase)
    requires p.Scanning? && p.left == {} && Run(s, es) == Some(s.Goto(c, p))
    ensures Run(s, es + [GiveUp(c)]) == Some(s.Goto(c, Failing(NotEnough)))
  {
    RunThen(s, es, s.Goto(c, p), GiveUp(c));
    assert s.phases[c := p][c := Failing(NotEnough)] == s.phases[c := Failing(NotEnough)];
  }

  // Save cannot fail when nothing else runs.
  lemma SaveRun(s: State, es: seq<Event>, c: Chan, mac: Mac, v: Vip)
    requires Run(s, es) == Some(Taken(s, c, v, Saving(mac, v))) && mac !in s.nodes && v !in s.nodes.Values
    ensures Run(s, es + [Event.Save(c)]) == Some(Saved(s, c, mac, v))
  {
    RunThen(s, es, Taken(s, c, v, Saving(mac, v)), Event.Save(c));
    assert s.phases[c := Saving(mac, v)][c := Naming(mac, v)] == s.phases[c := Naming(mac, v)];
  }

  lemma NameRun(s: State, es: seq<Event>, c: Chan, mac: Mac, v: Vip)
    requires Run(s, es) == Some(Saved(s, c, mac, v))
    ensures Run(s, es + [SetAttr(c)]) == Some(Named(s, c, mac, v))
  {
    RunThen(s, es, Saved(s, c, mac, v), SetAttr(c));
    assert s.phases[c := Naming(mac, v)][c := Indexing(mac, v)] == s.phases[c := Indexing(mac, v)];
  }

  lemma FailRun(s: State, es: seq<Event>, c: Chan, code: Code)
    requires Run(s, es) == Some(s.Goto(c, Failing(code)))
    ensures Run(s, es + [Event.Fail(c)]) == Some(TurnedAway(s, c, code))
  {
    RunThen(s, es, s.Goto(c, Failing(code)), Event.Fail(c));
    assert s.phases[c := Failing(code)][c := Rejected(code)] == s.phases[c := Rejected(code)];
  }

  // A phase that is left behind does not show in the outcome.
  lemma PhaseForgotten(s: State, c: Chan, p: Phase, mac: Mac, v: Vip, code: Code)
    ensures Saved(s.Goto(c, p), c, mac, v) == Saved(s, c, mac, v)
    ensures Named(s.Goto(c, p), c, mac, v) == Named(s, c, mac, v)
    ensures Taken(s.Goto(c, p), c, v, Saving(mac, v)) == Taken(s, c, v, Saving(mac, v))
    ensures Taken(s.Goto(c, p), c, v, Naming(mac, v)) == Taken(s, c, v, Naming(mac, v))
    ensures s.Goto(c, p).Goto(c, Failing(code)) == s.Goto(c, Failing(code))
    ensures TurnedAway(s.Goto(c, p), c, code) == TurnedAway(s, c, code)
  {
    assert s.phases[c := p][c := Naming(mac, v)] == s.phases[c := Naming(mac, v)];
    assert s.phases[c := p][c := Indexing(mac, v)] == s.phases[c := Indexing(mac, v)];
    assert s.phases[c := p][c := Saving(mac, v)] == s.phases[c := Saving(mac, v)];
    assert s.phases[c := p][c := Failing(code)] == s.phases[c := Failing(code)];
    assert s.phases[c := p][c := Rejected(code)] == s.phases[c := Rejected(code)];
  }

  lemma IndexRun(s: State, es: seq<Event>, t: State, c: Chan, mac: Mac, v: Vip)
    requires Run(s, es) == Some(t) && t.Phase(c) == Indexing(mac, v)
    ensures Run(s, es + [AddUnindex(c)] + [Put(c)] + [Reply(c)]) == Some(Indexed(t, c, v))
  {
    var t1 := Step(t, AddUnindex(c)).value;
    var t2 := Step(t1, Put(c)).value;
    RunThen(s, es, t, AddUnindex(c));
    RunThen(s, es + [AddUnindex(c)], t1, Put(c));
    RunThen(s, es + [AddUnindex(c)] + [Put(c)], t2, Reply(c));
    assert t.phases[c := Putting(mac, v)][c := Replying(mac, v)][c := Idle] == t.phases[c := Idle];
  }

  // A state in which a channel has just been granted an address.
  function Granted(s: State, c: Chan, mac: Mac, v: Vip): State {
    var t := Taken(s, c, v, Idle).(nodes := s.nodes[mac := v], attr := s.attr[c := Node(mac, v)]);
    Indexed(t, c, v)
  }

  function TurnedAway(s: State, c: Chan, code: Code): State {
    s.(closed := s.closed + {c}, phases := s.phases[c := Rejected(code)])
  }

  lemma QuietAfter(s: State, t: State, c: Chan, p: Phase)
    requires Quiet(s) && t.sweep == s.sweep && t.phases == s.phases[c := p] && (p.Idle? || p.Rejected?)
    ensures Quiet(t)
  {
    assert forall d :: t.Phase(d) == if d == c then p else s.Phase(d);
  }

  lemma AddedCount(p: multiset<(Chan, Listener)>, c: Chan, l: Listener, d: Chan, k: Listener)
    ensures (p + multiset{(c, l)})[(d, k)] == p[(d, k)] + (if d == c && k == l then 1 else 0)
  {
  }

  // A listener added to an open channel; an Unindex listener carries the channel's name.
  lemma LiveAfterAdd(s: State, t: State, c: Chan, l: Listener)
    requires Live(s) && s.Open(c) && t.closed == s.closed && t.pending == s.pending + multiset{(c, l)}
    requires t.attr == s.attr || (l.Unindex? && c in t.attr && t.attr == s.attr[c := t.attr[c]] && c !in s.attr)
    requires l.Unindex? ==> c in t.attr && t.attr[c].vip == l.vip
    ensures Live(t)
  {
    OpenAfterAdd(s.pending, s.closed, c, l);
    NamedAfterAdd(s.pending, s.attr, t.attr, c, l);
    PendingAfterAdd(s.pending, s.attr, t.attr, s.closed, c, l);
  }

  lemma OpenAfterAdd(p: multiset<(Chan, Listener)>, closed: set<Chan>, c: Chan, l: Listener)
    requires PendingOpen(p, closed) && c !in closed
    ensures PendingOpen(p + multiset{(c, l)}, closed)
  {
    forall d, k | (p + multiset{(c, l)})[(d, k)] > 0 ensures d !in closed {
      AddedCount(p, c, l, d, k);
    }
  }

  lemma NamedAfterAdd(p: multiset<(Chan, Listener)>, attr: map<Chan, Node>, named: map<Chan, Node>,
                      c: Chan, l: Listener)
    requires PendingNamed(p, attr) && forall d | d in attr :: d in named && named[d] == attr[d]
    requires l.Unindex? ==> c in named && named[c].vip == l.vip
    ensures PendingNamed(p + multiset{(c, l)}, named)
  {
    forall d, v | (p + multiset{(c, l)})[(d, Unindex(v))] > 0 ensures d in named && named[d].vip == v {
      AddedCount(p, c, l, d, Unindex(v));
    }
  }

  lemma PendingAfterAdd(p: multiset<(Chan, Listener)>, attr: map<Chan, Node>, named: map<Chan, Node>, closed: set<Chan>,
                        c: Chan, l: Listener)
    requires NamedPending(p, attr, closed)
    requires named == attr || (l.Unindex? && c in named && named == attr[c := named[c]] && named[c].vip == l.vip)
    ensures NamedPending(p + multiset{(c, l)}, named, closed)
  {
    forall d | d in named && d !in closed ensures (p + multiset{(c, l)})[(d, Unindex(named[d].vip))] > 0 {
      AddedCount(p, c, l, d, Unindex(named[d].vip));
    }
  }

  lemma GrantedCalm(s: State, c: Chan, mac: Mac, v: Vip)
    requires Calm(s) && s.Open(c) && c !in s.attr && v in s.slots && s.slots[v] == None
    ensures Calm(Granted(s, c, mac, v))
  {
    hide Live, Matching;
    var t := Granted(s, c, mac, v);
    assert t.phases == s.phases[c := Idle];
    QuietAfter(s, t, c, Idle);
    var mid := s.(pending := s.pending + multiset{(c, Release(v))});
    LiveAfterAdd(s, mid, c, Release(v));
    LiveAfterAdd(mid, t, c, Unindex(v));
    MatchingAfterGrant(s, t, c, v);
  }

  lemma MatchingAfterGrant(s: State, t: State, c: Chan, v: Vip)
    requires Matching(s) && v in s.slots && t.slots == s.slots[v := Some(c)] && t.channelMap == s.channelMap[v := c]
    requires c !in s.attr && c in t.attr && t.attr[c].vip == v && t.attr == s.attr[c := t.attr[c]]
    requires s.slots[v] == None
    ensures Matching(t)
  {
    forall d, u | t.Holds(d, u) ensures d in t.attr && t.attr[d].vip == u {
      if u != v {
        assert s.Holds(d, u);
      }
    }
    assert t.channelMap == Occupied(t.slots);
  }

  lemma AgainCalm(s: State, c: Chan)
    requires Calm(s) && s.Open(c) && c in s.attr && s.Holds(c, s.attr[c].vip)
    ensures var t := Indexed(s, c, s.attr[c].vip);
            Calm(t) && t.channelMap == s.channelMap
  {
    var v := s.attr[c].vip;
    var t := Indexed(s, c, v);
    QuietAfter(s, t, c, Idle);
    LiveAfterAdd(s, t, c, Unindex(v));
    assert t.channelMap == s.channelMap;
    assert forall d, u :: t.Holds(d, u) == s.Holds(d, u);
  }

  lemma NoListeners(s: State, c: Chan, l: Listener)
    requires SlotsOwned(s) && Calm(s) && c !in s.attr
    ensures s.pending[(c, l)] == 0
  {
    match l
    case Release(v) => assert !s.Holds(c, v);
    case Unindex(v) =>
  }

  lemma TurnedAwayCalm(s: State, c: Chan, code: Code)
    requires SlotsOwned(s) && Calm(s) && c !in s.attr
    ensures Calm(TurnedAway(s, c, code))
  {
    var t := TurnedAway(s, c, code);
    QuietAfter(s, t, c, Rejected(code));
    forall d, l | t.pending[(d, l)] > 0 ensures t.Open(d) {
      if d == c {
        NoListeners(s, c, l);
      }
    }
    assert forall d, u :: t.Holds(d, u) == s.Holds(d, u);
    assert forall d :: t.Open(d) ==> s.Open(d);
  }

  // What bindVip answers: a known hardware address gets its stored address, if that is in the pool and
  // free; an unknown one gets an address exactly when some pool address is neither stored nor bound.
  ghost predicate Binds(s: State, mac: Mac, r: Response) {
    if Malformed(mac) then r == Error(MacFormat)
    else if mac in s.nodes then
      var v := s.nodes[mac];
      r == if v !in s.slots then Error(SysError) else if s.slots[v].Some? then Error(VipBound) else Success(v)
    else
      if r.Success? then Free(s.slots, s.nodes, r.vip) else r.code == NotEnough && NoneFree(s.slots, s.nodes)
  }

  // What a registration answers: a channel that has its name gets the same answer again.
  ghost predicate Answers(s: State, c: Chan, mac: Mac, r: Response) {
    if c in s.attr then r == Success(s.attr[c].vip) else Binds(s, mac, r)
  }

  // And the state it leaves.
  function After(s: State, c: Chan, mac: Mac, r: Response): State {
    match r
    case Error(code) => TurnedAway(s, c, code)
    case Success(v) => if c in s.attr then Indexed(s, c, v) else Granted(s, c, mac, v)
  }

  // A named channel, indexed, is where a registration ends.
  lemma IndexedAfter(s: State, t: State, c: Chan, mac: Mac, r: Response)
    requires r.Success?
    requires t == if c in s.attr then s.Goto(c, Indexing(mac, r.vip)) else Named(s, c, mac, r.vip)
    ensures Indexed(t, c, r.vip) == After(s, c, mac, r)
  {
    assert s.phases[c := Indexing(mac, r.vip)][c := Idle] == s.phases[c := Idle];
  }

  // regist and its first query, in front of the rest.
  lemma QueryRun(s: State, c: Chan, mac: Mac, fs: seq<Event>, t: State)
    requires (s.Phase(c).Idle? || s.Phase(c).Rejected?) && c !in s.attr && !Malformed(mac)
    requires Run(s.Goto(c, if mac in s.nodes then Found(mac, s.nodes[mac]) else Listing(mac)), fs) == Some(t)
    ensures Run(s, [Event.Regist(c, mac)] + [Query(c)] + fs) == Some(t)
  {
    var u := s.Goto(c, Looking(mac));
    var p := if mac in s.nodes then Found(mac, s.nodes[mac]) else Listing(mac);
    Run1(s, Event.Regist(c, mac));
    RunThen(s, [Event.Regist(c, mac)], u, Query(c));
    assert u.phases[c := p] == s.phases[c := p];
    RunAppend(s, [Event.Regist(c, mac)] + [Query(c)], fs);
  }

  lemma AfterCalm(s: State, c: Chan, mac: Mac, r: Response)
    requires Inv(s) && Calm(s) && s.Open(c) && Answers(s, c, mac, r)
    ensures Calm(After(s, c, mac, r))
  {
    if r.Error? {
      TurnedAwayCalm(s, c, r.code);
    } else if c in s.attr {
      AgainCalm(s, c);
    } else {
      GrantedCalm(s, c, mac, r.vip);
    }
  }

  // What a registration on a closed channel leaves.
  function LateNamed(s: State, c: Chan, mac: Mac, v: Vip): State {
    s.(nodes := s.nodes[mac := v], attr := s.attr[c := Node(mac, v)]).Goto(c, Indexing(mac, v))
  }

  function AfterLate(s: State, c: Chan, mac: Mac, r: Response): State {
    match r
    case Error(code) => TurnedAway(s, c, code)
    case Success(v) =>
      var t := if c in s.attr then s else s.(nodes := s.nodes[mac := v], attr := s.attr[c := Node(mac, v)]);
      t.(channelMap := s.channelMap[v := c], phases := s.phases[c := Idle])
  }

  lemma RegistStep(s: State, c: Chan, mac: Mac)
    requires (s.Phase(c).Idle? || s.Phase(c).Rejected?) && c in s.attr
    ensures Step(s, Event.Regist(c, mac)) == Some(s.Goto(c, Indexing(mac, s.attr[c].vip)))
  {
  }

  lemma LatePhase(s: State, c: Chan, mac: Mac, v: Vip)
    ensures LateNamed(s, c, mac, v).Phase(c) == Indexing(mac, v) && LateNamed(s, c, mac, v).closed == s.closed
  {
  }

  lemma LateNamedRun(s: State, es: seq<Event>, c: Chan, mac: Mac, v: Vip)
    requires Run(s, es) == Some(Named(s, c, mac, v)) && !s.Open(c) && v in s.slots && s.slots[v] == None
    ensures Run(s, es + [Fire(c, Release(v))]) == Some(LateNamed(s, c, mac, v))
  {
    RunThen(s, es, Named(s, c, mac, v), Fire(c, Release(v)));
    assert s.pending + multiset{(c, Release(v))} - multiset{(c, Release(v))} == s.pending;
    assert s.slots[v := Some(c)][v := None] == s.slots;
  }

  lemma LateListenerRun(s: State, es: seq<Event>, t: State, c: Chan, mac: Mac, v: Vip)
    requires Run(s, es) == Some(t) && t.Phase(c) == Indexing(mac, v) && !t.Open(c)
    ensures Run(s, es + [AddUnindex(c)] + [Fire(c, Unindex(v))])
            == Some(t.(channelMap := t.channelMap - {v}).Goto(c, Putting(mac, v)))
  {
    hide Run;
    var l := Unindex(v);
    var t1 := Step(t, AddUnindex(c)).value;
    RunThen(s, es, t, AddUnindex(c));
    RunThen(s, es + [AddUnindex(c)], t1, Fire(c, l));
    assert t.pending + multiset{(c, l)} - multiset{(c, l)} == t.pending;
  }

  lemma LateIndexRun(s: State, es: seq<Event>, t: State, c: Chan, mac: Mac, v: Vip)
    requires Run(s, es) == Some(t) && t.Phase(c) == Indexing(mac, v) && !t.Open(c)
    ensures Run(s, es + [AddUnindex(c)] + [Fire(c, Unindex(v))] + [Put(c)] + [Reply(c)])
            == Some(t.(channelMap := t.channelMap[v := c], phases := t.phases[c := Idle]))
  {
    hide Run;
    var fs := es + [AddUnindex(c)] + [Fire(c, Unindex(v))];
    var t2 := t.(channelMap := t.channelMap - {v}).Goto(c, Putting(mac, v));
    var t3 := Step(t2, Put(c)).value;
    LateListenerRun(s, es, t, c, mac, v);
    RunThen(s, fs, t2, Put(c));
    RunThen(s, fs + [Put(c)], t3, Reply(c));
    assert (t.channelMap - {v})[v := c] == t.channelMap[v := c];
    assert t.phases[c := Putting(mac, v)][c := Replying(mac, v)][c := Idle] == t.phases[c := Idle];
  }

  lemma LateAfter(s: State, t: State, c: Chan, mac: Mac, v: Vip)
    requires t == if c in s.attr then s.Goto(c, Indexing(mac, v)) else LateNamed(s, c, mac, v)
    ensures t.(channelMap := t.channelMap[v := c], phases := t.phases[c := Idle]) == AfterLate(s, c, mac, Success(v))
  {
    assert s.phases[c := Indexing(mac, v)][c := Idle] == s.phases[c := Idle];
  }

  lemma ClosedHoldsNothing(s: State, c: Chan, v: Vip)
    requires SlotsOwned(s) && Calm(s) && !s.Open(c)
    ensures !s.Holds(c, v)
  {
    assert s.pending[(c, Release(v))] == 0;
  }

  // A closed channel that has been indexed again holds no slot.
  lemma LateAgreement(s: State, c: Chan, mac: Mac, r: Response)
    requires Inv(s) && Calm(s) && !s.Open(c) && Answers(s, c, mac, r)
    ensures r.Error? ==> Calm(AfterLate(s, c, mac, r))
    ensures r.Success? ==> !Matching(AfterLate(s, c, mac, r))
  {
    hide Live, Quiet, SlotsOwned, NamesHeld, NamesUsed, IndexSafe, NodesUnique, RejectedClosed;
    if r.Error? {
      TurnedAwayCalm(s, c, r.code);
    } else {
      ClosedHoldsNothing(s, c, r.vip);
      var t := AfterLate(s, c, mac, r);
      assert r.vip in t.channelMap && t.channelMap[r.vip] == c && t.slots == s.slots;
      assert r.vip in Occupied(t.slots) ==> Occupied(t.slots)[r.vip] != c;
    }
  }

  // The slots and the index without a channel.
  function Freed(slots: map<Vip, Option<Chan>>, c: Chan): map<Vip, Option<Chan>> {
    map v | v in slots :: if slots[v] == Some(c) then None else slots[v]
  }

  function Without(m: map<Vip, Chan>, cs: set<Chan>): map<Vip, Chan> {
    map v | v in m && m[v] !in cs :: m[v]
  }

  // A closed channel part way through its listeners: what was s, when it was open, is now u.
  ghost predicate Firing(s: State, u: State, c: Chan) {
    && u.closed == s.closed + {c} && u.attr == s.attr && u.nodes == s.nodes && u.phases == s.phases
    && Counted(s, u, c) && SlotsFiring(s, u, c) && IndexFiring(s, u, c)
  }

  // Listeners of the channel only are gone.
  ghost predicate Counted(s: State, u: State, c: Chan) {
    && (forall d, l :: d != c ==> u.pending[(d, l)] == s.pending[(d, l)])
    && (forall l :: u.pending[(c, l)] <= s.pending[(c, l)])
  }

  // A slot is free once its release has fired.
  ghost predicate SlotsFiring(s: State, u: State, c: Chan) {
    && u.slots.Keys == s.slots.Keys
    && (forall v :: v in s.slots ==>
          u.slots[v] == if s.slots[v] == Some(c) && u.pending[(c, Release(v))] == 0 then None else s.slots[v])
  }

  // An entry is gone once its removal has fired.
  ghost predicate IndexFiring(s: State, u: State, c: Chan) {
    && (forall v :: v in u.channelMap <==>
          v in s.channelMap
          && (s.channelMap[v] == c ==> u.pending[(c, Unindex(v))] == s.pending[(c, Unindex(v))]))
    && (forall v :: v in u.channelMap ==> u.channelMap[v] == s.channelMap[v])
  }

  // What a listener of a calm channel can be: the release of its slot, or the removal of its index entry.
  ghost predicate OwnListeners(s: State, c: Chan) {
    && (forall v :: s.pending[(c, Release(v))] > 0 ==>
          v in s.slots && s.slots[v] == Some(c) && s.pending[(c, Release(v))] == 1)
    && (forall v :: s.pending[(c, Unindex(v))] > 0 ==> v in s.channelMap && s.channelMap[v] == c)
  }

  lemma CalmListeners(s: State, c: Chan)
    requires Inv(s) && Calm(s)
    ensures OwnListeners(s, c) && s.sweep == Resting
  {
    forall v | s.pending[(c, Release(v))] > 0
      ensures v in s.slots && s.slots[v] == Some(c) && s.pending[(c, Release(v))] == 1
    {
      assert s.Holds(c, v);
    }
    forall v | s.pending[(c, Unindex(v))] > 0 ensures v in s.channelMap && s.channelMap[v] == c {
      assert s.Open(c) && s.Holds(c, s.attr[c].vip);
    }
  }

  lemma FiringStart(s: State, u: State, c: Chan)
    requires Inv(s) && Calm(s)
    requires u.(closed := s.closed, sweep := s.sweep) == s && u.closed == s.closed + {c}
    ensures Firing(s, u, c)
  {
    forall v | v in s.slots && s.slots[v] == Some(c) ensures u.pending[(c, Release(v))] != 0 {
      assert s.Holds(c, v) && !Between(s, c, v);
    }
  }

  lemma RemovedCount(p: multiset<(Chan, Listener)>, c: Chan, l: Listener, d: Chan, k: Listener)
    requires p[(c, l)] > 0
    ensures (p - multiset{(c, l)})[(d, k)] == p[(d, k)] - (if d == c && k == l then 1 else 0)
  {
  }

  lemma CountedAfter(s: State, u: State, t: State, c: Chan, l: Listener)
    requires Counted(s, u, c) && u.pending[(c, l)] > 0 && t.pending == u.pending - multiset{(c, l)}
    ensures Counted(s, t, c)
    ensures forall k :: t.pending[(c, k)] == u.pending[(c, k)] - (if k == l then 1 else 0)
  {
    forall d, k ensures t.pending[(d, k)] == u.pending[(d, k)] - (if d == c && k == l then 1 else 0) {
      RemovedCount(u.pending, c, l, d, k);
    }
  }

  lemma FireRelease(s: State, u: State, c: Chan, v: Vip)
    requires OwnListeners(s, c) && Firing(s, u, c) && u.pending[(c, Release(v))] > 0
    ensures v in u.slots
    ensures Firing(s, u.(pending := u.pending - multiset{(c, Release(v))}, slots := u.slots[v := None]), c)
  {
    var t := u.(pending := u.pending - multiset{(c, Release(v))}, slots := u.slots[v := None]);
    assert s.pending[(c, Release(v))] == 1;
    CountedAfter(s, u, t, c, Release(v));
    SlotFreed(s, u, t, c, v);
    hide Counted, SlotsFiring, OwnListeners;
  }

  lemma SlotFreed(s: State, u: State, t: State, c: Chan, v: Vip)
    requires SlotsFiring(s, u, c) && v in s.slots && s.slots[v] == Some(c) && u.pending[(c, Release(v))] == 1
    requires t.slots == u.slots[v := None]
    requires forall k :: t.pending[(c, k)] == u.pending[(c, k)] - (if k == Release(v) then 1 else 0)
    ensures SlotsFiring(s, t, c)
  {
  }

  lemma FireUnindex(s: State, u: State, c: Chan, v: Vip)
    requires OwnListeners(s, c) && Firing(s, u, c) && u.pending[(c, Unindex(v))] > 0
    ensures Firing(s, u.(pending := u.pending - multiset{(c, Unindex(v))}, channelMap := u.channelMap - {v}), c)
  {
    var t := u.(pending := u.pending - multiset{(c, Unindex(v))}, channelMap := u.channelMap - {v});
    assert u.pending[(c, Unindex(v))] <= s.pending[(c, Unindex(v))];
    CountedAfter(s, u, t, c, Unindex(v));
    EntryRemoved(s, u, t, c, v);
    assert forall x :: t.pending[(c, Release(x))] == u.pending[(c, Release(x))];
    hide Counted, IndexFiring, OwnListeners;
  }

  lemma EntryRemoved(s: State, u: State, t: State, c: Chan, v: Vip)
    requires IndexFiring(s, u, c) && v in s.channelMap && s.channelMap[v] == c
    requires 0 < u.pending[(c, Unindex(v))] <= s.pending[(c, Unindex(v))] && t.channelMap == u.channelMap - {v}
    requires forall k :: t.pending[(c, k)] == u.pending[(c, k)] - (if k == Unindex(v) then 1 else 0)
    ensures IndexFiring(s, t, c)
  {
  }

  // All fired: the channel is out of both indexes, and nothing else changed.
  lemma FiredSlots(s: State, u: State, c: Chan)
    requires Firing(s, u, c) && forall l :: u.pending[(c, l)] == 0
    ensures u.slots == Freed(s.slots, c)
  {
    forall v | v in s.slots ensures u.slots[v] == Freed(s.slots, c)[v] {
      assert u.pending[(c, Release(v))] == 0;
    }
  }

  lemma FiredIndex(s: State, u: State, c: Chan)
    requires SlotsOwned(s) && Calm(s) && Firing(s, u, c) && forall l :: u.pending[(c, l)] == 0
    ensures u.channelMap == Without(s.channelMap, {c})
  {
    forall v ensures v in u.channelMap <==> v in Without(s.channelMap, {c}) {
      if v in s.channelMap && s.channelMap[v] == c {
        ListenersOfEntry(s, c, v);
        assert u.pending[(c, Unindex(v))] == 0;
      }
    }
    forall v | v in u.channelMap ensures u.channelMap[v] == s.channelMap[v] {
    }
  }

  // A channel in the index has a listener that takes its entry out.
  lemma ListenersOfEntry(s: State, c: Chan, v: Vip)
    requires SlotsOwned(s) && Calm(s) && v in s.channelMap && s.channelMap[v] == c
    ensures s.pending[(c, Unindex(v))] > 0
  {
    assert s.Holds(c, v);
    assert s.pending[(c, Release(v))] > 0;
  }

  lemma FiredLive(s: State, t: State, c: Chan)
    requires Live(s) && t.closed == s.closed + {c} && t.attr == s.attr
    requires forall d, l :: t.pending[(d, l)] == if d == c then 0 else s.pending[(d, l)]
    ensures Live(t)
  {
    forall d, l | t.pending[(d, l)] > 0 ensures t.Open(d) {
      assert s.pending[(d, l)] > 0;
    }
    forall d, v | t.pending[(d, Unindex(v))] > 0 ensures d in t.attr && t.attr[d].vip == v {
      assert s.pending[(d, Unindex(v))] > 0;
    }
    forall d | d in t.attr && t.Open(d) ensures t.pending[(d, Unindex(t.attr[d].vip))] > 0 {
      assert s.pending[(d, Unindex(s.attr[d].vip))] > 0;
    }
  }

  lemma FiredAll(s: State, u: State, c: Chan)
    requires Inv(s) && Calm(s) && Firing(s, u, c) && forall l :: u.pending[(c, l)] == 0
    ensures u.slots == Freed(s.slots, c) && u.channelMap == Without(s.channelMap, {c})
    ensures s.sweep == Resting && Calm(u.(sweep := Resting))
  {
    hide SlotsOwned, NamesHeld, NamesUsed, IndexSafe, NodesUnique, RejectedClosed, Live, Matching;
    var t := u.(sweep := Resting);
    FiredSlots(s, u, c);
    FiredIndex(s, u, c);
    FiredLive(s, t, c);
    OccupiedFreed(s.slots, c);
    FiredMatching(s, t, c);
    assert forall d :: t.Phase(d) == s.Phase(d);
  }

  lemma FiredMatching(s: State, t: State, c: Chan)
    requires Matching(s) && t.attr == s.attr
    requires t.slots == Freed(s.slots, c) && t.channelMap == Without(s.channelMap, {c})
    requires Occupied(Freed(s.slots, c)) == Without(Occupied(s.slots), {c})
    ensures Matching(t)
  {
    assert forall d, v :: t.Holds(d, v) ==> s.Holds(d, v);
  }

  lemma OccupiedFreed(slots: map<Vip, Option<Chan>>, c: Chan)
    ensures Occupied(Freed(slots, c)) == Without(Occupied(slots), {c})
  {
  }

  lemma WithoutTwice(m: map<Vip, Chan>, a: set<Chan>, b: set<Chan>)
    ensures Without(Without(m, a), b) == Without(m, a + b)
  {
  }

  lemma WithoutRest(m: map<Vip, Chan>, a: set<Chan>, b: set<Chan>)
    requires a <= b && forall v :: v in Without(m, a) ==> m[v] !in b
    ensures Without(m, a) == Without(m, b)
  {
    forall v ensures v in Without(m, a) <==> v in Without(m, b) {
    }
  }

  // getChannelList
  function Channels(m: map<Vip, Chan>): set<Chan> {
    set v | v in m :: m[v]
  }

  lemma AllSwept(m: map<Vip, Chan>, a: set<Chan>, b: set<Chan>)
    requires Without(m, a) == Without(m, b)
    ensures b * Channels(m) <= a
  {
    forall c | c in b && c in Channels(m) ensures c in a {
      var v :| v in m && m[v] == c;
      assert v !in Without(m, b);
    }
  }

  class ControlService {
    var bindIPMap: map<Vip, Option<Chan>>
    var nodeTable: map<Mac, Vip>
    var channelMap: map<Vip, Chan>
    var nodeAttr: map<Chan, Node>
    var closed: set<Chan>
    var listeners: multiset<(Chan, Listener)>
    ghost var phases: map<Chan, Phase>
    ghost var sweep: Sweep

    ghost function Now(): State
      reads this
    {
      State(bindIPMap, nodeTable, closed, nodeAttr, phases, listeners, channelMap, sweep)
    }

    ghost predicate Valid()
      reads this
    {
      Inv(Now()) && Calm(Now())
    }

    // afterPropertiesSet
    constructor (pool: set<Vip>)
      ensures Valid() && Now() == Start(pool)
    {
      bindIPMap := map v | v in pool :: None;
      nodeTable, channelMap, nodeAttr, closed, listeners := map[], map[], map[], {}, multiset{};
      phases, sweep := map[], Resting;
    }

    // A registration, start to reply. On an open channel it keeps the two indexes in agreement. On one that is
    // closed already every listener fires as soon as it is added, the removal of the index entry before the
    // entry is put; the indexes still agree if and only if the registration is turned away.
    method Regist(c: Chan, mac: Mac) returns (r: Response, ghost es: seq<Event>)
      requires Valid()
      modifies this
      ensures Run(old(Now()), es) == Some(Now()) && Answers(old(Now()), c, mac, r)
      ensures Now() == if c in old(closed) then AfterLate(old(Now()), c, mac, r) else After(old(Now()), c, mac, r)
      ensures Inv(Now()) && (Matching(Now()) <==> c !in old(closed) || r.Error?)
      ensures Valid() <==> Matching(Now())
    {
      ghost var start := Now();
      if c in closed {
        r, es := HandleLate(c, mac);
        LateAgreement(start, c, mac, r);
      } else {
        r, es := Handle(c, mac);
        AfterCalm(start, c, mac, r);
      }
      RunKeepsInv(start, es);
    }

    // The listeners of a closed channel fire at once.
    method HandleLate(c: Chan, mac: Mac) returns (r: Response, ghost es: seq<Event>)
      requires (Now().Phase(c).Idle? || Now().Phase(c).Rejected?) && c in closed
      modifies this
      ensures Run(old(Now()), es) == Some(Now())
      ensures Answers(old(Now()), c, mac, r) && Now() == AfterLate(old(Now()), c, mac, r)
    {
      hide Run, Step, LateNamed;
      ghost var start := Now();
      if c !in nodeAttr {
        r, es := NameLate(c, mac);
        if r.Error? {
          return;
        }
      } else {
        Run1(start, Event.Regist(c, mac));
        RegistStep(start, c, mac);
        es := [Event.Regist(c, mac)];
        r := Success(nodeAttr[c].vip);
        phases := phases[c := Indexing(mac, r.vip)];
      }
      ghost var t := Now();
      assert t.Phase(c) == Indexing(mac, r.vip) && !t.Open(c) by { LatePhase(start, c, mac, r.vip); }
      LateIndexRun(start, es, t, c, mac, r.vip);
      es := es + [AddUnindex(c)] + [Fire(c, Unindex(r.vip))] + [Put(c)] + [Reply(c)];
      channelMap := channelMap[r.vip := c];
      phases := phases[c := Idle];
      LateAfter(start, t, c, mac, r.vip);
    }

    method NameLate(c: Chan, mac: Mac) returns (r: Response, ghost es: seq<Event>)
      requires (Now().Phase(c).Idle? || Now().Phase(c).Rejected?) && c in closed && c !in nodeAttr
      modifies this
      ensures Run(old(Now()), es) == Some(Now())
      ensures Binds(old(Now()), mac, r)
      ensures Now() == match r
                       case Success(v) => LateNamed(old(Now()), c, mac, v)
                       case Error(code) => TurnedAway(old(Now()), c, code)
    {
      hide Run, Step;
      ghost var start := Now();
      r, es := Name(c, mac);
      if r.Success? {
        LateNamedRun(start, es, c, mac, r.vip);
        es := es + [Fire(c, Release(r.vip))];
        assert start.slots[r.vip := Some(c)][r.vip := None] == start.slots;
        assert start.pending + multiset{(c, Release(r.vip))} - multiset{(c, Release(r.vip))} == start.pending;
        bindIPMap := bindIPMap[r.vip := None];
        listeners := listeners - multiset{(c, Release(r.vip))};
      }
    }

    method Handle(c: Chan, mac: Mac) returns (r: Response, ghost es: seq<Event>)
      requires Now().Phase(c).Idle? || Now().Phase(c).Rejected?
      modifies this
      ensures Run(old(Now()), es) == Some(Now())
      ensures Answers(old(Now()), c, mac, r) && Now() == After(old(Now()), c, mac, r)
    {
      ghost var start := Now();
      if c !in nodeAttr {
        r, es := Name(c, mac);
        if r.Error? {
          return;
        }
      } else {
        Run1(start, Event.Regist(c, mac));
        es := [Event.Regist(c, mac)];
        r := Success(nodeAttr[c].vip);
        phases := phases[c := Indexing(mac, r.vip)];
      }
      ghost var t := Now();
      IndexRun(start, es, t, c, mac, r.vip);
      es := es + [AddUnindex(c)] + [Put(c)] + [Reply(c)];
      AddChannel(r.vip, c);
      phases := phases[c := Idle];
      assert Now() == Indexed(t, c, r.vip);
      IndexedAfter(start, t, c, mac, r);
    }

    // The first registration of a channel: bind an address and set the attribute, or reply the error and close.
    method Name(c: Chan, mac: Mac) returns (r: Response, ghost es: seq<Event>)
      requires Now().Phase(c).Idle? || Now().Phase(c).Rejected?
      requires c !in nodeAttr
      modifies this
      ensures Run(old(Now()), es) == Some(Now())
      ensures Binds(old(Now()), mac, r)
      ensures Now() == match r
                       case Success(v) => Named(old(Now()), c, mac, v)
                       case Error(code) => TurnedAway(old(Now()), c, code)
    {
      hide Step, Run;
      ghost var start := Now();
      r, es := CheckAndBind(c, mac);
      match r {
        case Error(code) =>
          FailRun(start, es, c, code);
          es := es + [Event.Fail(c)];
          closed := closed + {c};
          phases := start.phases[c := Rejected(code)];
        case Success(vip) =>
          NameRun(start, es, c, mac, vip);
          es := es + [SetAttr(c)];
          nodeAttr := nodeAttr[c := Node(mac, vip)];
          phases := start.phases[c := Indexing(mac, vip)];
      }
    }

    // setMacAddress refuses a malformed hardware address.
    method CheckAndBind(c: Chan, mac: Mac) returns (r: Response, ghost es: seq<Event>)
      requires Now().Phase(c).Idle? || Now().Phase(c).Rejected?
      requires c !in nodeAttr
      modifies `bindIPMap, `listeners, `nodeTable, `phases
      ensures Run(old(Now()), es) == Some(Now())
      ensures Binds(old(Now()), mac, r)
      ensures Now() == match r
                       case Success(v) => Saved(old(Now()), c, mac, v)
                       case Error(code) => old(Now()).Goto(c, Failing(code))
    {
      if Malformed(mac) {
        Run1(Now(), Event.Regist(c, mac));
        es := [Event.Regist(c, mac)];
        phases := phases[c := Failing(MacFormat)];
        return Error(MacFormat), es;
      }
      r, es := BindVip(c, mac);
    }

    method BindVip(c: Chan, mac: Mac) returns (r: Response, ghost es: seq<Event>)
      requires Now().Phase(c).Idle? || Now().Phase(c).Rejected?
      requires c !in nodeAttr && !Malformed(mac)
      modifies `bindIPMap, `listeners, `nodeTable, `phases
      ensures Run(old(Now()), es) == Some(Now())
      ensures Binds(old(Now()), mac, r)
      ensures Now() == match r
                       case Success(v) => Saved(old(Now()), c, mac, v)
                       case Error(code) => old(Now()).Goto(c, Failing(code))
    {
      hide Step, Run;
      ghost var start := Now();
      ghost var fs;
      if mac in nodeTable {
        var vip := nodeTable[mac];
        phases := phases[c := Found(mac, vip)];
        r, fs := ApplyChannel(vip, c, mac);
        QueryRun(start, c, mac, fs, Now());
        es := [Event.Regist(c, mac)] + [Query(c)] + fs;
        PhaseForgotten(start, c, Found(mac, vip), mac, vip, if r.Error? then r.code else SysError);
        assert start.nodes[mac := vip] == start.nodes;
        return;
      }
      phases := phases[c := Listing(mac)];
      r, fs := BindFresh(c, mac);
      QueryRun(start, c, mac, fs, Now());
      es := [Event.Regist(c, mac)] + [Query(c)] + fs;
      PhaseForgotten(start, c, Listing(mac), mac,
                     if r.Success? then r.vip else "", if r.Error? then r.code else SysError);
    }

    // The rest of bindVip, for a hardware address that is not stored.
    method BindFresh(c: Chan, mac: Mac) returns (r: Response, ghost es: seq<Event>)
      requires Now().Phase(c) == Listing(mac) && mac !in nodeTable
      modifies `bindIPMap, `listeners, `nodeTable, `phases
      ensures Run(old(Now()), es) == Some(Now())
      ensures if r.Success? then Free(old(bindIPMap), old(nodeTable), r.vip)
              else r.code == NotEnough && NoneFree(old(bindIPMap), old(nodeTable))
      ensures Now() == match r
                       case Success(v) => Saved(old(Now()), c, mac, v)
                       case Error(code) => old(Now()).Goto(c, Failing(code))
    {
      hide Step, Run;
      ghost var start := Now();
      r, es := ApplyVip(c, mac);
      if r.Error? {
        return;
      }
      SaveRun(start, es, c, mac, r.vip);
      es := es + [Event.Save(c)];
      nodeTable := nodeTable[mac := r.vip];
      phases := start.phases[c := Naming(mac, r.vip)];
    }

    method ApplyChannel(vip: Vip, c: Chan, mac: Mac) returns (r: Response, ghost es: seq<Event>)
      requires Now().Phase(c) == Found(mac, vip)
      modifies `bindIPMap, `listeners, `phases
      ensures Run(old(Now()), es) == Some(Now())
      ensures r == if vip !in old(bindIPMap) then Error(SysError)
                   else if old(bindIPMap)[vip].Some? then Error(VipBound) else Success(vip)
      ensures Now() == match r
                       case Success(v) => Taken(old(Now()), c, v, Naming(mac, v))
                       case Error(code) => old(Now()).Goto(c, Failing(code))
    {
      ghost var start := Now();
      es := [Cas(c)];
      Run1(start, Cas(c));
      if vip !in bindIPMap {
        phases := phases[c := Failing(SysError)];
        return Error(SysError), es;
      }
      if bindIPMap[vip] != None {
        phases := phases[c := Failing(VipBound)];
        return Error(VipBound), es;
      }
      ApplyChannelRun(start, c, mac, vip);
      es := [Cas(c)] + [AddRelease(c)];
      Occupy(vip, c, Naming(mac, vip));
      r := Success(vip);
    }

    // The slot, won by compare-and-set, and its release listener.
    method Occupy(vip: Vip, c: Chan, ghost p: Phase)
      modifies `bindIPMap, `listeners, `phases
      ensures Now() == Taken(old(Now()), c, vip, p)
    {
      bindIPMap := bindIPMap[vip := Some(c)];
      listeners := listeners + multiset{(c, Release(vip))};
      phases := phases[c := p];
    }

    // The entries of bindIPMap come in any order.
    method ApplyVip(c: Chan, mac: Mac) returns (r: Response, ghost es: seq<Event>)
      requires Now().Phase(c) == Listing(mac)
      modifies `bindIPMap, `listeners, `phases
      ensures Run(old(Now()), es) == Some(Now())
      ensures if r.Success? then Free(old(bindIPMap), nodeTable, r.vip)
              else r.code == NotEnough && NoneFree(old(bindIPMap), nodeTable)
      ensures Now() == match r
                       case Success(v) => Taken(old(Now()), c, v, Saving(mac, v))
                       case Error(code) => old(Now()).Goto(c, Failing(code))
    {
      hide Run, Step, Taken;
      ghost var start := Now();
      es := [Event.List(c)];
      ListRun(start, c, mac);
      var ipList := nodeTable.Values;
      var left := bindIPMap.Keys;
      ghost var p := Scanning(mac, ipList, left);
      phases := start.phases[c := p];
      while left != {}
        invariant left <= bindIPMap.Keys && bindIPMap == start.slots && listeners == start.pending
        invariant p == Scanning(mac, ipList, left) && phases == start.phases[c := p]
        invariant Run(start, es) == Some(start.Goto(c, p))
        invariant forall v | v in bindIPMap && v !in left :: !Free(start.slots, start.nodes, v)
        decreases left
      {
        EmptyOrNot(left);
        var vip :| vip in left;
        TakeRun(start, es, c, p, vip);
        if vip !in ipList && bindIPMap[vip] == None {
          es := es + [TryNext(c, vip)] + [AddRelease(c)];
          PhaseForgotten(start, c, p, mac, vip, NotEnough);
          Occupy(vip, c, Saving(mac, vip));
          return Success(vip), es;
        }
        es := es + [TryNext(c, vip)];
        left := left - {vip};
        p := Scanning(mac, ipList, left);
        phases := start.phases[c := p];
      }
      GiveUpRun(start, es, c, p);
      es := es + [GiveUp(c)];
      phases := start.phases[c := Failing(NotEnough)];
      r := Error(NotEnough);
    }

    // A channel closes: its close listeners fire.
    method Close(c: Chan) returns (ghost es: seq<Event>)
      requires Valid()
      modifies `closed, `listeners, `bindIPMap, `channelMap
      ensures Valid() && Run(old(Now()), es) == Some(Now())
      ensures closed == old(closed) + {c}
      ensures bindIPMap == Freed(old(bindIPMap), c) && channelMap == Without(old(channelMap), {c})
    {
      hide Inv, Calm, Firing, OwnListeners;
      ghost var start := Now();
      es := [Event.Close(c)];
      Run1(start, Event.Close(c));
      closed := closed + {c};
      CalmListeners(start, c);
      FiringStart(start, Now(), c);
      ghost var fs := FireListeners(c, start);
      RunAppend(start, es, fs);
      es := es + fs;
      FiredAll(start, Now(), c);
      assert Now() == Now().(sweep := Resting);
      RunKeepsInv(start, es);
    }

    method FireListeners(c: Chan, ghost s: State) returns (ghost es: seq<Event>)
      requires OwnListeners(s, c) && Firing(s, Now(), c) && c in closed
      modifies `listeners, `bindIPMap, `channelMap
      ensures Run(old(Now()), es) == Some(Now())
      ensures Firing(s, Now(), c) && forall l :: listeners[(c, l)] == 0
    {
      ghost var start := Now();
      es := [];
      while exists l :: l in Pending(c)
        invariant Firing(s, Now(), c) && Run(start, es) == Some(Now())
        decreases |listeners|
      {
        var l :| l in Pending(c);
        ghost var fs := FireOne(c, l, s);
        RunAppend(start, es, fs);
        es := es + fs;
      }
      forall l ensures listeners[(c, l)] == 0 {
        assert l !in Pending(c);
      }
    }

    function Pending(c: Chan): (mine: set<Listener>)
      reads this
      ensures forall l :: l in mine <==> listeners[(c, l)] > 0
    {
      var mine := set p | p in listeners && p.0 == c :: p.1;
      assert forall l :: (c, l) in listeners <==> l in mine;
      mine
    }

    method FireOne(c: Chan, l: Listener, ghost s: State) returns (ghost es: seq<Event>)
      requires OwnListeners(s, c) && Firing(s, Now(), c) && listeners[(c, l)] > 0 && c in closed
      modifies `listeners, `bindIPMap, `channelMap
      ensures Run(old(Now()), es) == Some(Now()) && Firing(s, Now(), c)
      ensures |listeners| < |old(listeners)|
    {
      hide Inv, Calm, Firing, OwnListeners;
      ghost var u := Now();
      es := [Fire(c, l)];
      Run1(u, Fire(c, l));
      match l {
        case Release(v) =>
          FireRelease(s, u, c, v);
          bindIPMap := bindIPMap[v := None];
        case Unindex(v) =>
          FireUnindex(s, u, c, v);
          channelMap := channelMap - {v};
      }
      listeners := listeners - multiset{(c, l)};
    }

    // SDWanNodeManager.deleteChannel
    method DeleteChannel(vip: Vip) returns (ghost es: seq<Event>)
      requires Valid()
      modifies `closed, `listeners, `bindIPMap, `channelMap
      ensures Valid() && Run(old(Now()), es) == Some(Now())
      ensures if vip in old(channelMap)
              then closed == old(closed) + {old(channelMap)[vip]}
                   && channelMap == Without(old(channelMap), {old(channelMap)[vip]})
              else Now() == old(Now())
    {
      if vip !in channelMap {
        es := [];
        return;
      }
      es := Close(channelMap[vip]);
    }

    // The sweep of one entry: close its channel, then remove the entry.
    method SweepEntry(vip: Vip) returns (ghost es: seq<Event>)
      requires Valid() && vip in channelMap
      modifies `closed, `listeners, `bindIPMap, `channelMap, `sweep
      ensures Valid() && Run(old(Now()), es) == Some(Now())
      ensures closed == old(closed) + {old(channelMap)[vip]}
      ensures channelMap == Without(old(channelMap), {old(channelMap)[vip]})
    {
      hide Inv, Calm, Firing, OwnListeners;
      ghost var start := Now();
      var c := channelMap[vip];
      CalmListeners(start, c);
      es := [SweepTake(vip)] + [SweepClose];
      Run1(start, SweepTake(vip));
      RunThen(start, [SweepTake(vip)], start.(sweep := Picked(vip, c)), SweepClose);
      closed := closed + {c};
      sweep := Evicting(vip);
      FiringStart(start, Now(), c);
      ghost var fs := FireListeners(c, start);
      RunAppend(start, es, fs);
      es := es + fs;
      FinishSweep(vip, start, es);
      es := es + [SweepRemove];
    }

    method FinishSweep(vip: Vip, ghost start: State, ghost es: seq<Event>)
      requires Inv(start) && Calm(start) && vip in start.channelMap && Run(start, es) == Some(Now())
      requires Firing(start, Now(), start.channelMap[vip]) && forall l :: listeners[(start.channelMap[vip], l)] == 0
      requires sweep == Evicting(vip)
      modifies `channelMap, `sweep
      ensures Valid() && Run(start, es + [SweepRemove]) == Some(Now())
      ensures channelMap == Without(start.channelMap, {start.channelMap[vip]})
    {
      hide Inv, Calm, Firing, OwnListeners;
      ghost var c, u := start.channelMap[vip], Now();
      FiredAll(start, u, c);
      RunThen(start, es, u, SweepRemove);
      channelMap := channelMap - {vip};
      sweep := Resting;
      assert channelMap == u.channelMap;
      assert Now() == u.(sweep := Resting);
      RunKeepsInv(start, es + [SweepRemove]);
    }

    // One pass of the sweep over the entries, given the channels whose heartbeat is overdue.
    method SweepPass(expired: set<Chan>) returns (ghost es: seq<Event>)
      requires Valid()
      modifies `closed, `listeners, `bindIPMap, `channelMap, `sweep
      ensures Valid() && Run(old(Now()), es) == Some(Now())
      ensures channelMap == Without(old(channelMap), expired)
      ensures closed == old(closed) + expired * Channels(old(channelMap))
    {
      hide Inv, Calm;
      ghost var start := Now();
      ghost var done := {};
      es := [];
      var left := channelMap.Keys;
      while left != {}
        invariant Valid() && Run(start, es) == Some(Now())
        invariant channelMap == Without(start.channelMap, done) && done <= expired * Channels(start.channelMap)
        invariant closed == start.closed + done
        invariant forall v | v in channelMap && v !in left :: channelMap[v] !in expired
        decreases left
      {
        EmptyOrNot(left);
        var vip :| vip in left;
        left := left - {vip};
        if vip in channelMap && channelMap[vip] in expired {
          ghost var c := channelMap[vip];
          ghost var fs := SweepEntry(vip);
          RunAppend(start, es, fs);
          es := es + fs;
          WithoutTwice(start.channelMap, done, {c});
          done := done + {c};
        }
      }
      WithoutRest(start.channelMap, done, expired);
      AllSwept(start.channelMap, done, expired);
    }

    // SDWanNodeManager.addChannel
    method AddChannel(vip: Vip, c: Chan)
      modifies `listeners, `channelMap
      ensures listeners == old(listeners) + multiset{(c, Unindex(vip))}
      ensures channelMap == old(channelMap)[vip := c]
    {
      listeners := listeners + multiset{(c, Unindex(vip))};
      channelMap := channelMap[vip := c];
    }
  }

  // It happens: the pool's only address goes to a channel that closed before it registered.
  method LateReached(v: Vip, mac: Mac) returns (service: ControlService, r: Response, ghost es: seq<Event>)
    requires !Malformed(mac)
    ensures fresh(service) && r == Success(v)
    ensures Run(Start({v}), es) == Some(service.Now()) && !Matching(service.Now())
  {
    hide Inv, Calm, Matching, Run;
    service := new ControlService({v});
    es := service.Close(0);
    assert Free(service.bindIPMap, service.nodeTable, v);
    ghost var fs;
    r, fs := service.Regist(0, mac);
    RunAppend(Start({v}), es, fs);
    es := es + fs;
  }
}
