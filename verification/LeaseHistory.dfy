/**
 What the tables hold after a run, by who wrote them last: the steps of a run, and not the tables, say which node
 is stored, who holds an address and which channels are closed.
 */
module LeaseHistory {
  import opened Wrappers
  import opened Lease
  import opened LeaseTheorems
  import opened LeaseRequests
  import opened LeaseIndex

  // What a step writes into the row of a hardware address: a save that finds neither the hardware address nor the
  // address in the table, and the administrator.
  function RowWrite(s: State, e: Event, m: Mac): Option<Option<Vip>> {
    match e
    case Save(c) =>
      var p := s.Phase(c);
      if p.Saving? && p.mac == m && m !in s.nodes && p.vip !in s.nodes.Values then Some(Some(p.vip)) else None
    case UpdateNode(n, v) => if n == m then Some(Some(v)) else None
    case DeleteNode(n) => if n == m then Some(None) else None
    case _ => None
  }

  // What a step writes into a slot: the compare-and-set of a handler that may take it, and the release that fires.
  function SlotWrite(s: State, e: Event, v: Vip): Option<Option<Chan>> {
    match e
    case Cas(c) => if s.Phase(c).Found? && s.Phase(c).vip == v && Vacant(s, v) then Some(Some(c)) else None
    case TryNext(c, u) =>
      if s.Phase(c).Scanning? && u == v && v !in s.Phase(c).stored && Vacant(s, v) then Some(Some(c)) else None
    case Fire(c, l) => if l == Release(v) then Some(None) else None
    case _ => None
  }

  predicate Vacant(s: State, v: Vip) {
    v in s.slots && s.slots[v] == None
  }

  // The channel that a step closes: its own on a refusal, the one that the sweep took from the index.
  predicate Closes(s: State, e: Event, c: Chan) {
    e == Close(c) || e == Fail(c) || (e == SweepClose && s.sweep.Picked? && s.sweep.chan == c)
  }

  function LastRow(s: State, es: seq<Event>, m: Mac, r: Option<Vip>): Option<Vip>
    decreases |es|
  {
    if es == [] || Step(s, es[0]).None? then r
    else
      var w := RowWrite(s, es[0], m);
      LastRow(Step(s, es[0]).value, es[1..], m, if w.Some? then w.value else r)
  }

  function LastHolder(s: State, es: seq<Event>, v: Vip, r: Option<Chan>): Option<Chan>
    decreases |es|
  {
    if es == [] || Step(s, es[0]).None? then r
    else
      var w := SlotWrite(s, es[0], v);
      LastHolder(Step(s, es[0]).value, es[1..], v, if w.Some? then w.value else r)
  }

  predicate ClosedBy(s: State, es: seq<Event>, c: Chan)
    decreases |es|
  {
    es != [] && Step(s, es[0]).Some? && (Closes(s, es[0], c) || ClosedBy(Step(s, es[0]).value, es[1..], c))
  }

  lemma RowAfter(s: State, e: Event, m: Mac)
    requires Step(s, e).Some?
    ensures var w := RowWrite(s, e, m);
            StoredFor(Step(s, e).value, m) == if w.Some? then w.value else StoredFor(s, m)
  {
    hide SeekStep, SettleStep, OutsideStep;
    if Seeks(e) {
      SeekTables(s, e);
    } else if Settles(e) {
      SettleRow(s, e, m);
    } else {
      OutsideRow(s, e, m);
    }
  }

  lemma SettleRow(s: State, e: Event, m: Mac)
    requires Settles(e) && SettleStep(s, e).Some?
    ensures var w := RowWrite(s, e, m);
            StoredFor(SettleStep(s, e).value, m) == if w.Some? then w.value else StoredFor(s, m)
  {
  }

  lemma OutsideRow(s: State, e: Event, m: Mac)
    requires !HandlerStep(e) && OutsideStep(s, e).Some?
    ensures var w := RowWrite(s, e, m);
            StoredFor(OutsideStep(s, e).value, m) == if w.Some? then w.value else StoredFor(s, m)
  {
    match e
    case Fire(c, l) =>
      match l {
        case Release(v) =>
        case Unindex(v) =>
      }
    case _ =>
  }

  lemma SlotAfter(s: State, e: Event, v: Vip)
    requires Step(s, e).Some? && v in s.slots
    ensures var w := SlotWrite(s, e, v); var t := Step(s, e).value;
            v in t.slots && t.slots[v] == if w.Some? then w.value else s.slots[v]
  {
    hide SeekStep, SettleStep, OutsideStep;
    if Seeks(e) {
      SeekSlot(s, e, v);
    } else if Settles(e) {
      SettleSlots(s, e);
    } else {
      OutsideSlot(s, e, v);
    }
  }

  lemma SeekSlot(s: State, e: Event, v: Vip)
    requires Seeks(e) && SeekStep(s, e).Some? && v in s.slots
    ensures var w := SlotWrite(s, e, v); var t := SeekStep(s, e).value;
            v in t.slots && t.slots[v] == if w.Some? then w.value else s.slots[v]
  {
  }

  lemma SettleSlots(s: State, e: Event)
    requires Settles(e) && SettleStep(s, e).Some?
    ensures SettleStep(s, e).value.slots == s.slots
  {
  }

  lemma OutsideSlot(s: State, e: Event, v: Vip)
    requires !HandlerStep(e) && OutsideStep(s, e).Some? && v in s.slots
    ensures var w := SlotWrite(s, e, v); var t := OutsideStep(s, e).value;
            v in t.slots && t.slots[v] == if w.Some? then w.value else s.slots[v]
  {
    match e
    case Fire(c, l) =>
      match l {
        case Release(u) =>
        case Unindex(u) =>
      }
    case _ =>
  }

  lemma ClosedAfter(s: State, e: Event, c: Chan)
    requires Step(s, e).Some?
    ensures Step(s, e).value.Open(c) <==> s.Open(c) && !Closes(s, e, c)
  {
    hide SeekStep, SettleStep, OutsideStep;
    if Seeks(e) {
      SeekTables(s, e);
    } else if Settles(e) {
      SettleCloses(s, e, c);
    } else {
      OutsideCloses(s, e, c);
    }
  }

  lemma SettleCloses(s: State, e: Event, c: Chan)
    requires Settles(e) && SettleStep(s, e).Some?
    ensures SettleStep(s, e).value.Open(c) <==> s.Open(c) && !Closes(s, e, c)
  {
  }

  lemma OutsideCloses(s: State, e: Event, c: Chan)
    requires !HandlerStep(e) && OutsideStep(s, e).Some?
    ensures OutsideStep(s, e).value.Open(c) <==> s.Open(c) && !Closes(s, e, c)
  {
    match e
    case Fire(d, l) =>
      match l {
        case Release(u) =>
        case Unindex(u) =>
      }
    case _ =>
  }

  // In every interleaving the row of a hardware address is what was written last for it.
  lemma {:induction false} RowIsLastWrite(s: State, es: seq<Event>, m: Mac)
    requires Run(s, es).Some?
    ensures StoredFor(Run(s, es).value, m) == LastRow(s, es, m, StoredFor(s, m))
    decreases |es|
  {
    hide SeekStep, SettleStep, OutsideStep;
    if es != [] {
      RowAfter(s, es[0], m);
      RowIsLastWrite(Step(s, es[0]).value, es[1..], m);
    }
  }

  // An address belongs to whoever took it last, or to nobody once a release for it has fired.
  lemma {:induction false} HolderIsLastTaker(s: State, es: seq<Event>, v: Vip)
    requires Run(s, es).Some? && v in s.slots
    ensures var t := Run(s, es).value; v in t.slots && t.slots[v] == LastHolder(s, es, v, s.slots[v])
    decreases |es|
  {
    hide SeekStep, SettleStep, OutsideStep;
    if es != [] {
      SlotAfter(s, es[0], v);
      HolderIsLastTaker(Step(s, es[0]).value, es[1..], v);
    }
  }

  // A channel is open exactly until somebody closes it.
  lemma {:induction false} OpenUntilClosed(s: State, es: seq<Event>, c: Chan)
    requires Run(s, es).Some?
    ensures Run(s, es).value.Open(c) <==> s.Open(c) && !ClosedBy(s, es, c)
    decreases |es|
  {
    hide SeekStep, SettleStep, OutsideStep;
    if es != [] {
      ClosedAfter(s, es[0], c);
      OpenUntilClosed(Step(s, es[0]).value, es[1..], c);
    }
  }

  // Why a request is turned away: its hardware address is malformed, its stored address is not in the pool or
  // is held by somebody, no address is left, or another save has come first.
  predicate Refuses(s: State, e: Event, c: Chan, code: Code) {
    var p := s.Phase(c);
    match e
    case Regist(d, m) => d == c && c !in s.attr && Malformed(m) && code == MacFormat
    case Cas(d) =>
      d == c && p.Found? && !Vacant(s, p.vip) && code == if p.vip in s.slots then VipBound else SysError
    case GiveUp(d) => d == c && code == NotEnough
    case Save(d) => d == c && p.Saving? && (p.mac in s.nodes || p.vip in s.nodes.Values) && code == SysError
    case _ => false
  }

  lemma RefusedExactly(s: State, e: Event, c: Chan, code: Code)
    requires Step(s, e).Some?
    ensures Step(s, e).value.Phase(c) == Failing(code)
            <==> Refuses(s, e, c, code) || (s.Phase(c) == Failing(code) && e != Fail(c))
  {
    hide SeekStep, SettleStep, OutsideStep;
    if Seeks(e) {
      SeekRefuses(s, e, c, code);
    } else if Settles(e) {
      SettleRefuses(s, e, c, code);
    } else {
      OutsideFrame(s, e);
    }
  }

  lemma SeekRefuses(s: State, e: Event, c: Chan, code: Code)
    requires Seeks(e) && SeekStep(s, e).Some?
    ensures SeekStep(s, e).value.Phase(c) == Failing(code)
            <==> Refuses(s, e, c, code) || s.Phase(c) == Failing(code)
  {
    hide SeekStep;
    SeekFrame(s, e);
    if e.chan == c {
      SeekPhase(s, e);
      OwnRefuses(s, e, code);
    }
  }

  lemma OwnRefuses(s: State, e: Event, code: Code)
    requires Seeks(e) && SeekStep(s, e).Some?
    ensures SeekStep(s, e).value.Phase(e.chan) == Failing(code) <==> Refuses(s, e, e.chan, code)
  {
  }

  lemma SettleRefuses(s: State, e: Event, c: Chan, code: Code)
    requires Settles(e) && SettleStep(s, e).Some?
    ensures SettleStep(s, e).value.Phase(c) == Failing(code)
            <==> Refuses(s, e, c, code) || (s.Phase(c) == Failing(code) && e != Fail(c))
  {
  }

  // The administrator deletes a row whenever he wants, and nothing but that row.
  lemma DeletesExactly(s: State, m: Mac)
    ensures var t := Step(s, DeleteNode(m));
            && t.Some? && t.value.(nodes := s.nodes) == s
            && forall n :: StoredFor(t.value, n) == if n == m then None else StoredFor(s, n)
  {
  }

  // He changes the address of a row if there is one, unless another row has the address.
  lemma UpdatesExactly(s: State, m: Mac, v: Vip)
    ensures var t := Step(s, UpdateNode(m, v));
            && (t.Some? <==> m in s.nodes && !exists n :: n != m && StoredFor(s, n) == Some(v))
            && (t.Some? ==>
                  && t.value.(nodes := s.nodes) == s
                  && forall n :: StoredFor(t.value, n) == if n == m then Some(v) else StoredFor(s, n))
  {
    if v in (s.nodes - {m}).Values {
      var n := KeyOf(s.nodes - {m}, v);
      assert StoredFor(s, n) == Some(v);
    }
    assert forall n :: n != m && StoredFor(s, n) == Some(v) ==> n in s.nodes - {m} && (s.nodes - {m})[n] == v;
  }

  lemma KeyOf<K, V>(nodes: map<K, V>, v: V) returns (n: K)
    requires v in nodes.Values
    ensures n in nodes && nodes[n] == v
  {
    n :| n in nodes && v == nodes[n];
  }

  lemma StoredValues(s: State, v: Vip)
    ensures v in s.nodes.Values <==> exists n :: StoredFor(s, n) == Some(v)
  {
    if v in s.nodes.Values {
      var n := KeyOf(s.nodes, v);
      assert StoredFor(s, n) == Some(v);
    }
  }

  // An idle open channel without a name.
  predicate Ready(s: State, c: Chan) {
    s.Phase(c).Idle? && s.Open(c) && c !in s.attr
  }

  // The address a first registration can get: in the pool, free, and nobody's.
  lemma FirstTimeExactly(s: State, c: Chan, k: Mac, v: Vip)
    requires Ready(s, c) && !Malformed(k) && k !in s.nodes
    ensures Run(s, FirstTime(c, k, v)).Some? <==> Vacant(s, v) && forall m :: StoredFor(s, m) != Some(v)
  {
    hide Run, Granted, FirstTime, SeekStep, SettleStep, OutsideStep;
    StoredValues(s, v);
    if Vacant(s, v) && v !in s.nodes.Values {
      FirstTimeRun(s, c, k, v, k);
    } else {
      SkippedRun(s, c, k, v);
    }
  }

  // A new hardware address is looked for, in vain, and the handler starts to scan the pool.
  lemma ScanRun(s: State, c: Chan, k: Mac, rest: seq<Event>)
    requires Ready(s, c) && !Malformed(k) && k !in s.nodes
    ensures Run(s, [Regist(c, k)] + ([Query(c)] + ([Event.List(c)] + rest)))
            == Run(s.Goto(c, Scanning(k, s.nodes.Values, s.slots.Keys)), rest)
  {
    hide Run, Granted;
    var s1 := s.Goto(c, Looking(k));
    var s2 := s1.Goto(c, Listing(k));
    var s3 := s2.Goto(c, Scanning(k, s.nodes.Values, s.slots.Keys));
    var r2 := [Event.List(c)] + rest;
    Cons(s2, Event.List(c), s3, rest, k);
    Cons(s1, Query(c), s2, r2, k);
    Cons(s, Regist(c, k), s1, [Query(c)] + r2, k);
    assert s3.phases == s.phases[c := s3.Phase(c)];
  }

  // It goes on past an address that somebody holds or that is stored.
  lemma PassStep(s: State, c: Chan, p: Phase, v: Vip)
    requires p.Scanning? && v in p.left && v in s.slots && (v in p.stored || s.slots[v] != None)
    ensures Step(s.Goto(c, p), TryNext(c, v)) == Some(s.Goto(c, p.(left := p.left - {v})))
  {
    assert s.phases[c := p][c := p.(left := p.left - {v})] == s.phases[c := p.(left := p.left - {v})];
  }

  lemma SkippedRun(s: State, c: Chan, k: Mac, v: Vip)
    requires Ready(s, c) && !Malformed(k) && k !in s.nodes && (!Vacant(s, v) || v in s.nodes.Values)
    ensures Run(s, FirstTime(c, k, v)) == None
  {
    hide Run, Granted;
    var p := Scanning(k, s.nodes.Values, s.slots.Keys);
    var r4 := [AddRelease(c)] + Finish(c);
    ScanRun(s, c, k, [TryNext(c, v)] + r4);
    if v in s.slots {
      var t := s.Goto(c, p.(left := p.left - {v}));
      PassStep(s, c, p, v);
      Cons(s.Goto(c, p), TryNext(c, v), t, r4, k);
      Stops(t, AddRelease(c), Finish(c));
    } else {
      Stops(s.Goto(c, p), TryNext(c, v), r4);
    }
  }

  lemma Stops(s: State, e: Event, es: seq<Event>)
    requires Step(s, e).None?
    ensures Run(s, [e] + es) == None
  {
  }

  // A deletion makes the address free for others: right after it, the first registration of another node can get an
  // address exactly when it could before, or when the address is vacant and was stored for the deleted node. The
  // node then has it, and the deleted node has nothing.
  lemma FreedByDeletion(s: State, m: Mac, c: Chan, k: Mac, v: Vip)
    requires NodesUnique(s) && Ready(s, c) && !Malformed(k) && k !in s.nodes
    ensures var es := [DeleteNode(m)] + FirstTime(c, k, v);
            && (Run(s, es).Some? <==>
                  Run(s, FirstTime(c, k, v)).Some? || (Vacant(s, v) && StoredFor(s, m) == Some(v)))
            && (Run(s, es).Some? ==>
                  var t := Run(s, es).value;
                  && Granted(s, es, k) == [v] && t.Holds(c, v) && t.Open(c)
                  && StoredFor(t, k) == Some(v) && (k != m ==> StoredFor(t, m) == None))
  {
    hide Run, Granted, FirstTime, SeekStep, SettleStep, OutsideStep, NodesUnique;
    DeletesExactly(s, m);
    var u := Step(s, DeleteNode(m)).value;
    Cons(s, DeleteNode(m), u, FirstTime(c, k, v), k);
    assert Ready(u, c) && (Vacant(u, v) <==> Vacant(s, v));
    assert StoredFor(u, k) == None;
    FirstTimeExactly(s, c, k, v);
    FirstTimeExactly(u, c, k, v);
    OnlyOwner(s, m, v);
    if Run(u, FirstTime(c, k, v)).Some? {
      StoredValues(u, v);
      FirstTimeRun(u, c, k, v, k);
    }
  }

  lemma OnlyOwner(s: State, m: Mac, v: Vip)
    requires NodesUnique(s)
    ensures StoredFor(s, m) == Some(v) ==> forall n :: StoredFor(s, n) == Some(v) ==> n == m
  {
  }

  // A node has had its address and left: channel closed, slot freed; then perhaps its row is deleted, and then
  // something else happens.
  function Left(m: Mac, v: Vip, deleted: bool, rest: seq<Event>): seq<Event> {
    FirstTime(0, m, v)
    + ([Close(0)] + ([Fire(0, Release(v))] + if deleted then [DeleteNode(m)] + rest else rest))
  }

  // A first registration that looks at the one address of the pool and gives up.
  function InVain(c: Chan, k: Mac, v: Vip): seq<Event> {
    [Regist(c, k)] + ([Query(c)] + ([Event.List(c)] + ([TryNext(c, v)] + ([GiveUp(c)] + ([Event.Fail(c)] + [])))))
  }

  lemma InVainRun(s: State, c: Chan, k: Mac, v: Vip)
    requires Ready(s, c) && !Malformed(k) && k !in s.nodes && s.slots.Keys == {v} && v in s.nodes.Values
    ensures Run(s, InVain(c, k, v))
            == Some(s.(closed := s.closed + {c}, phases := s.phases[c := Rejected(NotEnough)]))
  {
    hide Run, Granted;
    var p := Scanning(k, s.nodes.Values, {v});
    var r5 := [Event.Fail(c)] + [];
    ScanRun(s, c, k, [TryNext(c, v)] + ([GiveUp(c)] + r5));
    PassStep(s, c, p, v);
    assert p.left - {v} == {};
    Cons(s.Goto(c, p), TryNext(c, v), s.Goto(c, p.(left := {})), [GiveUp(c)] + r5, k);
    GiveUpRun(s, c, p.(left := {}), k);
  }

  lemma GiveUpRun(s: State, c: Chan, p: Phase, k: Mac)
    requires p.Scanning? && p.left == {}
    ensures Run(s.Goto(c, p), [GiveUp(c)] + ([Event.Fail(c)] + []))
            == Some(s.(closed := s.closed + {c}, phases := s.phases[c := Rejected(NotEnough)]))
  {
    hide Run, Granted;
    var t := s.Goto(c, Failing(NotEnough));
    var u := s.(closed := s.closed + {c}, phases := s.phases[c := Rejected(NotEnough)]);
    assert s.phases[c := p][c := Failing(NotEnough)] == t.phases;
    assert s.phases[c := Failing(NotEnough)][c := Rejected(NotEnough)] == u.phases;
    Cons(s.Goto(c, p), GiveUp(c), t, [Event.Fail(c)] + [], k);
    Cons(t, Event.Fail(c), u, [], k);
    EmptyRun(u);
  }

  // It happens, with a pool of one address: another node is turned away while the row is stored, and gets the address
  // once it is deleted.
  lemma ReusedAfterDeletion(m: Mac, k: Mac, v: Vip)
    requires m != k && !Malformed(m) && !Malformed(k)
    ensures var t := Run(Start({v}), Left(m, v, false, InVain(1, k, v)));
            t.Some? && t.value.Phase(1) == Rejected(NotEnough) && !t.value.Open(1) && Vacant(t.value, v)
    ensures Run(Start({v}), Left(m, v, false, FirstTime(1, k, v))).None?
    ensures var t := Run(Start({v}), Left(m, v, true, FirstTime(1, k, v)));
            && t.Some? && t.value.Open(1) && t.value.Holds(1, v)
            && StoredFor(t.value, k) == Some(v) && StoredFor(t.value, m) == None
  {
    hide Run, Granted, FirstTime, InVain, Leaving, SeekStep, SettleStep, OutsideStep;
    var s := Leaving(m, v);
    LeftFacts(m, k, v);
    LeavingRun(m, v, InVain(1, k, v));
    LeavingRun(m, v, FirstTime(1, k, v));
    LeavingRun(m, v, [DeleteNode(m)] + FirstTime(1, k, v));
    InVainRun(s, 1, k, v);
    FirstTimeExactly(s, 1, k, v);
    FreedByDeletion(s, m, 1, k, v);
  }

  lemma LeftFacts(m: Mac, k: Mac, v: Vip)
    requires m != k
    ensures var s := Leaving(m, v);
            && Ready(s, 1) && k !in s.nodes && StoredFor(s, m) == Some(v) && NodesUnique(s)
            && s.slots.Keys == {v} && Vacant(s, v) && v in s.nodes.Values
  {
    var s := Leaving(m, v);
    assert s.nodes == map[m := v] && s.nodes[m] in s.nodes.Values;
  }
}
