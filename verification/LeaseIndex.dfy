/** How long a channel is found in the controller's second index. */
module LeaseIndex {
  import opened Wrappers
  import opened Lease
  import opened LeaseTheorems
  import opened LeaseRequests

  // Steps that write or remove the entry of an address: a put, the removal by any channel's listener, and the
  // removal by the sweep.
  predicate Disturbs(s: State, e: Event, v: Vip) {
    || (e.Put? && s.Phase(e.chan).Putting? && s.Phase(e.chan).vip == v)
    || (e.Fire? && e.listener == Unindex(v))
    || (e.SweepRemove? && s.sweep.Evicting? && s.sweep.vip == v)
  }

  predicate Undisturbed(s: State, es: seq<Event>, v: Vip)
    decreases |es|
  {
    es == [] || Step(s, es[0]).None? || (!Disturbs(s, es[0], v) && Undisturbed(Step(s, es[0]).value, es[1..], v))
  }

  lemma StepEntry(s: State, e: Event, v: Vip, d: Chan)
    requires Step(s, e).Some? && e != Put(d)
    ensures Target(Step(s, e).value, v) == Some(d) <==> Target(s, v) == Some(d) && !Disturbs(s, e, v)
  {
    hide SeekStep, SettleStep, OutsideStep;
    if Seeks(e) {
      SeekIndex(s, e);
    } else if Settles(e) {
      SettleIndex(s, e);
    } else {
      OutsideIndex(s, e);
    }
  }

  lemma SeekIndex(s: State, e: Event)
    requires Seeks(e) && SeekStep(s, e).Some?
    ensures SeekStep(s, e).value.channelMap == s.channelMap
  {
  }

  lemma SettleIndex(s: State, e: Event)
    requires Settles(e) && SettleStep(s, e).Some?
    ensures e.Put? ==> s.Phase(e.chan).Putting?
    ensures SettleStep(s, e).value.channelMap
            == if e.Put? then s.channelMap[s.Phase(e.chan).vip := e.chan] else s.channelMap
  {
  }

  lemma OutsideIndex(s: State, e: Event)
    requires !HandlerStep(e) && OutsideStep(s, e).Some?
    ensures e.SweepRemove? ==> s.sweep.Evicting?
    ensures OutsideStep(s, e).value.channelMap
            == if e.Fire? && e.listener.Unindex? then s.channelMap - {e.listener.vip}
               else if e.SweepRemove? then s.channelMap - {s.sweep.vip} else s.channelMap
  {
    match e
    case Fire(c, l) =>
      match l {
        case Release(v) =>
        case Unindex(v) =>
      }
    case _ =>
  }

  lemma {:induction false} EntryUntil(s: State, es: seq<Event>, v: Vip, d: Chan)
    requires Run(s, es).Some? && Put(d) !in es
    ensures Target(Run(s, es).value, v) == Some(d) <==> Target(s, v) == Some(d) && Undisturbed(s, es, v)
    decreases |es|
  {
    if es != [] {
      StepEntry(s, es[0], v, d);
      EntryUntil(Step(s, es[0]).value, es[1..], v, d);
    }
  }

  // From its put on, until it puts again, a channel is found under its address exactly as long as nobody
  // removes that entry or puts another one: its own listeners and the sweep, but also the listener that another
  // channel of the same address fires late, and the put of one that is closed already.
  lemma IndexedUntil(s: State, d: Chan, es: seq<Event>, t: State)
    requires s.Phase(d).Putting? && Run(s, [Put(d)] + es) == Some(t) && Put(d) !in es
    ensures var v := s.Phase(d).vip;
            Target(t, v) == Some(d) <==> Undisturbed(Step(s, Put(d)).value, es, v)
  {
    var s1 := Step(s, Put(d)).value;
    assert ([Put(d)] + es)[1..] == es;
    EntryUntil(s1, es, s.Phase(d).vip, d);
  }

  // A node reconnects.
  function Reconnect(c: Chan, m: Mac): seq<Event> {
    [Regist(c, m)] + ([Query(c)] + ([Cas(c)] + ([AddRelease(c)] + ([SetAttr(c)] + Last(c)))))
  }

  lemma ReconnectRun(s: State, c: Chan, m: Mac, v: Vip)
    requires s.Phase(c).Idle? && s.Open(c) && c !in s.attr && !Malformed(m) && m in s.nodes && s.nodes[m] == v
    requires v in s.slots && s.slots[v] == None
    ensures Run(s, Reconnect(c, m)) == Some(Registered(s, c, m, v))
  {
    hide Run, Granted;
    var s3 := s.(slots := s.slots[v := Some(c)], pending := s.pending + multiset{(c, Release(v))});
    var s4 := s3.Goto(c, Naming(m, v));
    var s5 := s4.(attr := s.attr[c := Node(m, v)]).Goto(c, Indexing(m, v));
    TakeAgain(s, c, m, v, [SetAttr(c)] + Last(c));
    Cons(s4, SetAttr(c), s5, Last(c), m);
    hide SeekStep, SettleStep;
    LastRun(s5, c, m, v, m);
    assert s5.phases[c := Idle] == s.phases[c := Idle];
  }

  lemma TakeAgain(s: State, c: Chan, m: Mac, v: Vip, rest: seq<Event>)
    requires s.Phase(c).Idle? && c !in s.attr && !Malformed(m) && m in s.nodes && s.nodes[m] == v
    requires v in s.slots && s.slots[v] == None
    ensures var t := s.(slots := s.slots[v := Some(c)], pending := s.pending + multiset{(c, Release(v))});
            Run(s, [Regist(c, m)] + ([Query(c)] + ([Cas(c)] + ([AddRelease(c)] + rest))))
            == Run(t.Goto(c, Naming(m, v)), rest)
  {
    hide Run, Granted;
    var s1 := s.Goto(c, Looking(m));
    var s2 := s1.Goto(c, Found(m, v));
    var s3 := s2.(slots := s.slots[v := Some(c)]).Goto(c, Bound(m, v, true));
    var s4 := s3.(pending := s.pending + multiset{(c, Release(v))}).Goto(c, Naming(m, v));
    var l3 := [AddRelease(c)] + rest;
    var l2 := [Cas(c)] + l3;
    Cons(s3, AddRelease(c), s4, rest, m);
    Cons(s2, Cas(c), s3, l3, m);
    Cons(s1, Query(c), s2, l2, m);
    Cons(s, Regist(c, m), s1, [Query(c)] + l2, m);
    assert s4.phases == s.phases[c := Naming(m, v)];
  }

  // A node registers, its channel closes and its slot is freed; it reconnects on another channel before the
  // first one's second listener has fired.
  function LostRun(m: Mac, v: Vip): seq<Event> {
    FirstTime(0, m, v) + ([Close(0)] + ([Fire(0, Release(v))] + (Reconnect(1, m) + [Fire(0, Unindex(v))])))
  }

  lemma CloseStep(s: State, c: Chan)
    ensures Step(s, Close(c)) == Some(s.(closed := s.closed + {c}))
  {
  }

  lemma FireStep(s: State, c: Chan, l: Listener)
    requires !s.Open(c) && s.pending[(c, l)] > 0 && (l.Release? ==> l.vip in s.slots)
    ensures var t := s.(pending := s.pending - multiset{(c, l)});
            Step(s, Fire(c, l)) == Some(match l
                                        case Release(v) => t.(slots := s.slots[v := None])
                                        case Unindex(v) => t.(channelMap := s.channelMap - {v}))
  {
  }

  // The first channel, closed and its slot freed.
  function Leaving(m: Mac, v: Vip): State {
    var s := Registered(Start({v}).(nodes := map[m := v]), 0, m, v);
    s.(closed := s.closed + {0}, pending := s.pending - multiset{(0, Release(v))}, slots := s.slots[v := None])
  }

  lemma LeavingRun(m: Mac, v: Vip, rest: seq<Event>)
    requires !Malformed(m)
    ensures Run(Start({v}), FirstTime(0, m, v) + ([Close(0)] + ([Fire(0, Release(v))] + rest)))
            == Run(Leaving(m, v), rest)
  {
    hide Run, Granted, FirstTime, SeekStep, SettleStep, OutsideStep;
    var s := Start({v});
    var s1 := Registered(s.(nodes := map[m := v]), 0, m, v);
    var s2 := s1.(closed := s1.closed + {0});
    assert s.nodes[m := v] == map[m := v];
    FirstTimeRun(s, 0, m, v, m);
    RunAppend(s, FirstTime(0, m, v), [Close(0)] + ([Fire(0, Release(v))] + rest));
    CloseStep(s1, 0);
    FireStep(s2, 0, Release(v));
    Cons(s1, Close(0), s2, [Fire(0, Release(v))] + rest, m);
    Cons(s2, Fire(0, Release(v)), Leaving(m, v), rest, m);
  }

  // Then the new channel is open, leases the address and is named by it, but is not found under it: it gets no
  // offers, the sweep does not see it, and deleteChannel does not close it.
  lemma EntryLost(m: Mac, v: Vip)
    requires !Malformed(m)
    ensures var t := Run(Start({v}), LostRun(m, v));
            && t.Some? && t.value.Open(1) && t.value.Holds(1, v)
            && 1 in t.value.attr && t.value.attr[1] == Node(m, v)
            && Target(t.value, v) == None
  {
    hide Run, FirstTime, Reconnect, Leaving, SeekStep, SettleStep, OutsideStep, Granted;
    var s3 := Leaving(m, v);
    var s4 := Registered(s3, 1, m, v);
    LeavingRun(m, v, Reconnect(1, m) + [Fire(0, Unindex(v))]);
    LeavingFacts(m, v);
    ReconnectRun(s3, 1, m, v);
    RunAppend(s3, Reconnect(1, m), [Fire(0, Unindex(v))]);
    LateFire(s4, v);
  }

  lemma LeavingFacts(m: Mac, v: Vip)
    ensures var s := Leaving(m, v);
            && s.Phase(1).Idle? && s.Open(1) && 1 !in s.attr && m in s.nodes && s.nodes[m] == v
            && v in s.slots && s.slots[v] == None && !s.Open(0) && s.pending[(0, Unindex(v))] > 0
  {
  }

  lemma LateFire(s: State, v: Vip)
    requires !s.Open(0) && s.pending[(0, Unindex(v))] > 0
    ensures Run(s, [Fire(0, Unindex(v))])
            == Some(s.(pending := s.pending - multiset{(0, Unindex(v))}, channelMap := s.channelMap - {v}))
  {
    var t := s.(pending := s.pending - multiset{(0, Unindex(v))}, channelMap := s.channelMap - {v});
    FireStep(s, 0, Unindex(v));
    assert [Fire(0, Unindex(v))] == [Fire(0, Unindex(v))] + [];
    Cons(s, Fire(0, Unindex(v)), t, [], 0);
    EmptyRun(t);
  }

  lemma EmptyRun(s: State)
    ensures Run(s, []) == Some(s)
  {
  }
}
