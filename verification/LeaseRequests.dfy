/**
 Which address a request is answered with, by the hardware address that the request carries. A channel that
 has its name gets its own address again, whatever hardware address it asks for.
 */
module LeaseRequests {
  import opened Wrappers
  import opened Lease
  import opened LeaseTheorems

  // A success reply that goes out on an open channel, to a request for a hardware address.
  predicate Grants(s: State, e: Event, m: Mac) {
    e.Reply? && s.Phase(e.chan).Replying? && s.Phase(e.chan).mac == m && s.Open(e.chan)
  }

  // The addresses that requests for a hardware address are granted, in order.
  function Granted(s: State, es: seq<Event>, m: Mac): seq<Vip>
    decreases |es|
  {
    if es == [] || Step(s, es[0]).None? then []
    else (if Grants(s, es[0], m) then [s.Phase(es[0].chan).vip] else []) + Granted(Step(s, es[0]).value, es[1..], m)
  }

  // The branch of regist that does not look at the request, taken for a hardware address that is not the
  // channel's and has another address than the channel.
  predicate Borrows(s: State, e: Event, m: Mac, own: Option<Vip>) {
    && e.Regist? && e.mac == m && e.chan in s.attr
    && s.attr[e.chan].mac != m && own != Some(s.attr[e.chan].vip)
  }

  // A handler answers its request while the channel is open.
  predicate Answered(s: State, es: seq<Event>, c: Chan)
    decreases |es|
  {
    && es != [] && Step(s, es[0]).Some?
    && if es[0] == Reply(c) then s.Open(c) else Answered(Step(s, es[0]).value, es[1..], c)
  }

  // A request takes that branch and is answered.
  predicate Lent(s: State, es: seq<Event>, m: Mac, own: Option<Vip>)
    decreases |es|
  {
    && es != [] && Step(s, es[0]).Some?
    && var t := Step(s, es[0]).value;
       (Borrows(s, es[0], m, own) && Answered(t, es[1..], es[0].chan)) || Lent(t, es[1..], m, own)
  }

  // A handler that has taken that branch and has not answered yet.
  predicate Owing(s: State, c: Chan, m: Mac, own: Option<Vip>) {
    && (s.Phase(c).Indexing? || s.Phase(c).Putting? || s.Phase(c).Replying?) && s.Phase(c).mac == m
    && c in s.attr && s.attr[c].mac != m && own != Some(s.attr[c].vip)
  }

  lemma OwingStep(s: State, e: Event, c: Chan, m: Mac, own: Option<Vip>)
    requires NamesUsed(s) && Step(s, e).Some?
    ensures Owing(Step(s, e).value, c, m, own) <==>
            (Borrows(s, e, m, own) && e.chan == c) || (Owing(s, c, m, own) && e != Reply(c))
  {
    hide SeekStep, SettleStep, OutsideStep;
    if Seeks(e) {
      SeekFrame(s, e);
      SeekPhase(s, e);
      if e.chan == c {
        OwnSeek(s, e, m, own);
      }
    } else if Settles(e) {
      SettleFrame(s, e);
      if e.chan == c {
        OwnSettle(s, e, m, own);
      }
    } else {
      OutsideFrame(s, e);
    }
  }

  lemma OwnSeek(s: State, e: Event, m: Mac, own: Option<Vip>)
    requires Seeks(e) && SeekStep(s, e).Some?
    ensures Owing(SeekStep(s, e).value, e.chan, m, own) <==> Borrows(s, e, m, own)
  {
  }

  lemma OwnSettle(s: State, e: Event, m: Mac, own: Option<Vip>)
    requires NamesUsed(s) && Settles(e) && SettleStep(s, e).Some?
    ensures Owing(SettleStep(s, e).value, e.chan, m, own) <==> Owing(s, e.chan, m, own) && e != Reply(e.chan)
  {
  }

  // A reply on a channel named under another hardware address, with another address.
  predicate Strays(s: State, e: Event, m: Mac, own: Option<Vip>) {
    Grants(s, e, m) && Owing(s, e.chan, m, own)
  }

  predicate Strayed(s: State, es: seq<Event>, m: Mac, own: Option<Vip>)
    decreases |es|
  {
    && es != [] && Step(s, es[0]).Some?
    && (Strays(s, es[0], m, own) || Strayed(Step(s, es[0]).value, es[1..], m, own))
  }

  // Stray replies are the answers to requests that took the branch.
  lemma {:induction false} StrayedIsLent(s: State, es: seq<Event>, m: Mac, own: Option<Vip>)
    requires Inv(s) && Run(s, es).Some?
    ensures Strayed(s, es, m, own) <==>
            Lent(s, es, m, own) || exists c :: Owing(s, c, m, own) && Answered(s, es, c)
    decreases |es|
  {
    if es != [] {
      var e := es[0];
      var t := Step(s, e).value;
      StepKeepsInv(s, e);
      StrayedIsLent(t, es[1..], m, own);
      hide Inv, SeekStep, SettleStep, OutsideStep;
      forall c
        ensures (Owing(s, c, m, own) && Answered(s, es, c))
                || (Borrows(s, e, m, own) && e.chan == c && Answered(t, es[1..], c))
                <==> (Strays(s, e, m, own) && e.chan == c) || (Owing(t, c, m, own) && Answered(t, es[1..], c))
      {
        OwingStep(s, e, c, m, own);
        OwingReplies(s, e, c, m, own);
      }
    }
  }

  lemma OwingReplies(s: State, e: Event, c: Chan, m: Mac, own: Option<Vip>)
    requires Step(s, e).Some?
    ensures e == Reply(c) ==> s.Phase(c).Replying?
  {
  }

  // The address stored for a hardware address.
  function StoredFor(s: State, m: Mac): Option<Vip> {
    if m in s.nodes then Some(s.nodes[m]) else None
  }

  // Every grant is the stored address but for the stray ones.
  lemma {:induction false} GrantsAreStored(s: State, es: seq<Event>, m: Mac, t: State)
    requires Inv(s) && Consistent(s, m) && Untouched(es, m) && Run(s, es) == Some(t)
    ensures (forall v | v in Granted(s, es, m) :: StoredFor(t, m) == Some(v)) <==> !Strayed(s, es, m, StoredFor(t, m))
    decreases |es|
  {
    if es != [] {
      var e := es[0];
      var u := Step(s, e).value;
      StepKeepsInv(s, e);
      StepConsistent(s, e, m);
      GrantsAreStored(u, es[1..], m, t);
      hide SeekStep, SettleStep, OutsideStep;
      if Grants(s, e, m) {
        GrantIsStored(s, es, m, t);
      }
    }
  }

  lemma GrantIsStored(s: State, es: seq<Event>, m: Mac, t: State)
    requires Inv(s) && Consistent(s, m) && Untouched(es, m) && Run(s, es) == Some(t)
    requires es != [] && Grants(s, es[0], m)
    ensures StoredFor(t, m) == Some(s.Phase(es[0].chan).vip) <==> !Strays(s, es[0], m, StoredFor(t, m))
  {
    var c := es[0].chan;
    assert c in s.attr && s.attr[c].vip == s.Phase(c).vip;
    if s.attr[c].mac == m {
      assert Carries(s, c, m, s.attr[c].vip);
      RunConsistent(s, es, m);
    }
  }

  // Until the administrator touches it, every request for a hardware address is granted the address stored
  // for it if and only if no request for it is answered on a channel that is already named under another
  // hardware address with another address.
  lemma SameAddressExactly(pool: set<Vip>, es: seq<Event>, s: State, m: Mac)
    requires Reached(pool, es, s) && Untouched(es, m)
    ensures (forall v | v in Granted(Start(pool), es, m) :: StoredFor(s, m) == Some(v))
            <==> !Lent(Start(pool), es, m, StoredFor(s, m))
  {
    StartInv(pool);
    GrantsAreStored(Start(pool), es, m, s);
    StrayedIsLent(Start(pool), es, m, StoredFor(s, m));
  }

  // So without such a request, racing first registrations included, it is one and the same address.
  lemma SameAddressEveryTime(pool: set<Vip>, es: seq<Event>, s: State, m: Mac, u: Vip, v: Vip)
    requires Reached(pool, es, s) && Untouched(es, m) && !Lent(Start(pool), es, m, StoredFor(s, m))
    requires u in Granted(Start(pool), es, m) && v in Granted(Start(pool), es, m)
    ensures u == v && StoredFor(s, m) == Some(v)
  {
    SameAddressExactly(pool, es, s, m);
  }

  // While the administrator leaves both alone, another hardware address does mean another address.
  lemma OtherNameOtherAddress(pool: set<Vip>, es: seq<Event>, s: State, m: Mac, c: Chan)
    requires Reached(pool, es, s) && c in s.attr && s.Open(c) && s.attr[c].mac != m && Untouched(es, s.attr[c].mac)
    ensures StoredFor(s, m) != Some(s.attr[c].vip)
  {
    ReachedInv(pool, es, s);
    StartInv(pool);
    RunConsistent(Start(pool), es, s.attr[c].mac);
    assert Carries(s, c, s.attr[c].mac, s.attr[c].vip);
  }

  lemma Cons(s: State, e: Event, t: State, es: seq<Event>, m: Mac)
    requires Step(s, e) == Some(t)
    ensures Run(s, [e] + es) == Run(t, es)
    ensures Granted(s, [e] + es, m) == (if Grants(s, e, m) then [s.Phase(e.chan).vip] else []) + Granted(t, es, m)
  {
    assert ([e] + es)[1..] == es;
  }

  // A first registration of a hardware address, undisturbed.
  function FirstTime(c: Chan, m: Mac, v: Vip): seq<Event> {
    [Regist(c, m)] + ([Query(c)] + ([List(c)] + ([TryNext(c, v)] + ([AddRelease(c)] + Finish(c)))))
  }

  function Finish(c: Chan): seq<Event> {
    [Save(c)] + ([SetAttr(c)] + Last(c))
  }

  function Last(c: Chan): seq<Event> {
    [AddUnindex(c)] + ([Put(c)] + ([Reply(c)] + []))
  }

  // Another registration on a named channel.
  function Again(c: Chan, m: Mac): seq<Event> {
    [Regist(c, m)] + Last(c)
  }

  lemma LastRun(s: State, c: Chan, m: Mac, v: Vip, k: Mac)
    requires s.Phase(c) == Indexing(m, v) && s.Open(c)
    ensures Run(s, Last(c)) == Some(Indexed(s, c, v))
    ensures Granted(s, Last(c), k) == if k == m then [v] else []
  {
    var s1 := Step(s, AddUnindex(c)).value;
    var s2 := Step(s1, Put(c)).value;
    var s3 := Step(s2, Reply(c)).value;
    Cons(s, AddUnindex(c), s1, [Put(c)] + ([Reply(c)] + []), k);
    Cons(s1, Put(c), s2, [Reply(c)] + [], k);
    Cons(s2, Reply(c), s3, [], k);
    assert s3.phases == s.phases[c := Idle];
  }

  lemma AgainRun(s: State, c: Chan, m: Mac, k: Mac)
    requires s.Phase(c).Idle? && s.Open(c) && c in s.attr
    ensures var t := Run(s, Again(c, m));
            && t.Some? && t.value.slots == s.slots && t.value.nodes == s.nodes && t.value.attr == s.attr
            && t.value.closed == s.closed && t.value.phases == s.phases[c := Idle]
            && Granted(s, Again(c, m), k) == if k == m then [s.attr[c].vip] else []
  {
    var s1 := Step(s, Regist(c, m)).value;
    Cons(s, Regist(c, m), s1, Last(c), k);
    LastRun(s1, c, m, s.attr[c].vip, k);
    assert s1.phases[c := Idle] == s.phases[c := Idle];
  }

  lemma SeekRun(s: State, c: Chan, m: Mac, v: Vip, rest: seq<Event>, k: Mac)
    requires s.Phase(c).Idle? && c !in s.attr && !Malformed(m) && m !in s.nodes && v !in s.nodes.Values
    requires v in s.slots && s.slots[v] == None
    ensures var u := State(s.slots[v := Some(c)], s.nodes, s.closed, s.attr, s.phases[c := Saving(m, v)],
                           s.pending + multiset{(c, Release(v))}, s.channelMap, s.sweep);
            var es := [Regist(c, m)] + ([Query(c)] + ([List(c)] + ([TryNext(c, v)] + ([AddRelease(c)] + rest))));
            Run(s, es) == Run(u, rest) && Granted(s, es, k) == Granted(u, rest, k)
  {
    hide Run, Granted;
    var s1 := s.Goto(c, Looking(m));
    var s2 := s1.Goto(c, Listing(m));
    var s3 := s2.Goto(c, Scanning(m, s.nodes.Values, s.slots.Keys));
    var s4 := s3.(slots := s.slots[v := Some(c)]).Goto(c, Bound(m, v, false));
    var s5 := s4.(pending := s.pending + multiset{(c, Release(v))}).Goto(c, Saving(m, v));
    var r4 := [AddRelease(c)] + rest;
    var r3 := [TryNext(c, v)] + r4;
    var r2 := [List(c)] + r3;
    Cons(s4, AddRelease(c), s5, rest, k);
    Cons(s3, TryNext(c, v), s4, r4, k);
    Cons(s2, List(c), s3, r3, k);
    Cons(s1, Query(c), s2, r2, k);
    Cons(s, Regist(c, m), s1, [Query(c)] + r2, k);
    assert s5.phases == s.phases[c := Saving(m, v)];
  }

  // A channel with slot, listeners, name and entry.
  function Registered(s: State, c: Chan, m: Mac, v: Vip): State {
    Indexed(s.(slots := s.slots[v := Some(c)], pending := s.pending + multiset{(c, Release(v))},
               attr := s.attr[c := Node(m, v)]), c, v)
  }

  lemma FirstTimeRun(s: State, c: Chan, m: Mac, v: Vip, k: Mac)
    requires s.Phase(c).Idle? && s.Open(c) && c !in s.attr && !Malformed(m) && m !in s.nodes && v !in s.nodes.Values
    requires v in s.slots && s.slots[v] == None
    ensures var t := Run(s, FirstTime(c, m, v));
            && t == Some(Registered(s.(nodes := s.nodes[m := v]), c, m, v))
            && Granted(s, FirstTime(c, m, v), k) == if k == m then [v] else []
  {
    hide Granted, Run, SeekStep, SettleStep;
    var u := State(s.slots[v := Some(c)], s.nodes, s.closed, s.attr, s.phases[c := Saving(m, v)],
                   s.pending + multiset{(c, Release(v))}, s.channelMap, s.sweep);
    SeekRun(s, c, m, v, Finish(c), k);
    FinishRun(u, c, m, v, k);
    assert u.phases[c := Idle] == s.phases[c := Idle];
  }

  lemma FinishRun(s: State, c: Chan, m: Mac, v: Vip, k: Mac)
    requires s.Phase(c) == Saving(m, v) && s.Open(c) && m !in s.nodes && v !in s.nodes.Values
    ensures var t := Run(s, Finish(c));
            && t == Some(Indexed(s.(nodes := s.nodes[m := v], attr := s.attr[c := Node(m, v)]), c, v))
            && Granted(s, Finish(c), k) == if k == m then [v] else []
  {
    hide Run, Granted;
    var s1 := s.(nodes := s.nodes[m := v]).Goto(c, Naming(m, v));
    var s2 := s1.(attr := s.attr[c := Node(m, v)]).Goto(c, Indexing(m, v));
    Cons(s, Save(c), s1, [SetAttr(c)] + Last(c), k);
    Cons(s1, SetAttr(c), s2, Last(c), k);
    LastRun(s2, c, m, v, k);
    hide SettleStep;
    assert s2.phases[c := Idle] == s.phases[c := Idle];
  }

  lemma {:induction false} GrantedAppend(s: State, es: seq<Event>, fs: seq<Event>, m: Mac)
    requires Run(s, es).Some?
    ensures Granted(s, es + fs, m) == Granted(s, es, m) + Granted(Run(s, es).value, fs, m)
    decreases |es|
  {
    if es == [] {
      assert es + fs == fs;
    } else {
      assert (es + fs)[0] == es[0] && (es + fs)[1..] == es[1..] + fs;
      GrantedAppend(Step(s, es[0]).value, es[1..], fs, m);
    }
  }

  // It happens: a channel named under one hardware address asks for a second, and then that one registers.
  // The second is granted two addresses.
  lemma TwoAddresses(u: Vip, v: Vip, m: Mac, k: Mac)
    requires u != v && m != k && !Malformed(m) && !Malformed(k)
    ensures var es := FirstTime(0, m, u) + Again(0, k) + FirstTime(1, k, v);
            var s := Run(Start({u, v}), es);
            && s.Some? && Untouched(es, k)
            && Granted(Start({u, v}), es, k) == [u, v] && StoredFor(s.value, k) == Some(v)
  {
    hide Run, Granted, FirstTime, Again;
    var s := Start({u, v});
    var a, b, d := FirstTime(0, m, u), Again(0, k), FirstTime(1, k, v);
    FirstTimeRun(s, 0, m, u, k);
    var s1 := Run(s, a).value;
    AgainRun(s1, 0, k, k);
    var s2 := Run(s1, b).value;
    FirstTimeRun(s2, 1, k, v, k);
    RunAppend(s, a, b);
    RunAppend(s, a + b, d);
    GrantedAppend(s, a, b, k);
    GrantedAppend(s, a + b, d, k);
    HandlersOnly(0, m, u);
    HandlersOnly(0, k, u);
    HandlersOnly(1, k, v);
    forall e | e in a + b + d ensures !Touches(e, k) {
      assert e in a || e in b || e in d;
    }
  }

  lemma HandlersOnly(c: Chan, m: Mac, v: Vip)
    ensures forall e | e in FirstTime(c, m, v) :: HandlerStep(e)
    ensures forall e | e in Again(c, m) :: HandlerStep(e)
  {
  }
}
