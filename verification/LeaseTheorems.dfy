/** What the lease protocol keeps over whole runs, in every interleaving of its steps. */
module LeaseTheorems {
  import opened Wrappers
  import opened Lease

  lemma StartInv(pool: set<Vip>)
    ensures Inv(Start(pool))
  {
  }

  // The states that runs reach.
  ghost predicate Reached(pool: set<Vip>, es: seq<Event>, s: State) {
    Run(Start(pool), es) == Some(s)
  }

  lemma ReachedInv(pool: set<Vip>, es: seq<Event>, s: State)
    requires Reached(pool, es, s)
    ensures Inv(s) && s.slots.Keys == pool
  {
    StartInv(pool);
    RunKeepsInv(Start(pool), es);
    RunKeepsPool(Start(pool), es);
    assert Start(pool).slots.Keys == pool;
  }

  lemma SeekKeepsPool(s: State, e: Event)
    requires Seeks(e) && SeekStep(s, e).Some?
    ensures SeekStep(s, e).value.slots.Keys == s.slots.Keys
  {
  }

  lemma OutsideKeepsPool(s: State, e: Event)
    requires !HandlerStep(e) && OutsideStep(s, e).Some?
    ensures OutsideStep(s, e).value.slots.Keys == s.slots.Keys
  {
  }

  lemma StepKeepsPool(s: State, e: Event)
    requires Step(s, e).Some?
    ensures Step(s, e).value.slots.Keys == s.slots.Keys
  {
    hide SeekStep, OutsideStep;
    if Seeks(e) {
      SeekKeepsPool(s, e);
    } else if !Settles(e) {
      OutsideKeepsPool(s, e);
    }
  }

  lemma {:induction false} RunKeepsPool(s: State, es: seq<Event>)
    requires Run(s, es).Some?
    ensures Run(s, es).value.slots.Keys == s.slots.Keys
    decreases |es|
  {
    if es != [] {
      StepKeepsPool(s, es[0]);
      RunKeepsPool(Step(s, es[0]).value, es[1..]);
    }
  }

  // No two open channels carry the same address, and stored addresses are unique.
  lemma NoSharedAddress(pool: set<Vip>, es: seq<Event>, s: State, c: Chan, d: Chan)
    requires Reached(pool, es, s)
    requires s.Open(c) && s.Open(d) && c in s.attr && d in s.attr && s.attr[c].vip == s.attr[d].vip
    ensures c == d
  {
    ReachedInv(pool, es, s);
  }

  lemma StoredUnique(pool: set<Vip>, es: seq<Event>, s: State, m: Mac, n: Mac)
    requires Reached(pool, es, s)
    requires m in s.nodes && n in s.nodes && s.nodes[m] == s.nodes[n]
    ensures m == n
  {
    ReachedInv(pool, es, s);
  }

  // Every occupied slot is held by the channel that owns its one unfired release listener, or that stands
  // between its compare-and-set and its addListener; a free slot has none.
  lemma OneListener(pool: set<Vip>, es: seq<Event>, s: State, v: Vip, c: Chan)
    requires Reached(pool, es, s)
    ensures s.pending[(c, Release(v))] <= 1
    ensures s.pending[(c, Release(v))] == 1 <==> s.Holds(c, v) && !Between(s, c, v)
    ensures Between(s, c, v) ==> s.Holds(c, v)
  {
    ReachedInv(pool, es, s);
  }

  // So a release never frees another channel's lease.
  lemma ReleaseFreesOwn(pool: set<Vip>, es: seq<Event>, s: State, c: Chan, v: Vip)
    requires Reached(pool, es, s) && Step(s, Fire(c, Release(v))).Some?
    ensures var t := Step(s, Fire(c, Release(v))).value;
            && s.Holds(c, v) && !s.Open(c)
            && t.slots == s.slots[v := None]
            && forall u, d | u != v && s.Holds(d, u) :: t.Holds(d, u)
  {
    ReachedInv(pool, es, s);
    ReleaseKeeps(s, c, v);
  }

  // getChannel on the controller's second index, as signalling uses it.
  function Target(s: State, vip: Vip): Option<Chan> {
    if vip in s.channelMap then Some(s.channelMap[vip]) else None
  }

  // Names and closes are for good.
  lemma {:induction false} NamesStay(s: State, es: seq<Event>, c: Chan)
    requires Inv(s) && c in s.attr && Run(s, es).Some?
    ensures var t := Run(s, es).value; c in t.attr && t.attr[c] == s.attr[c] && s.closed <= t.closed
    decreases |es|
  {
    if es != [] {
      NameStays(s, es[0], c);
      StepKeepsInv(s, es[0]);
      NamesStay(Step(s, es[0]).value, es[1..], c);
    }
  }

  lemma NameStays(s: State, e: Event, c: Chan)
    requires NamesUsed(s) && c in s.attr && Step(s, e).Some?
    ensures var t := Step(s, e).value; c in t.attr && t.attr[c] == s.attr[c] && s.closed <= t.closed
  {
    hide SeekStep, SettleStep, OutsideStep;
    if Seeks(e) {
      SeekFrame(s, e);
    } else if Settles(e) {
      SettleFrame(s, e);
    } else {
      OutsideFrame(s, e);
    }
  }

  // An offer or an answer is written to the channel that was looked up, some steps later. If that is still
  // open then, it holds the address and is named by it.
  lemma SignalsReachHolder(pool: set<Vip>, es: seq<Event>, s: State, vip: Vip, fs: seq<Event>, t: State)
    requires Reached(pool, es, s) && Target(s, vip).Some? && Run(s, fs) == Some(t)
    ensures var c := Target(s, vip).value;
            t.Open(c) ==> t.Holds(c, vip) && c in t.attr && t.attr[c].vip == vip
  {
    ReachedInv(pool, es, s);
    var c := Target(s, vip).value;
    RunKeepsInv(s, fs);
    if s.Open(c) {
      NamesStay(s, fs, c);
    } else {
      ClosedStays(s, fs, c);
    }
  }

  lemma {:induction false} ClosedStays(s: State, es: seq<Event>, c: Chan)
    requires !s.Open(c) && Run(s, es).Some?
    ensures !Run(s, es).value.Open(c)
    decreases |es|
  {
    if es != [] {
      StepCloses(s, es[0], c);
      ClosedStays(Step(s, es[0]).value, es[1..], c);
    }
  }

  lemma StepCloses(s: State, e: Event, c: Chan)
    requires !s.Open(c) && Step(s, e).Some?
    ensures !Step(s, e).value.Open(c)
  {
    hide SeekStep, SettleStep, OutsideStep;
    if Seeks(e) {
      SeekFrame(s, e);
    } else if Settles(e) {
      SettleFrame(s, e);
    } else {
      OutsideFrame(s, e);
    }
  }

  // A closed channel that runs no handler and has no listener left holds nothing.
  lemma NothingLeaks(pool: set<Vip>, es: seq<Event>, s: State, c: Chan, v: Vip)
    requires Reached(pool, es, s)
    requires s.Phase(c).Idle? || s.Phase(c).Rejected?
    requires s.pending[(c, Release(v))] == 0
    ensures !s.Holds(c, v)
  {
    ReachedInv(pool, es, s);
  }

  // The loser of two first registrations of one address can be turned away, closed, and its slot freed at once.
  lemma LoserFreedAtOnce(pool: set<Vip>, es: seq<Event>, s: State, c: Chan)
    requires Reached(pool, es, s)
    requires s.Phase(c).Saving? && s.Open(c)
    requires s.Phase(c).mac in s.nodes
    ensures var v := s.Phase(c).vip;
            var r := Run(s, [Save(c), Fail(c), Fire(c, Release(v))]);
            && r.Some? && !r.value.Open(c) && r.value.Phase(c) == Rejected(SysError)
            && r.value.slots == s.slots[v := None]
            && r.value.nodes == s.nodes && r.value.attr == s.attr && r.value.channelMap == s.channelMap
  {
    ReachedInv(pool, es, s);
    var v := s.Phase(c).vip;
    assert s.Holds(c, v) && s.pending[(c, Release(v))] == 1;
    var s1 := Step(s, Save(c)).value;
    var s2 := Step(s1, Fail(c)).value;
    var s3 := Step(s2, Fire(c, Release(v))).value;
    var l := [Save(c), Fail(c), Fire(c, Release(v))];
    assert l[1..] == [Fail(c), Fire(c, Release(v))] && l[1..][1..] == [Fire(c, Release(v))];
    assert l[1..][1..][1..] == [];
    assert Run(s2, l[1..][1..]) == Some(s3);
    assert Run(s1, l[1..]) == Some(s3);
  }

  // A registration that has lost the race for its hardware address.
  ghost predicate Lost(s: State, c: Chan, m: Mac) {
    && c !in s.attr
    && (|| (s.Phase(c).Saving? && s.Phase(c).mac == m && m in s.nodes)
        || s.Phase(c) == Failing(SysError)
        || (s.Phase(c) == Rejected(SysError) && !s.Open(c)))
  }

  lemma StepKeepsLost(s: State, e: Event, c: Chan, m: Mac)
    requires Inv(s) && Lost(s, c, m) && Step(s, e).Some? && !Touches(e, m) && !(e.Regist? && e.chan == c)
    ensures Lost(Step(s, e).value, c, m)
  {
    hide SeekStep, SettleStep, OutsideStep, Inv;
    if m in s.nodes {
      NodeKept(s, e, m);
    }
    if Seeks(e) {
      SeekFrame(s, e);
      SeekPhase(s, e);
    } else if !Settles(e) {
      OutsideFrame(s, e);
    } else if e.chan != c {
      SettleFrame(s, e);
    } else {
      LoserSettles(s, e, m);
    }
  }

  lemma LoserSettles(s: State, e: Event, m: Mac)
    requires Settles(e) && Lost(s, e.chan, m) && Step(s, e).Some?
    ensures Lost(Step(s, e).value, e.chan, m)
  {
  }

  lemma {:induction false} RunKeepsLost(s: State, es: seq<Event>, c: Chan, m: Mac)
    requires Inv(s) && Lost(s, c, m) && Run(s, es).Some? && Untouched(es, m)
    requires forall e | e in es :: !(e.Regist? && e.chan == c)
    ensures Lost(Run(s, es).value, c, m)
    decreases |es|
  {
    if es != [] {
      StepKeepsLost(s, es[0], c, m);
      StepKeepsInv(s, es[0]);
      RunKeepsLost(Step(s, es[0]).value, es[1..], c, m);
    }
  }

  // The loser, whatever happens meanwhile and as long as the administrator leaves its hardware address
  // alone: it is never named; once its handler is through it is closed, and once its listeners have fired it
  // holds nothing.
  lemma LoserFreed(pool: set<Vip>, es: seq<Event>, s: State, c: Chan, fs: seq<Event>, t: State)
    requires Reached(pool, es, s) && s.Phase(c).Saving? && s.Phase(c).mac in s.nodes
    requires Run(s, fs) == Some(t) && Untouched(fs, s.Phase(c).mac)
    requires forall e | e in fs :: !(e.Regist? && e.chan == c)
    ensures c !in t.attr
    ensures t.Phase(c).Saving? || t.Phase(c) == Failing(SysError) || (t.Phase(c) == Rejected(SysError) && !t.Open(c))
    ensures t.Phase(c).Rejected? ==> forall v | t.pending[(c, Release(v))] == 0 :: !t.Holds(c, v)
  {
    ReachedInv(pool, es, s);
    RunKeepsLost(s, fs, c, s.Phase(c).mac);
    RunKeepsInv(s, fs);
  }

  // The open registered channels never outnumber the pool.
  lemma Capacity(pool: set<Vip>, es: seq<Event>, s: State)
    requires Reached(pool, es, s)
    ensures |set c | c in s.attr && s.Open(c)| <= |pool|
  {
    ReachedInv(pool, es, s);
    var registered := set c | c in s.attr && s.Open(c);
    Pigeonhole(registered, map c | c in registered :: s.attr[c].vip, pool);
  }

  lemma {:induction false} Pigeonhole(from: set<Chan>, f: map<Chan, Vip>, to: set<Vip>)
    requires from <= f.Keys
    requires forall c | c in from :: f[c] in to
    requires forall c, d | c in from && d in from && f[c] == f[d] :: c == d
    ensures |from| <= |to|
  {
    if from != {} {
      var c :| c in from;
      Pigeonhole(from - {c}, f, to - {f[c]});
    }
  }

  // An open channel that works for a hardware address with an address taken from the table.
  ghost predicate Carries(s: State, c: Chan, m: Mac, v: Vip) {
    && s.Open(c)
    && (|| (c in s.attr && s.attr[c] == Node(m, v))
        || s.Phase(c) == Found(m, v)
        || s.Phase(c) == Bound(m, v, true)
        || s.Phase(c) == Naming(m, v))
  }

  ghost predicate Consistent(s: State, m: Mac) {
    forall c, v | Carries(s, c, m, v) :: m in s.nodes && s.nodes[m] == v
  }

  predicate Touches(e: Event, m: Mac) {
    (e.UpdateNode? || e.DeleteNode?) && e.mac == m
  }

  predicate Untouched(es: seq<Event>, m: Mac) {
    forall e | e in es :: !Touches(e, m)
  }

  // What the steps of a kind leave alone.
  lemma SeekFrame(s: State, e: Event)
    requires Seeks(e) && SeekStep(s, e).Some?
    ensures var t := SeekStep(s, e).value;
            && t.attr == s.attr && t.nodes == s.nodes && t.closed == s.closed
            && (forall d | d != e.chan :: t.Phase(d) == s.Phase(d))
  {
    hide SeekStep;
    SeekTables(s, e);
    SeekPhases(s, e);
  }

  lemma SeekTables(s: State, e: Event)
    requires Seeks(e) && SeekStep(s, e).Some?
    ensures var t := SeekStep(s, e).value; t.attr == s.attr && t.nodes == s.nodes && t.closed == s.closed
  {
  }

  lemma SeekPhases(s: State, e: Event)
    requires Seeks(e) && SeekStep(s, e).Some?
    ensures var t := SeekStep(s, e).value; t.phases == s.phases[e.chan := t.Phase(e.chan)]
  {
    hide SeekStep;
    if e.Cas? || e.TryNext? || e.AddRelease? {
      TakingPhases(s, e);
    } else {
      LookingPhases(s, e);
    }
  }

  lemma TakingPhases(s: State, e: Event)
    requires (e.Cas? || e.TryNext? || e.AddRelease?) && SeekStep(s, e).Some?
    ensures var t := SeekStep(s, e).value; t.phases == s.phases[e.chan := t.Phase(e.chan)]
  {
  }

  lemma LookingPhases(s: State, e: Event)
    requires (e.Regist? || e.Query? || e.List? || e.GiveUp?) && SeekStep(s, e).Some?
    ensures var t := SeekStep(s, e).value; t.phases == s.phases[e.chan := t.Phase(e.chan)]
  {
  }

  lemma SettleFrame(s: State, e: Event)
    requires Settles(e) && SettleStep(s, e).Some?
    ensures var t := SettleStep(s, e).value;
            && s.closed <= t.closed
            && (forall d | d != e.chan ::
                  && t.Phase(d) == s.Phase(d) && t.Open(d) == s.Open(d)
                  && (d in t.attr <==> d in s.attr) && (d in s.attr ==> t.attr[d] == s.attr[d]))
            && (NamesUsed(s) && e.chan in s.attr ==> t.attr == s.attr)
  {
  }

  lemma OutsideFrame(s: State, e: Event)
    requires !HandlerStep(e) && OutsideStep(s, e).Some?
    ensures var t := OutsideStep(s, e).value;
            t.phases == s.phases && t.attr == s.attr && s.closed <= t.closed
  {
    match e
    case Fire(c, l) =>
      match l {
        case Release(v) =>
        case Unindex(v) =>
      }
    case _ =>
  }

  // A handler that has got as far as settling does not seek.
  lemma SeekPhase(s: State, e: Event)
    requires Seeks(e) && SeekStep(s, e).Some?
    ensures var p := s.Phase(e.chan);
            !p.Saving? && !p.Naming? && !p.Indexing? && !p.Putting? && !p.Replying? && !p.Failing?
    ensures s.Phase(e.chan).Rejected? ==> e.Regist?
  {
  }

  lemma OthersCarry(s: State, e: Event, d: Chan, m: Mac, v: Vip)
    requires Step(s, e).Some? && (HandlerStep(e) ==> d != e.chan)
    requires Carries(Step(s, e).value, d, m, v)
    ensures Carries(s, d, m, v)
  {
    hide SeekStep, SettleStep, OutsideStep;
    if Seeks(e) {
      SeekFrame(s, e);
    } else if Settles(e) {
      SettleFrame(s, e);
    } else {
      OutsideFrame(s, e);
    }
  }

  // A channel starts to carry an address when it reads it from the table or has just stored it.
  lemma SeekCarries(s: State, e: Event, m: Mac, v: Vip)
    requires Seeks(e) && SeekStep(s, e).Some? && Carries(SeekStep(s, e).value, e.chan, m, v)
    ensures Carries(s, e.chan, m, v) || (e.Query? && m in s.nodes && s.nodes[m] == v)
  {
  }

  lemma SettleCarries(s: State, e: Event, m: Mac, v: Vip)
    requires Settles(e) && SettleStep(s, e).Some? && Carries(SettleStep(s, e).value, e.chan, m, v)
    ensures var t := SettleStep(s, e).value;
            Carries(s, e.chan, m, v) || (e.Save? && m in t.nodes && t.nodes[m] == v)
  {
  }

  lemma NodeKept(s: State, e: Event, m: Mac)
    requires Step(s, e).Some? && !Touches(e, m) && m in s.nodes
    ensures m in Step(s, e).value.nodes && Step(s, e).value.nodes[m] == s.nodes[m]
  {
    hide SeekStep;
    if Seeks(e) {
      SeekFrame(s, e);
    }
  }

  lemma StepConsistent(s: State, e: Event, m: Mac)
    requires Consistent(s, m) && !Touches(e, m) && Step(s, e).Some?
    ensures Consistent(Step(s, e).value, m)
    ensures m in s.nodes ==> m in Step(s, e).value.nodes && Step(s, e).value.nodes[m] == s.nodes[m]
  {
    hide SeekStep, SettleStep, OutsideStep;
    var t := Step(s, e).value;
    if m in s.nodes {
      NodeKept(s, e, m);
    }
    forall d, v | Carries(t, d, m, v) ensures m in t.nodes && t.nodes[m] == v {
      if HandlerStep(e) && d == e.chan {
        if Seeks(e) {
          SeekFrame(s, e);
          SeekCarries(s, e, m, v);
        } else {
          SettleCarries(s, e, m, v);
        }
      } else {
        OthersCarry(s, e, d, m, v);
      }
    }
  }

  // Until the administrator touches it, what open channels carry for a hardware address is what is stored.
  lemma {:induction false} RunConsistent(s: State, es: seq<Event>, m: Mac)
    requires Consistent(s, m) && Untouched(es, m) && Run(s, es).Some?
    ensures var t := Run(s, es).value;
            Consistent(t, m) && (m in s.nodes ==> m in t.nodes && t.nodes[m] == s.nodes[m])
    decreases |es|
  {
    if es != [] {
      StepConsistent(s, es[0], m);
      RunConsistent(Step(s, es[0]).value, es[1..], m);
    }
  }
}
