/**
 Requests waiting for their reply, as a protocol of atomic steps: replies, duplicate replies and timers run
 on threads of their own and interleave freely. Ids are unique, and a request is sent, so that replies can
 come in, once waitTask has returned.
 */
module AsyncTask {
  import opened Wrappers

  type Id = nat
  type Thread = nat

  datatype Result = Reply(value: int) | Timeout

  datatype Status = Waiting | Completed(result: Result)

  datatype Timer = Unset | Armed | Cancelled | Expired

  // Where a thread stands in completeTask or completeExceptionallyTask.
  datatype Work =
    | Idle
    | Removing(id: Id, result: Result)
    | Holding(id: Id, result: Result)
    | Completing(id: Id, result: Result)

  datatype State = State(futureMap: set<Id>, status: map<Id, Status>, timers: map<Id, Timer>, works: map<Thread, Work>)
  {
    function Work(t: Thread): Work {
      if t in works then works[t] else Idle
    }

    function Timer(id: Id): Timer {
      if id in timers then timers[id] else Unset
    }

    function Goto(t: Thread, w: Work): State {
      this.(works := works[t := w])
    }

    // A thread that has taken the future out of the map.
    predicate Has(t: Thread, id: Id) {
      (Work(t).Holding? || Work(t).Completing?) && Work(t).id == id
    }
  }

  datatype Event =
    | Put(id: Id)
    | Arm(id: Id)
    | Receive(thread: Thread, id: Id, value: int)
    | Expire(thread: Thread, id: Id)
    | Remove(thread: Thread)
    | Check(thread: Thread)
    | Complete(thread: Thread)

  const START := State({}, map[], map[], map[])

  // One atomic step, or None when the event cannot happen in the state.
  function Step(s: State, e: Event): Option<State> {
    match e
    case Put(id) =>
      if id in s.status then None
      else Some(s.(futureMap := s.futureMap + {id}, status := s.status[id := Waiting]))
    case Arm(id) =>
      if id !in s.status || s.Timer(id) != Unset then None else Some(s.(timers := s.timers[id := Armed]))
    case Receive(t, id, v) =>
      if !s.Work(t).Idle? || s.Timer(id) == Unset then None else Some(s.Goto(t, Removing(id, Reply(v))))
    case Expire(t, id) =>
      if !s.Work(t).Idle? || s.Timer(id) != Armed then None
      else Some(s.(timers := s.timers[id := Expired]).Goto(t, Removing(id, Timeout)))
    case Remove(t) =>
      if !s.Work(t).Removing? then None
      else
        var w := s.Work(t);
        if w.id !in s.futureMap then Some(s.Goto(t, Idle))
        else Some(s.(futureMap := s.futureMap - {w.id}).Goto(t, Holding(w.id, w.result)))
    case Check(t) =>
      if !s.Work(t).Holding? || s.Work(t).id !in s.status then None
      else
        var w := s.Work(t);
        if s.status[w.id] != Waiting then Some(s.Goto(t, Idle))
        else
          var timers := if w.result.Reply? && s.Timer(w.id) == Armed then s.timers[w.id := Cancelled] else s.timers;
          Some(s.(timers := timers).Goto(t, Completing(w.id, w.result)))
    case Complete(t) =>
      if !s.Work(t).Completing? || s.Work(t).id !in s.status then None
      else
        var w := s.Work(t);
        Some(s.(status := if s.status[w.id] == Waiting then s.status[w.id := Completed(w.result)] else s.status)
              .Goto(t, Idle))
  }

  function Run(s: State, es: seq<Event>): Option<State>
    decreases |es|
  {
    if es == [] then Some(s)
    else
      var t :- Step(s, es[0]);
      Run(t, es[1..])
  }

  // A future that is not completed is in the map or in the hands of one thread; a completed one is in neither.
  ghost predicate Owned(s: State) {
    && (forall id | id in s.futureMap :: id in s.status && s.status[id] == Waiting)
    && (forall t, id | s.Has(t, id) :: id in s.status && s.status[id] == Waiting && id !in s.futureMap)
    && (forall t, u, id | s.Has(t, id) && s.Has(u, id) :: t == u)
    && (forall id | id in s.status && s.status[id] == Waiting && id !in s.futureMap :: exists t :: s.Has(t, id))
  }

  ghost predicate Expiring(s: State, id: Id) {
    exists t :: s.Work(t) == Removing(id, Timeout)
  }

  ghost predicate Timed(s: State) {
    && (forall id | id in s.timers :: id in s.status)
    && (forall id | id in s.status && s.Timer(id) == Unset :: id in s.futureMap)
    && (forall t | !s.Work(t).Idle? :: s.Timer(s.Work(t).id) != Unset)
    && (forall id | s.Timer(id) == Cancelled :: id !in s.futureMap)
    && (forall id | s.Timer(id) == Expired && id in s.futureMap :: Expiring(s, id))
    && (forall id | id in s.status && s.status[id] != Waiting :: s.Timer(id) != Armed)
    && (forall t | s.Work(t).Completing? :: s.Timer(s.Work(t).id) != Armed)
  }

  // A timeout comes from a timer that has run.
  ghost predicate TimeoutsExpired(s: State) {
    && (forall t | !s.Work(t).Idle? && s.Work(t).result == Timeout :: s.Timer(s.Work(t).id) == Expired)
    && (forall id | id in s.status && s.status[id] == Completed(Timeout) :: s.Timer(id) == Expired)
  }

  ghost predicate Inv(s: State) {
    Owned(s) && Timed(s) && TimeoutsExpired(s)
  }

  lemma StartInv()
    ensures Inv(START)
  {
    assert forall t, id :: !START.Has(t, id);
  }

  // A thread moves on, with the map and the statuses as they were.
  lemma MoveKeeps(s: State, t: Thread, w: Work)
    requires Inv(s)
    requires
      || s.Work(t).Idle?
      || (s.Work(t).Removing? && w.Idle? && (s.Work(t).result.Timeout? ==> s.Work(t).id !in s.futureMap))
    requires w.Idle? || w.Removing?
    requires w.Removing? ==> s.Timer(w.id) != Unset && (w.result == Timeout ==> s.Timer(w.id) == Expired)
    ensures Inv(s.Goto(t, w))
  {
    var u := s.Goto(t, w);
    assert forall x :: u.Work(x) == if x == t then w else s.Work(x);
    assert forall x, id :: u.Has(x, id) == s.Has(x, id);
    assert forall id :: u.Timer(id) == s.Timer(id);
    forall id | s.Timer(id) == Expired && id in s.futureMap ensures Expiring(u, id) {
      var x :| s.Work(x) == Removing(id, Timeout);
      assert u.Work(x) == Removing(id, Timeout);
    }
  }

  lemma PutKeeps(s: State, id: Id)
    requires Inv(s) && id !in s.status
    ensures Inv(s.(futureMap := s.futureMap + {id}, status := s.status[id := Waiting]))
  {
    var u := s.(futureMap := s.futureMap + {id}, status := s.status[id := Waiting]);
    assert forall x :: u.Work(x) == s.Work(x);
    assert forall x, i :: u.Has(x, i) == s.Has(x, i);
    assert forall i :: u.Timer(i) == s.Timer(i);
    forall i | u.Timer(i) == Expired && i in u.futureMap ensures Expiring(u, i) {
      var x :| s.Work(x) == Removing(i, Timeout);
      assert u.Work(x) == Removing(i, Timeout);
    }
    forall i | i in u.status && u.status[i] == Waiting && i !in u.futureMap ensures exists x :: u.Has(x, i) {
      var x :| s.Has(x, i);
      assert u.Has(x, i);
    }
    assert s.Timer(id) == Unset;
  }

  lemma TimerKeeps(s: State, id: Id)
    requires Inv(s) && id in s.status && s.Timer(id) == Unset
    ensures Inv(s.(timers := s.timers[id := Armed]))
  {
    var u := s.(timers := s.timers[id := Armed]);
    assert forall x :: u.Work(x) == s.Work(x);
    assert forall x, i :: u.Has(x, i) == s.Has(x, i);
    assert forall i :: u.Timer(i) == if i == id then Armed else s.Timer(i);
    assert forall i :: Expiring(s, i) ==> Expiring(u, i);
    forall t | s.Work(t).Completing? ensures s.Work(t).id != id {
      assert s.Has(t, s.Work(t).id);
    }
  }

  lemma ExpireKeeps(s: State, t: Thread, id: Id)
    requires Inv(s) && s.Work(t).Idle? && s.Timer(id) == Armed
    ensures Inv(s.(timers := s.timers[id := Expired]).Goto(t, Removing(id, Timeout)))
  {
    var w := Removing(id, Timeout);
    var u := s.(timers := s.timers[id := Expired]).Goto(t, w);
    assert forall x :: u.Work(x) == if x == t then w else s.Work(x);
    assert forall x, i :: u.Has(x, i) == s.Has(x, i);
    assert forall i :: u.Timer(i) == if i == id then Expired else s.Timer(i);
    assert u.Work(t) == Removing(id, Timeout);
    forall i | u.Timer(i) == Expired && i in u.futureMap ensures Expiring(u, i) {
      if i != id {
        var x :| s.Work(x) == Removing(i, Timeout);
        assert u.Work(x) == Removing(i, Timeout);
      }
    }
  }

  // The first thread to find the entry takes it out.
  lemma RemoveKeeps(s: State, t: Thread)
    requires Inv(s) && s.Work(t).Removing? && s.Work(t).id in s.futureMap
    ensures var w := s.Work(t);
            Inv(s.(futureMap := s.futureMap - {w.id}).Goto(t, Holding(w.id, w.result)))
  {
    var w := s.Work(t);
    var u := s.(futureMap := s.futureMap - {w.id}).Goto(t, Holding(w.id, w.result));
    assert forall x :: u.Work(x) == if x == t then Holding(w.id, w.result) else s.Work(x);
    assert forall x, i :: u.Has(x, i) == if x == t then i == w.id else s.Has(x, i);
    assert s.Timer(w.id) != Unset && u.Has(t, w.id);
    forall i | i in u.status && u.status[i] == Waiting && i !in u.futureMap ensures exists x :: u.Has(x, i) {
      if i != w.id {
        var x :| s.Has(x, i);
        assert u.Has(x, i);
      }
    }
    assert forall i :: u.Timer(i) == s.Timer(i);
    forall i | u.Timer(i) == Expired && i in u.futureMap ensures Expiring(u, i) {
      var x :| s.Work(x) == Removing(i, Timeout);
      assert u.Work(x) == Removing(i, Timeout);
    }
  }

  lemma CheckKeeps(s: State, t: Thread, timers: map<Id, Timer>)
    requires Inv(s) && s.Work(t).Holding?
    requires var w := s.Work(t);
             timers == if w.result.Reply? && s.Timer(w.id) == Armed then s.timers[w.id := Cancelled] else s.timers
    ensures s.Work(t).id in s.status && s.status[s.Work(t).id] == Waiting
    ensures Inv(s.(timers := timers).Goto(t, Completing(s.Work(t).id, s.Work(t).result)))
  {
    var w := s.Work(t);
    var u := s.(timers := timers).Goto(t, Completing(w.id, w.result));
    assert s.Has(t, w.id);
    assert forall x :: u.Work(x) == if x == t then Completing(w.id, w.result) else s.Work(x);
    assert forall x, i :: u.Has(x, i) == s.Has(x, i);
    assert forall i :: i != w.id ==> u.Timer(i) == s.Timer(i);
    forall i | u.Timer(i) == Expired && i in u.futureMap ensures Expiring(u, i) {
      var x :| s.Work(x) == Removing(i, Timeout);
      assert u.Work(x) == Removing(i, Timeout);
    }
  }

  lemma CompleteKeeps(s: State, t: Thread)
    requires Inv(s) && s.Work(t).Completing?
    ensures s.Work(t).id in s.status && s.status[s.Work(t).id] == Waiting
    ensures Inv(s.(status := s.status[s.Work(t).id := Completed(s.Work(t).result)]).Goto(t, Idle))
  {
    var w := s.Work(t);
    var u := s.(status := s.status[w.id := Completed(w.result)]).Goto(t, Idle);
    assert s.Has(t, w.id);
    assert forall x :: u.Work(x) == if x == t then Idle else s.Work(x);
    assert forall x, i :: u.Has(x, i) == (x != t && s.Has(x, i));
    assert forall i :: u.Timer(i) == s.Timer(i);
    forall i | u.Timer(i) == Expired && i in u.futureMap ensures Expiring(u, i) {
      var x :| s.Work(x) == Removing(i, Timeout);
      assert u.Work(x) == Removing(i, Timeout);
    }
    forall i | i in u.status && u.status[i] == Waiting && i !in u.futureMap ensures exists x :: u.Has(x, i) {
      var x :| s.Has(x, i);
      assert u.Has(x, i);
    }
  }

  lemma StepKeepsInv(s: State, e: Event)
    requires Inv(s) && Step(s, e).Some?
    ensures Inv(Step(s, e).value)
  {
    hide Owned, Timed, TimeoutsExpired;
    var u := Step(s, e).value;
    match e
    case Put(id) => PutKeeps(s, id);
    case Arm(id) => TimerKeeps(s, id);
    case Receive(t, id, v) => MoveKeeps(s, t, Removing(id, Reply(v)));
    case Expire(t, id) => ExpireKeeps(s, t, id);
    case Remove(t) =>
      if s.Work(t).id in s.futureMap {
        RemoveKeeps(s, t);
      } else {
        MoveKeeps(s, t, Idle);
      }
    case Check(t) =>
      var w := s.Work(t);
      CheckKeeps(s, t, if w.result.Reply? && s.Timer(w.id) == Armed then s.timers[w.id := Cancelled] else s.timers);
    case Complete(t) => CompleteKeeps(s, t);
  }

  lemma {:induction false} RunKeepsInv(s: State, es: seq<Event>)
    requires Inv(s) && Run(s, es).Some?
    ensures Inv(Run(s, es).value)
    decreases |es|
  {
    if es != [] {
      StepKeepsInv(s, es[0]);
      RunKeepsInv(Step(s, es[0]).value, es[1..]);
    }
  }

  ghost predicate Reached(es: seq<Event>, s: State) {
    Run(START, es) == Some(s)
  }

  // A future has been given its result: it has one, or a thread is about to set it.
  ghost predicate Decided(s: State, id: Id, r: Result) {
    || (id in s.status && s.status[id] == Completed(r))
    || exists t :: s.Has(t, id) && s.Work(t).result == r
  }

  lemma DecidedKept(s: State, e: Event, id: Id, r: Result)
    requires Inv(s) && Step(s, e).Some? && Decided(s, id, r)
    ensures Decided(Step(s, e).value, id, r)
  {
    var u := Step(s, e).value;
    if id in s.status && s.status[id] == Completed(r) {
      assert u.status[id] == Completed(r);
    } else {
      var t :| s.Has(t, id) && s.Work(t).result == r;
      if u.Work(t) == s.Work(t) {
        assert u.Has(t, id) && u.Work(t).result == r;
      } else if e == Check(t) {
        assert u.Has(t, id) && u.Work(t).result == r;
      }
    }
  }

  lemma {:induction false} DecidedStays(s: State, es: seq<Event>, id: Id, r: Result)
    requires Inv(s) && Run(s, es).Some? && Decided(s, id, r)
    ensures Decided(Run(s, es).value, id, r)
    decreases |es|
  {
    if es != [] {
      DecidedKept(s, es[0], id, r);
      StepKeepsInv(s, es[0]);
      DecidedStays(Step(s, es[0]).value, es[1..], id, r);
    }
  }

  // The first reply or timer to find the entry decides the result, whatever comes after it.
  lemma FirstWins(before: seq<Event>, s: State, t: Thread, after: seq<Event>)
    requires Reached(before, s) && s.Work(t).Removing? && s.Work(t).id in s.futureMap
    requires Run(s, [Remove(t)] + after).Some?
    ensures var u := Run(s, [Remove(t)] + after).value;
            var w := s.Work(t);
            w.id in u.status && u.status[w.id] in {Waiting, Completed(w.result)}
  {
    StartInv();
    RunKeepsInv(START, before);
    var w := s.Work(t);
    var s1 := Step(s, Remove(t)).value;
    assert ([Remove(t)] + after)[0] == Remove(t) && ([Remove(t)] + after)[1..] == after;
    StepKeepsInv(s, Remove(t));
    assert s1.Has(t, w.id) && s1.Work(t).result == w.result;
    DecidedStays(s1, after, w.id, w.result);
    RunKeepsInv(s1, after);
    var u := Run(s1, after).value;
    assert Decided(u, w.id, w.result);
  }

  // A future is completed at most once: whoever gets as far as completing one finds it not completed.
  lemma CompletedOnce(es: seq<Event>, s: State, t: Thread)
    requires Reached(es, s) && (s.Work(t).Holding? || s.Work(t).Completing?)
    ensures s.Work(t).id in s.status && s.status[s.Work(t).id] == Waiting
    ensures forall u | s.Has(u, s.Work(t).id) :: u == t
  {
    StartInv();
    RunKeepsInv(START, es);
    assert s.Has(t, s.Work(t).id);
  }

  // No thread is at work on a future.
  ghost predicate Quiet(s: State, id: Id) {
    forall t :: s.Work(t).Idle? || s.Work(t).id != id
  }

  // With nobody at work on it, a future is completed exactly when its timer has run or was cancelled, and
  // exactly when its entry is gone.
  lemma NothingLeft(es: seq<Event>, s: State, id: Id)
    requires Reached(es, s) && id in s.status && Quiet(s, id)
    ensures s.status[id] != Waiting <==> s.Timer(id) in {Expired, Cancelled}
    ensures s.status[id] != Waiting <==> id !in s.futureMap
    ensures s.status[id] == Completed(Timeout) ==> s.Timer(id) == Expired
  {
    StartInv();
    RunKeepsInv(START, es);
    assert forall t :: !s.Has(t, id);
    assert !Expiring(s, id);
  }

  // A request without a reply is completed by its timer, which can run at any time.
  lemma TimerCompletes(es: seq<Event>, s: State, id: Id, t: Thread)
    requires Reached(es, s) && id in s.status && Quiet(s, id) && s.Timer(id) == Armed && s.Work(t).Idle?
    ensures var r := Run(s, [Expire(t, id), Remove(t), Check(t), Complete(t)]);
            && r.Some? && r.value.status == s.status[id := Completed(Timeout)]
            && r.value.futureMap == s.futureMap - {id} && r.value.timers == s.timers[id := Expired]
  {
    NothingLeft(es, s, id);
    var l := [Expire(t, id), Remove(t), Check(t), Complete(t)];
    var s1 := Step(s, l[0]).value;
    var s2 := Step(s1, l[1]).value;
    var s3 := Step(s2, l[2]).value;
    var s4 := Step(s3, l[3]).value;
    assert s2.status == s.status && s3.status == s.status;
    assert Run(s4, l[1..][1..][1..][1..]) == Some(s4);
    assert Run(s3, l[1..][1..][1..]) == Some(s4);
    assert Run(s2, l[1..][1..]) == Some(s4);
    assert Run(s1, l[1..]) == Some(s4);
  }

  lemma Run2(s: State, e: Event, f: Event)
    requires Step(s, e).Some?
    ensures Run(s, [e, f]) == Step(Step(s, e).value, f)
  {
    var t := Step(s, e).value;
    assert [e, f][1..] == [f] && [f][1..] == [];
    if Step(t, f).Some? {
      assert Run(Step(t, f).value, []) == Step(t, f);
    }
  }

  lemma Run4(s: State, e: Event, f: Event, g: Event, h: Event)
    requires Step(s, e).Some? && Step(Step(s, e).value, f).Some?
    ensures Run(s, [e, f, g, h]) == Run(Step(Step(s, e).value, f).value, [g, h])
  {
    assert [e, f, g, h][1..] == [f, g, h] && [f, g, h][1..] == [g, h];
  }

  // Between calls: every thread idle.
  ghost predicate Calm(s: State) {
    Inv(s) && forall t :: s.Work(t).Idle?
  }

  // The steps of one call, for a reply or a timer.
  function Call(t: Thread, id: Id, r: Result, found: bool): seq<Event> {
    var first := match r case Reply(v) => Receive(t, id, v) case Timeout => Expire(t, id);
    if found then [first, Remove(t), Check(t), Complete(t)] else [first, Remove(t)]
  }

  // What a call leaves: the future completed, or nothing changed when its entry was gone.
  function Called(s: State, t: Thread, id: Id, r: Result): State {
    var timer := if r == Timeout then Expired else Cancelled;
    if id in s.futureMap then
      State(s.futureMap - {id}, s.status[id := Completed(r)], s.timers[id := timer], s.works[t := Idle])
    else s.Goto(t, Idle)
  }

  // With no thread at work, an entry means an armed timer and a future that is not completed.
  lemma CalmEntry(s: State, id: Id)
    requires Calm(s) && s.Timer(id) != Unset
    ensures id in s.status && (id in s.futureMap <==> s.Timer(id) == Armed)
    ensures id in s.futureMap ==> s.status[id] == Waiting
  {
    assert forall x :: !s.Has(x, id);
    assert !Expiring(s, id);
  }

  lemma CallFound(s: State, t: Thread, id: Id, r: Result)
    requires Calm(s) && s.Timer(id) != Unset && id in s.futureMap
    ensures Run(s, Call(t, id, r, true)) == Some(Called(s, t, id, r))
  {
    CalmEntry(s, id);
    hide Inv;
    var es := Call(t, id, r, true);
    var now := if r == Timeout then s.timers[id := Expired] else s.timers;
    var s2 := State(s.futureMap - {id}, s.status, now, s.works[t := Holding(id, r)]);
    TakeFound(s, t, id, r);
    Run4(s, es[0], es[1], es[2], es[3]);
    GiveFound(s2, t);
    Run2(s2, es[2], es[3]);
    assert s.works[t := Holding(id, r)][t := Idle] == s.works[t := Idle];
  }

  lemma TakeFound(s: State, t: Thread, id: Id, r: Result)
    requires s.Work(t).Idle? && s.Timer(id) == Armed && id in s.futureMap
    ensures var es := Call(t, id, r, true);
            var now := if r == Timeout then s.timers[id := Expired] else s.timers;
            var s1 := Step(s, es[0]);
            s1.Some? &&
            Step(s1.value, es[1]) == Some(State(s.futureMap - {id}, s.status, now, s.works[t := Holding(id, r)]))
  {
    assert s.works[t := Removing(id, r)][t := Holding(id, r)] == s.works[t := Holding(id, r)];
  }

  lemma GiveFound(s: State, t: Thread)
    requires s.Work(t).Holding? && s.Work(t).id in s.status && s.status[s.Work(t).id] == Waiting
    ensures var w := s.Work(t);
            var timers := if w.result.Reply? && s.Timer(w.id) == Armed then s.timers[w.id := Cancelled] else s.timers;
            var s1 := Step(s, Check(t));
            s1.Some? && Step(s1.value, Complete(t))
                        == Some(State(s.futureMap, s.status[w.id := Completed(w.result)], timers, s.works[t := Idle]))
  {
    var w := s.Work(t);
    assert s.works[t := Completing(w.id, w.result)][t := Idle] == s.works[t := Idle];
  }

  lemma CallMissed(s: State, t: Thread, id: Id, value: int)
    requires Calm(s) && s.Timer(id) != Unset && id !in s.futureMap
    ensures Run(s, Call(t, id, Reply(value), false)) == Some(s.Goto(t, Idle))
  {
    hide Inv;
    var es := Call(t, id, Reply(value), false);
    Run2(s, es[0], es[1]);
    assert Step(Step(s, es[0]).value, es[1]).value.works == s.works[t := Idle];
  }

  lemma CallRun(s: State, t: Thread, id: Id, r: Result)
    requires Calm(s) && s.Timer(id) != Unset && (r == Timeout ==> s.Timer(id) == Armed)
    ensures r == Timeout ==> id in s.futureMap
    ensures id in s.status && (id in s.futureMap ==> s.status[id] == Waiting)
    ensures Run(s, Call(t, id, r, id in s.futureMap)) == Some(Called(s, t, id, r))
    ensures Calm(Called(s, t, id, r))
  {
    CalmEntry(s, id);
    hide Inv, Call;
    if id in s.futureMap {
      CallFound(s, t, id, r);
    } else {
      CallMissed(s, t, id, r.value);
    }
    RunKeepsInv(s, Call(t, id, r, id in s.futureMap));
    forall x ensures Called(s, t, id, r).Work(x).Idle? {
      assert s.Work(x).Idle?;
    }
  }

  class AsyncTask {
    var futureMap: set<Id>
    var status: map<Id, Status>
    var timers: map<Id, Timer>
    ghost var works: map<Thread, Work>

    ghost function Now(): State
      reads this
    {
      State(futureMap, status, timers, works)
    }

    constructor ()
      ensures Now() == START && Calm(Now())
    {
      futureMap, status, timers, works := {}, map[], map[], map[];
      new;
      StartInv();
    }

    method WaitTask(id: Id)
      requires Calm(Now()) && id !in status
      modifies this
      ensures Calm(Now()) && Run(old(Now()), [Put(id), Arm(id)]) == Some(Now())
      ensures id in futureMap && status == old(status)[id := Waiting] && timers == old(timers)[id := Armed]
    {
      ghost var start := Now();
      futureMap := futureMap + {id};
      status := status[id := Waiting];
      timers := timers[id := Armed];
      assert start.Timer(id) == Unset;
      Run2(start, Put(id), Arm(id));
      RunKeepsInv(start, [Put(id), Arm(id)]);
      assert forall t :: Now().Work(t) == start.Work(t);
    }

    // A reply. The timer is cancelled with the completion.
    method CompleteTask(id: Id, value: int, ghost t: Thread)
      requires Calm(Now()) && id in timers && timers[id] != Unset
      modifies this
      ensures Calm(Now()) && Now() == Called(old(Now()), t, id, Reply(value))
      ensures Run(old(Now()), Call(t, id, Reply(value), id in old(futureMap))) == Some(Now())
    {
      hide Calm;
      CallRun(Now(), t, id, Reply(value));
      var found := id in futureMap;
      futureMap := futureMap - {id};
      if found && status[id] == Waiting {
        timers := timers[id := Cancelled];
        status := status[id := Completed(Reply(value))];
      }
      assert !found ==> futureMap == old(futureMap);
      works := works[t := Idle];
    }

    // The timer's task.
    method CompleteExceptionallyTask(id: Id, ghost t: Thread)
      requires Calm(Now()) && id in timers && timers[id] == Armed
      modifies this
      ensures Calm(Now()) && Now() == Called(old(Now()), t, id, Timeout)
      ensures Run(old(Now()), Call(t, id, Timeout, true)) == Some(Now())
    {
      hide Calm;
      CallRun(Now(), t, id, Timeout);
      timers := timers[id := Expired];
      var found := id in futureMap;
      futureMap := futureMap - {id};
      if found && status[id] == Waiting {
        status := status[id := Completed(Timeout)];
      }
      works := works[t := Idle];
    }
  }
}
