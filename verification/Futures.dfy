/** The combinators over futures. Each completion runs its callbacks before the next one. */
module Futures {
  import opened Wrappers

  datatype Status<T, E> = Pending | Done(value: T) | Failed(error: E)

  // What `order` comes to: the first success in list order once everything before it has failed, or the
  // last failure. An empty list never completes.
  function OrderResult<T, E>(fs: seq<Status<T, E>>): Status<T, E> {
    if fs == [] then Pending
    else if fs[0].Failed? && |fs| > 1 then OrderResult(fs[1..])
    else fs[0]
  }

  ghost predicate AllFailed<T(!new), E(!new)>(fs: seq<Status<T, E>>) {
    forall i | 0 <= i < |fs| :: fs[i].Failed?
  }

  lemma {:induction false} OrderSkips<T(!new), E(!new)>(fs: seq<Status<T, E>>, n: nat)
    requires n < |fs| && AllFailed(fs[..n])
    ensures OrderResult(fs) == OrderResult(fs[n..])
  {
    if n > 0 {
      assert fs[..n][0] == fs[0];
      assert fs[1..][..n - 1] == fs[..n][1..];
      OrderSkips(fs[1..], n - 1);
      assert fs[1..][n - 1..] == fs[n..];
    } else {
      assert fs[0..] == fs;
    }
  }

  // It succeeds with the first success exactly when everything before that has failed, and fails with the
  // last failure exactly when everything has failed.
  lemma OrderMeaning<T(!new), E(!new)>(fs: seq<Status<T, E>>, n: nat)
    requires n < |fs| && AllFailed(fs[..n])
    ensures fs[n].Done? ==> OrderResult(fs) == fs[n]
    ensures fs[n].Pending? ==> OrderResult(fs).Pending?
    ensures n == |fs| - 1 ==> OrderResult(fs) == fs[n]
  {
    OrderSkips(fs, n);
  }

  lemma FirstNotFailed<T(!new), E(!new)>(fs: seq<Status<T, E>>) returns (n: nat)
    ensures n <= |fs| && AllFailed(fs[..n]) && (n < |fs| ==> !fs[n].Failed?)
  {
    n := 0;
    while n < |fs| && fs[n].Failed?
      invariant n <= |fs| && AllFailed(fs[..n])
    {
      n := n + 1;
    }
  }

  lemma PendingBehind<T(!new), E(!new)>(fs: seq<Status<T, E>>, n: nat, i: nat)
    requires n <= |fs| && AllFailed(fs[..n]) && i < |fs| && fs[i].Pending?
    ensures i >= n
  {
    forall k | 0 <= k < n ensures fs[k].Failed? {
      assert fs[..n][k] == fs[k];
    }
  }

  // Once it has completed, no later completion changes it.
  lemma OrderStable<T(!new), E(!new)>(fs: seq<Status<T, E>>, i: nat, s: Status<T, E>)
    requires i < |fs| && fs[i].Pending? && !OrderResult(fs).Pending?
    ensures OrderResult(fs[i := s]) == OrderResult(fs)
  {
    var n := FirstNotFailed(fs);
    PendingBehind(fs, n, i);
    OrderMeaning(fs, n);
    assert fs[i := s][..n] == fs[..n];
    OrderMeaning(fs[i := s], n);
  }

  class Order<T(!new), E(!new)> {
    var futures: seq<Status<T, E>>
    var position: nat
    var result: Status<T, E>

    // Everything before the future waited for has failed, and the result is what the futures come to.
    ghost predicate Valid()
      reads this
    {
      && result == OrderResult(futures)
      && (futures != [] ==> 1 <= position <= |futures| && AllFailed(futures[..position - 1]))
      && (futures != [] && result.Pending? ==> futures[position - 1].Pending?)
    }

    constructor (futures: seq<Status<T, E>>)
      ensures Valid() && this.futures == futures
    {
      this.futures := futures;
      this.position := 0;
      this.result := Pending;
      new;
      if futures != [] {
        position := 1;
        DoNext();
      }
    }

    // whenComplete on the future that the iterator gave last.
    method DoNext()
      requires result.Pending? && 1 <= position <= |futures| && AllFailed(futures[..position - 1])
      modifies `position, `result
      ensures Valid()
      decreases |futures| - position
    {
      OrderMeaning(futures, position - 1);
      var next := futures[position - 1];
      if next.Pending? {
        return;
      }
      if next.Failed? {
        if position == |futures| {
          result := next;
          return;
        }
        position := position + 1;
        DoNext();
        return;
      }
      result := next;
    }

    // Future i completes; if it is the one waited for, its callback runs.
    method Complete(i: nat, s: Status<T, E>)
      requires Valid() && i < |futures| && futures[i].Pending? && !s.Pending?
      modifies `futures, `position, `result
      ensures Valid() && futures == old(futures)[i := s]
      ensures !old(result).Pending? ==> result == old(result)
    {
      if !result.Pending? {
        OrderStable(futures, i, s);
      }
      ghost var n := position - 1;
      futures := futures[i := s];
      assert i < n ==> futures[..n][i] == s;
      if result.Pending? {
        if i == position - 1 {
          assert futures[..n] == old(futures)[..n];
          DoNext();
        } else {
          StillWaiting(old(futures), n, i, s);
        }
      } else {
        DoneWaiting(old(futures), n, i, s);
      }
    }
  }

  lemma StillWaiting<T(!new), E(!new)>(fs: seq<Status<T, E>>, n: nat, i: nat, s: Status<T, E>)
    requires n < |fs| && AllFailed(fs[..n]) && fs[n].Pending? && i < |fs| && fs[i].Pending? && i != n
    ensures AllFailed(fs[i := s][..n]) && OrderResult(fs[i := s]).Pending?
  {
    PendingBehind(fs, n, i);
    assert fs[i := s][..n] == fs[..n];
    OrderMeaning(fs[i := s], n);
  }

  lemma DoneWaiting<T(!new), E(!new)>(fs: seq<Status<T, E>>, n: nat, i: nat, s: Status<T, E>)
    requires n < |fs| && AllFailed(fs[..n]) && i < |fs| && fs[i].Pending?
    ensures AllFailed(fs[i := s][..n])
  {
    PendingBehind(fs, n, i);
    assert fs[i := s][..n] == fs[..n];
  }

  // The values of the successes, in list order.
  function Successes<T, E>(fs: seq<Status<T, E>>): seq<T> {
    if fs == [] then []
    else (if fs[0].Done? then [fs[0].value] else []) + Successes(fs[1..])
  }

  predicate AllDone<T(!new), E(!new)>(fs: seq<Status<T, E>>) {
    forall i | 0 <= i < |fs| :: !fs[i].Pending?
  }

  lemma {:induction false} SuccessesAppend<T(!new), E(!new)>(fs: seq<Status<T, E>>, s: Status<T, E>)
    ensures Successes(fs + [s]) == Successes(fs) + (if s.Done? then [s.value] else [])
  {
    if fs == [] {
      assert fs + [s] == [s] && [s][1..] == [];
    } else {
      var gs := fs + [s];
      assert gs[0] == fs[0] && gs[1..] == fs[1..] + [s];
      SuccessesAppend(fs[1..], s);
      var first, last := if fs[0].Done? then [fs[0].value] else [], if s.Done? then [s.value] else [];
      assert first + (Successes(fs[1..]) + last) == (first + Successes(fs[1..])) + last;
    }
  }

  // The successes among the first futures of a list.
  ghost function Dones<T(!new), E(!new)>(fs: seq<Status<T, E>>, n: nat): set<nat>
    requires n <= |fs|
  {
    set i: nat | i < n && fs[i].Done?
  }

  lemma DonesAppend<T(!new), E(!new)>(fs: seq<Status<T, E>>, s: Status<T, E>)
    ensures forall n: nat | n <= |fs| :: Dones(fs + [s], n) == Dones(fs, n)
    ensures |Dones(fs + [s], |fs| + 1)| == |Dones(fs, |fs|)| + (if s.Done? then 1 else 0)
  {
    forall n: nat | n <= |fs| ensures Dones(fs + [s], n) == Dones(fs, n) {
      assert forall i: nat | i < n :: (fs + [s])[i] == fs[i];
    }
    assert Dones(fs + [s], |fs| + 1) == Dones(fs, |fs|) + (if s.Done? then {|fs|} else {});
  }

  // Every success is in the list, behind as many values as there are successes before it, and nothing else is.
  lemma {:induction false} SuccessesInOrder<T(!new), E(!new)>(fs: seq<Status<T, E>>)
    ensures |Successes(fs)| == |Dones(fs, |fs|)|
    ensures forall n: nat | n < |fs| && fs[n].Done? ::
              |Dones(fs, n)| < |Successes(fs)| && Successes(fs)[|Dones(fs, n)|] == fs[n].value
  {
    hide Dones, Successes;
    if fs == [] {
      NoSuccesses(fs);
    } else {
      var m := |fs| - 1;
      SuccessesInOrder(fs[..m]);
      SuccessesAppend(fs[..m], fs[m]);
      DonesAppend(fs[..m], fs[m]);
      assert fs == fs[..m] + [fs[m]];
    }
  }

  lemma NoSuccesses<T(!new), E(!new)>(fs: seq<Status<T, E>>)
    requires fs == []
    ensures Successes(fs) == [] && Dones(fs, 0) == {}
  {
  }

  // The first success is at the front; there is none exactly when everything has failed.
  lemma FirstSuccess<T(!new), E(!new)>(fs: seq<Status<T, E>>)
    requires AllDone(fs)
    ensures Successes(fs) == [] <==> AllFailed(fs)
    ensures Successes(fs) != [] ==>
              exists n | 0 <= n < |fs| :: AllFailed(fs[..n]) && fs[n] == Done(Successes(fs)[0])
  {
    var n := FirstNotFailed(fs);
    if n < |fs| {
      FailuresSkipped(fs, n);
      assert fs[n..][1..] == fs[n + 1..];
    } else {
      FailuresSkipped(fs, n);
      assert fs[..n] == fs && fs[n..] == [];
    }
  }

  lemma {:induction false} FailuresSkipped<T(!new), E(!new)>(fs: seq<Status<T, E>>, n: nat)
    requires n <= |fs| && AllFailed(fs[..n])
    ensures Successes(fs) == Successes(fs[n..])
  {
    if n > 0 {
      assert fs[..n][0] == fs[0];
      assert fs[1..][..n - 1] == fs[..n][1..];
      FailuresSkipped(fs[1..], n - 1);
      assert fs[1..][n - 1..] == fs[n..];
    } else {
      assert fs[0..] == fs;
    }
  }

  // `order` and the front of `allOf` pick the same success.
  lemma OrderIsFirstOfAll<T(!new), E(!new)>(fs: seq<Status<T, E>>)
    requires fs != [] && AllDone(fs)
    ensures OrderResult(fs) == if Successes(fs) != [] then Done(Successes(fs)[0]) else fs[|fs| - 1]
  {
    FirstSuccess(fs);
    if Successes(fs) != [] {
      var n :| 0 <= n < |fs| && AllFailed(fs[..n]) && fs[n] == Done(Successes(fs)[0]);
      OrderMeaning(fs, n);
    } else {
      OrderMeaning(fs, |fs| - 1);
    }
  }

  class AllOf<T(!new), E(!new)> {
    var futures: seq<Status<T, E>>
    var result: Option<seq<T>>

    ghost predicate Valid()
      reads this
    {
      result == if AllDone(futures) then Some(Successes(futures)) else None
    }

    constructor (futures: seq<Status<T, E>>)
      ensures Valid() && this.futures == futures
    {
      this.futures, this.result := futures, None;
      new;
      WhenComplete();
    }

    // Future i completes; the last completion builds the list.
    method Complete(i: nat, s: Status<T, E>)
      requires Valid() && i < |futures| && futures[i].Pending? && !s.Pending?
      modifies `futures, `result
      ensures Valid() && futures == old(futures)[i := s]
    {
      futures := futures[i := s];
      WhenComplete();
    }

    method WhenComplete()
      requires result == None
      modifies `result
      ensures Valid()
    {
      if !AllDone(futures) {
        return;
      }
      var resultList := [];
      for i := 0 to |futures|
        invariant resultList == Successes(futures[..i])
      {
        assert futures[..i + 1] == futures[..i] + [futures[i]];
        SuccessesAppend(futures[..i], futures[i]);
        if futures[i].Done? {
          resultList := resultList + [futures[i].value];
        }
      }
      assert futures[..|futures|] == futures;
      result := Some(resultList);
    }
  }

  // onException: the supplier is called when the first future fails. One that throws counts as one that
  // supplies a failed future.
  class OnException<T(!new), E(!new)> {
    var last: Status<T, E>
    var supplied: Option<Status<T, E>>
    var future: Status<T, E>

    // The same as `order` of the two futures, with a second that exists only after a failure.
    ghost predicate Valid()
      reads this
    {
      && (supplied.Some? <==> last.Failed?)
      && future == if supplied.Some? then OrderResult([last, supplied.value]) else OrderResult([last, Pending])
    }

    constructor ()
      ensures Valid() && last == Pending
    {
      last, supplied, future := Pending, None, Pending;
    }

    method CompleteLast(s: Status<T, E>, second: Status<T, E>)
      requires Valid() && last.Pending? && !s.Pending?
      modifies this
      ensures Valid() && last == s && supplied == if s.Failed? then Some(second) else None
    {
      last := s;
      if s.Done? {
        future := s;
        return;
      }
      supplied := Some(second);
      WhenSupplied();
    }

    method CompleteSupplied(s: Status<T, E>)
      requires Valid() && supplied == Some(Pending) && !s.Pending?
      modifies this
      ensures Valid() && last == old(last) && supplied == Some(s)
    {
      assert [last, supplied.value][1..] == [supplied.value] && OrderResult([supplied.value]).Pending?;
      supplied := Some(s);
      WhenSupplied();
    }

    method WhenSupplied()
      requires supplied.Some? && last.Failed? && future.Pending?
      modifies `future
      ensures Valid()
    {
      assert [last, supplied.value][1..] == [supplied.value];
      match supplied.value
      case Pending =>
      case Done(_) => future := supplied.value;
      case Failed(_) => future := supplied.value;
    }
  }
}
