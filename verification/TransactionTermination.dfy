/** With no new traffic both stacks come to rest: every handled expiry uses up part of a
    budget that only sending or receiving can refill. */
module TransactionTermination {
  import opened MessageTypes
  import opened Transactions
  import opened TransactionInvariants
  import opened TransactionTheorems

  /** The attempts a procedure has left. */
  function AttemptsLeft(p: Procedure): nat {
    if p.retryCount <= MAX_RETRIES then MAX_RETRIES - p.retryCount else 0
  }

  /** The attempts all pending procedures have left, together. */
  ghost function AllAttemptsLeft(m: map<SequenceNumber, Procedure>): nat
    decreases m.Keys
  {
    if m.Keys == {} then 0
    else
      var n :| n in m.Keys;
      AttemptsLeft(m[n]) + AllAttemptsLeft(m - {n})
  }

  lemma {:induction false} AttemptsWithout(m: map<SequenceNumber, Procedure>, n: SequenceNumber)
    requires n in m
    ensures AllAttemptsLeft(m) == AttemptsLeft(m[n]) + AllAttemptsLeft(m - {n})
    decreases m.Keys
  {
    var k :| k in m.Keys && AllAttemptsLeft(m) == AttemptsLeft(m[k]) + AllAttemptsLeft(m - {k});
    if k != n {
      AttemptsWithout(m - {k}, n);
      AttemptsWithout(m - {n}, k);
      assert m - {k} - {n} == m - {n} - {k};
    }
  }

  lemma AttemptsUpdated(m: map<SequenceNumber, Procedure>, n: SequenceNumber, p: Procedure)
    requires n in m
    ensures AllAttemptsLeft(m[n := p]) + AttemptsLeft(m[n]) == AllAttemptsLeft(m) + AttemptsLeft(p)
  {
    AttemptsWithout(m, n);
    AttemptsWithout(m[n := p], n);
    assert m[n := p] - {n} == m - {n};
  }

  lemma AttemptsErased(m: map<SequenceNumber, Procedure>, n: SequenceNumber)
    ensures AllAttemptsLeft(m - {n}) <= AllAttemptsLeft(m)
  {
    if n in m { AttemptsWithout(m, n); } else { assert m - {n} == m; }
  }

  ghost function Budget(s: Stack): nat {
    |s.retry| + |s.cleanup| + AllAttemptsLeft(s.pending)
  }

  /** Removing a key makes a map smaller by one. */
  lemma SmallerMap(m: map<TimerId, SequenceNumber>, t: TimerId)
    requires t in m
    ensures |m - {t}| + 1 == |m|
  {
    assert (m - {t}).Keys == m.Keys - {t};
    assert |m.Keys - {t}| + 1 == |m.Keys|;
  }

  lemma LargerMap(m: map<TimerId, SequenceNumber>, t: TimerId, n: SequenceNumber)
    requires t !in m
    ensures |m[t := n]| == |m| + 1
  {
    SmallerMap(m[t := n], t);
    assert m[t := n] - {t} == m;
  }

  lemma RetryUsesBudget(v: Variant, c: Config, e: Event)
    requires BaseInv(v, c) && Allowed(v, c, e) && e.TimeOut? && e.timer in c.s.retry
    ensures Budget(Step(v, c.s, e).0) < Budget(c.s)
  {
    var s := c.s;
    var n := s.retry[e.timer];
    SmallerMap(s.retry, e.timer);
    if n in s.pending {
      var p := s.pending[n];
      if p.retryCount < MAX_RETRIES {
        AttemptsUpdated(s.pending, n, Step(v, s, e).0.pending[n]);
        if p.retryMsg.Some? {
          LargerMap(s.retry - {e.timer}, e.newTimer, p.retryMsg.value.seqNum);
        }
      } else {
        AttemptsErased(s.pending, n);
      }
    }
  }

  /** Every handled expiry uses up budget. */
  lemma ExpiryUsesBudget(v: Variant, c: Config, e: Event)
    requires BaseInv(v, c) && Allowed(v, c, e) && e.TimeOut? && Handled(c.s, e.timer)
    ensures Budget(Step(v, c.s, e).0) < Budget(c.s)
  {
    if e.timer in c.s.retry {
      RetryUsesBudget(v, c, e);
    } else {
      SmallerMap(c.s.cleanup, e.timer);
      AttemptsErased(c.s.pending, c.s.cleanup[e.timer]);
    }
  }

  predicate OnlyExpiries(es: seq<Event>) {
    forall e :: e in es ==> e.TimeOut?
  }

  function HandledCount(v: Variant, c: Config, es: seq<Event>): nat
    requires OnlyExpiries(es)
    decreases |es|
  {
    if es == [] then 0
    else (if Handled(c.s, es[0].timer) then 1 else 0) + HandledCount(v, Next(v, c, es[0]), es[1..])
  }

  lemma {:induction false} HandledWithinBudget(v: Variant, c: Config, es: seq<Event>)
    requires BaseInv(v, c) && AllowedRun(v, c, es) && OnlyExpiries(es)
    ensures HandledCount(v, c, es) + Budget(Run(v, c, es).s) <= Budget(c.s)
    decreases |es|
  {
    if es != [] {
      BaseInvKept(v, c, es[0]);
      if Handled(c.s, es[0].timer) { ExpiryUsesBudget(v, c, es[0]); }
      HandledWithinBudget(v, Next(v, c, es[0]), es[1..]);
    }
  }

  /** From any reachable state, however the expiries interleave and however many there are, only
      as many as the budget allows are handled; the rest change nothing. */
  lemma Quiesces(v: Variant, counter: Counter, before: seq<Event>, after: seq<Event>)
    requires AllowedFromStart(v, counter, before)
    requires AllowedRun(v, Reach(v, counter, before), after) && OnlyExpiries(after)
    ensures HandledCount(v, Reach(v, counter, before), after) <= Budget(Reach(v, counter, before).s)
  {
    ReachInv(v, counter, before);
    HandledWithinBudget(v, Reach(v, counter, before), after);
  }

  /** A stack at rest has nothing pending: a pending procedure means a running cleanup timer. */
  lemma PendingMeansTimer(v: Variant, counter: Counter, es: seq<Event>)
    requires AllowedFromStart(v, counter, es)
    requires Reach(v, counter, es).s.pending != map[]
    ensures Reach(v, counter, es).s.cleanup != map[]
  {
    ReachInv(v, counter, es);
    var s := Reach(v, counter, es).s;
    assert s.pending.Keys != {};
    var n :| n in s.pending.Keys;
    assert s.pending[n].cleanupTimer in s.cleanup.Keys;
  }
}
