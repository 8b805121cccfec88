/** What becomes of every request that was sent: it is settled, it is pending, or a step lost it.
    Which steps do is stated exactly. */
module RequestFates {
  import opened MessageTypes
  import opened Transactions
  import opened TransactionInvariants
  import opened TransactionOrder
  import opened TransactionOutcomes
  import opened TransactionTheorems

  predicate IsClosing(tx: TxId, x: Entry) { x.ResponseSent? && x.closes && x.tx == tx }

  ghost predicate Closed(log: seq<Entry>, tx: TxId) { exists x :: x in log && IsClosing(tx, x) }

  /** Nobody needs to wait for this transaction any more: it was answered, or reported, or its user
      closed it. */
  ghost predicate Settled(log: seq<Entry>, tx: TxId) {
    HasAccepted(log, tx) || HasReported(log, tx) || Closed(log, tx)
  }

  predicate StillPending(s: Stack, x: Entry)
    requires x.RequestSent?
  {
    x.msg.seqNum in s.pending && s.pending[x.msg.seqNum].tx == x.tx
  }

  ghost predicate FateInv(c: Config) {
    forall x :: x in c.log && x.RequestSent? ==> Settled(c.log, x.tx) || StillPending(c.s, x)
  }

  /** The procedure that holds `n` waits for an answer. */
  predicate Waits(s: Stack, n: SequenceNumber) {
    n in s.pending && s.pending[n].retryTimer in s.retry
  }

  /** The user closes a transaction whose own procedure is gone, and whose number another request
      holds now. The index entry is still there because expiries do not erase it. */
  predicate ClosesAnother(s: Stack, e: Event) {
    && e.SendTriggered? && e.deleteTx && e.tx in s.txSeq
    && Waits(s, s.txSeq[e.tx]) && s.pending[s.txSeq[e.tx]].tx != e.tx
  }

  /** A cleanup timer expires whose number a waiting request holds. */
  predicate CleansUpWaiting(s: Stack, e: Event) {
    e.TimeOut? && e.timer !in s.retry && e.timer in s.cleanup && Waits(s, s.cleanup[e.timer])
  }

  predicate LosesRequest(s: Stack, e: Event) { ClosesAnother(s, e) || CleansUpWaiting(s, e) }

  /** The step from `c` to `c'` made the request disappear without settling it. */
  ghost predicate IsLost(c: Config, c': Config, x: Entry) {
    && x in c.log && x.RequestSent?
    && StillPending(c.s, x) && !StillPending(c'.s, x) && !Settled(c'.log, x.tx)
  }

  // ----- one step -----

  lemma SettledGrows(log: seq<Entry>, out: seq<Entry>, tx: TxId)
    requires Settled(log, tx)
    ensures Settled(log + out, tx)
  {
    var x :| x in log && (IsAccepted(tx, x) || IsReported(tx, x) || IsClosing(tx, x));
    assert x in log + out;
  }

  /** Why a pending procedure disappears in a step. */
  lemma ProcedureEnds(v: Variant, c: Config, e: Event, n: SequenceNumber)
    requires n in c.s.pending && n !in Next(v, c, e).s.pending
    ensures
      || (e.SendTriggered? && e.deleteTx && e.tx in c.s.txSeq && c.s.txSeq[e.tx] == n
          && Step(v, c.s, e).1[0] == ResponseSent(e.tx, n, e.typ, e.dest, true))
      || (e.TimeOut? && e.timer in c.s.retry && c.s.retry[e.timer] == n
          && Step(v, c.s, e).1 == [PeerNotResponding(c.s.pending[n].tx, c.s.pending[n].remote, c.s.pending[n].localTeid)])
      || (e.TimeOut? && e.timer !in c.s.retry && e.timer in c.s.cleanup && c.s.cleanup[e.timer] == n)
  {}

  lemma OnlyLossesLose(v: Variant, c: Config, e: Event, x: Entry)
    requires Inv(v, c) && OutcomeInv(v, c) && Allowed(v, c, e)
    requires IsLost(c, Next(v, c, e), x)
    ensures LosesRequest(c.s, e)
  {
    var c' := Next(v, c, e);
    var n, out := x.msg.seqNum, Step(v, c.s, e).1;
    if n in c'.s.pending {
      ProcedureEvolves(v, c, e, n);
    }
    ProcedureEnds(v, c, e, n);
    if Settled(c.log, x.tx) {
      SettledGrows(c.log, out, x.tx);
    }
    assert SentOk(c.log, c.s.pending[n]) && OutcomeOk(v, c, n);
    assert Waits(c.s, n);
    if e.SendTriggered? {
      assert out[0] in c'.log && !IsClosing(x.tx, out[0]);
    } else if e.timer in c.s.retry {
      assert out[0] in c'.log && IsReported(x.tx, out[0]);
    }
  }

  /** A waiting request is on the log and not settled. */
  lemma WaitingIsOpen(v: Variant, c: Config, n: SequenceNumber) returns (x: Entry)
    requires Inv(v, c) && OutcomeInv(v, c) && Waits(c.s, n)
    ensures x in c.log && IsRequestOf(c.s.pending[n].tx, n, x) && !Settled(c.log, x.tx)
  {
    assert OutcomeOk(v, c, n) && c.s.pending[n].retryMsg.Some?;
    x :| x in c.log && IsRequestOf(c.s.pending[n].tx, n, x);
    assert !Closed(c.log, x.tx);
  }

  /** A losing step erases the waiting request; at most it sends the other transaction's response. */
  lemma LossSettlesNothing(v: Variant, s: Stack, e: Event, n: SequenceNumber)
    requires LosesRequest(s, e) && n == if e.SendTriggered? then s.txSeq[e.tx] else s.cleanup[e.timer]
    ensures n !in Step(v, s, e).0.pending
    ensures forall y :: y in Step(v, s, e).1 ==>
              !IsAccepted(s.pending[n].tx, y) && !IsReported(s.pending[n].tx, y) && !IsClosing(s.pending[n].tx, y)
  {}

  lemma LostRequest(v: Variant, c: Config, e: Event) returns (x: Entry)
    requires Inv(v, c) && OutcomeInv(v, c) && LosesRequest(c.s, e)
    ensures IsLost(c, Next(v, c, e), x) && x in Next(v, c, e).log
  {
    var n := if e.SendTriggered? then c.s.txSeq[e.tx] else c.s.cleanup[e.timer];
    x := WaitingIsOpen(v, c, n);
    LossSettlesNothing(v, c.s, e, n);
    NotSettledBy(c.log, Step(v, c.s, e).1, x.tx);
  }

  lemma NotSettledBy(log: seq<Entry>, out: seq<Entry>, tx: TxId)
    requires !Settled(log, tx)
    requires forall y :: y in out ==> !IsAccepted(tx, y) && !IsReported(tx, y) && !IsClosing(tx, y)
    ensures !Settled(log + out, tx)
  {
    assert forall y :: y in log + out ==> y in log || y in out;
  }

  /** A step loses a request if and only if it is such a close or such an expiry. */
  lemma LostExactly(v: Variant, c: Config, e: Event)
    requires Inv(v, c) && OutcomeInv(v, c) && Allowed(v, c, e)
    ensures (exists x :: IsLost(c, Next(v, c, e), x)) <==> LosesRequest(c.s, e)
  {
    if x :| IsLost(c, Next(v, c, e), x) {
      OnlyLossesLose(v, c, e, x);
    }
    if LosesRequest(c.s, e) {
      var x := LostRequest(v, c, e);
    }
  }

  lemma SentIsPending(v: Variant, c: Config, e: Event, x: Entry)
    requires ProcedureInv(v, c) && NoReuse(v, c.s, e)
    requires x in Step(v, c.s, e).1 && x.RequestSent?
    ensures StillPending(Next(v, c, e).s, x)
  {}

  lemma FateStep(v: Variant, c: Config, e: Event)
    requires Inv(v, c) && OutcomeInv(v, c) && Allowed(v, c, e) && NoReuse(v, c.s, e) && FateInv(c)
    ensures FateInv(Next(v, c, e)) <==> !LosesRequest(c.s, e)
  {
    var c' := Next(v, c, e);
    var out := Step(v, c.s, e).1;
    LostExactly(v, c, e);
    if LosesRequest(c.s, e) {
      var x :| IsLost(c, c', x);
      assert x in c'.log;
    } else {
      forall x | x in c'.log && x.RequestSent?
        ensures Settled(c'.log, x.tx) || StillPending(c'.s, x)
      {
        if x !in c.log {
          SentIsPending(v, c, e, x);
        } else if Settled(c.log, x.tx) {
          SettledGrows(c.log, out, x.tx);
        } else {
          assert !IsLost(c, c', x);
        }
      }
    }
  }

  // ----- whole runs -----

  predicate NoLossRun(v: Variant, c: Config, es: seq<Event>)
    decreases |es|
  {
    es == [] || (!LosesRequest(c.s, es[0]) && NoLossRun(v, Next(v, c, es[0]), es[1..]))
  }

  lemma {:induction false} NoLossSnoc(v: Variant, c: Config, es: seq<Event>, e: Event)
    ensures NoLossRun(v, c, es + [e]) <==> NoLossRun(v, c, es) && !LosesRequest(Run(v, c, es).s, e)
    decreases |es|
  {
    if es == [] {
      assert [e][1..] == [];
      assert NoLossRun(v, Next(v, c, e), []);
    } else {
      assert (es + [e])[1..] == es[1..] + [e];
      NoLossSnoc(v, Next(v, c, es[0]), es[1..], e);
    }
  }

  /** At every moment of the run every request sent so far is settled or still pending. */
  ghost predicate NeverLost(v: Variant, counter: Counter, es: seq<Event>) {
    forall k :: 0 <= k <= |es| ==> FateInv(Reach(v, counter, es[..k]))
  }

  lemma NeverLostSnoc(v: Variant, counter: Counter, es: seq<Event>, e: Event)
    ensures NeverLost(v, counter, es + [e]) <==> NeverLost(v, counter, es) && FateInv(Reach(v, counter, es + [e]))
  {
    var all := es + [e];
    assert all[..|all|] == all;
    assert forall k :: 0 <= k <= |es| ==> all[..k] == es[..k];
  }

  /** Without early reuse no request is ever lost if and only if no step of the run loses one. */
  lemma {:induction false} NeverLostExactly(v: Variant, counter: Counter, es: seq<Event>)
    requires AllowedFromStart(v, counter, es) && NoReuseFromStart(v, counter, es)
    ensures NeverLost(v, counter, es) <==> NoLossRun(v, InitialConfig(counter), es)
    decreases |es|
  {
    if es != [] {
      var before, e := es[..|es| - 1], es[|es| - 1];
      assert es == before + [e];
      RunSnoc(v, InitialConfig(counter), before, e);
      NoLossSnoc(v, InitialConfig(counter), before, e);
      NeverLostSnoc(v, counter, before, e);
      NeverLostExactly(v, counter, before);
      if NeverLost(v, counter, before) { NeverLostStep(v, counter, before, e); }
    }
  }

  lemma NeverLostStep(v: Variant, counter: Counter, es: seq<Event>, e: Event)
    requires AllowedFromStart(v, counter, es) && NoReuseFromStart(v, counter, es) && NeverLost(v, counter, es)
    requires Allowed(v, Reach(v, counter, es), e) && NoReuse(v, Reach(v, counter, es).s, e)
    ensures FateInv(Next(v, Reach(v, counter, es), e)) <==> !LosesRequest(Reach(v, counter, es).s, e)
  {
    ReachInv(v, counter, es);
    ReachOutcomeInv(v, counter, es);
    assert es[..|es|] == es;
    FateStep(v, Reach(v, counter, es), e);
  }
}
