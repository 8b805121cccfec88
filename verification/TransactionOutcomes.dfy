/** What becomes of a request, in runs where no sequence number is reused too early: it is
    answered or reported as unanswered, and after either nothing more is sent for it. */
module TransactionOutcomes {
  import opened Prelude
  import opened MessageTypes
  import opened Transactions
  import opened TransactionInvariants
  import opened TransactionOrder

  /** True when `b` must not follow `a` in a run without early reuse. */
  predicate Excluded(v: Variant, a: Entry, b: Entry) {
    || (a.Accepted? && b.RequestSent? && a.tx == b.tx)
    || (a.Accepted? && b.PeerNotResponding? && a.tx == b.tx)
    || (a.PeerNotResponding? && b.PeerNotResponding? && a.tx == b.tx)
    || (a.PeerNotResponding? && b.RequestSent? && a.tx == b.tx)
    || (a.PeerNotResponding? && b.Accepted? && a.tx == b.tx && v == Gtpv2c)
  }

  ghost predicate OutcomesOrdered(v: Variant, log: seq<Entry>) {
    forall i, j :: 0 <= i < j < |log| ==> !Excluded(v, log[i], log[j])
  }

  predicate IsAccepted(tx: TxId, x: Entry) { x.Accepted? && x.tx == tx }
  predicate IsReported(tx: TxId, x: Entry) { x.PeerNotResponding? && x.tx == tx }

  ghost predicate HasAccepted(log: seq<Entry>, tx: TxId) { exists x :: x in log && IsAccepted(tx, x) }
  ghost predicate HasReported(log: seq<Entry>, tx: TxId) { exists x :: x in log && IsReported(tx, x) }

  /** A retry timer belongs to the request whose number it holds. */
  predicate TimersOwned(s: Stack) {
    forall t :: t in s.retry && s.retry[t] in s.pending ==>
      s.pending[s.retry[t]].retryTimer == t && s.pending[s.retry[t]].retryMsg.Some?
  }

  /** It belongs to no other procedure. */
  predicate OwnersFiled(s: Stack) {
    forall n, t :: n in s.pending && t in s.retry && s.pending[n].retryTimer == t ==> s.retry[t] == n
  }

  /** What has no message to send again was never sent again. */
  predicate SilentNeverRetried(s: Stack) {
    forall n :: n in s.pending && s.pending[n].retryMsg.None? ==> s.pending[n].retryCount == 0
  }

  ghost predicate RetryInv(c: Config) { TimersOwned(c.s) && OwnersFiled(c.s) && SilentNeverRetried(c.s) }

  /** An answered procedure has no retry timer; a reported request is gone (GTPv2-C) or has no timer
      that is running (PFCP); a request with neither outcome has one. */
  ghost predicate OutcomeOk(v: Variant, c: Config, n: SequenceNumber)
    requires n in c.s.pending
  {
    var p := c.s.pending[n];
    && (HasAccepted(c.log, p.tx) ==> p.retryTimer == 0)
    && (HasReported(c.log, p.tx) ==> v == Pfcp && p.retryTimer !in c.s.retry && p.retryMsg.Some?)
    && (p.retryMsg.Some? && !HasAccepted(c.log, p.tx) && !HasReported(c.log, p.tx) ==>
          p.retryTimer in c.s.retry && c.s.retry[p.retryTimer] == n)
  }

  ghost predicate OutcomeInv(v: Variant, c: Config) {
    && OutcomesOrdered(v, c.log)
    && RetryInv(c)
    && (forall n :: n in c.s.pending ==> OutcomeOk(v, c, n))
    && (forall x :: x in c.log ==> !x.NullRetryMessage?)
  }

  lemma InitialOutcomeInv(v: Variant, counter: Counter)
    ensures OutcomeInv(v, InitialConfig(counter))
  {}

  lemma OutcomesAppend(v: Variant, log: seq<Entry>, out: seq<Entry>)
    requires OutcomesOrdered(v, log) && OutcomesOrdered(v, out)
    requires forall a, b :: a in log && b in out ==> !Excluded(v, a, b)
    ensures OutcomesOrdered(v, log + out)
  {
    var all := log + out;
    forall i, j | 0 <= i < j < |all|
      ensures !Excluded(v, all[i], all[j])
    {
      if i < |log| <= j { assert all[i] in log && all[j] in out; }
    }
  }

  /** A report is made for the procedure whose retry timer expired, in its last attempt. */
  lemma ReportedBy(v: Variant, c: Config, e: Event, x: Entry)
    requires x in Step(v, c.s, e).1 && x.PeerNotResponding?
    ensures e.TimeOut? && e.timer in c.s.retry && c.s.retry[e.timer] in c.s.pending
    ensures x.tx == c.s.pending[c.s.retry[e.timer]].tx
    ensures v == Gtpv2c ==> c.s.retry[e.timer] !in Next(v, c, e).s.pending
    ensures e.timer !in Next(v, c, e).s.retry
  {}

  lemma OpeningKeepsOwners(v: Variant, c: Config, e: Event)
    requires TimersInv(c) && RetryInv(c) && Allowed(v, c, e) && NoReuse(v, c.s, e)
    requires e.SendInitial? || e.Receive?
    ensures TimersOwned(Step(v, c.s, e).0) && SilentNeverRetried(Step(v, c.s, e).0)
  {}

  lemma OpeningKeepsFiled(v: Variant, c: Config, e: Event)
    requires TimersInv(c) && OwnersFiled(c.s) && Allowed(v, c, e) && NoReuse(v, c.s, e)
    requires e.SendInitial? || e.Receive?
    ensures OwnersFiled(Step(v, c.s, e).0)
  {}

  lemma OpeningKeepsRetryInv(v: Variant, c: Config, e: Event)
    requires TimersInv(c) && RetryInv(c) && Allowed(v, c, e) && NoReuse(v, c.s, e)
    requires e.SendInitial? || e.Receive?
    ensures RetryInv(Next(v, c, e))
  {
    OpeningKeepsOwners(v, c, e);
    OpeningKeepsFiled(v, c, e);
  }

  lemma SendTriggeredKeepsRetryInv(v: Variant, c: Config, e: Event)
    requires RetryInv(c) && e.SendTriggered?
    ensures RetryInv(Next(v, c, e))
  {}

  lemma TimeOutKeepsOwners(v: Variant, c: Config, e: Event)
    requires TimersInv(c) && ProcedureInv(v, c) && RetryInv(c) && Allowed(v, c, e) && e.TimeOut?
    ensures TimersOwned(Step(v, c.s, e).0)
  {}

  lemma TimeOutKeepsFiled(v: Variant, c: Config, e: Event)
    requires TimersInv(c) && ProcedureInv(v, c) && OwnersFiled(c.s) && Allowed(v, c, e) && e.TimeOut?
    ensures OwnersFiled(Step(v, c.s, e).0)
  {}

  lemma TimeOutKeepsSilent(v: Variant, s: Stack, e: Event)
    requires TimersOwned(s) && SilentNeverRetried(s) && e.TimeOut?
    ensures SilentNeverRetried(Step(v, s, e).0)
  {}

  lemma TimeOutKeepsRetryInv(v: Variant, c: Config, e: Event)
    requires TimersInv(c) && ProcedureInv(v, c) && RetryInv(c) && Allowed(v, c, e) && e.TimeOut?
    ensures RetryInv(Next(v, c, e))
  {
    TimeOutKeepsOwners(v, c, e);
    TimeOutKeepsFiled(v, c, e);
    TimeOutKeepsSilent(v, c.s, e);
  }

  lemma StepRespectsOutcome(v: Variant, c: Config, e: Event, a: Entry, b: Entry)
    requires BaseInv(v, c) && LogInv(c) && OutcomeInv(v, c) && Allowed(v, c, e)
    requires a in c.log && b in Step(v, c.s, e).1
    ensures !Excluded(v, a, b)
  {
    assert EntryOk(c.kinds, c.removed, a);
    if a.Accepted? || a.PeerNotResponding? {
      assert a.Accepted? ==> IsAccepted(a.tx, a);
      assert a.PeerNotResponding? ==> IsReported(a.tx, a);
      if b.RequestSent? {
        SentBy(v, c, e, b);
        if e.TimeOut? { assert OutcomeOk(v, c, c.s.retry[e.timer]); }
      } else if b.PeerNotResponding? {
        ReportedBy(v, c, e, b);
        assert OutcomeOk(v, c, c.s.retry[e.timer]);
      } else if b.Accepted? {
        AcceptedBy(v, c, e, b);
        assert OutcomeOk(v, c, e.seqNum);
      }
    }
  }

  /** Which outcomes a log gains in one step. */
  lemma OutcomesGained(v: Variant, c: Config, e: Event, tx: TxId)
    requires IndexInv(c)
    ensures HasAccepted(c.log, tx) ==> HasAccepted(Next(v, c, e).log, tx)
    ensures HasReported(c.log, tx) ==> HasReported(Next(v, c, e).log, tx)
    ensures HasAccepted(Next(v, c, e).log, tx) <==>
              || HasAccepted(c.log, tx)
              || (e.Receive? && e.seqNum in c.s.pending && c.s.pending[e.seqNum].tx == tx
                  && IsTriggered(v, BaseType(c.s.pending[e.seqNum]), e.typ))
    ensures HasReported(Next(v, c, e).log, tx) ==>
              || HasReported(c.log, tx)
              || (e.TimeOut? && e.timer in c.s.retry && c.s.retry[e.timer] in c.s.pending
                  && c.s.pending[c.s.retry[e.timer]].tx == tx
                  && (v == Gtpv2c ==> c.s.retry[e.timer] !in Next(v, c, e).s.pending)
                  && e.timer !in Next(v, c, e).s.retry)
  {
    var c' := Next(v, c, e);
    if HasAccepted(c.log, tx) {
      var x :| x in c.log && IsAccepted(tx, x);
      assert x in c'.log;
    } else if HasAccepted(c'.log, tx) {
      var x :| x in c'.log && IsAccepted(tx, x);
      AcceptedBy(v, c, e, x);
    } else if e.Receive? && e.seqNum in c.s.pending && IsTriggered(v, BaseType(c.s.pending[e.seqNum]), e.typ) {
      var x := Accepted(c.s.pending[e.seqNum].tx, e.seqNum, e.typ);
      var out := Step(v, c.s, e).1;
      assert out[|out| - 1] == x && x in c'.log;
      assert c.s.pending[e.seqNum].tx == tx ==> IsAccepted(tx, x);
    }
    if HasReported(c.log, tx) {
      var x :| x in c.log && IsReported(tx, x);
      assert x in c'.log;
    } else if HasReported(c'.log, tx) {
      var x :| x in c'.log && IsReported(tx, x);
      ReportedBy(v, c, e, x);
    }
  }

  /** Nothing is accepted or reported for a transaction before it is opened. */
  lemma NewHasNoOutcome(v: Variant, c: Config, e: Event, tx: TxId)
    requires IndexInv(c) && LogInv(c) && tx !in c.kinds
    ensures !HasAccepted(Next(v, c, e).log, tx) && !HasReported(Next(v, c, e).log, tx)
  {
    OutcomesGained(v, c, e, tx);
    forall x | x in c.log
      ensures !IsAccepted(tx, x) && !IsReported(tx, x)
    {
      assert EntryOk(c.kinds, c.removed, x);
    }
  }

  lemma NewProcedureIs(v: Variant, c: Config, e: Event, n: SequenceNumber)
    requires TimersInv(c) && Allowed(v, c, e)
    requires n in Next(v, c, e).s.pending && n !in c.s.pending
    ensures
      var s' := Next(v, c, e).s;
      && s'.pending[n].tx !in c.kinds && s'.pending[n].triggeredType == 0
      && (s'.pending[n].retryMsg.Some? ==> s'.pending[n].retryTimer in s'.retry && s'.retry[s'.pending[n].retryTimer] == n)
  {}

  lemma NewProcedureOutcome(v: Variant, c: Config, e: Event, n: SequenceNumber)
    requires TimersInv(c) && IndexInv(c) && LogInv(c) && Allowed(v, c, e)
    requires n in Next(v, c, e).s.pending && n !in c.s.pending
    ensures OutcomeOk(v, Next(v, c, e), n)
  {
    NewProcedureIs(v, c, e, n);
    NewHasNoOutcome(v, c, e, Next(v, c, e).s.pending[n].tx);
  }

  /** What can happen to the retry timer of an old procedure. */
  ghost predicate RetryTimerEvolved(v: Variant, c: Config, e: Event, n: SequenceNumber)
    requires n in Next(v, c, e).s.pending && n in c.s.pending
  {
    var p := c.s.pending[n];
    var s' := Next(v, c, e).s;
    var p' := s'.pending[n];
    if e.Receive? && e.seqNum == n && IsTriggered(v, BaseType(p), e.typ) then
      p'.retryTimer == 0
    else if e.TimeOut? && e.timer in c.s.retry && c.s.retry[e.timer] == n then
      && p.retryTimer == e.timer
      && (p.retryCount < MAX_RETRIES ==> p'.retryTimer in s'.retry && s'.retry[p'.retryTimer] == n)
      && (p.retryCount == MAX_RETRIES ==>
            p'.retryTimer == p.retryTimer && HasReported(Next(v, c, e).log, p.tx))
    else
      && p'.retryTimer == p.retryTimer
      && (p.retryTimer !in c.s.retry ==> p.retryTimer !in s'.retry)
      && (p.retryTimer in c.s.retry ==> p.retryTimer in s'.retry && s'.retry[p.retryTimer] == n)
  }

  /** Its own retry timer expires. */
  lemma OwnTimerExpires(v: Variant, c: Config, e: Event, n: SequenceNumber)
    requires ProcedureInv(v, c) && RetryInv(c) && e.TimeOut? && e.timer in c.s.retry && c.s.retry[e.timer] == n
    requires n in Next(v, c, e).s.pending && n in c.s.pending && e.newTimer !in c.s.retry
    ensures RetryTimerEvolved(v, c, e, n)
  {
    if c.s.pending[n].retryCount == MAX_RETRIES {
      var out := Step(v, c.s, e).1;
      assert IsReported(c.s.pending[n].tx, out[0]) && out[0] in Next(v, c, e).log;
    }
  }

  lemma OtherTimerExpires(v: Variant, c: Config, e: Event, n: SequenceNumber)
    requires TimersInv(c) && RetryInv(c) && Allowed(v, c, e) && e.TimeOut? && !(e.timer in c.s.retry && c.s.retry[e.timer] == n)
    requires n in Next(v, c, e).s.pending && n in c.s.pending
    ensures RetryTimerEvolved(v, c, e, n)
  {}

  lemma RetryTimerInTimeOut(v: Variant, c: Config, e: Event, n: SequenceNumber)
    requires TimersInv(c) && ProcedureInv(v, c) && RetryInv(c) && Allowed(v, c, e) && e.TimeOut?
    requires n in Next(v, c, e).s.pending && n in c.s.pending
    ensures RetryTimerEvolved(v, c, e, n)
  {
    if e.timer in c.s.retry && c.s.retry[e.timer] == n {
      OwnTimerExpires(v, c, e, n);
    } else {
      OtherTimerExpires(v, c, e, n);
    }
  }

  lemma RetryTimerInOtherStep(v: Variant, c: Config, e: Event, n: SequenceNumber)
    requires TimersInv(c) && CleanupInv(c) && RetryInv(c) && Allowed(v, c, e) && NoReuse(v, c.s, e) && !e.TimeOut?
    requires n in Next(v, c, e).s.pending && n in c.s.pending
    ensures RetryTimerEvolved(v, c, e, n)
  {}

  lemma OldProcedureOutcome(v: Variant, c: Config, e: Event, n: SequenceNumber)
    requires BaseInv(v, c) && OutcomeInv(v, c) && Allowed(v, c, e) && NoReuse(v, c.s, e)
    requires n in Next(v, c, e).s.pending && n in c.s.pending
    ensures OutcomeOk(v, Next(v, c, e), n)
  {
    ProcedureEvolves(v, c, e, n);
    OutcomesGained(v, c, e, c.s.pending[n].tx);
    if e.TimeOut? { RetryTimerInTimeOut(v, c, e, n); } else { RetryTimerInOtherStep(v, c, e, n); }
    assert OutcomeOk(v, c, n);
  }

  lemma OutcomeInvKept(v: Variant, c: Config, e: Event)
    requires BaseInv(v, c) && LogInv(c) && OutcomeInv(v, c) && Allowed(v, c, e) && NoReuse(v, c.s, e)
    ensures OutcomeInv(v, Next(v, c, e))
  {
    var c' := Next(v, c, e);
    var out := Step(v, c.s, e).1;
    match e {
      case SendTriggered(_, _, _, _) => SendTriggeredKeepsRetryInv(v, c, e);
      case TimeOut(_, _) => TimeOutKeepsRetryInv(v, c, e);
      case _ => OpeningKeepsRetryInv(v, c, e);
    }
    forall n | n in c'.s.pending
      ensures OutcomeOk(v, c', n)
    {
      if n in c.s.pending { OldProcedureOutcome(v, c, e, n); } else { NewProcedureOutcome(v, c, e, n); }
    }
    forall a, b | a in c.log && b in out
      ensures !Excluded(v, a, b)
    {
      StepRespectsOutcome(v, c, e, a, b);
    }
    StepOutcomesOrdered(v, c, e);
    OutcomesAppend(v, c.log, out);
  }

  lemma StepOutcomesOrdered(v: Variant, c: Config, e: Event)
    requires RetryInv(c)
    ensures OutcomesOrdered(v, Step(v, c.s, e).1)
    ensures forall x :: x in Step(v, c.s, e).1 ==> !x.NullRetryMessage?
  {}

  lemma {:induction false} RunKeepsOutcomeInv(v: Variant, c: Config, es: seq<Event>)
    requires BaseInv(v, c) && LogInv(c) && OutcomeInv(v, c) && AllowedRun(v, c, es) && NoReuseRun(v, c, es)
    ensures OutcomeInv(v, Run(v, c, es))
    decreases |es|
  {
    if es != [] {
      BaseInvKept(v, c, es[0]);
      LogInvKept(v, c, es[0]);
      OutcomeInvKept(v, c, es[0]);
      RunKeepsOutcomeInv(v, Next(v, c, es[0]), es[1..]);
    }
  }
}
