/** What every step of the transaction layer keeps, in any run the environment allows. */
module TransactionInvariants {
  import opened MessageTypes
  import opened Transactions

  /** Retry and cleanup timers never share an id, and 0 is not an id. */
  ghost predicate TimersInv(c: Config) {
    && 0 !in c.retryIds && 0 !in c.cleanupIds
    && c.retryIds !! c.cleanupIds
    && c.s.retry.Keys <= c.retryIds
    && c.s.cleanup.Keys <= c.cleanupIds
    && (forall n :: n in c.s.pending ==> c.s.pending[n].retryTimer == 0 || c.s.pending[n].retryTimer in c.retryIds)
    && c.removed <= c.retryIds + c.cleanupIds
    && c.s.retry.Keys !! c.removed
  }

  /** The transaction index agrees with the pending procedures. */
  ghost predicate IndexInv(c: Config) {
    && c.s.txSeq.Keys <= c.kinds.Keys
    && (forall n :: n in c.s.pending ==>
          var tx := c.s.pending[n].tx;
          tx in c.s.txSeq && c.s.txSeq[tx] == n)
  }

  /** Every pending procedure has a live cleanup timer of its own. */
  ghost predicate CleanupInv(c: Config) {
    forall n :: n in c.s.pending ==>
      var t := c.s.pending[n].cleanupTimer;
      t in c.s.cleanup && c.s.cleanup[t] == n && t !in c.removed
  }

  /** Procedures carry the type they were opened with; requests are replayed unchanged. */
  ghost predicate ProcedureInv(v: Variant, c: Config) {
    && (forall tx :: tx in c.kinds ==> IsInitial(v, c.kinds[tx]))
    && (forall n :: n in c.s.pending ==>
          var p := c.s.pending[n];
          && p.tx in c.kinds && c.kinds[p.tx] == p.initialType
          && p.retryCount <= MAX_RETRIES
          && (p.retryMsg.Some? ==> p.retryMsg.value.seqNum == n && IsSendable(v, p.initialType)))
  }

  predicate EntryOk(kinds: map<TxId, MessageType>, removed: set<TimerId>, x: Entry) {
    match x
    case TimerRemoved(t) => t in removed
    case RequestSent(tx, _, _, _) => tx in kinds
    case RequestOpened(tx, _, _) => tx in kinds
    case Accepted(tx, _, _) => tx in kinds
    case ResponseSent(tx, _, _, _, _) => tx in kinds
    case PeerNotResponding(tx, _, _) => tx in kinds
    case _ => true
  }

  /** Everything in the log is about a transaction that was opened, and removals are recorded. */
  ghost predicate LogInv(c: Config) {
    forall x :: x in c.log ==> EntryOk(c.kinds, c.removed, x)
  }

  ghost predicate BaseInv(v: Variant, c: Config) {
    TimersInv(c) && IndexInv(c) && CleanupInv(c) && ProcedureInv(v, c)
  }

  lemma SendInitialKeepsTimers(v: Variant, c: Config, e: Event)
    requires BaseInv(v, c) && Allowed(v, c, e)
    requires e.SendInitial?
    ensures TimersInv(Next(v, c, e))
  {}

  lemma SendInitialKeepsCleanup(v: Variant, c: Config, e: Event)
    requires TimersInv(c) && CleanupInv(c) && Allowed(v, c, e)
    requires e.SendInitial?
    ensures CleanupInv(Next(v, c, e))
  {}

  lemma SendInitialKeepsProcedures(v: Variant, c: Config, e: Event)
    requires ProcedureInv(v, c) && Allowed(v, c, e)
    requires e.SendInitial?
    ensures ProcedureInv(v, Next(v, c, e))
  {
    SendableIsInitial(v, e.typ);
  }

  lemma SendInitialKeeps(v: Variant, c: Config, e: Event)
    requires BaseInv(v, c) && Allowed(v, c, e)
    requires e.SendInitial?
    ensures BaseInv(v, Next(v, c, e))
  {
    SendInitialKeepsTimers(v, c, e);
    SendInitialKeepsCleanup(v, c, e);
    SendInitialKeepsProcedures(v, c, e);
  }

  lemma OpenKeepsTimers(v: Variant, c: Config, e: Event)
    requires BaseInv(v, c) && Allowed(v, c, e)
    requires e.Receive? && e.seqNum !in c.s.pending
    ensures TimersInv(Next(v, c, e))
  {}

  lemma OpenKeepsCleanup(v: Variant, c: Config, e: Event)
    requires TimersInv(c) && CleanupInv(c) && Allowed(v, c, e)
    requires e.Receive? && e.seqNum !in c.s.pending
    ensures CleanupInv(Next(v, c, e))
  {}

  lemma OpenKeepsProcedures(v: Variant, c: Config, e: Event)
    requires ProcedureInv(v, c) && Allowed(v, c, e)
    requires e.Receive? && e.seqNum !in c.s.pending
    ensures ProcedureInv(v, Next(v, c, e))
  {}

  lemma OpenKeeps(v: Variant, c: Config, e: Event)
    requires BaseInv(v, c) && Allowed(v, c, e)
    requires e.Receive? && e.seqNum !in c.s.pending
    ensures BaseInv(v, Next(v, c, e))
  {
    OpenKeepsTimers(v, c, e);
    OpenKeepsCleanup(v, c, e);
    OpenKeepsProcedures(v, c, e);
  }

  lemma AnswerKeepsTimers(v: Variant, c: Config, e: Event)
    requires BaseInv(v, c) && Allowed(v, c, e)
    requires e.Receive? && e.seqNum in c.s.pending
    ensures TimersInv(Next(v, c, e))
  {}

  lemma AnswerKeepsIndex(v: Variant, c: Config, e: Event)
    requires IndexInv(c) && CleanupInv(c) && TimersInv(c)
    requires e.Receive? && e.seqNum in c.s.pending
    ensures IndexInv(Next(v, c, e)) && CleanupInv(Next(v, c, e))
  {}

  lemma AnswerKeeps(v: Variant, c: Config, e: Event)
    requires BaseInv(v, c) && Allowed(v, c, e)
    requires e.Receive? && e.seqNum in c.s.pending
    ensures BaseInv(v, Next(v, c, e))
  {
    AnswerKeepsTimers(v, c, e);
    AnswerKeepsIndex(v, c, e);
  }

  lemma SendTriggeredKeeps(v: Variant, c: Config, e: Event)
    requires BaseInv(v, c) && Allowed(v, c, e)
    requires e.SendTriggered?
    ensures BaseInv(v, Next(v, c, e))
  {}

  lemma RetryKeepsTimers(v: Variant, c: Config, e: Event)
    requires BaseInv(v, c) && Allowed(v, c, e)
    requires e.TimeOut? && e.timer in c.s.retry
    ensures TimersInv(Next(v, c, e))
  {}

  lemma RetryKeepsCleanup(v: Variant, c: Config, e: Event)
    requires CleanupInv(c)
    requires e.TimeOut? && e.timer in c.s.retry
    ensures CleanupInv(Next(v, c, e))
  {}

  lemma RetryKeepsIndex(v: Variant, c: Config, e: Event)
    requires IndexInv(c)
    requires e.TimeOut? && e.timer in c.s.retry
    ensures IndexInv(Next(v, c, e))
  {}

  lemma RetryKeepsProcedures(v: Variant, c: Config, e: Event)
    requires ProcedureInv(v, c)
    requires e.TimeOut? && e.timer in c.s.retry
    ensures ProcedureInv(v, Next(v, c, e))
  {
    var c' := Next(v, c, e);
    assert c'.kinds == c.kinds;
    forall n | n in c'.s.pending
      ensures n in c.s.pending && c'.s.pending[n].retryCount <= MAX_RETRIES
      ensures c'.s.pending[n].tx == c.s.pending[n].tx && c'.s.pending[n].initialType == c.s.pending[n].initialType
      ensures c'.s.pending[n].retryMsg == c.s.pending[n].retryMsg
    {
      RetriedProcedure(v, c.s, e, n);
    }
  }

  lemma RetriedProcedure(v: Variant, s: Stack, e: Event, n: SequenceNumber)
    requires e.TimeOut? && e.timer in s.retry && n in Step(v, s, e).0.pending
    ensures n in s.pending
    ensures
      var p, p' := s.pending[n], Step(v, s, e).0.pending[n];
      && p'.tx == p.tx && p'.initialType == p.initialType && p'.retryMsg == p.retryMsg
      && (p.retryCount <= MAX_RETRIES ==> p'.retryCount <= MAX_RETRIES)
  {}

  lemma RetryKeeps(v: Variant, c: Config, e: Event)
    requires BaseInv(v, c) && Allowed(v, c, e)
    requires e.TimeOut? && e.timer in c.s.retry
    ensures BaseInv(v, Next(v, c, e))
  {
    RetryKeepsTimers(v, c, e);
    RetryKeepsIndex(v, c, e);
    RetryKeepsCleanup(v, c, e);
    RetryKeepsProcedures(v, c, e);
  }

  lemma CleanupKeeps(v: Variant, c: Config, e: Event)
    requires BaseInv(v, c) && Allowed(v, c, e)
    requires e.TimeOut? && e.timer !in c.s.retry
    ensures BaseInv(v, Next(v, c, e))
  {}

  lemma BaseInvKept(v: Variant, c: Config, e: Event)
    requires BaseInv(v, c) && Allowed(v, c, e)
    ensures BaseInv(v, Next(v, c, e))
  {
    match e
    case SendInitial(_, _, _, _, _, _, _) => SendInitialKeeps(v, c, e);
    case Receive(_, _, _, _) => if e.seqNum in c.s.pending { AnswerKeeps(v, c, e); } else { OpenKeeps(v, c, e); }
    case SendTriggered(_, _, _, _) => SendTriggeredKeeps(v, c, e);
    case TimeOut(_, _) => if e.timer in c.s.retry { RetryKeeps(v, c, e); } else { CleanupKeeps(v, c, e); }
  }

  lemma LogInvKept(v: Variant, c: Config, e: Event)
    requires BaseInv(v, c) && LogInv(c) && Allowed(v, c, e)
    ensures LogInv(Next(v, c, e))
  {
    var c' := Next(v, c, e);
    forall x | x in c'.log
      ensures EntryOk(c'.kinds, c'.removed, x)
    {
      if x !in c.log { assert x in Step(v, c.s, e).1; }
    }
  }
}
