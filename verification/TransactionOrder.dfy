/** Pairs of visible entries that never occur in this order, in any allowed run: two answers
    accepted for one request, a request sent again changed, anything under a closed transaction. */
module TransactionOrder {
  import opened Prelude
  import opened MessageTypes
  import opened Transactions
  import opened TransactionInvariants

  /** True when `x` says that something was sent, opened, accepted or reported under `tx`. */
  predicate IsAbout(tx: TxId, x: Entry) {
    match x
    case RequestSent(tx', _, _, _) => tx == tx'
    case RequestOpened(tx', _, _) => tx == tx'
    case Accepted(tx', _, _) => tx == tx'
    case ResponseSent(tx', _, _, _, _) => tx == tx'
    case PeerNotResponding(tx', _, _) => tx == tx'
    case _ => false
  }

  /** True when `b` must not follow `a`. */
  predicate Forbidden(kinds: map<TxId, MessageType>, a: Entry, b: Entry) {
    match (a, b)
    case (Accepted(tx, _, t), Accepted(tx', _, t')) =>
      tx == tx' && t == t' && tx in kinds && kinds[tx] !in BEARER_REQUESTS && t == AnswerTo(kinds[tx])
    case (RequestSent(tx, m, dest, i), RequestSent(tx', m', dest', j)) =>
      tx == tx' && !(i < j && m == m' && dest == dest')
    case (ResponseSent(tx, _, _, _, closes), _) => closes && IsAbout(tx, b)
    case _ => false
  }

  ghost predicate Ordered(kinds: map<TxId, MessageType>, log: seq<Entry>) {
    forall i, j :: 0 <= i < j < |log| ==> !Forbidden(kinds, log[i], log[j])
  }

  predicate IsAnswer(tx: TxId, typ: MessageType, x: Entry) { x.Accepted? && x.tx == tx && x.typ == typ }

  /** The first accepted answer is remembered, and fixes what else can be accepted. */
  ghost predicate AnswerOk(v: Variant, log: seq<Entry>, p: Procedure) {
    && (p.triggeredType != 0 ==>
          FirstAnswer(v, p.initialType, p.triggeredType) && exists x :: x in log && IsAnswer(p.tx, p.triggeredType, x))
    && (p.triggeredType == 0 ==> forall x :: x in log ==> !(x.Accepted? && x.tx == p.tx))
  }

  ghost predicate AnswerInv(v: Variant, c: Config) {
    forall n :: n in c.s.pending ==> AnswerOk(v, c.log, c.s.pending[n])
  }

  /** What was sent for a pending procedure is its retry message, to its peer, at most as often
      as its retry count says. */
  ghost predicate SentOk(log: seq<Entry>, p: Procedure) {
    forall x :: x in log && x.RequestSent? && x.tx == p.tx ==>
      x.attempt <= p.retryCount && Some(x.msg) == p.retryMsg && x.dest == p.remote
  }

  predicate IsRequestOf(tx: TxId, n: SequenceNumber, x: Entry) {
    x.RequestSent? && x.tx == tx && x.msg.seqNum == n
  }

  ghost predicate SentInv(c: Config) {
    && (forall n :: n in c.s.pending ==> SentOk(c.log, c.s.pending[n]))
    && (forall n :: n in c.s.pending && c.s.pending[n].retryMsg.Some? ==>
          exists x :: x in c.log && IsRequestOf(c.s.pending[n].tx, n, x))
    && (forall x :: x in c.log && x.RequestSent? ==> x.attempt <= MAX_RETRIES)
  }

  predicate OpenedUnder(tx: TxId, n: SequenceNumber, x: Entry) {
    || (x.RequestOpened? && x.tx == tx && x.seqNum == n)
    || (x.RequestSent? && x.tx == tx && x.msg.seqNum == n && x.attempt == 0)
  }

  /** The index sends responses under the sequence number the transaction was opened with,
      and forgets a transaction with its closing response. */
  ghost predicate ResponseInv(c: Config) {
    && (forall tx :: tx in c.s.txSeq ==> exists x :: x in c.log && OpenedUnder(tx, c.s.txSeq[tx], x))
    && (forall x :: x in c.log && x.ResponseSent? ==> exists y :: y in c.log && OpenedUnder(x.tx, x.seqNum, y))
    && (forall x :: x in c.log && x.ResponseSent? && x.closes ==> x.tx !in c.s.txSeq)
  }

  ghost predicate OrderInv(v: Variant, c: Config) {
    Ordered(c.kinds, c.log) && AnswerInv(v, c) && SentInv(c) && ResponseInv(c)
  }

  ghost predicate Inv(v: Variant, c: Config) {
    BaseInv(v, c) && LogInv(c) && OrderInv(v, c)
  }

  lemma OrderedAppend(kinds: map<TxId, MessageType>, log: seq<Entry>, out: seq<Entry>)
    requires Ordered(kinds, log) && Ordered(kinds, out)
    requires forall a, b :: a in log && b in out ==> !Forbidden(kinds, a, b)
    ensures Ordered(kinds, log + out)
  {
    var all := log + out;
    forall i, j | 0 <= i < j < |all|
      ensures !Forbidden(kinds, all[i], all[j])
    {
      if i < |log| <= j { assert all[i] in log && all[j] in out; }
    }
  }

  /** What is forbidden in a log does not depend on a transaction that the log accepts no answer of. */
  lemma OrderedExtends(kinds: map<TxId, MessageType>, log: seq<Entry>, tx: TxId, typ: MessageType)
    requires Ordered(kinds, log)
    requires forall x :: x in log && x.Accepted? ==> x.tx != tx
    ensures Ordered(kinds[tx := typ], log)
  {
    forall i, j | 0 <= i < j < |log|
      ensures !Forbidden(kinds[tx := typ], log[i], log[j])
    {
      assert !Forbidden(kinds, log[i], log[j]) && log[i] in log;
    }
  }

  /** How a step touches one pending procedure: it is new, under a new transaction, or it is
      an old one whose identity stays and whose retry count does not go down. */
  lemma ProcedureEvolves(v: Variant, c: Config, e: Event, n: SequenceNumber)
    requires Allowed(v, c, e)
    requires n in Next(v, c, e).s.pending
    ensures
      var p' := Next(v, c, e).s.pending[n];
      || (n !in c.s.pending && p'.tx !in c.kinds && p'.triggeredType == 0)
      || (n in c.s.pending
          && var p := c.s.pending[n];
             && p' == p.(triggeredType := p'.triggeredType, retryTimer := p'.retryTimer, retryCount := p'.retryCount)
             && p.retryCount <= p'.retryCount
             && (p'.triggeredType == p.triggeredType
                 || (p.triggeredType == 0 && e.Receive? && e.seqNum == n && IsTriggered(v, p.initialType, e.typ)
                     && p'.triggeredType == e.typ)))
  {
    if n in c.s.pending {
      OldProcedureEvolves(v, c.s, e, n);
    } else {
      NewProcedureAppears(v, c.s, e, n);
    }
  }

  lemma NewProcedureAppears(v: Variant, s: Stack, e: Event, n: SequenceNumber)
    requires n in Step(v, s, e).0.pending && n !in s.pending
    ensures Opens(v, s, e) && Step(v, s, e).0.pending[n].triggeredType == 0
    ensures Step(v, s, e).0.pending[n].tx == if e.SendInitial? then e.tx else e.newTx
  {}

  lemma OldProcedureEvolves(v: Variant, s: Stack, e: Event, n: SequenceNumber)
    requires n in Step(v, s, e).0.pending && n in s.pending
    ensures
      var p, p' := s.pending[n], Step(v, s, e).0.pending[n];
      && p' == p.(triggeredType := p'.triggeredType, retryTimer := p'.retryTimer, retryCount := p'.retryCount)
      && p.retryCount <= p'.retryCount
      && (p'.triggeredType == p.triggeredType
          || (p.triggeredType == 0 && e.Receive? && e.seqNum == n && IsTriggered(v, p.initialType, e.typ)
              && p'.triggeredType == e.typ))
  {}

  /** An answer is accepted only for the pending procedure it carries the number of. */
  lemma AcceptedBy(v: Variant, c: Config, e: Event, x: Entry)
    requires x in Step(v, c.s, e).1 && x.Accepted?
    ensures e.Receive? && e.seqNum in c.s.pending && x == Accepted(c.s.pending[e.seqNum].tx, e.seqNum, e.typ)
    ensures IsTriggered(v, BaseType(c.s.pending[e.seqNum]), e.typ)
    ensures Next(v, c, e).s.pending[e.seqNum].triggeredType
            == (if c.s.pending[e.seqNum].triggeredType == 0 then e.typ else c.s.pending[e.seqNum].triggeredType)
  {}

  /** A request is on the wire because it was opened or because its retry timer expired. */
  lemma SentBy(v: Variant, c: Config, e: Event, x: Entry)
    requires x in Step(v, c.s, e).1 && x.RequestSent?
    ensures
      || (e.SendInitial? && x.tx == e.tx && x.attempt == 0
          && (NextSequenceNumber(c.s) !in c.s.pending ==>
                Next(v, c, e).s.pending[NextSequenceNumber(c.s)] == NewRequest(e, NextSequenceNumber(c.s))
                && Some(x.msg) == NewRequest(e, NextSequenceNumber(c.s)).retryMsg && x.dest == e.dest))
      || (e.TimeOut? && e.timer in c.s.retry && c.s.retry[e.timer] in c.s.pending
          && var p := c.s.pending[c.s.retry[e.timer]];
             && x.tx == p.tx && Some(x.msg) == p.retryMsg && x.dest == p.remote
             && x.attempt == p.retryCount + 1 <= MAX_RETRIES
             && c.s.retry[e.timer] in Next(v, c, e).s.pending
             && Next(v, c, e).s.pending[c.s.retry[e.timer]].retryCount == p.retryCount + 1)
  {}

  /** A response goes out under the number the index holds, and a closing one ends the index entry. */
  lemma RespondedBy(v: Variant, c: Config, e: Event, x: Entry)
    requires x in Step(v, c.s, e).1 && x.ResponseSent?
    ensures e.SendTriggered? && x.tx == e.tx && e.tx in c.s.txSeq && x.seqNum == c.s.txSeq[e.tx]
    ensures x.closes ==> e.tx !in Next(v, c, e).s.txSeq
  {}

  lemma AcceptedRespectsPast(v: Variant, c: Config, e: Event, a: Entry, b: Entry)
    requires BaseInv(v, c) && LogInv(c) && AnswerInv(v, c) && Ordered(c.kinds, c.log)
    requires a in c.log && b in Step(v, c.s, e).1 && a.Accepted? && b.Accepted?
    ensures !Forbidden(c.kinds, a, b)
  {
    AcceptedBy(v, c, e, b);
    var p := c.s.pending[e.seqNum];
    assert c.kinds[p.tx] == p.initialType && IsInitial(v, p.initialType);
    assert AnswerOk(v, c.log, p);
    if p.initialType !in BEARER_REQUESTS && p.triggeredType != 0 {
      AnswersOnce(v, p.initialType, p.triggeredType, e.typ);
    }
  }

  lemma SentRespectsPast(v: Variant, c: Config, e: Event, a: Entry, b: Entry)
    requires BaseInv(v, c) && LogInv(c) && SentInv(c) && Allowed(v, c, e)
    requires a in c.log && b in Step(v, c.s, e).1 && a.RequestSent? && b.RequestSent?
    ensures !Forbidden(c.kinds, a, b)
  {
    assert EntryOk(c.kinds, c.removed, a);
    SentBy(v, c, e, b);
    if e.TimeOut? {
      assert SentOk(c.log, c.s.pending[c.s.retry[e.timer]]);
    }
  }

  /** Whatever a step does under a transaction, the index has the transaction, or it is new. */
  lemma AboutIndexed(v: Variant, c: Config, e: Event, b: Entry, tx: TxId)
    requires IndexInv(c) && Allowed(v, c, e)
    requires b in Step(v, c.s, e).1 && IsAbout(tx, b)
    ensures tx in c.s.txSeq || tx !in c.kinds
  {}

  lemma ClosedRespectsPast(v: Variant, c: Config, e: Event, a: Entry, b: Entry)
    requires IndexInv(c) && LogInv(c) && ResponseInv(c) && Allowed(v, c, e)
    requires a in c.log && b in Step(v, c.s, e).1 && a.ResponseSent?
    ensures !Forbidden(c.kinds, a, b)
  {
    if a.closes && IsAbout(a.tx, b) {
      assert EntryOk(c.kinds, c.removed, a);
      AboutIndexed(v, c, e, b, a.tx);
    }
  }

  /** No entry of one step is forbidden after an entry of the past. */
  lemma StepRespectsPast(v: Variant, c: Config, e: Event, a: Entry, b: Entry)
    requires Inv(v, c) && Allowed(v, c, e)
    requires a in c.log && b in Step(v, c.s, e).1
    ensures !Forbidden(c.kinds, a, b)
  {
    if a.Accepted? && b.Accepted? {
      AcceptedRespectsPast(v, c, e, a, b);
    } else if a.RequestSent? && b.RequestSent? {
      SentRespectsPast(v, c, e, a, b);
    } else if a.ResponseSent? {
      ClosedRespectsPast(v, c, e, a, b);
    }
  }

  /** At most one entry of a step can be in a forbidden pair. */
  lemma StepOrdered(v: Variant, s: Stack, e: Event, kinds: map<TxId, MessageType>)
    ensures Ordered(kinds, Step(v, s, e).1)
  {}

  lemma OrderedKept(v: Variant, c: Config, e: Event)
    requires Inv(v, c) && Allowed(v, c, e)
    ensures Ordered(Next(v, c, e).kinds, Next(v, c, e).log)
  {
    var out := Step(v, c.s, e).1;
    forall a, b | a in c.log && b in out
      ensures !Forbidden(c.kinds, a, b)
    {
      StepRespectsPast(v, c, e, a, b);
    }
    StepOrdered(v, c.s, e, c.kinds);
    OrderedAppend(c.kinds, c.log, out);
    if Opens(v, c.s, e) {
      forall x | x in c.log + out && x.Accepted?
        ensures x.tx in c.kinds
      {
        assert x in c.log && EntryOk(c.kinds, c.removed, x);
      }
      OrderedExtends(c.kinds, c.log + out, if e.SendInitial? then e.tx else e.newTx, e.typ);
    }
  }

  lemma StillUnanswered(v: Variant, c: Config, e: Event, n: SequenceNumber, x: Entry)
    requires LogInv(c) && AnswerInv(v, c) && Allowed(v, c, e) && IndexInv(Next(v, c, e))
    requires n in Next(v, c, e).s.pending
    requires Next(v, c, e).s.pending[n].triggeredType == 0
    requires x in Next(v, c, e).log
    ensures !(x.Accepted? && x.tx == Next(v, c, e).s.pending[n].tx)
  {
    ProcedureEvolves(v, c, e, n);
    if x in c.log {
      assert EntryOk(c.kinds, c.removed, x);
      assert n in c.s.pending ==> AnswerOk(v, c.log, c.s.pending[n]);
    } else if x.Accepted? {
      AcceptedBy(v, c, e, x);
    }
  }

  lemma AnswerInvKept(v: Variant, c: Config, e: Event)
    requires Inv(v, c) && Allowed(v, c, e) && BaseInv(v, Next(v, c, e))
    ensures AnswerInv(v, Next(v, c, e))
  {
    var c' := Next(v, c, e);
    forall n | n in c'.s.pending
      ensures AnswerOk(v, c'.log, c'.s.pending[n])
    {
      ProcedureEvolves(v, c, e, n);
      if c'.s.pending[n].triggeredType == 0 {
        forall x | x in c'.log
          ensures !(x.Accepted? && x.tx == c'.s.pending[n].tx)
        {
          StillUnanswered(v, c, e, n, x);
        }
      } else {
        AnswerIsLogged(v, c, e, n);
      }
    }
  }

  lemma AnswerIsLogged(v: Variant, c: Config, e: Event, n: SequenceNumber)
    requires ProcedureInv(v, c) && AnswerInv(v, c) && Allowed(v, c, e)
    requires n in Next(v, c, e).s.pending && Next(v, c, e).s.pending[n].triggeredType != 0
    ensures
      var p := Next(v, c, e).s.pending[n];
      FirstAnswer(v, p.initialType, p.triggeredType) && exists x :: x in Next(v, c, e).log && IsAnswer(p.tx, p.triggeredType, x)
  {
    ProcedureEvolves(v, c, e, n);
    var p, c' := c.s.pending[n], Next(v, c, e);
    assert AnswerOk(v, c.log, p);
    if p.triggeredType == 0 {
      TriggeredIsFirstAnswer(v, p.initialType, e.typ);
      var out := Step(v, c.s, e).1;
      var x := Accepted(p.tx, n, e.typ);
      assert out[|out| - 1] == x && x in c'.log && IsAnswer(p.tx, e.typ, x);
    } else {
      var x :| x in c.log && IsAnswer(p.tx, p.triggeredType, x);
      assert x in c'.log;
    }
  }

  lemma SentInvKept(v: Variant, c: Config, e: Event)
    requires Inv(v, c) && Allowed(v, c, e)
    ensures SentInv(Next(v, c, e))
  {
    var c' := Next(v, c, e);
    BaseInvKept(v, c, e);
    forall n | n in c'.s.pending
      ensures SentOk(c'.log, c'.s.pending[n])
    {
      ProcedureEvolves(v, c, e, n);
      forall x | x in c'.log && x.RequestSent? && x.tx == c'.s.pending[n].tx
        ensures x.attempt <= c'.s.pending[n].retryCount && Some(x.msg) == c'.s.pending[n].retryMsg
                && x.dest == c'.s.pending[n].remote
      {
        if x in c.log {
          assert EntryOk(c.kinds, c.removed, x);
        } else {
          SentBy(v, c, e, x);
        }
      }
    }
    forall n | n in c'.s.pending && c'.s.pending[n].retryMsg.Some?
      ensures exists x :: x in c'.log && IsRequestOf(c'.s.pending[n].tx, n, x)
    {
      RequestIsLogged(v, c, e, n);
    }
    forall x | x in c'.log && x.RequestSent?
      ensures x.attempt <= MAX_RETRIES
    {
      if x !in c.log { SentBy(v, c, e, x); }
    }
  }

  lemma RequestIsLogged(v: Variant, c: Config, e: Event, n: SequenceNumber)
    requires SentInv(c) && Allowed(v, c, e)
    requires n in Next(v, c, e).s.pending && Next(v, c, e).s.pending[n].retryMsg.Some?
    ensures exists x :: x in Next(v, c, e).log && IsRequestOf(Next(v, c, e).s.pending[n].tx, n, x)
  {
    var c' := Next(v, c, e);
    ProcedureEvolves(v, c, e, n);
    if n in c.s.pending {
      var x :| x in c.log && IsRequestOf(c.s.pending[n].tx, n, x);
      assert x in c'.log;
    } else {
      var out := Step(v, c.s, e).1;
      assert out[2] in c'.log && IsRequestOf(c'.s.pending[n].tx, n, out[2]);
    }
  }

  lemma IndexOpened(v: Variant, c: Config, e: Event, tx: TxId)
    requires ResponseInv(c) && Allowed(v, c, e) && tx in Next(v, c, e).s.txSeq
    ensures exists x :: x in Next(v, c, e).log && OpenedUnder(tx, Next(v, c, e).s.txSeq[tx], x)
  {
    var c' := Next(v, c, e);
    if tx in c.s.txSeq {
      OldIndexStays(v, c.s, e, tx);
      var x :| x in c.log && OpenedUnder(tx, c.s.txSeq[tx], x);
      assert x in c'.log;
    } else {
      NewIndexOpened(v, c.s, e, tx);
      var out := Step(v, c.s, e).1;
      assert out[|out| - 1] in c'.log;
    }
  }

  lemma OldIndexStays(v: Variant, s: Stack, e: Event, tx: TxId)
    requires tx in Step(v, s, e).0.txSeq && tx in s.txSeq
    ensures Step(v, s, e).0.txSeq[tx] == s.txSeq[tx]
  {}

  lemma NewIndexOpened(v: Variant, s: Stack, e: Event, tx: TxId)
    requires tx in Step(v, s, e).0.txSeq && tx !in s.txSeq
    ensures
      var (s', out) := Step(v, s, e);
      |out| > 0 && OpenedUnder(tx, s'.txSeq[tx], out[|out| - 1])
  {}

  lemma ResponseInvKept(v: Variant, c: Config, e: Event)
    requires Inv(v, c) && Allowed(v, c, e)
    ensures ResponseInv(Next(v, c, e))
  {
    var c' := Next(v, c, e);
    forall tx | tx in c'.s.txSeq
      ensures exists x :: x in c'.log && OpenedUnder(tx, c'.s.txSeq[tx], x)
    {
      IndexOpened(v, c, e, tx);
    }
    forall x | x in c'.log && x.ResponseSent?
      ensures exists y :: y in c'.log && OpenedUnder(x.tx, x.seqNum, y)
      ensures x.closes ==> x.tx !in c'.s.txSeq
    {
      ResponseIndexed(v, c, e, x);
    }
  }

  lemma ResponseIndexed(v: Variant, c: Config, e: Event, x: Entry)
    requires LogInv(c) && ResponseInv(c) && Allowed(v, c, e)
    requires x in Next(v, c, e).log && x.ResponseSent?
    ensures exists y :: y in Next(v, c, e).log && OpenedUnder(x.tx, x.seqNum, y)
    ensures x.closes ==> x.tx !in Next(v, c, e).s.txSeq
  {
    if x in c.log {
      assert EntryOk(c.kinds, c.removed, x);
    } else {
      RespondedBy(v, c, e, x);
    }
    var y :| y in c.log && OpenedUnder(x.tx, x.seqNum, y);
    assert y in Next(v, c, e).log;
  }

  lemma InvKept(v: Variant, c: Config, e: Event)
    requires Inv(v, c) && Allowed(v, c, e)
    ensures Inv(v, Next(v, c, e))
  {
    BaseInvKept(v, c, e);
    LogInvKept(v, c, e);
    OrderedKept(v, c, e);
    AnswerInvKept(v, c, e);
    SentInvKept(v, c, e);
    ResponseInvKept(v, c, e);
  }

  lemma {:induction false} RunKeepsInv(v: Variant, c: Config, es: seq<Event>)
    requires Inv(v, c) && AllowedRun(v, c, es)
    ensures Inv(v, Run(v, c, es))
    decreases |es|
  {
    if es != [] {
      InvKept(v, c, es[0]);
      RunKeepsInv(v, Next(v, c, es[0]), es[1..]);
    }
  }

  lemma InitialInv(v: Variant, counter: Counter)
    ensures Inv(v, InitialConfig(counter))
  {}
}
