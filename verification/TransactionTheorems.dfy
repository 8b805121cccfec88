/** The guarantees of the transaction layer over whole runs, from an empty stack. Nothing is
    assumed of the peer, of the caller or of the order of expiries beyond `AllowedRun`; the
    results that also need `NoReuseRun` say so. */
module TransactionTheorems {
  import opened MessageTypes
  import opened Transactions
  import opened TransactionInvariants
  import opened TransactionOrder
  import opened TransactionOutcomes

  function Reach(v: Variant, counter: Counter, es: seq<Event>): Config {
    Run(v, InitialConfig(counter), es)
  }

  predicate AllowedFromStart(v: Variant, counter: Counter, es: seq<Event>) {
    AllowedRun(v, InitialConfig(counter), es)
  }

  predicate NoReuseFromStart(v: Variant, counter: Counter, es: seq<Event>) {
    NoReuseRun(v, InitialConfig(counter), es)
  }

  lemma ReachInv(v: Variant, counter: Counter, es: seq<Event>)
    requires AllowedFromStart(v, counter, es)
    ensures Inv(v, Reach(v, counter, es))
  {
    InitialInv(v, counter);
    RunKeepsInv(v, InitialConfig(counter), es);
  }

  lemma ReachOutcomeInv(v: Variant, counter: Counter, es: seq<Event>)
    requires AllowedFromStart(v, counter, es) && NoReuseFromStart(v, counter, es)
    ensures OutcomeInv(v, Reach(v, counter, es))
  {
    InitialInv(v, counter);
    InitialOutcomeInv(v, counter);
    RunKeepsOutcomeInv(v, InitialConfig(counter), es);
  }

  // ----- the indices -----

  /** In every reachable state a pending procedure's transaction maps back to its own number,
      and no two pending procedures share a transaction. */
  lemma IndexAgreement(v: Variant, counter: Counter, es: seq<Event>)
    requires AllowedFromStart(v, counter, es)
    ensures
      var s := Reach(v, counter, es).s;
      && (forall n :: n in s.pending ==> s.pending[n].tx in s.txSeq && s.txSeq[s.pending[n].tx] == n)
      && (forall n, m :: n in s.pending && m in s.pending && n != m ==> s.pending[n].tx != s.pending[m].tx)
  {
    ReachInv(v, counter, es);
  }

  /** A response carries the sequence number its transaction was opened with, and after a closing
      response nothing is sent, opened, accepted or reported under that transaction again. */
  lemma ResponsesFollowTheirRequest(v: Variant, counter: Counter, es: seq<Event>)
    requires AllowedFromStart(v, counter, es)
    ensures
      var log := Reach(v, counter, es).log;
      && (forall x :: x in log && x.ResponseSent? ==> exists y :: y in log && OpenedUnder(x.tx, x.seqNum, y))
      && (forall i, j :: 0 <= i < j < |log| && log[i].ResponseSent? && log[i].closes ==> !IsAbout(log[i].tx, log[j]))
  {
    ReachInv(v, counter, es);
    var c := Reach(v, counter, es);
    forall i, j | 0 <= i < j < |c.log| && c.log[i].ResponseSent? && c.log[i].closes
      ensures !IsAbout(c.log[i].tx, c.log[j])
    {
      assert !Forbidden(c.kinds, c.log[i], c.log[j]);
    }
  }

  /** No procedure is immortal: its cleanup timer is known to the stack and was not removed from
      the timer service, and the expiry of that timer erases the procedure. */
  lemma NoImmortalProcedure(v: Variant, counter: Counter, es: seq<Event>, n: SequenceNumber, newTimer: TimerId)
    requires AllowedFromStart(v, counter, es)
    requires n in Reach(v, counter, es).s.pending
    ensures
      var c := Reach(v, counter, es);
      var t := c.s.pending[n].cleanupTimer;
      && t in c.s.cleanup && c.s.cleanup[t] == n
      && TimerRemoved(t) !in c.log
      && n !in Step(v, c.s, TimeOut(t, newTimer)).0.pending
  {
    ReachInv(v, counter, es);
    var c := Reach(v, counter, es);
    var t := c.s.pending[n].cleanupTimer;
    assert TimerRemoved(t) in c.log ==> EntryOk(c.kinds, c.removed, TimerRemoved(t));
  }

  // ----- answers -----

  /** The answer type of a request is accepted at most once for it, unless the request is a
      create, update or delete bearer request. */
  lemma AtMostOneAnswer(v: Variant, counter: Counter, es: seq<Event>, i: nat, j: nat)
    requires AllowedFromStart(v, counter, es)
    requires i < j < |Reach(v, counter, es).log|
    ensures
      var c := Reach(v, counter, es);
      c.log[i].Accepted? && c.log[j].Accepted? && c.log[i].tx == c.log[j].tx ==>
        && c.log[i].tx in c.kinds
        && (c.kinds[c.log[i].tx] in BEARER_REQUESTS
            || !(c.log[i].typ == c.log[j].typ == AnswerTo(c.kinds[c.log[i].tx])))
  {
    ReachInv(v, counter, es);
    var c := Reach(v, counter, es);
    assert EntryOk(c.kinds, c.removed, c.log[i]);
    assert !Forbidden(c.kinds, c.log[i], c.log[j]);
  }

  /** The exception is real: for each of the three bearer requests a peer that repeats its
      request and then its answer is accepted every time. */
  lemma BearerRequestAnsweredTwice(counter: Counter, t: MessageType) returns (es: seq<Event>)
    requires t in BEARER_REQUESTS
    ensures AllowedFromStart(Gtpv2c, counter, es)
    ensures
      var c := Reach(Gtpv2c, counter, es);
      && |c.log| == 5 && c.log[3] == c.log[4] == Accepted(1, 7, t + 1)
      && 1 in c.kinds && c.kinds[1] == t
  {
    var c0 := InitialConfig(counter);
    var e1, e2, c2 := BearerRequestRepeated(counter, t);
    var e3, e4 := BearerAnswerRepeated(c2, t);
    RunExtends(Gtpv2c, c0, [], c0, e1, e2);
    RunExtends(Gtpv2c, c0, [] + [e1, e2], c2, e3, e4);
    es := [] + [e1, e2] + [e3, e4];
  }

  /** The repeated request is taken for an answer. */
  lemma BearerRequestRepeated(counter: Counter, t: MessageType) returns (e1: Event, e2: Event, c2: Config)
    requires t in BEARER_REQUESTS
    ensures Allowed(Gtpv2c, InitialConfig(counter), e1) && Allowed(Gtpv2c, Next(Gtpv2c, InitialConfig(counter), e1), e2)
    ensures c2 == Next(Gtpv2c, Next(Gtpv2c, InitialConfig(counter), e1), e2)
    ensures |c2.log| == 3 && c2.kinds == map[1 := t] && c2.retryIds == {} && c2.cleanupIds == {1}
    ensures c2.s.pending.Keys == {7} && c2.s.pending[7].tx == 1 && c2.s.pending[7].retryTimer == 0
    ensures c2.s.pending[7].triggeredType == t
  {
    e1, e2 := Receive(7, t, 1, 1), Receive(7, t, 2, 2);
    var c1 := Next(Gtpv2c, InitialConfig(counter), e1);
    c2 := Next(Gtpv2c, c1, e2);
    assert c1.log == [TimerStarted(1, PROC_TIME_OUT_MS), RequestOpened(1, 7, t)];
    assert c2.log == c1.log + [Accepted(1, 7, t)];
  }

  /** From then on its answer is accepted as often as it comes. */
  lemma BearerAnswerRepeated(c2: Config, t: MessageType) returns (e3: Event, e4: Event)
    requires t in BEARER_REQUESTS
    requires |c2.log| == 3 && c2.kinds == map[1 := t] && c2.retryIds == {} && c2.cleanupIds == {1}
    requires c2.s.pending.Keys == {7} && c2.s.pending[7].tx == 1 && c2.s.pending[7].retryTimer == 0
    requires c2.s.pending[7].triggeredType == t
    ensures Allowed(Gtpv2c, c2, e3) && Allowed(Gtpv2c, Next(Gtpv2c, c2, e3), e4)
    ensures
      var c4 := Next(Gtpv2c, Next(Gtpv2c, c2, e3), e4);
      && |c4.log| == 5 && c4.log[3] == c4.log[4] == Accepted(1, 7, t + 1) && c4.kinds == map[1 := t]
  {
    e3, e4 := Receive(7, t + 1, 3, 3), Receive(7, t + 1, 4, 4);
    var c3 := Next(Gtpv2c, c2, e3);
    assert c3.log == c2.log + [Accepted(1, 7, t + 1)];
    assert Next(Gtpv2c, c3, e4).log == c3.log + [Accepted(1, 7, t + 1)];
  }

  /** One more event at the end of a run. */
  lemma {:induction false} RunSnoc(v: Variant, c: Config, es: seq<Event>, e: Event)
    ensures Run(v, c, es + [e]) == Next(v, Run(v, c, es), e)
    ensures AllowedRun(v, c, es + [e]) <==> AllowedRun(v, c, es) && Allowed(v, Run(v, c, es), e)
    ensures NoReuseRun(v, c, es + [e]) <==> NoReuseRun(v, c, es) && NoReuse(v, Run(v, c, es).s, e)
    decreases |es|
  {
    if es == [] {
      assert [e][1..] == [];
      var c1 := Next(v, c, e);
      assert Run(v, c1, []) == c1 && AllowedRun(v, c1, []) && NoReuseRun(v, c1, []);
    } else {
      assert (es + [e])[1..] == es[1..] + [e];
      RunSnoc(v, Next(v, c, es[0]), es[1..], e);
    }
  }

  /** Two more events at the end of a run. */
  lemma RunExtends(v: Variant, c0: Config, es: seq<Event>, c: Config, e1: Event, e2: Event)
    requires AllowedRun(v, c0, es) && Run(v, c0, es) == c
    requires Allowed(v, c, e1) && Allowed(v, Next(v, c, e1), e2)
    ensures AllowedRun(v, c0, es + [e1, e2]) && Run(v, c0, es + [e1, e2]) == Next(v, Next(v, c, e1), e2)
  {
    RunSnoc(v, c0, es, e1);
    RunSnoc(v, c0, es + [e1], e2);
    assert es + [e1] + [e2] == es + [e1, e2];
  }

  /** A request that a peer repeats while its transaction is pending changes nothing and is
      discarded, exactly when it is not one of GTPv2-C's bearer requests. */
  lemma RepeatedRequestDiscarded(v: Variant, counter: Counter, es: seq<Event>, e: Event)
    requires AllowedFromStart(v, counter, es)
    requires e.Receive? && e.seqNum in Reach(v, counter, es).s.pending
    requires e.typ == Reach(v, counter, es).s.pending[e.seqNum].initialType
    ensures
      var s := Reach(v, counter, es).s;
      Step(v, s, e) == (s, [Discarded(e.seqNum, e.typ)]) <==> !(v == Gtpv2c && e.typ in BEARER_REQUESTS)
  {
    ReachInv(v, counter, es);
    var c := Reach(v, counter, es);
    var p := c.s.pending[e.seqNum];
    assert AnswerOk(v, c.log, p);
    RequestIsNoAnswer(v, p.initialType, p.triggeredType);
    var out := Step(v, c.s, e).1;
    assert IsTriggered(v, BaseType(p), e.typ) ==> out[|out| - 1].Accepted?;
  }

  // ----- retransmission -----

  function SentCount(log: seq<Entry>, tx: TxId): nat {
    if log == [] then 0
    else SentCount(log[..|log| - 1], tx) + if log[|log| - 1].RequestSent? && log[|log| - 1].tx == tx then 1 else 0
  }

  /** With attempt numbers that only grow, a request sent `k` times was last sent as attempt k-1 or later. */
  lemma {:induction false} AttemptsGrow(kinds: map<TxId, MessageType>, log: seq<Entry>, tx: TxId)
    requires Ordered(kinds, log)
    ensures SentCount(log, tx) == 0
            || exists i :: 0 <= i < |log| && log[i].RequestSent? && log[i].tx == tx && log[i].attempt >= SentCount(log, tx) - 1
  {
    if log != [] {
      var n := |log| - 1;
      assert forall i :: 0 <= i < n ==> log[..n][i] == log[i];
      AttemptsGrow(kinds, log[..n], tx);
      if log[n].RequestSent? && log[n].tx == tx {
        if SentCount(log[..n], tx) != 0 {
          var i :| 0 <= i < n && log[i].RequestSent? && log[i].tx == tx && log[i].attempt >= SentCount(log[..n], tx) - 1;
          assert !Forbidden(kinds, log[i], log[n]);
        }
      } else if SentCount(log, tx) != 0 {
        var i :| 0 <= i < n && log[..n][i].RequestSent? && log[..n][i].tx == tx
                 && log[..n][i].attempt >= SentCount(log[..n], tx) - 1;
        assert log[i].RequestSent?;
      }
    }
  }

  /** A request is sent at most 1 + MAX_RETRIES times, always the same message to the same peer. */
  lemma RetransmissionBound(v: Variant, counter: Counter, es: seq<Event>, tx: TxId)
    requires AllowedFromStart(v, counter, es)
    ensures
      var c := Reach(v, counter, es);
      && SentCount(c.log, tx) <= 1 + MAX_RETRIES
      && (forall n :: n in c.s.pending ==> c.s.pending[n].retryCount <= MAX_RETRIES)
      && (forall x, y :: x in c.log && y in c.log && x.RequestSent? && y.RequestSent? && x.tx == y.tx ==>
            x.msg == y.msg && x.dest == y.dest)
  {
    ReachInv(v, counter, es);
    var c := Reach(v, counter, es);
    AttemptsGrow(c.kinds, c.log, tx);
    forall x, y | x in c.log && y in c.log && x.RequestSent? && y.RequestSent? && x.tx == y.tx
      ensures x.msg == y.msg && x.dest == y.dest
    {
      var i :| 0 <= i < |c.log| && c.log[i] == x;
      var j :| 0 <= j < |c.log| && c.log[j] == y;
      if i < j { assert !Forbidden(c.kinds, c.log[i], c.log[j]); }
      if j < i { assert !Forbidden(c.kinds, c.log[j], c.log[i]); }
    }
  }

  // ----- outcomes, without early reuse of sequence numbers -----

  /** GTPv2-C: no request is both answered and reported as unanswered, and it is reported at
      most once. PFCP: it is reported at most once, and never after an answer. */
  lemma ExclusiveOutcomes(v: Variant, counter: Counter, es: seq<Event>, i: nat, j: nat)
    requires AllowedFromStart(v, counter, es) && NoReuseFromStart(v, counter, es)
    requires i < j < |Reach(v, counter, es).log|
    ensures
      var log := Reach(v, counter, es).log;
      && !(log[i].Accepted? && log[j].PeerNotResponding? && log[i].tx == log[j].tx)
      && !(log[i].PeerNotResponding? && log[j].PeerNotResponding? && log[i].tx == log[j].tx)
      && (v == Gtpv2c ==> !(log[i].PeerNotResponding? && log[j].Accepted? && log[i].tx == log[j].tx))
  {
    ReachOutcomeInv(v, counter, es);
    var log := Reach(v, counter, es).log;
    assert !Excluded(v, log[i], log[j]);
  }

  /** What tells the two stacks apart: when the last attempt goes unanswered GTPv2-C forgets the
      request in the step that reports it. PFCP keeps it, and accepts a late answer unless one
      was accepted before. */
  lemma AfterTheReport(v: Variant, counter: Counter, es: seq<Event>, n: SequenceNumber, late: Event)
    requires AllowedFromStart(v, counter, es) && NoReuseFromStart(v, counter, es)
    requires n in Reach(v, counter, es).s.pending
    requires HasReported(Reach(v, counter, es).log, Reach(v, counter, es).s.pending[n].tx)
    requires late.Receive? && late.seqNum == n && late.typ == AnswerTo(Reach(v, counter, es).s.pending[n].initialType)
    ensures
      var c := Reach(v, counter, es);
      var p := c.s.pending[n];
      && v == Pfcp
      && p.retryTimer !in c.s.retry
      && (Accepted(p.tx, n, late.typ) in Step(v, c.s, late).1 <==> !HasAccepted(c.log, p.tx))
  {
    ReachInv(v, counter, es);
    ReachOutcomeInv(v, counter, es);
    var c := Reach(v, counter, es);
    var p := c.s.pending[n];
    assert OutcomeOk(v, c, n) && AnswerOk(v, c.log, p);
    LateAnswer(v, c.s, n, late);
    AcceptedIffRemembered(v, c, n);
  }

  lemma AcceptedIffRemembered(v: Variant, c: Config, n: SequenceNumber)
    requires AnswerInv(v, c) && n in c.s.pending
    ensures HasAccepted(c.log, c.s.pending[n].tx) <==> c.s.pending[n].triggeredType != 0
  {
    var p := c.s.pending[n];
    assert AnswerOk(v, c.log, p);
    if p.triggeredType != 0 {
      var x :| x in c.log && IsAnswer(p.tx, p.triggeredType, x);
      assert IsAccepted(p.tx, x);
    }
  }

  lemma LateAnswer(v: Variant, s: Stack, n: SequenceNumber, late: Event)
    requires n in s.pending && late.Receive? && late.seqNum == n && late.typ == AnswerTo(s.pending[n].initialType)
    requires IsSendable(v, s.pending[n].initialType)
    requires s.pending[n].triggeredType != 0 ==> FirstAnswer(v, s.pending[n].initialType, s.pending[n].triggeredType)
    ensures Accepted(s.pending[n].tx, n, late.typ) in Step(v, s, late).1 <==> s.pending[n].triggeredType == 0
  {
    var p := s.pending[n];
    var out := Step(v, s, late).1;
    SendableIsInitial(v, p.initialType);
    if p.triggeredType == 0 {
      assert out[|out| - 1] == Accepted(p.tx, n, late.typ);
    } else {
      if IsTriggered(v, p.triggeredType, late.typ) {
        AnswersOnce(v, p.initialType, p.triggeredType, late.typ);
      }
      assert out == [Discarded(n, late.typ)];
    }
  }

  /** Once an answer was accepted, or the missing answer reported, the request is not sent
      again, even if the expiry of its retry timer was already on its way. */
  lemma NoRetransmissionAfterOutcome(v: Variant, counter: Counter, es: seq<Event>, i: nat, j: nat)
    requires AllowedFromStart(v, counter, es) && NoReuseFromStart(v, counter, es)
    requires i < j < |Reach(v, counter, es).log|
    ensures
      var log := Reach(v, counter, es).log;
      (log[i].Accepted? || log[i].PeerNotResponding?) && log[j].RequestSent? ==> log[i].tx != log[j].tx
  {
    ReachOutcomeInv(v, counter, es);
    var log := Reach(v, counter, es).log;
    assert !Excluded(v, log[i], log[j]);
  }

  /** A retry timer never leads to a procedure without a message to send again. */
  lemma NoNullRetryMessage(v: Variant, counter: Counter, es: seq<Event>, n: SequenceNumber)
    requires AllowedFromStart(v, counter, es) && NoReuseFromStart(v, counter, es)
    ensures NullRetryMessage(n) !in Reach(v, counter, es).log
  {
    ReachOutcomeInv(v, counter, es);
  }
}
