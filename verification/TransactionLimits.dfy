/** Where the guarantees of the transaction layer end: runs that need a condition, and the exact
    conditions. */
module TransactionLimits {
  import opened Prelude
  import opened MessageTypes
  import opened Transactions
  import opened TransactionInvariants
  import opened TransactionOrder
  import opened TransactionOutcomes
  import opened TransactionTheorems

  // ----- an answer after the report -----

  /** Request 1 after `k` expiries of its retry timer; timer 1 is its cleanup timer, and timer
      k + 2 the retry timer that runs now. */
  ghost predicate Unanswered(c: Config, k: nat) {
    && k <= MAX_RETRIES
    && c.s.retry == map[k + 2 := 1] && c.s.pending.Keys == {1}
    && c.s.pending[1].retryCount == k && c.s.pending[1].retryMsg.Some? && c.s.pending[1].retryMsg.value.seqNum == 1
    && c.s.pending[1].retryTimer == k + 2
    && c.s.pending[1].tx == 1 && c.s.pending[1].initialType == 1 && c.s.pending[1].triggeredType == 0
    && c.cleanupIds == {1} && (forall t :: t in c.retryIds ==> 2 <= t <= k + 2) && c.kinds.Keys == {1}
  }

  lemma UnansweredStarts(v: Variant) returns (e: Event)
    ensures Allowed(v, InitialConfig(0), e) && NoReuse(v, InitialConfig(0).s, e)
    ensures Unanswered(Next(v, InitialConfig(0), e), 0)
  {
    e := SendInitial(1, 9, 0, [], 1, 2, 1);
    assert Next(v, InitialConfig(0), e).s.retry == map[2 := 1];
  }

  lemma UnansweredGoesOn(v: Variant, c: Config, k: nat)
    requires Unanswered(c, k) && k < MAX_RETRIES
    ensures Allowed(v, c, TimeOut(k + 2, k + 3)) && Unanswered(Next(v, c, TimeOut(k + 2, k + 3)), k + 1)
  {
    assert Next(v, c, TimeOut(k + 2, k + 3)).s.retry == map[k + 3 := 1];
  }

  lemma {:induction false} UnansweredRun(v: Variant, k: nat) returns (es: seq<Event>)
    requires k <= MAX_RETRIES
    ensures AllowedFromStart(v, 0, es) && NoReuseFromStart(v, 0, es) && Unanswered(Reach(v, 0, es), k)
    decreases k
  {
    if k == 0 {
      var e := UnansweredStarts(v);
      RunSnoc(v, InitialConfig(0), [], e);
      es := [] + [e];
    } else {
      var before := UnansweredRun(v, k - 1);
      UnansweredGoesOn(v, Reach(v, 0, before), k - 1);
      RunSnoc(v, InitialConfig(0), before, TimeOut(k + 1, k + 2));
      es := before + [TimeOut(k + 1, k + 2)];
    }
  }

  /** The last expiry reports the peer; then PFCP accepts the answer. */
  lemma ReportThenAnswer(c: Config)
    requires Unanswered(c, MAX_RETRIES)
    ensures
      var report, late := TimeOut(5, 6), Receive(1, 2, 2, 7);
      var c1 := Next(Pfcp, c, report);
      && Allowed(Pfcp, c, report) && Allowed(Pfcp, c1, late) && NoReuse(Pfcp, c1.s, late)
      && HasReported(Next(Pfcp, c1, late).log, 1) && HasAccepted(Next(Pfcp, c1, late).log, 1)
  {
    var report, late := TimeOut(5, 6), Receive(1, 2, 2, 7);
    var c1 := Next(Pfcp, c, report);
    var c2 := Next(Pfcp, c1, late);
    var out1, out2 := Step(Pfcp, c.s, report).1, Step(Pfcp, c1.s, late).1;
    assert IsReported(1, out1[0]) && out1[0] in c1.log && out1[0] in c2.log;
    assert out2[|out2| - 1] == Accepted(1, 1, 2) && IsAccepted(1, out2[|out2| - 1]) && out2[|out2| - 1] in c2.log;
  }

  lemma PfcpReportsAndAccepts() returns (es: seq<Event>)
    ensures AllowedFromStart(Pfcp, 0, es) && NoReuseFromStart(Pfcp, 0, es)
    ensures HasReported(Reach(Pfcp, 0, es).log, 1) && HasAccepted(Reach(Pfcp, 0, es).log, 1)
  {
    var before := UnansweredRun(Pfcp, MAX_RETRIES);
    ReportThenAnswer(Reach(Pfcp, 0, before));
    RunSnoc(Pfcp, InitialConfig(0), before, TimeOut(5, 6));
    RunSnoc(Pfcp, InitialConfig(0), before + [TimeOut(5, 6)], Receive(1, 2, 2, 7));
    es := before + [TimeOut(5, 6)] + [Receive(1, 2, 2, 7)];
  }

  /** No run without early reuse has both an acceptance and a report for one transaction. */
  ghost predicate OutcomesExclude(v: Variant) {
    forall counter, es, tx ::
      AllowedFromStart(v, counter, es) && NoReuseFromStart(v, counter, es) ==>
        !(HasAccepted(Reach(v, counter, es).log, tx) && HasReported(Reach(v, counter, es).log, tx))
  }

  /** The two outcomes exclude each other in GTPv2-C, and in PFCP they do not. */
  lemma ExclusiveExactlyInGtpv2c(v: Variant)
    ensures OutcomesExclude(v) <==> v == Gtpv2c
  {
    if v == Gtpv2c {
      forall counter, es, tx | AllowedFromStart(v, counter, es) && NoReuseFromStart(v, counter, es)
        ensures !(HasAccepted(Reach(v, counter, es).log, tx) && HasReported(Reach(v, counter, es).log, tx))
      {
        NotBothOutcomes(counter, es, tx);
      }
    } else {
      var es := PfcpReportsAndAccepts();
      assert AllowedFromStart(v, 0, es) && HasAccepted(Reach(v, 0, es).log, 1);
    }
  }

  lemma NotBothOutcomes(counter: Counter, es: seq<Event>, tx: TxId)
    requires AllowedFromStart(Gtpv2c, counter, es) && NoReuseFromStart(Gtpv2c, counter, es)
    ensures !(HasAccepted(Reach(Gtpv2c, counter, es).log, tx) && HasReported(Reach(Gtpv2c, counter, es).log, tx))
  {
    var log := Reach(Gtpv2c, counter, es).log;
    if HasAccepted(log, tx) && HasReported(log, tx) {
      var i :| 0 <= i < |log| && IsAccepted(tx, log[i]);
      var j :| 0 <= j < |log| && IsReported(tx, log[j]);
      ExclusiveOutcomes(Gtpv2c, counter, es, if i < j then i else j, if i < j then j else i);
    }
  }

  // ----- answers -----

  /** In no run is the answer to a request of type `t` accepted twice under one transaction. */
  ghost predicate AnsweredOnce(v: Variant, t: MessageType) {
    forall counter, es, i, j ::
      AllowedFromStart(v, counter, es) && 0 <= i < j < |Reach(v, counter, es).log| ==>
        !AnswerRepeated(Reach(v, counter, es), t, i, j)
  }

  predicate AnswerRepeated(c: Config, t: MessageType, i: nat, j: nat)
    requires i < j < |c.log|
  {
    && c.log[i].Accepted? && c.log[j].Accepted? && c.log[i].tx == c.log[j].tx
    && c.log[i].tx in c.kinds && c.kinds[c.log[i].tx] == t
    && c.log[i].typ == c.log[j].typ == AnswerTo(t)
  }

  /** The answer is accepted at most once, except for the bearer requests of GTPv2-C. */
  lemma AnsweredOnceExactly(v: Variant, t: MessageType)
    ensures AnsweredOnce(v, t) <==> !(v == Gtpv2c && t in BEARER_REQUESTS)
  {
    if v == Gtpv2c && t in BEARER_REQUESTS {
      var es := BearerRequestAnsweredTwice(0, t);
      assert AnswerRepeated(Reach(v, 0, es), t, 3, 4);
    } else {
      forall counter, es, i, j | AllowedFromStart(v, counter, es) && 0 <= i < j < |Reach(v, counter, es).log|
        ensures !AnswerRepeated(Reach(v, counter, es), t, i, j)
      {
        AtMostOneAnswer(v, counter, es, i, j);
        ReachInv(v, counter, es);
      }
    }
  }

  // ----- answers that pre-empt the genuine one -----

  /** What a request that has no answer yet accepts. */
  lemma FirstAcceptedExactly(v: Variant, s: Stack, n: SequenceNumber, e: Event)
    requires n in s.pending && IsSendable(v, s.pending[n].initialType) && s.pending[n].triggeredType == 0
    requires e.Receive? && e.seqNum == n
    ensures Accepted(s.pending[n].tx, n, e.typ) in Step(v, s, e).1 <==>
              e.typ == AnswerTo(s.pending[n].initialType) || (v == Gtpv2c && e.typ in BEARER_REQUESTS)
  {
    SendableIsInitial(v, s.pending[n].initialType);
    var out := Step(v, s, e).1;
    if IsTriggered(v, s.pending[n].initialType, e.typ) {
      assert out[|out| - 1] == Accepted(s.pending[n].tx, n, e.typ);
    }
  }

  /** In any run: the answer of a pending request is accepted if and only if nothing was accepted
      for the request before; otherwise it is discarded. */
  lemma GenuineAnswerExactly(v: Variant, counter: Counter, es: seq<Event>, n: SequenceNumber, e: Event)
    requires AllowedFromStart(v, counter, es)
    requires n in Reach(v, counter, es).s.pending && Reach(v, counter, es).s.pending[n].retryMsg.Some?
    requires e.Receive? && e.seqNum == n && e.typ == AnswerTo(Reach(v, counter, es).s.pending[n].initialType)
    ensures
      var c := Reach(v, counter, es);
      && (Accepted(c.s.pending[n].tx, n, e.typ) in Step(v, c.s, e).1 <==> !HasAccepted(c.log, c.s.pending[n].tx))
      && (HasAccepted(c.log, c.s.pending[n].tx) ==> Step(v, c.s, e) == (c.s, [Discarded(n, e.typ)]))
  {
    ReachInv(v, counter, es);
    var c := Reach(v, counter, es);
    assert AnswerOk(v, c.log, c.s.pending[n]);
    LateAnswer(v, c.s, n, e);
    AcceptedIffRemembered(v, c, n);
    DiscardedOrAccepted(v, c.s, e);
  }

  lemma DiscardedOrAccepted(v: Variant, s: Stack, e: Event)
    requires e.Receive? && e.seqNum in s.pending
    ensures Accepted(s.pending[e.seqNum].tx, e.seqNum, e.typ) in Step(v, s, e).1
            || Step(v, s, e) == (s, [Discarded(e.seqNum, e.typ)])
  {
    var out := Step(v, s, e).1;
    if IsTriggered(v, BaseType(s.pending[e.seqNum]), e.typ) {
      assert out[|out| - 1] == Accepted(s.pending[e.seqNum].tx, e.seqNum, e.typ);
    }
  }

  /** Something was accepted for a pending request, but not its answer, which comes too late now. */
  ghost predicate IsPreempted(c: Config, n: SequenceNumber) {
    && n in c.s.pending && c.s.pending[n].retryMsg.Some? && HasAccepted(c.log, c.s.pending[n].tx)
    && !exists x :: x in c.log && x.Accepted? && x.tx == c.s.pending[n].tx && x.typ == AnswerTo(c.s.pending[n].initialType)
  }

  ghost predicate NeverPreempted(v: Variant) {
    forall counter, es, n :: AllowedFromStart(v, counter, es) ==> !IsPreempted(Reach(v, counter, es), n)
  }

  /** A bearer request of the peer under the number of a request is taken for its answer. */
  lemma BearerRequestPreempts() returns (es: seq<Event>)
    ensures AllowedFromStart(Gtpv2c, 0, es) && IsPreempted(Reach(Gtpv2c, 0, es), 1)
  {
    var before := UnansweredRun(Gtpv2c, 0);
    es := PreemptedAtTheEnd(Gtpv2c, 0, before);
  }

  lemma PreemptedAtTheEnd(v: Variant, counter: Counter, before: seq<Event>) returns (es: seq<Event>)
    requires v == Gtpv2c && AllowedFromStart(v, counter, before) && Unanswered(Reach(v, counter, before), 0)
    ensures AllowedFromStart(v, counter, es) && IsPreempted(Reach(v, counter, es), 1)
  {
    var e := Receive(1, 95, 2, 3);
    TakenInRun(v, counter, before, e);
    RunSnoc(v, InitialConfig(counter), before, e);
    es := before + [e];
  }

  lemma TakenInRun(v: Variant, counter: Counter, es: seq<Event>, e: Event)
    requires v == Gtpv2c && AllowedFromStart(v, counter, es) && Unanswered(Reach(v, counter, es), 0)
    requires e == Receive(1, 95, 2, 3)
    ensures Allowed(v, Reach(v, counter, es), e) && IsPreempted(Next(v, Reach(v, counter, es), e), 1)
  {
    ReachInv(v, counter, es);
    TakenForAnswer(Reach(v, counter, es), e);
  }

  lemma TakenForAnswer(c: Config, e: Event)
    requires Unanswered(c, 0) && AnswerInv(Gtpv2c, c) && e == Receive(1, 95, 2, 3)
    ensures Allowed(Gtpv2c, c, e) && IsPreempted(Next(Gtpv2c, c, e), 1)
  {
    var c' := Next(Gtpv2c, c, e);
    var out := Step(Gtpv2c, c.s, e).1;
    assert AnswerOk(Gtpv2c, c.log, c.s.pending[1]);
    assert out == [TimerRemoved(2), Accepted(1, 1, 95)];
    assert out[1] in c'.log && IsAccepted(1, out[1]);
    assert forall x :: x in c'.log ==> x in c.log || x in out;
  }

  /** The answer of a request can be pre-empted in GTPv2-C, and in PFCP it cannot. */
  lemma PreemptedExactlyInGtpv2c(v: Variant)
    ensures NeverPreempted(v) <==> v == Pfcp
  {
    if v == Gtpv2c {
      var es := BearerRequestPreempts();
      assert AllowedFromStart(v, 0, es) && IsPreempted(Reach(v, 0, es), 1);
    } else {
      forall counter, es, n | AllowedFromStart(v, counter, es)
        ensures !IsPreempted(Reach(v, counter, es), n)
      {
        NotPreempted(counter, es, n);
      }
    }
  }

  lemma NotPreempted(counter: Counter, es: seq<Event>, n: SequenceNumber)
    requires AllowedFromStart(Pfcp, counter, es)
    ensures !IsPreempted(Reach(Pfcp, counter, es), n)
  {
    ReachInv(Pfcp, counter, es);
    var c := Reach(Pfcp, counter, es);
    if IsPreempted(c, n) {
      var p := c.s.pending[n];
      AcceptedIffRemembered(Pfcp, c, n);
      assert AnswerOk(Pfcp, c.log, p) && IsSendable(Pfcp, p.initialType);
      var x :| x in c.log && IsAnswer(p.tx, p.triggeredType, x);
      assert p.triggeredType == AnswerTo(p.initialType);
    }
  }

  // ----- early reuse of sequence numbers -----

  /** Handling `e` brings a retry timer together with a procedure that has nothing to send again: a
      peer opens a number that a retry timer refers to, or a request takes the number of a
      peer's transaction. */
  predicate MeetsWrongTimer(v: Variant, s: Stack, e: Event) {
    || (e.Receive? && Opens(v, s, e) && exists t :: t in s.retry && s.retry[t] == e.seqNum)
    || (e.SendInitial? && NextSequenceNumber(s) in s.pending && s.pending[NextSequenceNumber(s)].retryMsg.None?)
  }

  /** Some expiry that can come next finds no message to send again. */
  ghost predicate NullRetryIsNext(v: Variant, c: Config) {
    exists t, newTimer, n :: Allowed(v, c, TimeOut(t, newTimer)) && NullRetryMessage(n) in Step(v, c.s, TimeOut(t, newTimer)).1
  }

  /** After a run without early reuse, one more step of any kind makes that possible exactly if
      it brings such a timer and such a procedure together. */
  lemma NullRetryMessageExactly(v: Variant, counter: Counter, es: seq<Event>, e: Event)
    requires AllowedFromStart(v, counter, es) && NoReuseFromStart(v, counter, es)
    requires Allowed(v, Reach(v, counter, es), e)
    ensures NullRetryIsNext(v, Next(v, Reach(v, counter, es), e)) <==> MeetsWrongTimer(v, Reach(v, counter, es).s, e)
  {
    ReachInv(v, counter, es);
    ReachOutcomeInv(v, counter, es);
    var c := Reach(v, counter, es);
    if MeetsWrongTimer(v, c.s, e) {
      WrongTimerFindsNothing(v, c, e);
    } else {
      TimersStayWithRequests(v, c, e);
    }
  }

  lemma WrongTimerFindsNothing(v: Variant, c: Config, e: Event)
    requires BaseInv(v, c) && Allowed(v, c, e) && RetryInv(c) && MeetsWrongTimer(v, c.s, e)
    ensures NullRetryIsNext(v, Next(v, c, e))
  {
    var c' := Next(v, c, e);
    var n := OpenedAt(c.s, e);
    var t: TimerId;
    if e.Receive? {
      t :| t in c.s.retry && c.s.retry[t] == n;
    } else {
      t := e.retryTimer;
    }
    NothingToSendAgain(v, c', t, n);
  }

  lemma NothingToSendAgain(v: Variant, c: Config, t: TimerId, n: SequenceNumber)
    requires t in c.s.retry && c.s.retry[t] == n && n in c.s.pending
    requires c.s.pending[n].retryMsg.None? && c.s.pending[n].retryCount == 0
    ensures NullRetryIsNext(v, c)
  {
    var newTimer := UnusedTimer(c);
    var out := Step(v, c.s, TimeOut(t, newTimer)).1;
    assert out[0] == NullRetryMessage(n);
    assert Allowed(v, c, TimeOut(t, newTimer)) && NullRetryMessage(n) in out;
  }

  /** There is always a timer id that was not handed out yet. */
  lemma UnusedTimer(c: Config) returns (t: TimerId)
    ensures FreshTimer(c, t)
  {
    t := Above(c.retryIds + c.cleanupIds + {0});
  }

  lemma {:induction false} Above(ids: set<nat>) returns (t: nat)
    ensures forall u :: u in ids ==> u < t
    decreases ids
  {
    if ids == {} {
      t := 0;
    } else {
      var u :| u in ids;
      var v := Above(ids - {u});
      t := if u < v then v else u + 1;
      assert forall w :: w in ids ==> w == u || w in ids - {u};
    }
  }

  lemma TimersStayWithRequests(v: Variant, c: Config, e: Event)
    requires BaseInv(v, c) && LogInv(c) && OutcomeInv(v, c) && Allowed(v, c, e) && !MeetsWrongTimer(v, c.s, e)
    ensures !NullRetryIsNext(v, Next(v, c, e))
  {
    if NoReuse(v, c.s, e) {
      OutcomeInvKept(v, c, e);
    } else {
      ReuseKeepsRequests(v, c, e);
    }
    RequestsAreSentAgain(v, Next(v, c, e));
  }

  /** Every retry timer leads to a message, or to no procedure. */
  predicate TimersHaveMessages(s: Stack) {
    forall t :: t in s.retry && s.retry[t] in s.pending ==> s.pending[s.retry[t]].retryMsg.Some?
  }

  lemma ReuseKeepsRequests(v: Variant, c: Config, e: Event)
    requires RetryInv(c) && !NoReuse(v, c.s, e) && !MeetsWrongTimer(v, c.s, e)
    ensures TimersHaveMessages(Next(v, c, e).s)
  {}

  lemma RequestsAreSentAgain(v: Variant, c: Config)
    requires TimersHaveMessages(c.s)
    ensures !NullRetryIsNext(v, c)
  {}

  /** With early reuse it does: a cleanup expiry leaves the retry timer behind, a peer opens the
      same number, and the retry timer expires. */
  lemma NullRetryMessageWithReuse(v: Variant) returns (es: seq<Event>)
    ensures AllowedFromStart(v, 0, es)
    ensures NullRetryMessage(1) in Reach(v, 0, es).log
  {
    var e1, e2 := SendInitial(1, 9, 0, [], 1, 1, 2), TimeOut(2, 3);
    var e3, e4 := Receive(1, 1, 2, 4), TimeOut(1, 5);
    var c0 := InitialConfig(0);
    var c2 := StrayRetryTimer(v, e1, e2);
    RunExtends(v, c0, [], c0, e1, e2);
    StrayTimerMeetsResponder(v, c2, e3, e4);
    RunExtends(v, c0, [] + [e1, e2], c2, e3, e4);
    es := [] + [e1, e2] + [e3, e4];
  }

  lemma StrayRetryTimer(v: Variant, e1: Event, e2: Event) returns (c2: Config)
    requires e1 == SendInitial(1, 9, 0, [], 1, 1, 2) && e2 == TimeOut(2, 3)
    ensures c2 == Next(v, Next(v, InitialConfig(0), e1), e2)
    ensures Allowed(v, InitialConfig(0), e1) && Allowed(v, Next(v, InitialConfig(0), e1), e2)
    ensures c2.s.retry == map[1 := 1] && c2.s.pending == map[]
    ensures c2.retryIds == {1, 3} && c2.cleanupIds == {2} && c2.kinds == map[1 := 1]
  {
    var c1 := Next(v, InitialConfig(0), e1);
    assert c1.s.retry == map[1 := 1] && c1.s.cleanup == map[2 := 1];
    c2 := Next(v, c1, e2);
  }

  lemma StrayTimerMeetsResponder(v: Variant, c2: Config, e3: Event, e4: Event)
    requires e3 == Receive(1, 1, 2, 4) && e4 == TimeOut(1, 5)
    requires c2.s.retry == map[1 := 1] && c2.s.pending == map[]
    requires c2.retryIds == {1, 3} && c2.cleanupIds == {2} && c2.kinds == map[1 := 1]
    ensures Allowed(v, c2, e3) && Allowed(v, Next(v, c2, e3), e4)
    ensures NullRetryMessage(1) in Next(v, Next(v, c2, e3), e4).log
  {
    var c3 := Next(v, c2, e3);
    assert c3.s.retry == map[1 := 1] && c3.s.pending == map[1 := NewResponder(e3)];
    var out := Step(v, c3.s, e4).1;
    assert out[0] == NullRetryMessage(1) && out[0] in Next(v, c3, e4).log;
  }
}
