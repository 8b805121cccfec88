/** With timely expiries, and no stale cleanup timer left, the only way to lose a request is to close
    another transaction under its number. */
module TimedFates {
  import opened MessageTypes
  import opened Transactions
  import opened RequestFates
  import opened TimedTransactions
  import opened TimedTheorems

  /** Nowhere in the run is a transaction closed whose number another waiting request holds. */
  predicate NoWrongCloseRun(v: Variant, tc: Timed, tes: seq<TimedEvent>)
    decreases |tes|
  {
    tes == [] || ((tes[0].Do? ==> !ClosesAnother(tc.c.s, tes[0].e)) && NoWrongCloseRun(v, TimedNext(v, tc, tes[0]), tes[1..]))
  }

  lemma {:induction false} NoWrongCloseSnoc(v: Variant, tc: Timed, tes: seq<TimedEvent>, te: TimedEvent)
    ensures NoWrongCloseRun(v, tc, tes + [te]) <==>
              NoWrongCloseRun(v, tc, tes) && (te.Do? ==> !ClosesAnother(TimedRun(v, tc, tes).c.s, te.e))
    decreases |tes|
  {
    if tes == [] {
      assert [te][1..] == [];
      assert NoWrongCloseRun(v, TimedNext(v, tc, te), []);
    } else {
      assert (tes + [te])[1..] == tes[1..] + [te];
      NoWrongCloseSnoc(v, TimedNext(v, tc, tes[0]), tes[1..], te);
    }
  }

  /** No expiry that is handled in time cleans up a waiting request. */
  lemma OnlyClosesLose(v: Variant, tc: Timed, e: Event, late: Micros)
    requires StateInv(v, tc, late) && CleanupMatch(tc, late) && SmallLateness(late)
    requires TimedAllowed(v, tc, Do(e), late)
    ensures LosesRequest(tc.c.s, e) <==> ClosesAnother(tc.c.s, e)
  {
    if CleansUpWaiting(tc.c.s, e) {
      SmallLatenessSuffices(v, tc, e, late);
    }
  }

  /** At every moment of the run every request sent so far is settled or still pending. */
  ghost predicate NeverLostInTime(v: Variant, counter: Counter, tes: seq<TimedEvent>) {
    forall k :: 0 <= k <= |tes| ==> FateInv(TimedReach(v, counter, tes[..k]).c)
  }

  lemma NeverLostInTimeSnoc(v: Variant, counter: Counter, tes: seq<TimedEvent>, te: TimedEvent)
    ensures NeverLostInTime(v, counter, tes + [te]) <==>
              NeverLostInTime(v, counter, tes) && FateInv(TimedReach(v, counter, tes + [te]).c)
  {
    var all := tes + [te];
    assert all[..|all|] == all;
    assert forall k :: 0 <= k <= |tes| ==> all[..k] == tes[..k];
  }

  /** With expiries handled less than 250 ms behind, and no cleanup timer of an earlier procedure left
      that could hit a new one, no request is ever lost if and only if no transaction is closed
      whose number another waiting request holds. */
  lemma {:induction false} LostExactlyByWrongClose(v: Variant, counter: Counter, tes: seq<TimedEvent>, late: Micros)
    requires Timely(v, counter, tes, late) && NoStaleCleanupRun(v, TimedStart(counter), tes, late) && SmallLateness(late)
    ensures NeverLostInTime(v, counter, tes) <==> NoWrongCloseRun(v, TimedStart(counter), tes)
    decreases |tes|
  {
    if tes != [] {
      var before, te := tes[..|tes| - 1], tes[|tes| - 1];
      assert tes == before + [te];
      TimedRunSnoc(v, TimedStart(counter), before, te, late);
      NoWrongCloseSnoc(v, TimedStart(counter), before, te);
      NeverLostInTimeSnoc(v, counter, before, te);
      LostExactlyByWrongClose(v, counter, before, late);
      TimedReachInv(v, counter, before, late);
      TimedReachMatch(v, counter, before, late);
      if NeverLostInTime(v, counter, before) {
        assert before[..|before|] == before && FateInv(TimedReach(v, counter, before).c);
        if te.Do? {
          OnlyClosesLose(v, TimedReach(v, counter, before), te.e, late);
          FateStep(v, TimedReach(v, counter, before).c, te.e);
        }
      }
    }
  }

  /** Then every request ever sent is answered, reported, closed by its own user, or still pending and
      at most PROC_TIME_OUT and the lateness old. */
  lemma EveryRequestIsSettled(v: Variant, counter: Counter, tes: seq<TimedEvent>, late: Micros, x: Entry)
    requires Timely(v, counter, tes, late) && NoStaleCleanupRun(v, TimedStart(counter), tes, late) && SmallLateness(late)
    requires NoWrongCloseRun(v, TimedStart(counter), tes)
    requires x in TimedReach(v, counter, tes).c.log && x.RequestSent?
    ensures
      var tc := TimedReach(v, counter, tes);
      Settled(tc.c.log, x.tx)
      || (StillPending(tc.c.s, x) && x.tx in tc.openedAt && tc.now <= tc.openedAt[x.tx] + PROC_TIME_OUT + late)
  {
    LostExactlyByWrongClose(v, counter, tes, late);
    TimedReachInv(v, counter, tes, late);
    var tc := TimedReach(v, counter, tes);
    assert tes[..|tes|] == tes;
    if !Settled(tc.c.log, x.tx) {
      assert ScheduleOk(tc, tc.c.s.pending[x.msg.seqNum], late);
    }
  }

  // ----- a run with such a close -----

  /** A peer opened transaction 1, and its cleanup timer is due. */
  lemma PeerTransactionIsDue(v: Variant, late: Micros) returns (tes: seq<TimedEvent>)
    ensures Timely(v, 0, tes, late) && NoStaleCleanupRun(v, TimedStart(0), tes, late)
    ensures
      var tc := TimedReach(v, 0, tes);
      && tc.now == PROC_TIME_OUT && tc.due == map[1 := PROC_TIME_OUT]
      && tc.c.s == Stack(0, map[1 := 1], map[1 := 1], map[], map[1 := NewResponder(Receive(1, 1, 1, 1))])
      && tc.c.retryIds == {} && tc.c.cleanupIds == {1} && tc.c.removed == {} && tc.c.kinds == map[1 := 1]
  {
    var tc0 := TimedStart(0);
    var opening, wait := Do(Receive(1, 1, 1, 1)), Tick(PROC_TIME_OUT);
    TimedRunSnoc(v, tc0, [], opening, late);
    TimedRunSnoc(v, tc0, [] + [opening], wait, late);
    tes := [] + [opening] + [wait];
    var tc1 := TimedNext(v, tc0, opening);
    assert tc1.due == map[1 := PROC_TIME_OUT];
    assert tc1.c.s.cleanup == map[1 := 1];
  }

  /** Its expiry leaves the index entry. */
  lemma PeerTransactionTimesOut(v: Variant, tc: Timed, late: Micros)
    requires tc.now == PROC_TIME_OUT && tc.due == map[1 := PROC_TIME_OUT]
    requires tc.c.s == Stack(0, map[1 := 1], map[1 := 1], map[], map[1 := NewResponder(Receive(1, 1, 1, 1))])
    requires tc.c.retryIds == {} && tc.c.cleanupIds == {1} && tc.c.removed == {} && tc.c.kinds == map[1 := 1]
    ensures
      var te := Do(TimeOut(1, 4));
      var tc' := TimedNext(v, tc, te);
      && TimedAllowed(v, tc, te, late) && NoStaleCleanup(v, tc, te, late)
      && tc'.due == map[] && tc'.c.s == Stack(0, map[1 := 1], map[], map[], map[])
      && tc'.c.retryIds == {4} && tc'.c.cleanupIds == {1} && tc'.c.kinds == map[1 := 1]
  {
    var tc' := TimedNext(v, tc, Do(TimeOut(1, 4)));
    assert tc'.due == map[] && tc'.c.s.cleanup == map[] && tc'.c.s.pending == map[];
  }

  /** A request takes number 1; the user then answers transaction 1, and closes it. */
  lemma ClosingAfterTimeOut(v: Variant, tc: Timed, late: Micros)
    requires tc.due == map[] && tc.c.s == Stack(0, map[1 := 1], map[], map[], map[])
    requires tc.c.retryIds == {4} && tc.c.cleanupIds == {1} && tc.c.kinds == map[1 := 1]
    ensures
      var request := Do(SendInitial(1, 9, 0, [], 2, 2, 3));
      && TimedAllowed(v, tc, request, late) && NoStaleCleanup(v, tc, request, late)
      && ClosesAnother(TimedNext(v, tc, request).c.s, SendTriggered(1, 2, 9, true))
  {
    var request := Do(SendInitial(1, 9, 0, [], 2, 2, 3));
    var s' := TimedNext(v, tc, request).c.s;
    assert s'.retry == map[2 := 1] && s'.pending == map[1 := NewRequest(request.e, 1)];
  }

  /** The condition is needed even when every expiry is handled at once: this run loses its request. */
  lemma WrongCloseLosesRequest(v: Variant, late: Micros) returns (tes: seq<TimedEvent>, x: Entry)
    ensures Timely(v, 0, tes, late) && NoStaleCleanupRun(v, TimedStart(0), tes, late)
    ensures !NoWrongCloseRun(v, TimedStart(0), tes)
    ensures x in TimedReach(v, 0, tes).c.log && x.RequestSent?
    ensures !Settled(TimedReach(v, 0, tes).c.log, x.tx) && !StillPending(TimedReach(v, 0, tes).c.s, x)
  {
    var before := PeerTransactionIsDue(v, late);
    var expiry, request, closing := Do(TimeOut(1, 4)), Do(SendInitial(1, 9, 0, [], 2, 2, 3)), SendTriggered(1, 2, 9, true);
    PeerTransactionTimesOut(v, TimedReach(v, 0, before), late);
    TimedRunSnoc(v, TimedStart(0), before, expiry, late);
    ClosingAfterTimeOut(v, TimedReach(v, 0, before + [expiry]), late);
    TimedRunSnoc(v, TimedStart(0), before + [expiry], request, late);
    x := ClosedAtTheEnd(v, before + [expiry] + [request], closing, late);
    tes := before + [expiry] + [request] + [Do(closing)];
  }

  lemma ClosedAtTheEnd(v: Variant, tes: seq<TimedEvent>, e: Event, late: Micros) returns (x: Entry)
    requires Timely(v, 0, tes, late) && NoStaleCleanupRun(v, TimedStart(0), tes, late)
    requires ClosesAnother(TimedReach(v, 0, tes).c.s, e)
    ensures Timely(v, 0, tes + [Do(e)], late) && NoStaleCleanupRun(v, TimedStart(0), tes + [Do(e)], late)
    ensures !NoWrongCloseRun(v, TimedStart(0), tes + [Do(e)])
    ensures x in TimedReach(v, 0, tes + [Do(e)]).c.log && x.RequestSent?
    ensures !Settled(TimedReach(v, 0, tes + [Do(e)]).c.log, x.tx)
    ensures !StillPending(TimedReach(v, 0, tes + [Do(e)]).c.s, x)
  {
    TimedReachInv(v, 0, tes, late);
    TimedRunSnoc(v, TimedStart(0), tes, Do(e), late);
    NoWrongCloseSnoc(v, TimedStart(0), tes, Do(e));
    x := LostRequest(v, TimedReach(v, 0, tes).c, e);
  }
}
