/** What timely handling of expiries buys: no procedure's own cleanup timer comes before its retry
    timer. The bound on the lateness is exact. */
module TimedTheorems {
  import opened MessageTypes
  import opened Transactions
  import opened TransactionInvariants
  import opened TransactionOrder
  import opened TransactionOutcomes
  import opened TimedTransactions

  function TimedRun(v: Variant, tc: Timed, tes: seq<TimedEvent>): Timed
    decreases |tes|
  {
    if tes == [] then tc else TimedRun(v, TimedNext(v, tc, tes[0]), tes[1..])
  }

  predicate TimedAllowedRun(v: Variant, tc: Timed, tes: seq<TimedEvent>, late: Micros)
    decreases |tes|
  {
    tes == [] || (TimedAllowed(v, tc, tes[0], late) && TimedAllowedRun(v, TimedNext(v, tc, tes[0]), tes[1..], late))
  }

  predicate NoStaleCleanupRun(v: Variant, tc: Timed, tes: seq<TimedEvent>, late: Micros)
    decreases |tes|
  {
    tes == [] || (NoStaleCleanup(v, tc, tes[0], late) && NoStaleCleanupRun(v, TimedNext(v, tc, tes[0]), tes[1..], late))
  }

  /** A run the environment allows, with expiries handled at most `late` behind. */
  predicate Timely(v: Variant, counter: Counter, tes: seq<TimedEvent>, late: Micros) {
    TimedAllowedRun(v, TimedStart(counter), tes, late)
  }

  function TimedReach(v: Variant, counter: Counter, tes: seq<TimedEvent>): Timed {
    TimedRun(v, TimedStart(counter), tes)
  }

  predicate SmallLateness(late: Micros) {
    (MAX_RETRIES + 1) * late < PROC_TIME_OUT - (MAX_RETRIES + 1) * RESPONSE_TIME
  }

  ghost predicate StateInv(v: Variant, tc: Timed, late: Micros) {
    Inv(v, tc.c) && OutcomeInv(v, tc.c) && TimedInv(tc, late)
  }

  lemma {:induction false} TimedRunSnoc(v: Variant, tc: Timed, tes: seq<TimedEvent>, te: TimedEvent, late: Micros)
    ensures TimedRun(v, tc, tes + [te]) == TimedNext(v, TimedRun(v, tc, tes), te)
    ensures TimedAllowedRun(v, tc, tes + [te], late) <==>
              TimedAllowedRun(v, tc, tes, late) && TimedAllowed(v, TimedRun(v, tc, tes), te, late)
    ensures NoStaleCleanupRun(v, tc, tes + [te], late) <==>
              NoStaleCleanupRun(v, tc, tes, late) && NoStaleCleanup(v, TimedRun(v, tc, tes), te, late)
    decreases |tes|
  {
    if tes == [] {
      assert [te][1..] == [];
      var tc1 := TimedNext(v, tc, te);
      assert TimedRun(v, tc1, []) == tc1 && TimedAllowedRun(v, tc1, [], late) && NoStaleCleanupRun(v, tc1, [], late);
    } else {
      assert (tes + [te])[1..] == tes[1..] + [te];
      TimedRunSnoc(v, TimedNext(v, tc, tes[0]), tes[1..], te, late);
    }
  }

  lemma StateInvKept(v: Variant, tc: Timed, te: TimedEvent, late: Micros)
    requires StateInv(v, tc, late) && TimedAllowed(v, tc, te, late)
    ensures StateInv(v, TimedNext(v, tc, te), late)
  {
    TimedInvKept(v, tc, te, late);
    if te.Do? {
      InvKept(v, tc.c, te.e);
      OutcomeInvKept(v, tc.c, te.e);
    }
  }

  lemma {:induction false} TimedReachInv(v: Variant, counter: Counter, tes: seq<TimedEvent>, late: Micros)
    requires Timely(v, counter, tes, late)
    ensures StateInv(v, TimedReach(v, counter, tes), late)
    decreases |tes|
  {
    if tes == [] {
      InitialInv(v, counter);
      InitialOutcomeInv(v, counter);
    } else {
      var k := |tes| - 1;
      assert tes == tes[..k] + [tes[k]];
      TimedRunSnoc(v, TimedStart(counter), tes[..k], tes[k], late);
      TimedReachInv(v, counter, tes[..k], late);
      StateInvKept(v, TimedReach(v, counter, tes[..k]), tes[k], late);
    }
  }

  lemma {:induction false} TimedReachMatch(v: Variant, counter: Counter, tes: seq<TimedEvent>, late: Micros)
    requires Timely(v, counter, tes, late) && NoStaleCleanupRun(v, TimedStart(counter), tes, late)
    ensures CleanupMatch(TimedReach(v, counter, tes), late)
    decreases |tes|
  {
    if tes != [] {
      var k := |tes| - 1;
      assert tes == tes[..k] + [tes[k]];
      TimedRunSnoc(v, TimedStart(counter), tes[..k], tes[k], late);
      TimedReachMatch(v, counter, tes[..k], late);
      TimedReachInv(v, counter, tes[..k], late);
      CleanupMatchInvKept(v, TimedReach(v, counter, tes[..k]), tes[k], late);
    }
  }

  // ----- a procedure's own cleanup timer -----

  /** True when handling `e` is the expiry of a procedure's own cleanup timer while its retry
      timer is still running: the request disappears without an answer and without a report. */
  predicate OwnCleanupTooEarly(s: Stack, e: Event) {
    && e.TimeOut? && e.timer !in s.retry && e.timer in s.cleanup && s.cleanup[e.timer] in s.pending
    && s.pending[s.cleanup[e.timer]].cleanupTimer == e.timer
    && s.pending[s.cleanup[e.timer]].retryTimer in s.retry
  }

  /** With little lateness a running retry timer is handled before the cleanup timer is due. */
  lemma RunningIsDueEarlier(v: Variant, tc: Timed, n: SequenceNumber, late: Micros)
    requires ProcedureInv(v, tc.c) && TimedInv(tc, late) && SmallLateness(late)
    requires n in tc.c.s.pending && tc.c.s.pending[n].retryTimer in tc.c.s.retry
    ensures tc.due[tc.c.s.pending[n].retryTimer] + late < tc.due[tc.c.s.pending[n].cleanupTimer]
  {
    var p := tc.c.s.pending[n];
    assert ScheduleOk(tc, p, late);
    assert p.retryCount <= MAX_RETRIES;
    assert (p.retryCount + 1) * late <= (MAX_RETRIES + 1) * late;
    assert p.retryCount * late + late == (p.retryCount + 1) * late;
  }

  lemma SmallLatenessSuffices(v: Variant, tc: Timed, e: Event, late: Micros)
    requires TimersInv(tc.c) && ProcedureInv(v, tc.c) && TimedInv(tc, late) && SmallLateness(late)
    requires TimedAllowed(v, tc, Do(e), late)
    ensures !OwnCleanupTooEarly(tc.c.s, e)
  {
    if OwnCleanupTooEarly(tc.c.s, e) {
      RunningIsDueEarlier(v, tc, tc.c.s.cleanup[e.timer], late);
    }
  }

  /** The run of a request whose every retry is handled `lag` behind, after `k` retries. The
      timers are 1 for cleanup and k + 2 for the retry that runs now. */
  ghost predicate Lagging(tc: Timed, k: nat, lag: Micros) {
    && k <= MAX_RETRIES
    && tc.c.s.cleanup == map[1 := 1] && tc.c.s.retry == map[k + 2 := 1] && tc.c.s.pending.Keys == {1}
    && tc.c.s.pending[1].retryCount == k && tc.c.s.pending[1].retryMsg.Some? && tc.c.s.pending[1].retryMsg.value.seqNum == 1
    && tc.c.s.pending[1].retryTimer == k + 2 && tc.c.s.pending[1].cleanupTimer == 1
    && tc.c.cleanupIds == {1} && (forall t :: t in tc.c.retryIds ==> 2 <= t <= k + 2) && tc.c.removed == {}
    && tc.now == k * (RESPONSE_TIME + lag)
    && tc.due == map[1 := PROC_TIME_OUT, k + 2 := tc.now + RESPONSE_TIME]
  }

  lemma LaggingStarts(v: Variant, lag: Micros, late: Micros) returns (te: TimedEvent)
    ensures TimedAllowed(v, TimedStart(0), te, late) && NoStaleCleanup(v, TimedStart(0), te, late)
    ensures Lagging(TimedNext(v, TimedStart(0), te), 0, lag)
  {
    te := Do(SendInitial(1, 9, 0, [], 1, 2, 1));
    var tc := TimedNext(v, TimedStart(0), te);
    assert tc.c.s.retry == map[2 := 1] && tc.c.s.cleanup == map[1 := 1];
    assert tc.due == map[1 := PROC_TIME_OUT, 2 := RESPONSE_TIME];
  }

  lemma LaggingWaits(v: Variant, tc: Timed, k: nat, lag: Micros, late: Micros)
    requires Lagging(tc, k, lag) && lag <= late && k * (RESPONSE_TIME + lag) + RESPONSE_TIME + lag <= PROC_TIME_OUT
    ensures TimedAllowed(v, tc, Tick(RESPONSE_TIME + lag), late)
  {}

  lemma LaggingDue(v: Variant, tc: Timed, k: nat, lag: Micros)
    requires Lagging(tc, k, lag) && k < MAX_RETRIES
    ensures
      var tc1 := TimedNext(v, tc, Tick(RESPONSE_TIME + lag));
      TimedNext(v, tc1, Do(TimeOut(k + 2, k + 3))).due == map[1 := PROC_TIME_OUT, k + 3 := tc1.now + RESPONSE_TIME]
  {
    var tc1 := TimedNext(v, tc, Tick(RESPONSE_TIME + lag));
    NewTimerDue(v, tc1, TimeOut(k + 2, k + 3));
    ReplaceEntry(k, PROC_TIME_OUT, tc.now + RESPONSE_TIME, tc1.now + RESPONSE_TIME);
  }

  lemma ReplaceEntry(k: nat, a: Micros, b: Micros, c: Micros)
    ensures (map[1 := a, k + 2 := b] - {k + 2})[k + 3 := c] == map[1 := a, k + 3 := c]
  {}

  lemma LaggingRetries(v: Variant, tc: Timed, k: nat, lag: Micros, late: Micros)
    requires Lagging(tc, k, lag) && lag <= late && k < MAX_RETRIES
    ensures
      var tc1 := TimedNext(v, tc, Tick(RESPONSE_TIME + lag));
      var te := Do(TimeOut(k + 2, k + 3));
      && TimedAllowed(v, tc1, te, late)
      && Lagging(TimedNext(v, tc1, te), k + 1, lag)
  {
    var tc1 := TimedNext(v, tc, Tick(RESPONSE_TIME + lag));
    LaggingDue(v, tc, k, lag);
    assert TimedNext(v, tc1, Do(TimeOut(k + 2, k + 3))).c.s.retry == map[k + 3 := 1];
    assert tc1.now == (k + 1) * (RESPONSE_TIME + lag);
  }

  /** The lagging run with `k` retries. */
  lemma {:induction false} LaggingRun(v: Variant, k: nat, lag: Micros, late: Micros) returns (tes: seq<TimedEvent>)
    requires lag <= late && k <= MAX_RETRIES && k * (RESPONSE_TIME + lag) <= PROC_TIME_OUT
    ensures Timely(v, 0, tes, late) && NoStaleCleanupRun(v, TimedStart(0), tes, late)
    ensures Lagging(TimedReach(v, 0, tes), k, lag)
    decreases k
  {
    var tc0 := TimedStart(0);
    if k == 0 {
      var te := LaggingStarts(v, lag, late);
      TimedRunSnoc(v, tc0, [], te, late);
      tes := [] + [te];
    } else {
      assert (k - 1) * (RESPONSE_TIME + lag) + (RESPONSE_TIME + lag) == k * (RESPONSE_TIME + lag);
      var before := LaggingRun(v, k - 1, lag, late);
      var tc := TimedReach(v, 0, before);
      var wait, expiry := Tick(RESPONSE_TIME + lag), Do(TimeOut(k + 1, k + 2));
      LaggingWaits(v, tc, k - 1, lag, late);
      LaggingRetries(v, tc, k - 1, lag, late);
      TimedRunSnoc(v, tc0, before, wait, late);
      TimedRunSnoc(v, tc0, before + [wait], expiry, late);
      tes := before + [wait] + [expiry];
    }
  }

  /** At a lateness of a quarter of the slack or more, the cleanup timer can come first. */
  lemma LargeLatenessFails(v: Variant, late: Micros) returns (tes: seq<TimedEvent>, e: Event)
    requires !SmallLateness(late)
    ensures Timely(v, 0, tes, late) && NoStaleCleanupRun(v, TimedStart(0), tes, late)
    ensures TimedAllowed(v, TimedReach(v, 0, tes), Do(e), late)
    ensures OwnCleanupTooEarly(TimedReach(v, 0, tes).c.s, e)
  {
    var lag := (PROC_TIME_OUT - (MAX_RETRIES + 1) * RESPONSE_TIME) / (MAX_RETRIES + 1);
    var before := LaggingRun(v, MAX_RETRIES, lag, late);
    var tc := TimedReach(v, 0, before);
    var wait := Tick(RESPONSE_TIME + lag);
    LaggingWaits(v, tc, MAX_RETRIES, lag, late);
    TimedRunSnoc(v, TimedStart(0), before, wait, late);
    tes, e := before + [wait], TimeOut(1, MAX_RETRIES + 3);
    LaggingIsCleanedUp(v, TimedNext(v, tc, wait), tc, lag, late);
  }

  lemma LaggingIsCleanedUp(v: Variant, tc': Timed, tc: Timed, lag: Micros, late: Micros)
    requires Lagging(tc, MAX_RETRIES, lag) && tc' == tc.(now := PROC_TIME_OUT)
    ensures TimedAllowed(v, tc', Do(TimeOut(1, MAX_RETRIES + 3)), late)
    ensures OwnCleanupTooEarly(tc'.c.s, TimeOut(1, MAX_RETRIES + 3))
  {}

  /** No allowed run lets a procedure's own cleanup timer come before its running retry timer. */
  ghost predicate CleanupNeverTooEarly(v: Variant, late: Micros) {
    forall counter, tes, e ::
      Timely(v, counter, tes, late) && TimedAllowed(v, TimedReach(v, counter, tes), Do(e), late) ==>
        !OwnCleanupTooEarly(TimedReach(v, counter, tes).c.s, e)
  }

  /** A procedure's cleanup timer never fires while its retry timer runs if and only if the
      expiries are handled less than 250 ms behind, a quarter of the slack. */
  lemma LatenessBound(v: Variant, late: Micros)
    ensures CleanupNeverTooEarly(v, late) <==> late < 250_000
    ensures SmallLateness(late) <==> late < 250_000
  {
    if SmallLateness(late) {
      forall counter, tes, e | Timely(v, counter, tes, late) && TimedAllowed(v, TimedReach(v, counter, tes), Do(e), late)
        ensures !OwnCleanupTooEarly(TimedReach(v, counter, tes).c.s, e)
      {
        TimedReachInv(v, counter, tes, late);
        SmallLatenessSuffices(v, TimedReach(v, counter, tes), e, late);
      }
    } else {
      var tes, e := LargeLatenessFails(v, late);
    }
  }
}
