/** Cleanup timers that outlive their procedure. When the next request can fall victim to one is
    stated exactly. */
module StaleTimers {
  import opened MessageTypes
  import opened Transactions
  import opened TransactionInvariants
  import opened TransactionOrder
  import opened TransactionOutcomes
  import opened TransactionTermination
  import opened TransactionLimits
  import opened RequestFates
  import opened TimedTransactions
  import opened TimedTheorems
  import opened TimedFates

  // ----- how long a stale timer stays -----

  /** A cleanup timer whose procedure is gone. */
  predicate IsStale(s: Stack, t: TimerId) {
    t in s.cleanup && !(s.cleanup[t] in s.pending && s.pending[s.cleanup[t]].cleanupTimer == t)
  }

  /** A stale timer is due, or will be no later than a retry timer that starts now: it was left by a
      report, which comes after all retries, or by a close that found it due. */
  ghost predicate StaleSoon(tc: Timed) {
    forall t :: IsStale(tc.c.s, t) && t in tc.due ==> tc.due[t] <= tc.now + RESPONSE_TIME
  }

  /** A procedure that an expiry of its retry timer erases is reported, after the last retry. */
  lemma ErasedByReport(v: Variant, c: Config, e: Event, n: SequenceNumber)
    requires ProcedureInv(v, c) && RetryInv(c) && n in c.s.pending && n !in Next(v, c, e).s.pending
    requires e.TimeOut? && e.timer in c.s.retry
    ensures c.s.pending[n].retryTimer == e.timer && c.s.pending[n].retryCount == MAX_RETRIES
  {}

  /** A cleanup timer that a step leaves without its procedure. */
  lemma BecomesStale(v: Variant, tc: Timed, e: Event, t: TimerId, late: Micros)
    requires StateInv(v, tc, late) && CleanupMatch(tc, late) && TimedAllowed(v, tc, Do(e), late)
    requires t in tc.c.s.cleanup && !IsStale(tc.c.s, t) && tc.c.s.cleanup[t] !in Next(v, tc.c, e).s.pending
    requires t in tc.due && t in TimedNext(v, tc, Do(e)).due
    ensures tc.due[t] <= tc.now + RESPONSE_TIME
  {
    var n := tc.c.s.cleanup[t];
    ProcedureEnds(v, tc.c, e, n);
    if e.SendTriggered? {
      assert t in RemovedBy(v, tc.c.s, e);
    } else if e.timer in tc.c.s.retry {
      ErasedByReport(v, tc.c, e, n);
      assert ScheduleOk(tc, tc.c.s.pending[n], late);
    } else {
      assert e.timer == t;
    }
  }

  lemma StaleSoonKept(v: Variant, tc: Timed, te: TimedEvent, late: Micros)
    requires StateInv(v, tc, late) && CleanupMatch(tc, late) && StaleSoon(tc)
    requires TimedAllowed(v, tc, te, late)
    ensures StaleSoon(TimedNext(v, tc, te))
  {
    if te.Do? {
      var tc' := TimedNext(v, tc, te);
      forall t | IsStale(tc'.c.s, t) && t in tc'.due
        ensures tc'.due[t] <= tc'.now + RESPONSE_TIME
      {
        if t !in tc.c.s.cleanup {
          NewCleanup(v, tc.c, te.e, t);
        } else {
          OldCleanupDue(v, tc, te.e, t);
          if !IsStale(tc.c.s, t) {
            CleanupOrphaned(v, tc.c, te.e, t);
            BecomesStale(v, tc, te.e, t, late);
          }
        }
      }
    }
  }

  /** A cleanup timer that is filed keeps its due time. */
  lemma OldCleanupDue(v: Variant, tc: Timed, e: Event, t: TimerId)
    requires TimersInv(tc.c) && Allowed(v, tc.c, e)
    requires t in tc.c.s.cleanup && t in TimedNext(v, tc, Do(e)).due
    ensures t in tc.due && TimedNext(v, tc, Do(e)).due[t] == tc.due[t]
  {
    StartedAreFresh(v, tc, e);
  }

  lemma CleanupOrphaned(v: Variant, c: Config, e: Event, t: TimerId)
    requires Allowed(v, c, e) && t in c.s.cleanup && !IsStale(c.s, t) && IsStale(Next(v, c, e).s, t)
    ensures c.s.cleanup[t] !in Next(v, c, e).s.pending
  {
    CleanupEntriesStay(v, c, e, t);
    if c.s.cleanup[t] in Next(v, c, e).s.pending {
      ProcedureEvolves(v, c, e, c.s.cleanup[t]);
    }
  }

  lemma {:induction false} TimedReachStaleSoon(v: Variant, counter: Counter, tes: seq<TimedEvent>, late: Micros)
    requires Timely(v, counter, tes, late) && NoStaleCleanupRun(v, TimedStart(counter), tes, late)
    ensures StaleSoon(TimedReach(v, counter, tes))
    decreases |tes|
  {
    if tes != [] {
      var before, te := tes[..|tes| - 1], tes[|tes| - 1];
      assert tes == before + [te];
      TimedRunSnoc(v, TimedStart(counter), before, te, late);
      TimedReachStaleSoon(v, counter, before, late);
      TimedReachInv(v, counter, before, late);
      TimedReachMatch(v, counter, before, late);
      StaleSoonKept(v, TimedReach(v, counter, before), te, late);
    }
  }

  // ----- the request is hit -----

  /** The cleanup timer of another procedure expires and erases the request `tx` under `n`, which still
      waits for its answer. */
  predicate Hits(s: Stack, n: SequenceNumber, tx: TxId, e: Event) {
    && e.TimeOut? && e.timer !in s.retry && e.timer in s.cleanup && s.cleanup[e.timer] == n
    && Waits(s, n) && s.pending[n].tx == tx && s.pending[n].cleanupTimer != e.timer
  }

  /** The run goes on with `more`, and then `x` is such an expiry. */
  ghost predicate IsHit(v: Variant, tc: Timed, n: SequenceNumber, tx: TxId, more: seq<TimedEvent>, x: Event, late: Micros) {
    && TimedAllowedRun(v, tc, more, late) && TimedAllowed(v, TimedRun(v, tc, more), Do(x), late)
    && Hits(TimedRun(v, tc, more).c.s, n, tx, x)
  }

  ghost predicate CanBeHit(v: Variant, tc: Timed, n: SequenceNumber, tx: TxId, late: Micros) {
    exists more, x :: IsHit(v, tc, n, tx, more, x, late)
  }

  /** The request waits, and a stale timer for its number is due before its own timers are. */
  ghost predicate Doomed(tc: Timed, n: SequenceNumber, tx: TxId, t: TimerId, late: Micros) {
    && Waits(tc.c.s, n) && tc.c.s.pending[n].tx == tx
    && t in tc.c.s.cleanup && tc.c.s.cleanup[t] == n && tc.c.s.pending[n].cleanupTimer != t
    && t in tc.due && tc.now <= tc.due[t] + late
    && tc.c.s.pending[n].retryTimer in tc.due && tc.due[t] <= tc.due[tc.c.s.pending[n].retryTimer]
    && tc.c.s.pending[n].cleanupTimer in tc.due && tc.due[t] < tc.due[tc.c.s.pending[n].cleanupTimer]
  }

  /** The timers that have to be handled before `t` is due. */
  ghost function DueBefore(tc: Timed, t: TimerId): set<TimerId>
    requires t in tc.due
  {
    set u | u in tc.due && u !in tc.c.removed && tc.due[u] < tc.due[t]
  }

  lemma {:induction false} EarliestDue(due: map<TimerId, Micros>, ids: set<TimerId>) returns (u: TimerId)
    requires ids != {} && ids <= due.Keys
    ensures u in ids && forall w :: w in ids ==> due[u] <= due[w]
    decreases ids
  {
    u :| u in ids;
    var others := ids - {u};
    if others != {} {
      var w := EarliestDue(due, others);
      assert forall z :: z in ids ==> z == u || z in others;
      if due[w] < due[u] { u := w; }
    } else {
      assert forall z :: z in ids ==> z == u || z in others;
    }
  }

  lemma NextToHandle(tc: Timed, t: TimerId) returns (u: TimerId)
    requires t in tc.due
    ensures u == t || u in DueBefore(tc, t)
    ensures forall w :: w in tc.due && w !in tc.c.removed ==> tc.due[u] <= tc.due[w]
    ensures tc.due[u] <= tc.due[t]
  {
    var earlier := DueBefore(tc, t);
    u := t;
    if earlier != {} {
      u := EarliestDue(tc.due, earlier);
    }
    assert forall w :: w in tc.due && w !in tc.c.removed ==> w in earlier || tc.due[t] <= tc.due[w];
  }

  /** Passing time until something is due. */
  lemma DoomedWaits(v: Variant, tc: Timed, n: SequenceNumber, tx: TxId, t: TimerId, until: Micros, late: Micros)
    requires Doomed(tc, n, tx, t, late) && tc.now <= until <= tc.due[t] + late
    requires forall u :: u in tc.due && u !in tc.c.removed ==> until <= tc.due[u] + late
    ensures TimedAllowed(v, tc, Tick(until - tc.now), late)
    ensures Doomed(tc.(now := until), n, tx, t, late) && TimedNext(v, tc, Tick(until - tc.now)) == tc.(now := until)
  {}

  lemma WaitForNext(v: Variant, tc: Timed, n: SequenceNumber, tx: TxId, t: TimerId, late: Micros)
      returns (u: TimerId, wait: TimedEvent)
    requires StateInv(v, tc, late) && Doomed(tc, n, tx, t, late)
    ensures wait.Tick? && TimedAllowed(v, tc, wait, late)
    ensures
      var tc1 := TimedNext(v, tc, wait);
      && StateInv(v, tc1, late) && Doomed(tc1, n, tx, t, late)
      && tc1.c == tc.c && tc1.due == tc.due
      && (u == t || u in DueBefore(tc1, t)) && tc1.due[u] <= tc1.now
  {
    u := NextToHandle(tc, t);
    var until := if tc.due[u] <= tc.now then tc.now else tc.due[u];
    wait := Tick(until - tc.now);
    DoomedWaits(v, tc, n, tx, t, until, late);
    StateInvKept(v, tc, wait, late);
  }

  lemma NotErased(v: Variant, c: Config, e: Event, n: SequenceNumber)
    requires TimersOwned(c.s) && n in c.s.pending && e.TimeOut? && e.timer != c.s.pending[n].retryTimer
    requires e.timer !in c.s.retry && e.timer in c.s.cleanup ==> c.s.cleanup[e.timer] != n
    ensures n in Next(v, c, e).s.pending
  {
    if n !in Next(v, c, e).s.pending {
      ProcedureEnds(v, c, e, n);
    }
  }

  /** An earlier expiry does not help the request, unless it hits it. */
  lemma DoomedStays(v: Variant, tc: Timed, n: SequenceNumber, tx: TxId, t: TimerId, e: Event, late: Micros)
    requires TimersInv(tc.c) && CleanupInv(tc.c) && ProcedureInv(v, tc.c) && RetryInv(tc.c)
    requires Doomed(tc, n, tx, t, late) && e.TimeOut? && TimedAllowed(v, tc, Do(e), late)
    requires tc.due[e.timer] < tc.due[t] && !Hits(tc.c.s, n, tx, e)
    ensures Doomed(TimedNext(v, tc, Do(e)), n, tx, t, late)
  {
    var p := tc.c.s.pending[n];
    NotErased(v, tc.c, e, n);
    RetryTimerInTimeOut(v, tc.c, e, n);
    ProcedureEvolves(v, tc.c, e, n);
    OldDue(v, tc, e, t);
    OldDue(v, tc, e, p.retryTimer);
    OldDue(v, tc, e, p.cleanupTimer);
    assert t in Next(v, tc.c, e).s.cleanup;
  }

  lemma UnhandledIsForgotten(v: Variant, tc: Timed, e: Event)
    requires e.TimeOut? && e.timer in tc.due && !Handled(tc.c.s, e.timer)
    ensures TimedNext(v, tc, Do(e)).c.s == tc.c.s && TimedNext(v, tc, Do(e)).due.Keys < tc.due.Keys
  {
    assert e.timer !in TimedNext(v, tc, Do(e)).due;
  }

  lemma HitNow(v: Variant, tc: Timed, n: SequenceNumber, tx: TxId, e: Event, late: Micros)
    requires TimedAllowed(v, tc, Do(e), late) && Hits(tc.c.s, n, tx, e)
    ensures CanBeHit(v, tc, n, tx, late)
  {
    assert IsHit(v, tc, n, tx, [], e, late);
  }

  lemma HitLater(v: Variant, tc: Timed, n: SequenceNumber, tx: TxId, te: TimedEvent, late: Micros)
    requires TimedAllowed(v, tc, te, late) && CanBeHit(v, TimedNext(v, tc, te), n, tx, late)
    ensures CanBeHit(v, tc, n, tx, late)
  {
    var more, x :| IsHit(v, TimedNext(v, tc, te), n, tx, more, x, late);
    assert ([te] + more)[1..] == more;
    assert IsHit(v, tc, n, tx, [te] + more, x, late);
  }

  /** The doomed request is hit: what is due before `t` is handled, the earliest first, and each
      expiry uses up budget or is forgotten. */
  lemma {:induction false} DoomedIsHit(v: Variant, tc: Timed, n: SequenceNumber, tx: TxId, t: TimerId, late: Micros)
    requires StateInv(v, tc, late) && Doomed(tc, n, tx, t, late)
    ensures CanBeHit(v, tc, n, tx, late)
    decreases Budget(tc.c.s), tc.due.Keys, 1
  {
    var u, wait := WaitForNext(v, tc, n, tx, t, late);
    DoomedAtExpiry(v, TimedNext(v, tc, wait), n, tx, t, u, late);
    HitLater(v, tc, n, tx, wait, late);
  }

  /** The earliest timer is due. */
  lemma {:induction false} DoomedAtExpiry(v: Variant, tc: Timed, n: SequenceNumber, tx: TxId, t: TimerId, u: TimerId, late: Micros)
    requires StateInv(v, tc, late) && Doomed(tc, n, tx, t, late)
    requires u == t || u in DueBefore(tc, t)
    requires tc.due[u] <= tc.now
    ensures CanBeHit(v, tc, n, tx, late)
    decreases Budget(tc.c.s), tc.due.Keys, 0
  {
    var newTimer := UnusedTimer(tc.c);
    var e := TimeOut(u, newTimer);
    assert TimedAllowed(v, tc, Do(e), late);
    if Hits(tc.c.s, n, tx, e) {
      HitNow(v, tc, n, tx, e, late);
    } else {
      DoomedStays(v, tc, n, tx, t, e, late);
      StateInvKept(v, tc, Do(e), late);
      if Handled(tc.c.s, u) {
        ExpiryUsesBudget(v, tc.c, e);
      } else {
        UnhandledIsForgotten(v, tc, e);
      }
      DoomedIsHit(v, TimedNext(v, tc, Do(e)), n, tx, t, late);
      HitLater(v, tc, n, tx, Do(e), late);
    }
  }

  /** A request that is sent while a cleanup timer for its number is outstanding is doomed. */
  lemma SentIsDoomed(v: Variant, tc: Timed, e: Event, t: TimerId, late: Micros)
    requires StateInv(v, tc, late) && StaleSoon(tc) && e.SendInitial? && TimedAllowed(v, tc, Do(e), late)
    requires t in tc.c.s.cleanup && tc.c.s.cleanup[t] == NextSequenceNumber(tc.c.s)
    requires t in tc.due && tc.now <= tc.due[t] + late
    ensures Doomed(TimedNext(v, tc, Do(e)), NextSequenceNumber(tc.c.s), e.tx, t, late)
  {
    var n, tc' := NextSequenceNumber(tc.c.s), TimedNext(v, tc, Do(e));
    assert IsStale(tc.c.s, t);
    OldDue(v, tc, e, t);
    assert tc'.c.s.pending[n] == NewRequest(e, n);
    assert tc'.due[e.retryTimer] == tc.now + RESPONSE_TIME && tc'.due[e.cleanupTimer] == tc.now + PROC_TIME_OUT;
  }

  // ----- the request is safe -----

  /** While `tx` is pending under `n`, only its own cleanup timer can still expire for `n`. */
  ghost predicate IsSafe(tc: Timed, n: SequenceNumber, tx: TxId, late: Micros) {
    && tx in tc.c.kinds
    && (n in tc.c.s.pending && tc.c.s.pending[n].tx == tx ==>
          forall t :: t in tc.c.s.cleanup && tc.c.s.cleanup[t] == n && t in tc.due && tc.now <= tc.due[t] + late ==>
            t == tc.c.s.pending[n].cleanupTimer)
  }

  lemma SafeKept(v: Variant, tc: Timed, te: TimedEvent, n: SequenceNumber, tx: TxId, late: Micros)
    requires TimersInv(tc.c) && IsSafe(tc, n, tx, late) && TimedAllowed(v, tc, te, late)
    ensures IsSafe(TimedNext(v, tc, te), n, tx, late)
  {
    var tc' := TimedNext(v, tc, te);
    if te.Do? && n in tc'.c.s.pending && tc'.c.s.pending[n].tx == tx {
      ProcedureEvolves(v, tc.c, te.e, n);
      forall t | t in tc'.c.s.cleanup && tc'.c.s.cleanup[t] == n && t in tc'.due && tc'.now <= tc'.due[t] + late
        ensures t == tc'.c.s.pending[n].cleanupTimer
      {
        if t in tc.c.s.cleanup {
          CleanupEntriesStay(v, tc.c, te.e, t);
          OldCleanupDue(v, tc, te.e, t);
        } else {
          NewCleanup(v, tc.c, te.e, t);
        }
      }
    }
  }

  lemma {:induction false} SafeIsNotHit(v: Variant, tc: Timed, n: SequenceNumber, tx: TxId, more: seq<TimedEvent>, x: Event, late: Micros)
    requires StateInv(v, tc, late) && IsSafe(tc, n, tx, late)
    ensures !IsHit(v, tc, n, tx, more, x, late)
    decreases |more|
  {
    if more != [] && TimedAllowed(v, tc, more[0], late) {
      StateInvKept(v, tc, more[0], late);
      SafeKept(v, tc, more[0], n, tx, late);
      SafeIsNotHit(v, TimedNext(v, tc, more[0]), n, tx, more[1..], x, late);
    }
  }

  lemma SafeIsNeverHit(v: Variant, tc: Timed, n: SequenceNumber, tx: TxId, late: Micros)
    requires StateInv(v, tc, late) && IsSafe(tc, n, tx, late)
    ensures !CanBeHit(v, tc, n, tx, late)
  {
    forall more, x
      ensures !IsHit(v, tc, n, tx, more, x, late)
    {
      SafeIsNotHit(v, tc, n, tx, more, x, late);
    }
  }

  lemma SentIsSafe(v: Variant, tc: Timed, e: Event, late: Micros)
    requires StateInv(v, tc, late) && CleanupMatch(tc, late) && e.SendInitial? && TimedAllowed(v, tc, Do(e), late)
    requires !CleanupOutstanding(tc, NextSequenceNumber(tc.c.s), late)
    ensures IsSafe(TimedNext(v, tc, Do(e)), NextSequenceNumber(tc.c.s), e.tx, late)
  {
    CleanupMatchInvKept(v, tc, Do(e), late);
  }

  // ----- exactly when -----

  /** After a timely run in which nothing was started under an outstanding cleanup timer: the request
      sent next can be erased by another procedure's cleanup timer, while it waits for its answer,
      if and only if such a timer is outstanding for its number. */
  lemma StaleCleanupExactly(v: Variant, counter: Counter, tes: seq<TimedEvent>, e: Event, late: Micros)
    requires Timely(v, counter, tes, late) && NoStaleCleanupRun(v, TimedStart(counter), tes, late)
    requires e.SendInitial? && TimedAllowed(v, TimedReach(v, counter, tes), Do(e), late)
    ensures
      var tc := TimedReach(v, counter, tes);
      var n := NextSequenceNumber(tc.c.s);
      CanBeHit(v, TimedNext(v, tc, Do(e)), n, e.tx, late) <==> CleanupOutstanding(tc, n, late)
  {
    TimedReachInv(v, counter, tes, late);
    TimedReachMatch(v, counter, tes, late);
    TimedReachStaleSoon(v, counter, tes, late);
    var tc := TimedReach(v, counter, tes);
    var n := NextSequenceNumber(tc.c.s);
    var tc' := TimedNext(v, tc, Do(e));
    StateInvKept(v, tc, Do(e), late);
    if CleanupOutstanding(tc, n, late) {
      var t :| t in tc.c.s.cleanup && tc.c.s.cleanup[t] == n && t in tc.due && tc.now <= tc.due[t] + late;
      SentIsDoomed(v, tc, e, t, late);
      DoomedIsHit(v, tc', n, e.tx, t, late);
    } else {
      SentIsSafe(v, tc, e, late);
      SafeIsNeverHit(v, tc', n, e.tx, late);
    }
  }

  // ----- an example in which every expiry is handled at once -----

  lemma ClosingLeavesCleanup(v: Variant, tc: Timed, late: Micros)
    requires tc.now == PROC_TIME_OUT && tc.due == map[1 := PROC_TIME_OUT]
    requires tc.c.s == Stack(0, map[1 := 1], map[1 := 1], map[], map[1 := NewResponder(Receive(1, 1, 1, 1))])
    requires tc.c.retryIds == {} && tc.c.cleanupIds == {1} && tc.c.removed == {} && tc.c.kinds == map[1 := 1]
    ensures
      var te := Do(SendTriggered(1, 2, 9, true));
      var tc' := TimedNext(v, tc, te);
      && TimedAllowed(v, tc, te, late)
      && tc'.now == PROC_TIME_OUT && tc'.due == map[1 := PROC_TIME_OUT]
      && tc'.c.s == Stack(0, map[], map[1 := 1], map[], map[])
      && tc'.c.retryIds == {} && tc'.c.cleanupIds == {1} && tc'.c.kinds == map[1 := 1]
  {
    var te := Do(SendTriggered(1, 2, 9, true));
    var tc' := TimedNext(v, tc, te);
    assert tc'.c.s.txSeq == map[] && tc'.c.s.pending == map[] && tc'.c.s.retry == map[];
    assert tc'.due == tc.due;
  }

  lemma RequestTakesNumberOne(v: Variant, s: Stack, e: Event)
    requires e == SendInitial(1, 9, 0, [], 2, 2, 3)
    requires s == Stack(0, map[], map[1 := 1], map[], map[])
    ensures NoReuse(v, s, e)
    ensures
      var s' := Step(v, s, e).0;
      && s'.retry == map[2 := 1] && 1 in s'.cleanup && s'.cleanup[1] == 1
      && s'.pending == map[1 := NewRequest(e, 1)]
  {}

  /** A request sent now takes number 1, which the old cleanup timer still stands for. */
  lemma NewRequestUnderOldCleanup(v: Variant, tc: Timed, late: Micros)
    requires tc.now == PROC_TIME_OUT && tc.due == map[1 := PROC_TIME_OUT]
    requires tc.c.s == Stack(0, map[], map[1 := 1], map[], map[])
    requires tc.c.retryIds == {} && tc.c.cleanupIds == {1} && tc.c.kinds == map[1 := 1]
    ensures
      var te := Do(SendInitial(1, 9, 0, [], 2, 2, 3));
      var tc' := TimedNext(v, tc, te);
      && TimedAllowed(v, tc, te, late)
      && tc'.now == PROC_TIME_OUT && 1 in tc'.due && tc'.due[1] == PROC_TIME_OUT
      && tc'.c.retryIds == {2} && tc'.c.cleanupIds == {1, 3}
      && tc'.c.s.retry == map[2 := 1] && 1 in tc'.c.s.cleanup && tc'.c.s.cleanup[1] == 1
      && tc'.c.s.pending == map[1 := NewRequest(te.e, 1)]
  {
    var te := Do(SendInitial(1, 9, 0, [], 2, 2, 3));
    var tc' := TimedNext(v, tc, te);
    RequestTakesNumberOne(v, tc.c.s, te.e);
    assert tc'.due == map[1 := PROC_TIME_OUT, 2 := tc.now + RESPONSE_TIME, 3 := tc.now + PROC_TIME_OUT];
  }

  lemma OldCleanupHitsRequest(v: Variant, tc: Timed, late: Micros)
    requires tc.now == PROC_TIME_OUT && 1 in tc.due && tc.due[1] == PROC_TIME_OUT
    requires tc.c.retryIds == {2} && tc.c.cleanupIds == {1, 3}
    requires tc.c.s.retry == map[2 := 1] && 1 in tc.c.s.cleanup && tc.c.s.cleanup[1] == 1
    ensures TimedAllowed(v, tc, Do(TimeOut(1, 4)), late)
    ensures Step(v, tc.c.s, TimeOut(1, 4)).1 == [] && 1 !in Step(v, tc.c.s, TimeOut(1, 4)).0.pending
  {}

  /** A closing response leaves the cleanup entry of its transaction behind, so an expiry that is
      already on its way erases a request that was sent under the same number in between. */
  lemma StaleCleanupDropsRequest(v: Variant, late: Micros) returns (tes: seq<TimedEvent>, e: Event)
    ensures Timely(v, 0, tes, late) && TimedAllowed(v, TimedReach(v, 0, tes), Do(e), late)
    ensures
      var s := TimedReach(v, 0, tes).c.s;
      && 1 in s.pending && s.pending[1].retryMsg.Some? && s.pending[1].retryTimer in s.retry
      && Step(v, s, e).1 == [] && 1 !in Step(v, s, e).0.pending
  {
    var before := PeerTransactionIsDue(v, late);
    var tc := TimedReach(v, 0, before);
    var closing, request := Do(SendTriggered(1, 2, 9, true)), Do(SendInitial(1, 9, 0, [], 2, 2, 3));
    ClosingLeavesCleanup(v, tc, late);
    TimedRunSnoc(v, TimedStart(0), before, closing, late);
    NewRequestUnderOldCleanup(v, TimedNext(v, tc, closing), late);
    TimedRunSnoc(v, TimedStart(0), before + [closing], request, late);
    OldCleanupHitsRequest(v, TimedReach(v, 0, before + [closing] + [request]), late);
    tes, e := before + [closing] + [request], TimeOut(1, 4);
  }
}
