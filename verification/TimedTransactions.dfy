/** The transaction layer against the clock. Every timer has a due time; what the environment
    promises is that an expiry is handled at most `late` after it. */
module TimedTransactions {
  import opened MessageTypes
  import opened Transactions
  import opened TransactionInvariants
  import opened TransactionOrder
  import opened TransactionOutcomes

  type Micros = nat

  /** The timer service takes seconds and microseconds; the stacks pass it the whole seconds of
      a delay in milliseconds, and the remaining milliseconds as if they were microseconds. */
  function DelayMicros(ms: nat): Micros {
    (ms / 1000) * 1_000_000 + ms % 1000
  }

  const RESPONSE_TIME: Micros := DelayMicros(RESPONSE_TIME_MS)
  const PROC_TIME_OUT: Micros := DelayMicros(PROC_TIME_OUT_MS)

  /** A run with a clock: when each timer that can still expire is due, and when each
      transaction was opened. */
  datatype Timed = Timed(c: Config, now: Micros, due: map<TimerId, Micros>, openedAt: map<TxId, Micros>)

  datatype TimedEvent = Tick(elapsed: Micros) | Do(e: Event)

  function TimedStart(counter: Counter): Timed {
    Timed(InitialConfig(counter), 0, map[], map[])
  }

  /** The timers that a step starts. */
  function StartedBy(v: Variant, s: Stack, e: Event, now: Micros): map<TimerId, Micros> {
    match e
    case SendInitial(_, _, _, _, _, rt, ct) => map[rt := now + RESPONSE_TIME, ct := now + PROC_TIME_OUT]
    case Receive(_, _, _, ct) => if Opens(v, s, e) then map[ct := now + PROC_TIME_OUT] else map[]
    case SendTriggered(_, _, _, _) => map[]
    case TimeOut(_, newTimer) =>
      if e.timer in s.retry && s.retry[e.timer] in s.pending && s.pending[s.retry[e.timer]].retryCount < MAX_RETRIES
         && s.pending[s.retry[e.timer]].retryMsg.Some?
      then map[newTimer := now + RESPONSE_TIME] else map[]
  }

  /** The timers that no longer expire: the one that just did, and the removed ones that were
      not due yet. The expiry of a removed timer that was due may already be on its way. */
  function StoppedBy(v: Variant, tc: Timed, e: Event): set<TimerId> {
    if e.TimeOut? then {e.timer} else set t | t in RemovedBy(v, tc.c.s, e) && t in tc.due && tc.now < tc.due[t]
  }

  /** A delay can be told from the time it takes. */
  lemma DelayIs(ms: nat, ms': nat)
    ensures DelayMicros(ms) == DelayMicros(ms') <==> ms == ms'
    ensures DelayMicros(1000) == 1_000_000 && DelayMicros(5000) == 5_000_000
  {}

  /** The timers that start are the ones that the step asks the timer service for, with the delays that
      it asks for. */
  lemma StartedAsAsked(v: Variant, c: Config, e: Event, now: Micros, t: TimerId, ms: nat)
    requires Allowed(v, c, e)
    ensures TimerStarted(t, ms) in Step(v, c.s, e).1 <==>
              var started := StartedBy(v, c.s, e, now);
              t in started && started[t] == now + DelayMicros(ms)
  {
    DelayIs(ms, RESPONSE_TIME_MS);
    DelayIs(ms, PROC_TIME_OUT_MS);
    var out := Step(v, c.s, e).1;
    if |out| > 0 { assert out[0] in out; }
    if |out| > 1 { assert out[1] in out; }
  }

  /** The timers that are removed are the ones that the step asks the timer service to remove. */
  lemma RemovedAsAsked(v: Variant, s: Stack, e: Event, t: TimerId)
    ensures TimerRemoved(t) in Step(v, s, e).1 <==> t in RemovedBy(v, s, e)
  {
    var out := Step(v, s, e).1;
    if |out| > 0 { assert out[0] in out; }
    if |out| > 1 { assert out[1] in out; }
  }

  /** The constants, in milliseconds and microseconds. */
  lemma TimesInNumbers()
    ensures RESPONSE_TIME_MS == 1000 && MAX_RETRIES == 3 && PROC_TIME_OUT_MS == 5000
    ensures RESPONSE_TIME == 1_000_000 && PROC_TIME_OUT == 5_000_000
  {}

  /** A request asks for one second until its first retry and for five seconds until it is cleaned up, each
      further attempt asks for one second, and a peer's request for five seconds until it is cleaned up. */
  lemma DelaysAskedFor(v: Variant, c: Config, e: Event)
    requires Allowed(v, c, e)
    ensures e.SendInitial? ==> TimerStarted(e.retryTimer, 1000) in Step(v, c.s, e).1 && TimerStarted(e.cleanupTimer, 5000) in Step(v, c.s, e).1
    ensures Opens(v, c.s, e) && e.Receive? ==> TimerStarted(e.cleanupTimer, 5000) in Step(v, c.s, e).1
    ensures e.TimeOut? && e.timer in c.s.retry && c.s.retry[e.timer] in c.s.pending
            && c.s.pending[c.s.retry[e.timer]].retryCount < 3 && c.s.pending[c.s.retry[e.timer]].retryMsg.Some? ==>
              TimerStarted(e.newTimer, 1000) in Step(v, c.s, e).1
  {
    var out := Step(v, c.s, e).1;
    if |out| > 0 { assert out[0] in out; }
    if |out| > 1 { assert out[1] in out; }
  }

  function TimedNext(v: Variant, tc: Timed, te: TimedEvent): Timed {
    match te
    case Tick(elapsed) => tc.(now := tc.now + elapsed)
    case Do(e) =>
      Timed(Next(v, tc.c, e), tc.now,
            (tc.due - StoppedBy(v, tc, e)) + StartedBy(v, tc.c.s, e, tc.now),
            if Opens(v, tc.c.s, e) then tc.openedAt[(if e.SendInitial? then e.tx else e.newTx) := tc.now] else tc.openedAt)
  }

  /** Time passes only while no timer is overdue by more than `late`, unless it was removed; an
      expiry is handled once, when the timer is due and not later than that. */
  predicate TimedAllowed(v: Variant, tc: Timed, te: TimedEvent, late: Micros) {
    match te
    case Tick(elapsed) =>
      forall t :: t in tc.due && t !in tc.c.removed ==> tc.now + elapsed <= tc.due[t] + late
    case Do(e) =>
      && Allowed(v, tc.c, e)
      && NoReuse(v, tc.c.s, e)
      && (e.TimeOut? ==> e.timer in tc.due && tc.due[e.timer] <= tc.now <= tc.due[e.timer] + late)
  }

  /** True while a cleanup timer of an earlier procedure could still expire for `n`. */
  predicate CleanupOutstanding(tc: Timed, n: SequenceNumber, late: Micros) {
    exists t :: t in tc.c.s.cleanup && tc.c.s.cleanup[t] == n && t in tc.due && tc.now <= tc.due[t] + late
  }

  /** No procedure is started while an earlier one's cleanup could still hit it. */
  predicate NoStaleCleanup(v: Variant, tc: Timed, te: TimedEvent, late: Micros) {
    te.Do? && Opens(v, tc.c.s, te.e) ==> !CleanupOutstanding(tc, OpenedAt(tc.c.s, te.e), late)
  }

  /** The due times of one procedure's timers: the retry timer is never ahead of the schedule, and
      falls behind it by at most `late` per attempt. */
  ghost predicate ScheduleOk(tc: Timed, p: Procedure, late: Micros) {
    && p.cleanupTimer in tc.due && p.tx in tc.openedAt
    && tc.due[p.cleanupTimer] == tc.openedAt[p.tx] + PROC_TIME_OUT
    && (p.retryTimer in tc.c.s.retry ==>
          && p.retryTimer in tc.due
          && OnSchedule(tc.openedAt[p.tx], p.retryCount, tc.due[p.retryTimer], late))
  }

  /** A retry timer after `k` retries, of a request sent first at `start`. */
  predicate OnSchedule(start: Micros, k: nat, due: Micros, late: Micros) {
    start + (k + 1) * RESPONSE_TIME <= due <= start + (k + 1) * RESPONSE_TIME + k * late
  }

  /** The next retry timer is on schedule if the last one was, and was handled in time. */
  lemma NextOnSchedule(start: Micros, k: nat, due: Micros, now: Micros, late: Micros)
    requires OnSchedule(start, k, due, late) && due <= now <= due + late
    ensures OnSchedule(start, k + 1, now + RESPONSE_TIME, late)
  {
    assert k * late + late == (k + 1) * late;
  }

  ghost predicate DueInv(tc: Timed, late: Micros) {
    && tc.due.Keys <= tc.c.retryIds + tc.c.cleanupIds
    && (forall t :: t in tc.due && t !in tc.c.removed ==> tc.now <= tc.due[t] + late)
  }

  ghost predicate TimedInv(tc: Timed, late: Micros) {
    && DueInv(tc, late)
    && (forall n :: n in tc.c.s.pending ==> ScheduleOk(tc, tc.c.s.pending[n], late))
  }

  /** A cleanup timer that can still expire finds its own procedure, or none. */
  ghost predicate CleanupMatch(tc: Timed, late: Micros) {
    forall t :: t in tc.c.s.cleanup && t in tc.due && tc.now <= tc.due[t] + late && tc.c.s.cleanup[t] in tc.c.s.pending ==>
      tc.c.s.pending[tc.c.s.cleanup[t]].cleanupTimer == t
  }

  lemma TickKeepsTimedInv(v: Variant, tc: Timed, elapsed: Micros, late: Micros)
    requires TimedInv(tc, late) && TimedAllowed(v, tc, Tick(elapsed), late)
    ensures TimedInv(TimedNext(v, tc, Tick(elapsed)), late)
  {
    var tc' := TimedNext(v, tc, Tick(elapsed));
    forall n | n in tc.c.s.pending
      ensures ScheduleOk(tc', tc.c.s.pending[n], late)
    {
      assert ScheduleOk(tc, tc.c.s.pending[n], late);
    }
  }

  /** Only fresh timers start, and none in the past. */
  lemma StartedAreFresh(v: Variant, tc: Timed, e: Event)
    requires Allowed(v, tc.c, e)
    ensures forall t :: t in StartedBy(v, tc.c.s, e, tc.now) ==>
              && t !in tc.c.retryIds && t !in tc.c.cleanupIds
              && t in Next(v, tc.c, e).retryIds + Next(v, tc.c, e).cleanupIds
              && StartedBy(v, tc.c.s, e, tc.now)[t] >= tc.now
  {}

  lemma DueKept(v: Variant, tc: Timed, e: Event, late: Micros)
    requires DueInv(tc, late) && Allowed(v, tc.c, e)
    ensures DueInv(TimedNext(v, tc, Do(e)), late)
  {
    StartedAreFresh(v, tc, e);
    var tc' := TimedNext(v, tc, Do(e));
    assert tc.c.retryIds + tc.c.cleanupIds <= tc'.c.retryIds + tc'.c.cleanupIds;
    assert tc.c.removed <= tc'.c.removed;
  }

  /** A timer that was running and was not stopped is still due at the same time. */
  lemma OldDue(v: Variant, tc: Timed, e: Event, t: TimerId)
    requires Allowed(v, tc.c, e) && t in tc.due && t in tc.c.retryIds + tc.c.cleanupIds
    requires t !in StoppedBy(v, tc, e)
    ensures t in TimedNext(v, tc, Do(e)).due && TimedNext(v, tc, Do(e)).due[t] == tc.due[t]
  {
    StartedAreFresh(v, tc, e);
  }

  /** A transaction keeps the time it was opened at. */
  lemma OldOpened(v: Variant, tc: Timed, e: Event, tx: TxId)
    requires Allowed(v, tc.c, e) && tx in tc.c.kinds && tx in tc.openedAt
    ensures tx in TimedNext(v, tc, Do(e)).openedAt && TimedNext(v, tc, Do(e)).openedAt[tx] == tc.openedAt[tx]
  {}

  lemma NewRequestSchedule(v: Variant, tc: Timed, e: Event, n: SequenceNumber, late: Micros)
    requires Allowed(v, tc.c, e) && e.SendInitial?
    requires n in Next(v, tc.c, e).s.pending && n !in tc.c.s.pending
    ensures ScheduleOk(TimedNext(v, tc, Do(e)), Next(v, tc.c, e).s.pending[n], late)
  {
    assert Next(v, tc.c, e).s.pending[n] == NewRequest(e, n);
  }

  lemma NewSchedule(v: Variant, tc: Timed, e: Event, n: SequenceNumber, late: Micros)
    requires 0 !in tc.c.s.retry && Allowed(v, tc.c, e)
    requires n in Next(v, tc.c, e).s.pending && n !in tc.c.s.pending
    ensures ScheduleOk(TimedNext(v, tc, Do(e)), Next(v, tc.c, e).s.pending[n], late)
  {
    if e.SendInitial? {
      NewRequestSchedule(v, tc, e, n, late);
    } else {
      assert e.Receive? && Next(v, tc.c, e).s.pending[n] == NewResponder(e);
    }
  }

  /** What the expiry of its retry timer leaves of a procedure that stays. */
  lemma Restarted(v: Variant, c: Config, e: Event, n: SequenceNumber)
    requires ProcedureInv(v, c) && RetryInv(c) && e.TimeOut?
    requires e.timer in c.s.retry && c.s.retry[e.timer] == n && n in c.s.pending && n in Next(v, c, e).s.pending
    ensures
      var p, s' := c.s.pending[n], Next(v, c, e).s;
      && p.retryTimer == e.timer
      && s'.pending[n].tx == p.tx && s'.pending[n].cleanupTimer == p.cleanupTimer
      && (s'.pending[n].retryTimer in s'.retry ==>
            && p.retryCount < MAX_RETRIES && p.retryMsg.Some?
            && s'.pending[n].retryTimer == e.newTimer && s'.pending[n].retryCount == p.retryCount + 1)
  {}

  /** The retry timer of `n` expired and was started again. */
  lemma RestartedSchedule(v: Variant, tc: Timed, e: Event, n: SequenceNumber, late: Micros)
    requires ProcedureInv(v, tc.c) && RetryInv(tc.c)
    requires n in tc.c.s.pending && ScheduleOk(tc, tc.c.s.pending[n], late)
    requires TimedAllowed(v, tc, Do(e), late) && e.TimeOut?
    requires e.timer in tc.c.s.retry && tc.c.s.retry[e.timer] == n && n in Next(v, tc.c, e).s.pending
    requires tc.c.s.pending[n].cleanupTimer in TimedNext(v, tc, Do(e)).due
    requires TimedNext(v, tc, Do(e)).due[tc.c.s.pending[n].cleanupTimer] == tc.due[tc.c.s.pending[n].cleanupTimer]
    ensures ScheduleOk(TimedNext(v, tc, Do(e)), Next(v, tc.c, e).s.pending[n], late)
  {
    Restarted(v, tc.c, e, n);
    var p, s' := tc.c.s.pending[n], Next(v, tc.c, e).s;
    if s'.pending[n].retryTimer in s'.retry {
      NextOnSchedule(tc.openedAt[p.tx], p.retryCount, tc.due[e.timer], tc.now, late);
      NewTimerDue(v, tc, e);
    }
  }

  lemma NewTimerDue(v: Variant, tc: Timed, e: Event)
    requires e.TimeOut? && e.timer in tc.c.s.retry && tc.c.s.retry[e.timer] in tc.c.s.pending
    requires
      var p := tc.c.s.pending[tc.c.s.retry[e.timer]];
      p.retryCount < MAX_RETRIES && p.retryMsg.Some?
    ensures TimedNext(v, tc, Do(e)).due == (tc.due - {e.timer})[e.newTimer := tc.now + RESPONSE_TIME]
  {}

  /** Only the expiry of its own retry timer counts as a retry of a procedure. */
  lemma CountKept(v: Variant, c: Config, e: Event, n: SequenceNumber)
    requires n in Next(v, c, e).s.pending && n in c.s.pending
    requires !(e.TimeOut? && e.timer in c.s.retry && c.s.retry[e.timer] == n)
    ensures Next(v, c, e).s.pending[n].retryCount == c.s.pending[n].retryCount
  {}

  /** Nothing happened to the timers of `n`, except that its retry timer may be stopped. */
  lemma UntouchedSchedule(v: Variant, tc: Timed, e: Event, n: SequenceNumber, late: Micros)
    requires Allowed(v, tc.c, e)
    requires n in Next(v, tc.c, e).s.pending && n in tc.c.s.pending
    requires !(e.TimeOut? && e.timer in tc.c.s.retry && tc.c.s.retry[e.timer] == n)
    requires ScheduleOk(tc, tc.c.s.pending[n], late)
    requires
      var p := tc.c.s.pending[n];
      var s' := Next(v, tc.c, e).s;
      && p.tx in tc.c.kinds && p.cleanupTimer in tc.c.cleanupIds && p.cleanupTimer !in StoppedBy(v, tc, e)
      && (s'.pending[n].retryTimer in s'.retry ==>
            && s'.pending[n].retryTimer == p.retryTimer && p.retryTimer in tc.c.s.retry
            && p.retryTimer in tc.c.retryIds && p.retryTimer !in StoppedBy(v, tc, e))
    ensures ScheduleOk(TimedNext(v, tc, Do(e)), Next(v, tc.c, e).s.pending[n], late)
  {
    var p := tc.c.s.pending[n];
    ProcedureEvolves(v, tc.c, e, n);
    OldOpened(v, tc, e, p.tx);
    OldDue(v, tc, e, p.cleanupTimer);
    var s' := Next(v, tc.c, e).s;
    if s'.pending[n].retryTimer in s'.retry {
      OldDue(v, tc, e, p.retryTimer);
      CountKept(v, tc.c, e, n);
    }
  }

  /** A step that is not the expiry of its retry timer leaves the running timers of a procedure alone. */
  lemma TimersLeftAlone(v: Variant, tc: Timed, e: Event, n: SequenceNumber)
    requires TimersInv(tc.c) && CleanupInv(tc.c) && RetryInv(tc.c) && Allowed(v, tc.c, e)
    requires n in Next(v, tc.c, e).s.pending && n in tc.c.s.pending
    requires !(e.TimeOut? && e.timer in tc.c.s.retry && tc.c.s.retry[e.timer] == n)
    requires RetryTimerEvolved(v, tc.c, e, n)
    ensures
      var p := tc.c.s.pending[n];
      var s' := Next(v, tc.c, e).s;
      && p.cleanupTimer !in StoppedBy(v, tc, e)
      && (s'.pending[n].retryTimer in s'.retry ==>
            s'.pending[n].retryTimer == p.retryTimer && p.retryTimer in tc.c.s.retry && p.retryTimer !in StoppedBy(v, tc, e))
  {
    if e.TimeOut? { ExpiryLeavesAlone(v, tc, e, n); } else { OtherLeavesAlone(v, tc, e, n); }
  }

  lemma ExpiryLeavesAlone(v: Variant, tc: Timed, e: Event, n: SequenceNumber)
    requires TimersInv(tc.c) && CleanupInv(tc.c) && RetryInv(tc.c) && e.TimeOut?
    requires n in Next(v, tc.c, e).s.pending && n in tc.c.s.pending
    requires !(e.timer in tc.c.s.retry && tc.c.s.retry[e.timer] == n)
    requires RetryTimerEvolved(v, tc.c, e, n)
    ensures
      var p := tc.c.s.pending[n];
      var s' := Next(v, tc.c, e).s;
      && p.cleanupTimer != e.timer
      && (s'.pending[n].retryTimer in s'.retry ==>
            s'.pending[n].retryTimer == p.retryTimer && p.retryTimer in tc.c.s.retry && p.retryTimer != e.timer)
  {}

  lemma OtherLeavesAlone(v: Variant, tc: Timed, e: Event, n: SequenceNumber)
    requires TimersInv(tc.c) && CleanupInv(tc.c) && !e.TimeOut? && Allowed(v, tc.c, e)
    requires n in Next(v, tc.c, e).s.pending && n in tc.c.s.pending
    requires RetryTimerEvolved(v, tc.c, e, n)
    ensures
      var p := tc.c.s.pending[n];
      var s' := Next(v, tc.c, e).s;
      && p.cleanupTimer !in RemovedBy(v, tc.c.s, e)
      && (s'.pending[n].retryTimer in s'.retry ==>
            s'.pending[n].retryTimer == p.retryTimer && p.retryTimer in tc.c.s.retry
            && p.retryTimer !in RemovedBy(v, tc.c.s, e))
  {}

  lemma OldSchedule(v: Variant, tc: Timed, e: Event, n: SequenceNumber, late: Micros)
    requires BaseInv(v, tc.c) && RetryInv(tc.c) && TimedInv(tc, late)
    requires TimedAllowed(v, tc, Do(e), late)
    requires n in Next(v, tc.c, e).s.pending && n in tc.c.s.pending
    ensures ScheduleOk(TimedNext(v, tc, Do(e)), Next(v, tc.c, e).s.pending[n], late)
  {
    assert ScheduleOk(tc, tc.c.s.pending[n], late);
    if e.TimeOut? { RetryTimerInTimeOut(v, tc.c, e, n); } else { RetryTimerInOtherStep(v, tc.c, e, n); }
    if e.TimeOut? && e.timer in tc.c.s.retry && tc.c.s.retry[e.timer] == n {
      OldDue(v, tc, e, tc.c.s.pending[n].cleanupTimer);
      RestartedSchedule(v, tc, e, n, late);
    } else {
      TimersLeftAlone(v, tc, e, n);
      UntouchedSchedule(v, tc, e, n, late);
    }
  }

  lemma TimedInvKept(v: Variant, tc: Timed, te: TimedEvent, late: Micros)
    requires BaseInv(v, tc.c) && RetryInv(tc.c) && TimedInv(tc, late) && TimedAllowed(v, tc, te, late)
    ensures TimedInv(TimedNext(v, tc, te), late)
  {
    if te.Tick? {
      TickKeepsTimedInv(v, tc, te.elapsed, late);
    } else {
      var tc' := TimedNext(v, tc, te);
      DueKept(v, tc, te.e, late);
      forall n | n in tc'.c.s.pending
        ensures ScheduleOk(tc', tc'.c.s.pending[n], late)
      {
        if n in tc.c.s.pending { OldSchedule(v, tc, te.e, n, late); } else { NewSchedule(v, tc, te.e, n, late); }
      }
    }
  }

  /** A new cleanup entry is the one of the procedure just opened. */
  lemma NewCleanup(v: Variant, c: Config, e: Event, t: TimerId)
    requires NoReuse(v, c.s, e)
    requires t in Next(v, c, e).s.cleanup && t !in c.s.cleanup
    ensures Opens(v, c.s, e) && Next(v, c, e).s.cleanup[t] == OpenedAt(c.s, e)
    ensures OpenedAt(c.s, e) in Next(v, c, e).s.pending && Next(v, c, e).s.pending[OpenedAt(c.s, e)].cleanupTimer == t
  {}

  /** Cleanup entries are never overwritten, and procedures appear only where one is opened. */
  lemma CleanupEntriesStay(v: Variant, c: Config, e: Event, t: TimerId)
    requires t in Next(v, c, e).s.cleanup && t in c.s.cleanup
    ensures Next(v, c, e).s.cleanup[t] == c.s.cleanup[t]
    ensures c.s.cleanup[t] in Next(v, c, e).s.pending && c.s.cleanup[t] !in c.s.pending ==>
              Opens(v, c.s, e) && OpenedAt(c.s, e) == c.s.cleanup[t]
  {}

  lemma CleanupMatchKept(v: Variant, tc: Timed, e: Event, t: TimerId, late: Micros)
    requires tc.c.s.cleanup.Keys <= tc.c.cleanupIds
    requires CleanupMatch(tc, late) && TimedAllowed(v, tc, Do(e), late) && NoStaleCleanup(v, tc, Do(e), late)
    requires
      var tc' := TimedNext(v, tc, Do(e));
      t in tc'.c.s.cleanup && t in tc'.due && tc'.now <= tc'.due[t] + late && tc'.c.s.cleanup[t] in tc'.c.s.pending
    ensures
      var s' := Next(v, tc.c, e).s;
      s'.pending[s'.cleanup[t]].cleanupTimer == t
  {
    var tc' := TimedNext(v, tc, Do(e));
    var n := tc'.c.s.cleanup[t];
    if t in tc.c.s.cleanup {
      CleanupEntriesStay(v, tc.c, e, t);
      StartedAreFresh(v, tc, e);
      assert t in tc.due && tc.due[t] == tc'.due[t];
      assert CleanupOutstanding(tc, n, late);
      ProcedureEvolves(v, tc.c, e, n);
    } else {
      NewCleanup(v, tc.c, e, t);
    }
  }

  lemma CleanupMatchInvKept(v: Variant, tc: Timed, te: TimedEvent, late: Micros)
    requires BaseInv(v, tc.c) && CleanupMatch(tc, late)
    requires TimedAllowed(v, tc, te, late) && NoStaleCleanup(v, tc, te, late)
    ensures CleanupMatch(TimedNext(v, tc, te), late)
  {
    if te.Do? {
      var tc' := TimedNext(v, tc, te);
      forall t | t in tc'.c.s.cleanup && t in tc'.due && tc'.now <= tc'.due[t] + late && tc'.c.s.cleanup[t] in tc'.c.s.pending
        ensures tc'.c.s.pending[tc'.c.s.cleanup[t]].cleanupTimer == t
      {
        CleanupMatchKept(v, tc, te.e, t, late);
      }
    }
  }
}
