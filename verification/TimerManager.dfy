/** The timer service as an object: the shared fields of the original, the place of the manager
    thread in its loop, and one method for each critical section. */
module TimerManagers {
  import opened Prelude
  import opened Timers

  const TASK_FIRST := 0
  const TASK_MAX := 21

  /** Where an ordered set begins. */
  method First(times: set<Time>) returns (t: Time)
    requires times != {}
    ensures t in times && forall u :: u in times ==> t <= u
  {
    EarliestExists(times);
    t :| t in times && forall u :: u in times ==> t <= u;
  }

  class TimerManager {
    var timerId: TimerId
    var timers: map<Time, TimerId>
    var currentTimer: Timer
    var phase: Phase
    const nullTimer: Timer

    /** Ids were handed out in order, and a waiting timer has one entry. */
    ghost predicate Valid()
      reads this
    {
      && nullTimer.id == 0 && currentTimer.id <= timerId
      && (forall t :: t in timers ==> 0 < timers[t] <= timerId)
      && (forall t, u :: t in timers && u in timers && timers[t] == timers[u] ==> t == u)
      && (phase != Idle && currentTimer.id != 0 ==> forall t :: t in timers ==> timers[t] != currentTimer.id)
    }

    ghost function Contents(): Service
      reads this
    {
      Service(timers, currentTimer, phase, nullTimer)
    }

    constructor (nullDeadline: Time)
      ensures Valid() && Contents() == InitialConfig(nullDeadline).s && timerId == 0
    {
      timerId := 0;
      timers := map[];
      nullTimer := Timer(0, nullDeadline);
      currentTimer := Timer(0, nullDeadline);
      phase := Idle;
    }

    /** `start` is the clock when the timer is made. Tasks out of range get the invalid id. */
    method TimerSetup(start: Time, seconds: nat, micros: nat, task: int) returns (id: TimerId)
      requires Valid()
      modifies this
      ensures Valid()
      ensures
        if 0 < task < 21 then
          && id == old(timerId) + 1 == timerId
          && Contents() == Step(old(Contents()), start, Setup(id, start + seconds * 1_000_000 + micros))
        else
          id == 0 && Contents() == old(Contents()) && timerId == old(timerId)
    {
      if TASK_FIRST < task < TASK_MAX {
        timerId := timerId + 1;
        id := timerId;
        timers := InsertIfAbsent(timers, start + seconds * 1_000_000 + micros, id);
      } else {
        id := 0;
      }
    }

    /** Looks at the held timer first, then through the waiting ones in the order of their deadlines. */
    method TimerRemove(id: TimerId, now: Time) returns (ok: bool)
      requires Valid()
      modifies this
      ensures Valid() && timerId == old(timerId)
      ensures Contents() == Step(old(Contents()), now, Remove(id))
      ensures ok == (old(currentTimer).id == id || exists t :: t in old(timers) && old(timers)[t] == id)
    {
      if currentTimer.id == id {
        currentTimer := nullTimer;
        return true;
      }
      ghost var was := timers;
      var todo := timers.Keys;
      while todo != {}
        invariant Contents() == old(Contents()) && timerId == old(timerId) && todo <= was.Keys
        invariant forall t :: t in was && was[t] == id ==> t in todo
        decreases todo
      {
        var t := First(todo);
        if timers[t] == id {
          timers := timers - {t};
          RemoveIs(old(Contents()), now, id, t);
          return true;
        }
        todo := todo - {t};
      }
      RemoveNothing(old(Contents()), now, id);
      ok := false;
    }

    method TakeEarliest(now: Time)
      requires Valid() && Enabled(Contents(), now, Take)
      modifies this
      ensures Valid() && timerId == old(timerId)
      ensures Contents() == Step(old(Contents()), now, Take)
    {
      var t := First(timers.Keys);
      EarliestIs(timers, t);
      currentTimer := Timer(timers[t], t);
      timers := timers - {t};
      phase := Checking;
    }

    method CheckDue(now: Time)
      requires Valid() && Enabled(Contents(), now, Check)
      modifies this
      ensures Valid() && timerId == old(timerId)
      ensures Contents() == Step(old(Contents()), now, Check)
    {
      if currentTimer.deadline > now {
        phase := Computing;
      } else {
        phase := Expired;
      }
    }

    /** The time to wait is the difference between the deadline and the clock, if positive. */
    method ComputeWait(now: Time) returns (diff: int)
      requires Valid() && Enabled(Contents(), now, Compute)
      modifies this
      ensures Valid() && timerId == old(timerId)
      ensures Contents() == Step(old(Contents()), now, Compute)
      ensures phase.until == now + diff
    {
      diff := currentTimer.deadline - now;
      phase := Waiting(now + diff);
    }

    /** The wait ends by time-out or by a wake-up, which may be spurious. */
    method WaitEnds(now: Time, timeout: bool)
      requires Valid() && Enabled(Contents(), now, if timeout then TimeIsUp else Wake)
      modifies this
      ensures Valid() && timerId == old(timerId)
      ensures Contents() == Step(old(Contents()), now, if timeout then TimeIsUp else Wake)
    {
      phase := if timeout then Expired else Woken;
    }

    /** Signals what is held now; for the null timer nothing is delivered. */
    method SignalTimeOut(now: Time) returns (delivered: Option<TimerId>)
      requires Valid() && Enabled(Contents(), now, Fire)
      modifies this
      ensures Valid() && timerId == old(timerId)
      ensures Contents() == Step(old(Contents()), now, Fire)
      ensures delivered == if old(currentTimer).id == 0 then None else Some(old(currentTimer).id)
    {
      delivered := if currentTimer.id == 0 then None else Some(currentTimer.id);
      phase := Idle;
    }

    method StoreAgain(now: Time)
      requires Valid() && Enabled(Contents(), now, Event.StoreAgain)
      modifies this
      ensures Valid() && timerId == old(timerId)
      ensures Contents() == Step(old(Contents()), now, Event.StoreAgain)
    {
      if currentTimer.id != 0 {
        timers := InsertIfAbsent(timers, currentTimer.deadline, currentTimer.id);
      }
      currentTimer := nullTimer;
      phase := Idle;
    }
  }
}
