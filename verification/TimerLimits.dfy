/** Where the guarantees of the timer service end: which calls can cost a timer, and which timers can
    be overtaken, exactly. */
module TimerLimits {
  import opened Timers
  import opened TimerInvariants
  import opened TimerTheorems

  // ----- timers with equal deadlines -----

  /** The manager holds a timer that it will put back if it is woken. */
  predicate MayComeBack(c: Config) {
    c.s.current.id != 0 &&
    match c.s.phase
    case Checking => c.s.current.deadline > c.now
    case Computing => true
    case Waiting(_) => true
    case Woken => true
    case _ => false
  }

  /** A timer with that deadline is waiting, or is held and may come back. */
  predicate HasTwin(c: Config, deadline: Time) {
    deadline in c.s.timers || (MayComeBack(c) && c.s.current.deadline == deadline)
  }

  predicate TwinHeld(c: Config) { MayComeBack(c) && c.s.current.deadline in c.s.timers }

  lemma DropsNothing(c: Config, e: Event)
    requires PlacesInv(c) && !TwinHeld(c) && Allowed(c, e)
    requires e.Setup? ==> !HasTwin(c, e.deadline)
    ensures !TwinHeld(Next(c, e)) && Next(c, e).dropped == c.dropped
  {}

  /** Nowhere in the run is a timer set up that has a twin. */
  ghost predicate NoTwinRun(c: Config, es: seq<Event>)
    requires AllowedRun(c, es)
    decreases |es|
  {
    es == [] || ((es[0].Setup? ==> !HasTwin(c, es[0].deadline)) && NoTwinRun(Next(c, es[0]), es[1..]))
  }

  lemma {:induction false} NoTwinRunDropsNothing(c: Config, es: seq<Event>)
    requires Inv(c) && !TwinHeld(c) && AllowedRun(c, es) && NoTwinRun(c, es)
    ensures !TwinHeld(Run(c, es)) && Run(c, es).dropped == c.dropped
    decreases |es|
  {
    if es != [] {
      InvKept(c, es[0]);
      DropsNothing(c, es[0]);
      NoTwinRunDropsNothing(Next(c, es[0]), es[1..]);
    }
  }

  /** If no timer is set up that has a twin, none is lost. */
  lemma NoneLostWithoutTwins(nullDeadline: Time, es: seq<Event>)
    requires Interleaving(nullDeadline, es) && NoTwinRun(InitialConfig(nullDeadline), es)
    ensures
      var c := Reach(nullDeadline, es);
      && c.dropped == {}
      && forall id :: id in c.deadlines ==> IsWaiting(c, id) || IsHeld(c.s, id) || id in c.fired || id in c.removed
  {
    InitialInv(nullDeadline);
    NoTwinRunDropsNothing(InitialConfig(nullDeadline), es);
    var c := Reach(nullDeadline, es);
    forall id | id in c.deadlines
      ensures IsWaiting(c, id) || IsHeld(c.s, id) || id in c.fired || id in c.removed
    {
      ExactlyOnePlace(nullDeadline, es, id);
    }
  }

  // ----- when a timer can be lost -----

  /** The run goes on with `more`, in which no timer is set up, and `id` is lost. */
  ghost predicate Loses(c: Config, more: seq<Event>, id: TimerId) {
    (forall e :: e in more ==> !e.Setup?) && AllowedRun(c, more) && id in Run(c, more).dropped
  }

  ghost predicate CanLose(c: Config, id: TimerId) { exists more :: Loses(c, more, id) }

  lemma LosesLater(c: Config, e: Event, id: TimerId)
    requires Allowed(c, e) && !e.Setup? && CanLose(Next(c, e), id)
    ensures CanLose(c, id)
  {
    var more :| Loses(Next(c, e), more, id);
    assert ([e] + more)[1..] == more;
    assert Loses(c, [e] + more, id);
  }

  /** How far the manager is from putting the timer it holds back, or from signalling it. */
  function StepsLeft(p: Phase): nat {
    match p
    case Checking => 3
    case Computing => 2
    case Waiting(_) => 1
    case _ => 0
  }

  /** A held timer with a twin is lost when the manager is woken. */
  lemma {:induction false} HeldTwinIsLost(c: Config)
    requires TwinHeld(c)
    ensures CanLose(c, c.s.current.id)
    decreases StepsLeft(c.s.phase)
  {
    var e := match c.s.phase
      case Checking => Check
      case Computing => Compute
      case Waiting(_) => Wake
      case _ => Event.StoreAgain;
    assert Allowed(c, e);
    if c.s.phase.Woken? {
      assert Loses(Next(c, e), [], c.s.current.id);
    } else {
      HeldTwinIsLost(Next(c, e));
    }
    LosesLater(c, e, c.s.current.id);
  }

  lemma {:induction false} NoTwinNoLoss(c: Config, more: seq<Event>, id: TimerId)
    requires Inv(c) && !TwinHeld(c) && id !in c.dropped
    ensures !Loses(c, more, id)
    decreases |more|
  {
    if more != [] && Allowed(c, more[0]) && !more[0].Setup? {
      InvKept(c, more[0]);
      DropsNothing(c, more[0]);
      NoTwinNoLoss(Next(c, more[0]), more[1..], id);
    }
  }

  /** After a run in which no timer with a twin was set up, the next one set up can cost a timer if and
      only if it has a twin: itself if the twin waits, the twin if that is held. */
  lemma TwinLosesExactly(nullDeadline: Time, es: seq<Event>, id: TimerId, deadline: Time)
    requires Interleaving(nullDeadline, es) && NoTwinRun(InitialConfig(nullDeadline), es)
    requires Allowed(Reach(nullDeadline, es), Setup(id, deadline))
    ensures
      var c := Reach(nullDeadline, es);
      var c' := Next(c, Setup(id, deadline));
      && ((exists lost :: CanLose(c', lost)) <==> HasTwin(c, deadline))
      && (HasTwin(c, deadline) ==> CanLose(c', if deadline in c.s.timers then id else c.s.current.id))
  {
    var c := Reach(nullDeadline, es);
    var c' := Next(c, Setup(id, deadline));
    InitialInv(nullDeadline);
    NoTwinRunDropsNothing(InitialConfig(nullDeadline), es);
    ReachInv(nullDeadline, es);
    InvKept(c, Setup(id, deadline));
    if deadline in c.s.timers {
      assert AllowedRun(c', []) && Loses(c', [], id) && CanLose(c', id);
    } else if HasTwin(c, deadline) {
      HeldTwinIsLost(c');
    } else {
      DropsNothing(c, Setup(id, deadline));
      forall lost, more
        ensures !Loses(c', more, lost)
      {
        NoTwinNoLoss(c', more, lost);
      }
    }
  }

  // ----- when a timer can be overtaken -----

  /** The manager holds a timer that it can signal before it takes another. */
  predicate MayFire(s: Service) { s.phase != Idle && s.phase != Woken && s.current.id != 0 }

  /** The timer waits, and the manager may signal a later one first. */
  predicate IsBehind(c: Config, id: TimerId) {
    IsWaiting(c, id) && MayFire(c.s) && c.deadlines[id] < c.s.current.deadline
  }

  /** The run goes on with `more`, in which no timer is set up; then the manager can signal a timer while
      `id` waits, which is due earlier. */
  ghost predicate Overtakes(c: Config, more: seq<Event>, id: TimerId) {
    && (forall e :: e in more ==> !e.Setup?) && AllowedRun(c, more)
    && Run(c, more).s.phase == Expired && IsBehind(Run(c, more), id)
  }

  ghost predicate CanBeOvertaken(c: Config, id: TimerId) { exists more :: Overtakes(c, more, id) }

  lemma OvertakenLater(c: Config, e: Event, id: TimerId)
    requires Allowed(c, e) && !e.Setup? && CanBeOvertaken(Next(c, e), id)
    ensures CanBeOvertaken(c, id)
  {
    var more :| Overtakes(Next(c, e), more, id);
    assert ([e] + more)[1..] == more;
    assert Overtakes(c, [e] + more, id);
  }

  lemma {:induction false} BehindIsOvertaken(c: Config, id: TimerId)
    requires IsBehind(c, id)
    ensures CanBeOvertaken(c, id)
    decreases StepsLeft(c.s.phase)
  {
    if c.s.phase == Checking {
      BehindIsOvertaken(Next(c, Check), id);
      OvertakenLater(c, Check, id);
    } else if c.s.phase == Computing {
      BehindIsOvertaken(Next(c, Compute), id);
      OvertakenLater(c, Compute, id);
    } else if c.s.phase.Waiting? {
      var wait := Tick(c.s.phase.until);
      var c1 := Next(c, wait);
      BehindIsOvertaken(Next(c1, TimeIsUp), id);
      OvertakenLater(c1, TimeIsUp, id);
      OvertakenLater(c, wait, id);
    } else {
      assert Overtakes(c, [], id);
    }
  }

  /** Only setting a timer up can leave it behind. */
  lemma NotLeftBehind(c: Config, e: Event, id: TimerId)
    requires PlacesInv(c) && id in c.deadlines && !IsBehind(c, id) && Allowed(c, e) && !e.Setup?
    ensures !IsBehind(Next(c, e), id)
  {}

  lemma {:induction false} NotBehindNotOvertaken(c: Config, more: seq<Event>, id: TimerId)
    requires Inv(c) && id in c.deadlines && !IsBehind(c, id)
    ensures !Overtakes(c, more, id)
    decreases |more|
  {
    if more != [] && Allowed(c, more[0]) && !more[0].Setup? {
      InvKept(c, more[0]);
      NotLeftBehind(c, more[0], id);
      NotBehindNotOvertaken(Next(c, more[0]), more[1..], id);
    }
  }

  /** A timer that is set up can be overtaken by a later one if and only if the manager holds a later
      one that it has not been woken from, and no waiting timer has the deadline already. */
  lemma OvertakenExactly(nullDeadline: Time, es: seq<Event>, id: TimerId, deadline: Time)
    requires Interleaving(nullDeadline, es) && Allowed(Reach(nullDeadline, es), Setup(id, deadline))
    ensures
      var c := Reach(nullDeadline, es);
      CanBeOvertaken(Next(c, Setup(id, deadline)), id) <==>
        MayFire(c.s) && deadline < c.s.current.deadline && deadline !in c.s.timers
  {
    ReachInv(nullDeadline, es);
    var c := Reach(nullDeadline, es);
    var c' := Next(c, Setup(id, deadline));
    InvKept(c, Setup(id, deadline));
    if IsBehind(c', id) {
      BehindIsOvertaken(c', id);
    } else {
      forall more
        ensures !Overtakes(c', more, id)
      {
        NotBehindNotOvertaken(c', more, id);
      }
    }
  }
}
