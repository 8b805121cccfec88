/** The guarantees of the timer service over every interleaving of its critical sections. */
module TimerTheorems {
  import opened Timers
  import opened TimerInvariants

  ghost predicate Interleaving(nullDeadline: Time, es: seq<Event>) {
    AllowedRun(InitialConfig(nullDeadline), es)
  }

  ghost function Reach(nullDeadline: Time, es: seq<Event>): Config
    requires Interleaving(nullDeadline, es)
  {
    Run(InitialConfig(nullDeadline), es)
  }

  lemma ReachInv(nullDeadline: Time, es: seq<Event>)
    requires Interleaving(nullDeadline, es)
    ensures Inv(Reach(nullDeadline, es))
  {
    InitialInv(nullDeadline);
    RunKeepsInv(InitialConfig(nullDeadline), es);
  }

  /** Every timer that was set up is in exactly one place: waiting, held by the manager thread,
      signalled, removed before that, or dropped. */
  lemma ExactlyOnePlace(nullDeadline: Time, es: seq<Event>, id: TimerId)
    requires Interleaving(nullDeadline, es)
    ensures
      var c := Reach(nullDeadline, es);
      && (id in c.deadlines ==> Places(c, id) == 1)
      && (id !in c.deadlines ==> Places(c, id) == 0)
  {
    ReachInv(nullDeadline, es);
  }

  /** A timer is signalled at most once, and never before its deadline. */
  lemma SignalledOnceInTime(nullDeadline: Time, es: seq<Event>, i: nat, j: nat)
    requires Interleaving(nullDeadline, es)
    requires i < j < |Reach(nullDeadline, es).log|
    ensures
      var log := Reach(nullDeadline, es).log;
      && !(log[i].Fired? && log[j].Fired? && log[i].id == log[j].id)
      && (log[i].SetUp? && log[j].Fired? && log[i].id == log[j].id ==> log[i].deadline <= log[j].at)
  {
    ReachInv(nullDeadline, es);
    var log := Reach(nullDeadline, es).log;
    assert !Forbidden(log[i], log[j]);
    assert log[i] in log && log[j] in log;
  }

  /** Once a timer was asked to be removed it is never signalled, unless it had been already. */
  lemma NoSignalAfterRemove(nullDeadline: Time, es: seq<Event>, i: nat, k: nat, j: nat)
    requires Interleaving(nullDeadline, es)
    requires i < k < j < |Reach(nullDeadline, es).log|
    ensures
      var log := Reach(nullDeadline, es).log;
      log[i].SetUp? && log[k].RemoveCalled? && log[j].Fired? ==> !(log[i].id == log[k].id == log[j].id)
  {
    ReachInv(nullDeadline, es);
  }

  /** The manager takes a waiting timer that no other waiting timer is due before. */
  lemma TakesEarliest(c: Config)
    requires Enabled(c.s, c.now, Take)
    ensures
      var s' := Next(c, Take).s;
      && s'.current.deadline in c.s.timers && c.s.timers[s'.current.deadline] == s'.current.id
      && s'.timers == c.s.timers - {s'.current.deadline}
      && forall t :: t in s'.timers ==> s'.current.deadline < t
  {}

  /** When a timer is signalled, every waiting timer that is due earlier was set up after the
      manager took the one it signals. */
  lemma OnlyNewcomersAreOvertaken(nullDeadline: Time, es: seq<Event>, id: TimerId)
    requires Interleaving(nullDeadline, es)
    requires Enabled(Reach(nullDeadline, es).s, Reach(nullDeadline, es).now, Fire)
    requires Reach(nullDeadline, es).s.current.id != 0
    requires IsWaiting(Reach(nullDeadline, es), id)
    ensures
      var c := Reach(nullDeadline, es);
      c.deadlines[id] < c.s.current.deadline ==> id in c.sinceTake
  {
    ReachInv(nullDeadline, es);
  }

  /** A held timer that is due is signalled in the manager's next two steps; one that is not due is waited for
      until exactly its deadline. */
  lemma HeldIsSignalledInTime(c: Config)
    requires c.s.phase == Checking && c.s.current.id != 0
    ensures c.s.current.deadline <= c.now ==>
              Enabled(Next(c, Check).s, c.now, Fire)
              && Next(Next(c, Check), Fire).log == c.log + [Fired(c.s.current.id, c.now)]
    ensures c.s.current.deadline > c.now ==>
              Enabled(Next(c, Check).s, c.now, Compute)
              && Next(Next(c, Check), Compute).s.phase == Waiting(c.s.current.deadline)
  {}

  /** Such an overtaking happens: the thread is woken while it does not wait yet. */
  lemma NewcomerOvertaken(nullDeadline: Time) returns (es: seq<Event>)
    ensures Interleaving(nullDeadline, es)
    ensures
      var c := Reach(nullDeadline, es);
      && |c.log| == 3 && c.log[2] == Fired(1, 100)
      && IsWaiting(c, 2) && c.deadlines == map[1 := 100, 2 := 50]
  {
    var c0 := InitialConfig(nullDeadline);
    var c3 := FirstIsTaken(nullDeadline);
    RunOfTwo(c0, [], c0, Setup(1, 100), Take);
    RunOfTwo(c0, [] + [Setup(1, 100), Take], c3, Check, Setup(2, 50));
    var es5 := [] + [Setup(1, 100), Take] + [Check, Setup(2, 50)];
    var c5 := SecondComes(c3);
    FirstIsFired(c5);
    RunOfTwo(c0, es5, c5, Compute, Tick(100));
    RunOfTwo(c0, es5 + [Compute, Tick(100)], Next(Next(c5, Compute), Tick(100)), TimeIsUp, Fire);
    es := es5 + [Compute, Tick(100)] + [TimeIsUp, Fire];
  }

  lemma SecondComes(c: Config) returns (c': Config)
    requires c.s.timers == map[] && c.s.current == Timer(1, 100) && c.s.phase == Checking
    requires c.now == 0 && c.log == [SetUp(1, 100)] && c.deadlines == map[1 := 100]
    ensures Allowed(c, Check) && Allowed(Next(c, Check), Setup(2, 50)) && c' == Next(Next(c, Check), Setup(2, 50))
    ensures c'.s.timers == map[50 := 2] && c'.s.current == Timer(1, 100) && c'.s.phase == Computing
    ensures c'.now == 0 && |c'.log| == 2 && c'.deadlines == map[1 := 100, 2 := 50]
  {
    c' := Next(Next(c, Check), Setup(2, 50));
  }

  lemma FirstIsFired(c: Config)
    requires c.s.timers == map[50 := 2] && c.s.current == Timer(1, 100) && c.s.phase == Computing
    requires c.now == 0 && |c.log| == 2 && c.deadlines == map[1 := 100, 2 := 50]
    ensures Allowed(c, Compute) && Allowed(Next(c, Compute), Tick(100))
    ensures
      var c2 := Next(Next(c, Compute), Tick(100));
      && Allowed(c2, TimeIsUp) && Allowed(Next(c2, TimeIsUp), Fire)
      && var c4 := Next(Next(c2, TimeIsUp), Fire);
         |c4.log| == 3 && c4.log[2] == Fired(1, 100) && IsWaiting(c4, 2) && c4.deadlines == c.deadlines
  {}

  lemma FirstIsTaken(nullDeadline: Time) returns (c: Config)
    ensures Allowed(InitialConfig(nullDeadline), Setup(1, 100))
    ensures
      var c1 := Next(InitialConfig(nullDeadline), Setup(1, 100));
      Enabled(c1.s, c1.now, Take) && c == Next(c1, Take)
    ensures c.s.timers == map[] && c.s.current == Timer(1, 100) && c.s.phase == Checking
    ensures c.now == 0 && c.log == [SetUp(1, 100)] && c.deadlines == map[1 := 100]
  {
    var c1 := Next(InitialConfig(nullDeadline), Setup(1, 100));
    assert c1.s.timers == map[100 := 1];
    c := Next(c1, Take);
  }

  /** Two more steps at the end of a run. */
  lemma RunOfTwo(c0: Config, es: seq<Event>, c: Config, e1: Event, e2: Event)
    requires AllowedRun(c0, es) && Run(c0, es) == c
    requires Allowed(c, e1) && Allowed(Next(c, e1), e2)
    ensures AllowedRun(c0, es + [e1, e2]) && Run(c0, es + [e1, e2]) == Next(Next(c, e1), e2)
  {
    RunSnoc(c0, es, e1);
    RunSnoc(c0, es + [e1], e2);
    assert es + [e1] + [e2] == es + [e1, e2];
  }

  lemma {:induction false} RunSnoc(c: Config, es: seq<Event>, e: Event)
    requires AllowedRun(c, es) && Allowed(Run(c, es), e)
    ensures AllowedRun(c, es + [e]) && Run(c, es + [e]) == Next(Run(c, es), e)
    decreases |es|
  {
    if es == [] {
      assert [e][1..] == [];
      assert AllowedRun(Next(c, e), []) && Run(Next(c, e), []) == Next(c, e);
    } else {
      assert (es + [e])[1..] == es[1..] + [e];
      RunSnoc(Next(c, es[0]), es[1..], e);
    }
  }

  // ----- timers that get lost -----

  /** A dropped timer shares its deadline with another one. */
  ghost predicate TwinInv(c: Config) {
    forall id :: id in c.dropped ==>
      id in c.deadlines && exists twin :: twin in c.deadlines && twin != id && c.deadlines[twin] == c.deadlines[id]
  }

  lemma TwinInvKept(c: Config, e: Event)
    requires PlacesInv(c) && TwinInv(c) && Allowed(c, e)
    ensures TwinInv(Next(c, e))
  {
    var c' := Next(c, e);
    forall id | id in c'.dropped
      ensures id in c'.deadlines && exists twin :: twin in c'.deadlines && twin != id && c'.deadlines[twin] == c'.deadlines[id]
    {
      if id in c.dropped {
        var twin :| twin in c.deadlines && twin != id && c.deadlines[twin] == c.deadlines[id];
        assert twin in c'.deadlines && c'.deadlines[twin] == c.deadlines[twin];
      } else {
        var t := if e.Setup? then e.deadline else c.s.current.deadline;
        assert t in c.s.timers;
        var twin := c.s.timers[t];
        assert c.deadlines[twin] == t && IsWaiting(c, twin);
        assert e.StoreAgain? ==> Places(c, twin) == 1 && IsHeld(c.s, id);
        assert twin != id;
        assert twin in c'.deadlines && c'.deadlines[twin] == c'.deadlines[id];
      }
    }
  }

  lemma {:induction false} RunKeepsTwinInv(c: Config, es: seq<Event>)
    requires Inv(c) && TwinInv(c) && AllowedRun(c, es)
    ensures TwinInv(Run(c, es))
    decreases |es|
  {
    if es != [] {
      InvKept(c, es[0]);
      TwinInvKept(c, es[0]);
      RunKeepsTwinInv(Next(c, es[0]), es[1..]);
    }
  }

  /** With distinct deadlines no timer is lost: each one set up is waiting, held, signalled, or
      was removed. */
  lemma NoneLostWithDistinctDeadlines(nullDeadline: Time, es: seq<Event>)
    requires Interleaving(nullDeadline, es)
    requires
      var d := Reach(nullDeadline, es).deadlines;
      forall a, b :: a in d && b in d && a != b ==> d[a] != d[b]
    ensures
      var c := Reach(nullDeadline, es);
      && c.dropped == {}
      && forall id :: id in c.deadlines ==> IsWaiting(c, id) || IsHeld(c.s, id) || id in c.fired || id in c.removed
  {
    ReachInv(nullDeadline, es);
    RunKeepsTwinInv(InitialConfig(nullDeadline), es);
    var c := Reach(nullDeadline, es);
    forall id | id in c.deadlines
      ensures id !in c.dropped
      ensures IsWaiting(c, id) || IsHeld(c.s, id) || id in c.fired || id in c.removed
    {
      assert Places(c, id) == 1;
    }
    assert c.dropped <= c.deadlines.Keys;
  }

  lemma {:induction false} DroppedForGood(c: Config, es: seq<Event>, id: TimerId)
    requires Inv(c) && AllowedRun(c, es) && id in c.dropped
    ensures id in Run(c, es).dropped
    decreases |es|
  {
    if es != [] {
      InvKept(c, es[0]);
      DroppedForGood(Next(c, es[0]), es[1..], id);
    }
  }

  /** A timer set up with the deadline of a waiting one gets an id, but is lost: whatever happens
      afterwards, it is never signalled. */
  lemma EqualDeadlineLosesTimer(nullDeadline: Time, before: seq<Event>, id: TimerId, deadline: Time, after: seq<Event>, at: Time)
    requires Interleaving(nullDeadline, before)
    requires deadline in Reach(nullDeadline, before).s.timers
    requires Allowed(Reach(nullDeadline, before), Setup(id, deadline))
    requires AllowedRun(Next(Reach(nullDeadline, before), Setup(id, deadline)), after)
    ensures Fired(id, at) !in Run(Next(Reach(nullDeadline, before), Setup(id, deadline)), after).log
  {
    ReachInv(nullDeadline, before);
    var c := Next(Reach(nullDeadline, before), Setup(id, deadline));
    InvKept(Reach(nullDeadline, before), Setup(id, deadline));
    DroppedForGood(c, after, id);
    RunKeepsInv(c, after);
    assert Places(Run(c, after), id) == 1;
  }
}
