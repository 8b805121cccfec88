/** What every critical section of the timer service keeps, in any interleaving. */
module TimerInvariants {
  import opened Timers

  lemma InitialInv(nullDeadline: Time)
    ensures Inv(InitialConfig(nullDeadline))
  {}

  lemma SetupKeepsPlaces(c: Config, e: Event)
    requires PlacesInv(c) && Allowed(c, e) && e.Setup?
    ensures PlacesInv(Next(c, e))
  {
    var c' := Next(c, e);
    forall id | id in c'.deadlines
      ensures Places(c', id) == 1
    {
      if id != e.id {
        assert Places(c, id) == 1;
        assert IsWaiting(c', id) == IsWaiting(c, id);
      }
    }
  }

  lemma RemoveKeepsPlaces(c: Config, e: Event)
    requires PlacesInv(c) && e.Remove?
    ensures PlacesInv(Next(c, e))
  {
    var c' := Next(c, e);
    forall id | id in c'.deadlines
      ensures Places(c', id) == 1
    {
      assert Places(c, id) == 1;
    }
  }

  lemma TakeKeepsPlaces(c: Config, e: Event)
    requires PlacesInv(c) && Allowed(c, e) && e.Take?
    ensures PlacesInv(Next(c, e))
  {
    var c' := Next(c, e);
    forall id | id in c'.deadlines
      ensures Places(c', id) == 1
    {
      assert Places(c, id) == 1;
    }
  }

  lemma FireKeepsPlaces(c: Config, e: Event)
    requires PlacesInv(c) && Allowed(c, e) && e.Fire?
    ensures PlacesInv(Next(c, e))
  {
    var c' := Next(c, e);
    forall id | id in c'.deadlines
      ensures Places(c', id) == 1
    {
      assert Places(c, id) == 1;
    }
  }

  lemma StoreAgainKeepsPlaces(c: Config, e: Event)
    requires PlacesInv(c) && Allowed(c, e) && e.StoreAgain?
    ensures PlacesInv(Next(c, e))
  {
    var c' := Next(c, e);
    forall id | id in c'.deadlines
      ensures Places(c', id) == 1
    {
      assert Places(c, id) == 1;
    }
  }

  lemma OtherKeepsPlaces(c: Config, e: Event)
    requires PlacesInv(c) && Allowed(c, e)
    requires e.Tick? || e.Check? || e.Compute? || e.TimeIsUp? || e.Wake?
    ensures PlacesInv(Next(c, e))
  {
    var c' := Next(c, e);
    forall id | id in c'.deadlines
      ensures Places(c', id) == 1
    {
      assert Places(c, id) == 1;
    }
  }

  lemma PlacesKept(c: Config, e: Event)
    requires PlacesInv(c) && Allowed(c, e)
    ensures PlacesInv(Next(c, e))
  {
    match e
    case Setup(_, _) => SetupKeepsPlaces(c, e);
    case Remove(_) => RemoveKeepsPlaces(c, e);
    case Take => TakeKeepsPlaces(c, e);
    case Fire => FireKeepsPlaces(c, e);
    case StoreAgain => StoreAgainKeepsPlaces(c, e);
    case _ => OtherKeepsPlaces(c, e);
  }

  lemma ClockKept(c: Config, e: Event)
    requires PlacesInv(c) && ClockInv(c) && Allowed(c, e)
    ensures ClockInv(Next(c, e))
  {}

  lemma EarliestKept(c: Config, e: Event)
    requires PlacesInv(c) && EarliestInv(c) && Allowed(c, e)
    ensures EarliestInv(Next(c, e))
  {}

  /** A timer that was neither waiting nor held is neither after any step that does not set it up. */
  lemma GoneStaysGone(c: Config, e: Event, id: TimerId)
    requires PlacesInv(c) && Allowed(c, e) && id in c.deadlines
    requires !IsWaiting(c, id) && !IsHeld(c.s, id)
    ensures !IsWaiting(Next(c, e), id) && !IsHeld(Next(c, e).s, id)
  {}

  lemma RemovedIsGone(c: Config, id: TimerId)
    requires PlacesInv(c) && id in c.deadlines
    ensures !IsWaiting(Next(c, Remove(id)), id) && !IsHeld(Next(c, Remove(id)).s, id)
  {
    assert Places(c, id) == 1;
  }

  /** A step adds at most one entry to the log, of its own kind. */
  lemma LogGains(c: Config, e: Event)
    requires Enabled(c.s, c.now, e)
    ensures
      Next(c, e).log
      == c.log + match e
                 case Setup(id, deadline) => [SetUp(id, deadline)]
                 case Remove(id) => [RemoveCalled(id)]
                 case Fire => if c.s.current.id == 0 then [] else [Fired(c.s.current.id, c.now)]
                 case _ => []
  {}

  lemma RemoveRespectedKept(c: Config, e: Event)
    requires PlacesInv(c) && RemoveRespected(c) && LogInv(c) && Allowed(c, e)
    ensures RemoveRespected(Next(c, e))
  {
    var c' := Next(c, e);
    LogGains(c, e);
    forall k, i | 0 <= i < k < |c'.log| && c'.log[k].RemoveCalled? && c'.log[i].SetUp? && c'.log[i].id == c'.log[k].id
      ensures !IsWaiting(c', c'.log[k].id) && !IsHeld(c'.s, c'.log[k].id)
    {
      var id := c'.log[k].id;
      assert c'.log[i] == c.log[i] && c.log[i] in c.log;
      if k < |c.log| {
        assert c'.log[k] == c.log[k];
        GoneStaysGone(c, e, id);
      } else {
        RemovedIsGone(c, id);
      }
    }
  }

  lemma HeldFires(c: Config)
    requires PlacesInv(c) && ClockInv(c) && Allowed(c, Fire) && c.s.current.id != 0
    ensures IsHeld(c.s, c.s.current.id) && c.s.current.id in c.deadlines && c.s.current.id !in c.fired
    ensures c.deadlines[c.s.current.id] <= c.now
  {
    assert Places(c, c.s.current.id) == 1;
  }

  lemma EntriesKept(c: Config, e: Event)
    requires PlacesInv(c) && ClockInv(c) && LogInv(c) && Allowed(c, e)
    ensures
      var c' := Next(c, e);
      && (forall x :: x in c'.log && x.SetUp? ==> x.id in c'.deadlines && c'.deadlines[x.id] == x.deadline)
      && (forall x :: x in c'.log && x.Fired? ==> x.id in c'.fired && x.id in c'.deadlines && c'.deadlines[x.id] <= x.at <= c'.now)
      && (forall id :: id in c'.fired ==> exists x :: x in c'.log && x.Fired? && x.id == id)
  {
    var c' := Next(c, e);
    LogGains(c, e);
    if e.Fire? && c.s.current.id != 0 { HeldFires(c); }
    forall id | id in c'.fired
      ensures exists x :: x in c'.log && x.Fired? && x.id == id
    {
      if id in c.fired {
        var x :| x in c.log && x.Fired? && x.id == id;
        assert x in c'.log;
      } else {
        assert Fired(id, c.now) in c'.log;
      }
    }
  }

  /** What a signal appended to the log must not meet there. */
  lemma FiredRespectsPast(c: Config)
    requires PlacesInv(c) && ClockInv(c) && LogInv(c) && RemoveRespected(c) && Allowed(c, Fire) && c.s.current.id != 0
    ensures forall i :: 0 <= i < |c.log| ==> !Forbidden(c.log[i], Fired(c.s.current.id, c.now))
    ensures forall i, k :: 0 <= i < k < |c.log| && c.log[i].SetUp? && c.log[k].RemoveCalled? ==>
              !(c.log[i].id == c.log[k].id == c.s.current.id)
  {
    HeldFires(c);
    forall i | 0 <= i < |c.log|
      ensures !Forbidden(c.log[i], Fired(c.s.current.id, c.now))
    {
      assert c.log[i] in c.log;
    }
  }

  lemma LogKept(c: Config, e: Event)
    requires PlacesInv(c) && ClockInv(c) && LogInv(c) && RemoveRespected(c) && Allowed(c, e)
    ensures LogInv(Next(c, e))
  {
    var c' := Next(c, e);
    LogGains(c, e);
    EntriesKept(c, e);
    if e.Fire? && c.s.current.id != 0 {
      FiredRespectsPast(c);
    }
    forall i, j | 0 <= i < j < |c'.log|
      ensures !Forbidden(c'.log[i], c'.log[j])
    {
      if j < |c.log| { assert !Forbidden(c.log[i], c.log[j]); }
    }
    forall i, k, j | 0 <= i < k < j < |c'.log| && c'.log[i].SetUp? && c'.log[k].RemoveCalled? && c'.log[j].Fired?
      ensures !(c'.log[i].id == c'.log[k].id == c'.log[j].id)
    {
      assert c'.log[i] == c.log[i] && c'.log[k] == c.log[k];
      if j < |c.log| { assert c'.log[j] == c.log[j]; }
    }
  }

  lemma InvKept(c: Config, e: Event)
    requires Inv(c) && Allowed(c, e)
    ensures Inv(Next(c, e))
  {
    PlacesKept(c, e);
    ClockKept(c, e);
    EarliestKept(c, e);
    RemoveRespectedKept(c, e);
    LogKept(c, e);
  }

  lemma {:induction false} RunKeepsInv(c: Config, es: seq<Event>)
    requires Inv(c) && AllowedRun(c, es)
    ensures Inv(Run(c, es))
    decreases |es|
  {
    if es != [] {
      InvKept(c, es[0]);
      RunKeepsInv(Next(c, es[0]), es[1..]);
    }
  }
}
