/** The timer service, on values: a set of waiting timers and one timer that the manager thread
    holds. Every critical section of the original is one step, so a run of steps is any
    interleaving of the manager thread with callers. */
module Timers {
  import opened Prelude

  type TimerId = nat   // 0 is the invalid id, that of the null timer
  type Time = nat

  datatype Timer = Timer(id: TimerId, deadline: Time)

  /** Where the manager thread stands in its loop. */
  datatype Phase =
    | Idle                  // about to take the next timer
    | Checking              // about to compare the held timer with the clock
    | Computing             // about to compute how long to wait
    | Waiting(until: Time)
    | Expired               // about to signal the held timer
    | Woken                 // about to put the held timer back

  /** The waiting timers are ordered, and told apart, by their deadline alone. */
  datatype Service = Service(timers: map<Time, TimerId>, current: Timer, phase: Phase, nullTimer: Timer)

  datatype Event =
    | Tick(elapsed: Time)
    | Setup(id: TimerId, deadline: Time)
    | Remove(id: TimerId)
    | Take | Check | Compute | TimeIsUp | Wake | Fire | StoreAgain

  ghost function Earliest(timers: map<Time, TimerId>): (t: Time)
    requires timers != map[]
    ensures t in timers && forall u :: u in timers ==> t <= u
  {
    EarliestExists(timers.Keys);
    var t :| t in timers && forall u :: u in timers ==> t <= u;
    t
  }

  lemma EarliestIs(timers: map<Time, TimerId>, t: Time)
    requires t in timers && forall u :: u in timers ==> t <= u
    ensures Earliest(timers) == t
  {}

  /** With one entry for `id`, erasing it leaves the others. */
  lemma OneEntry(timers: map<Time, TimerId>, t: Time, id: TimerId)
    requires t in timers && timers[t] == id
    requires forall u :: u in timers && timers[u] == id ==> u == t
    ensures timers - {t} == map u | u in timers && timers[u] != id :: timers[u]
  {}

  /** With no entry for `id`, erasing it changes nothing. */
  lemma NoEntry(timers: map<Time, TimerId>, id: TimerId)
    requires forall u :: u in timers ==> timers[u] != id
    ensures timers == map u | u in timers && timers[u] != id :: timers[u]
  {}

  lemma {:induction false} EarliestOf(times: set<Time>) returns (first: Time)
    requires times != {}
    ensures first in times && forall u :: u in times ==> first <= u
    decreases times
  {
    first :| first in times;
    var others := times - {first};
    if others != {} {
      var m := EarliestOf(others);
      forall u | u in times
        ensures u == first || m <= u
      {
        assert u == first || u in others;
      }
      if m < first { first := m; }
    } else {
      assert forall u :: u in times ==> u == first || u in others;
    }
  }

  lemma EarliestExists(times: set<Time>)
    requires times != {}
    ensures exists t :: t in times && forall u :: u in times ==> t <= u
  {
    var t := EarliestOf(times);
  }

  predicate Enabled(s: Service, now: Time, e: Event) {
    match e
    case Take => s.phase == Idle && s.timers != map[]
    case Check => s.phase == Checking
    case Compute => s.phase == Computing
    case TimeIsUp => s.phase.Waiting? && now >= s.phase.until
    case Wake => s.phase.Waiting?
    case Fire => s.phase == Expired
    case StoreAgain => s.phase == Woken
    case _ => true
  }

  /** What one critical section does. A removed current timer is replaced by the null timer; a
      fired one stays in `current` until the next take. */
  ghost function Step(s: Service, now: Time, e: Event): Service
    requires Enabled(s, now, e)
  {
    match e
    case Tick(_) => s
    case Setup(id, deadline) => s.(timers := InsertIfAbsent(s.timers, deadline, id))
    case Remove(id) =>
      if s.current.id == id then s.(current := s.nullTimer)
      else s.(timers := map t | t in s.timers && s.timers[t] != id :: s.timers[t])
    case Take =>
      var t := Earliest(s.timers);
      s.(timers := s.timers - {t}, current := Timer(s.timers[t], t), phase := Checking)
    case Check => s.(phase := if s.current.deadline > now then Computing else Expired)
    case Compute => s.(phase := Waiting(s.current.deadline))
    case TimeIsUp => s.(phase := Expired)
    case Wake => s.(phase := Woken)
    case Fire => s.(phase := Idle)
    case StoreAgain =>
      s.(timers := if s.current.id != 0 then InsertIfAbsent(s.timers, s.current.deadline, s.current.id) else s.timers,
         current := s.nullTimer, phase := Idle)
  }

  /** Removing a waiting timer, and removing one that is neither held nor waiting. */
  lemma RemoveIs(s: Service, now: Time, id: TimerId, t: Time)
    requires s.current.id != id && t in s.timers && s.timers[t] == id
    requires forall u :: u in s.timers && s.timers[u] == id ==> u == t
    ensures Step(s, now, Remove(id)) == s.(timers := s.timers - {t})
  {
    OneEntry(s.timers, t, id);
  }

  lemma RemoveNothing(s: Service, now: Time, id: TimerId)
    requires s.current.id != id && forall u :: u in s.timers ==> s.timers[u] != id
    ensures Step(s, now, Remove(id)) == s
  {
    NoEntry(s.timers, id);
  }

  // ----- runs -----

  datatype Entry =
    | SetUp(id: TimerId, deadline: Time)
    | RemoveCalled(id: TimerId)
    | Fired(id: TimerId, at: Time)

  /** A service with its clock and its history: the deadline of every timer ever set up, those
      that were signalled, removed in time, or dropped, and those set up since the last take. */
  datatype Config = Config(
    s: Service,
    now: Time,
    log: seq<Entry>,
    deadlines: map<TimerId, Time>,
    fired: set<TimerId>,
    removed: set<TimerId>,
    dropped: set<TimerId>,
    sinceTake: set<TimerId>)

  function InitialConfig(nullDeadline: Time): Config {
    var nullTimer := Timer(0, nullDeadline);
    Config(Service(map[], nullTimer, Idle, nullTimer), 0, [], map[], {}, {}, {}, {})
  }

  /** The manager holds the timer and has not signalled it yet. */
  predicate IsHeld(s: Service, id: TimerId) {
    s.phase != Idle && s.current.id == id && id != 0
  }

  predicate IsWaiting(c: Config, id: TimerId) {
    id in c.deadlines && c.deadlines[id] in c.s.timers && c.s.timers[c.deadlines[id]] == id
  }

  ghost function Next(c: Config, e: Event): Config
    requires Enabled(c.s, c.now, e)
  {
    var s' := Step(c.s, c.now, e);
    match e
    case Tick(elapsed) => c.(now := c.now + elapsed)
    case Setup(id, deadline) =>
      c.(s := s', log := c.log + [SetUp(id, deadline)], deadlines := c.deadlines[id := deadline],
         dropped := c.dropped + (if deadline in c.s.timers then {id} else {}), sinceTake := c.sinceTake + {id})
    case Remove(id) =>
      c.(s := s', log := c.log + [RemoveCalled(id)],
         removed := c.removed + (if IsHeld(c.s, id) || IsWaiting(c, id) then {id} else {}))
    case Take => c.(s := s', sinceTake := {})
    case Fire =>
      if c.s.current.id == 0 then c.(s := s')
      else c.(s := s', log := c.log + [Fired(c.s.current.id, c.now)], fired := c.fired + {c.s.current.id})
    case StoreAgain =>
      c.(s := s', dropped := c.dropped + (if c.s.current.id != 0 && c.s.current.deadline in c.s.timers
                                          then {c.s.current.id} else {}))
    case _ => c.(s := s')
  }

  /** New timers have fresh ids other than 0. */
  predicate Allowed(c: Config, e: Event) {
    Enabled(c.s, c.now, e) && (e.Setup? ==> e.id != 0 && e.id !in c.deadlines)
  }

  ghost predicate AllowedRun(c: Config, es: seq<Event>)
    decreases |es|
  {
    es == [] || (Allowed(c, es[0]) && AllowedRun(Next(c, es[0]), es[1..]))
  }

  ghost function Run(c: Config, es: seq<Event>): Config
    requires AllowedRun(c, es)
    decreases |es|
  {
    if es == [] then c else Run(Next(c, es[0]), es[1..])
  }

  // ----- what every step keeps -----

  function B(p: bool): nat { if p then 1 else 0 }

  /** In how many of the five places a timer is: waiting, held, signalled, removed, dropped. */
  function Places(c: Config, id: TimerId): nat {
    B(IsWaiting(c, id)) + B(IsHeld(c.s, id)) + B(id in c.fired) + B(id in c.removed) + B(id in c.dropped)
  }

  ghost predicate PlacesInv(c: Config) {
    && (forall id :: id in c.deadlines ==> id != 0 && Places(c, id) == 1)
    && c.fired + c.removed + c.dropped <= c.deadlines.Keys
    && (forall t :: t in c.s.timers ==> c.s.timers[t] in c.deadlines && c.deadlines[c.s.timers[t]] == t)
    && (c.s.current.id == 0 || (c.s.current.id in c.deadlines && c.deadlines[c.s.current.id] == c.s.current.deadline))
    && c.s.nullTimer.id == 0
    && (c.s.phase == Idle ==> c.s.current.id == 0 || !IsWaiting(c, c.s.current.id))
  }

  /** The wait ends at the deadline of the held timer, or later. */
  ghost predicate ClockInv(c: Config) {
    c.s.current.id != 0 ==>
      && (c.s.phase.Waiting? ==> c.s.current.deadline <= c.s.phase.until)
      && (c.s.phase == Expired ==> c.s.current.deadline <= c.now)
  }

  /** Only a timer set up since the last take can have an earlier deadline than the held one. */
  ghost predicate EarliestInv(c: Config) {
    c.s.phase != Idle && c.s.current.id != 0 ==>
      forall t :: t in c.s.timers && t < c.s.current.deadline ==> c.s.timers[t] in c.sinceTake
  }

  ghost predicate RemoveRespected(c: Config) {
    forall k, i :: 0 <= i < k < |c.log| && c.log[k].RemoveCalled? && c.log[i].SetUp? && c.log[i].id == c.log[k].id ==>
      !IsWaiting(c, c.log[k].id) && !IsHeld(c.s, c.log[k].id)
  }

  predicate Forbidden(a: Entry, b: Entry) {
    a.Fired? && b.Fired? && a.id == b.id
  }

  ghost predicate LogInv(c: Config) {
    && (forall x :: x in c.log && x.SetUp? ==> x.id in c.deadlines && c.deadlines[x.id] == x.deadline)
    && (forall x :: x in c.log && x.Fired? ==> x.id in c.fired && x.id in c.deadlines && c.deadlines[x.id] <= x.at <= c.now)
    && (forall id :: id in c.fired ==> exists x :: x in c.log && x.Fired? && x.id == id)
    && (forall i, j :: 0 <= i < j < |c.log| ==> !Forbidden(c.log[i], c.log[j]))
    && (forall i, k, j :: 0 <= i < k < j < |c.log| && c.log[i].SetUp? && c.log[k].RemoveCalled? && c.log[j].Fired? ==>
          !(c.log[i].id == c.log[k].id == c.log[j].id))
  }

  ghost predicate Inv(c: Config) {
    PlacesInv(c) && ClockInv(c) && EarliestInv(c) && RemoveRespected(c) && LogInv(c)
  }
}
