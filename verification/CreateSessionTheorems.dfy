/** A Create Session Request from end to end: made into a message, dumped, loaded by the peer and
    made into a request again. */
module CreateSessionTheorems {
  import opened Prelude
  import opened Octets
  import opened Elements
  import opened ElementRoundTrip
  import opened MessageTheorems
  import opened CoreTypes
  import opened CoreRoundTrip
  import opened CoreTheorems
  import opened CreateSession

  // ----- what comes back -----

  /** The values of the fields that are sent, as they come back. */
  function BackValues(values: Values, slots: seq<Slot>): Values
    requires ValuesOk(values, slots)
  {
    map s | s in values && s in slots :: Back(s.typ, values[s])
  }

  function BackContexts(contexts: seq<Values>, slots: seq<Slot>): (r: seq<Values>)
    requires ContextsOk(contexts, slots)
    ensures |r| == |contexts|
  {
    seq(|contexts|, k requires 0 <= k < |contexts| => BackValues(contexts[k], slots))
  }

  /** The request that the peer ends up with. */
  function ReceivedRequest(r: Request): Request
    requires RequestOk(r)
  {
    Request(BackValues(r.values, FIRST_SLOTS) + BackValues(r.values, LAST_SLOTS),
            if r.hasCreated then BackContexts(r.created, CREATED_SLOTS) else [], r.hasCreated && r.created != [],
            if r.hasRemoved then BackContexts(r.removed, REMOVED_SLOTS) else [], r.hasRemoved && r.removed != [])
  }

  // ----- elements in sync -----

  /** The element of a value that is sent, as the peer loads it. */
  lemma EmittedReturns(values: Values, slots: seq<Slot>)
    requires ValuesOk(values, slots) && slots != [] && slots[0] in values
    ensures
      var ie := ToElement(slots[0].typ, slots[0].instance, values[slots[0]]);
      && InSync(ie) && AfterDump(ie).tlv == ie.tlv && ie.tlv.length > 0
      && Reloaded(ie).tlv == ie.tlv && ie.tlv.typ == slots[0].typ && ie.tlv.fourth == slots[0].instance
      && FromElement(slots[0].typ, Reloaded(ie).body) == Ok(Back(slots[0].typ, values[slots[0]]))
      && !Reloaded(ie).body.Group?
  {
    var v := values[slots[0]];
    ValueReturns(slots[0].typ, slots[0].instance, v);
    MadeTlvStays(slots[0].typ, slots[0].instance, v);
    ReloadedTlv(ToElement(slots[0].typ, slots[0].instance, v));
  }

  lemma {:induction false} EmittedInSync(values: Values, slots: seq<Slot>)
    requires ValuesOk(values, slots)
    ensures AllInSync(Emit(values, slots)) && TlvsStay(Emit(values, slots))
    decreases |slots|
  {
    if slots != [] {
      EmittedInSync(values, slots[1..]);
      if slots[0] in values { EmittedReturns(values, slots); }
    }
  }

  /** Dumping leaves the length and the instance of these elements alone. */
  predicate TlvsStay(ies: seq<Ie>) {
    forall i :: 0 <= i < |ies| ==> AfterDump(ies[i]).tlv == ies[i].tlv
  }

  // ----- putting values into a request -----

  /** The fields of `slots` are the ones their elements set. */
  predicate Placed(owner: Owner, slots: seq<Slot>) {
    forall k :: 0 <= k < |slots| ==>
      slots[k].instance < 16 && slots[k].typ != BEARER_CONTEXT
      && Place(owner, slots[k].typ, slots[k].instance) == Ok(slots[k])
  }

  lemma SetOne(owner: Owner, acc: Values, values: Values, slots: seq<Slot>)
    requires ValuesOk(values, slots) && slots != [] && slots[0] in values && Placed(owner, slots)
    ensures
      var ie := ToElement(slots[0].typ, slots[0].instance, values[slots[0]]);
      InSync(ie) && Set(owner, acc, Reloaded(ie)) == Ok(acc[slots[0] := Back(slots[0].typ, values[slots[0]])])
  {
    EmittedReturns(values, slots);
    var ie := ToElement(slots[0].typ, slots[0].instance, values[slots[0]]);
    FirstPlaced(owner, slots, Reloaded(ie).tlv);
    SetIs(owner, acc, Reloaded(ie), slots[0], Back(slots[0].typ, values[slots[0]]));
  }

  lemma FirstPlaced(owner: Owner, slots: seq<Slot>, tlv: Tlv)
    requires slots != [] && Placed(owner, slots) && tlv.typ == slots[0].typ && tlv.fourth == slots[0].instance
    ensures Place(owner, tlv.typ, Instance(tlv)) == Ok(slots[0])
  {}

  lemma SetIs(owner: Owner, acc: Values, ie: Ie, slot: Slot, v: Core)
    requires Place(owner, ie.tlv.typ, Instance(ie.tlv)) == Ok(slot) && FromElement(ie.tlv.typ, ie.body) == Ok(v)
    ensures Set(owner, acc, ie) == Ok(acc[slot := v])
  {}

  lemma UpdateFirst(acc: Values, s0: Slot, v: Core, b: Values, c: Values)
    requires s0 in c && c[s0] == v && forall s :: s in c <==> s == s0 || s in b
    requires forall s :: s in b ==> s in c && c[s] == b[s]
    ensures acc[s0 := v] + b == acc + c
  {}

  lemma FirstOrLater(slots: seq<Slot>, s: Slot)
    requires slots != []
    ensures s in slots <==> s == slots[0] || s in slots[1..]
  {}

  lemma BackOfPresent(acc: Values, values: Values, slots: seq<Slot>)
    requires ValuesOk(values, slots) && slots != [] && slots[0] in values
    ensures acc[slots[0] := Back(slots[0].typ, values[slots[0]])] + BackValues(values, slots[1..]) == acc + BackValues(values, slots)
  {
    var b, c := BackValues(values, slots[1..]), BackValues(values, slots);
    forall s
      ensures s in c <==> s == slots[0] || s in b
    {
      FirstOrLater(slots, s);
    }
    UpdateFirst(acc, slots[0], Back(slots[0].typ, values[slots[0]]), b, c);
  }

  lemma BackOfAbsent(values: Values, slots: seq<Slot>)
    requires ValuesOk(values, slots) && slots != [] && slots[0] !in values
    ensures BackValues(values, slots[1..]) == BackValues(values, slots)
  {
    assert forall s :: s in values ==> (s in slots[1..] <==> s in slots);
  }

  lemma ReloadedCons(ie: Ie, rest: seq<Ie>)
    requires InSync(ie) && AllInSync(rest)
    ensures AllInSync([ie] + rest) && ReloadedAll([ie] + rest) == [Reloaded(ie)] + ReloadedAll(rest)
  {
    assert ([ie] + rest)[1..] == rest;
  }

  lemma SetAllCons(owner: Owner, acc: Values, ie: Ie, rest: seq<Ie>, acc': Values)
    requires Set(owner, acc, ie) == Ok(acc')
    ensures SetAll(owner, acc, [ie] + rest) == SetAll(owner, acc', rest)
  {
    assert ([ie] + rest)[1..] == rest;
  }

  /** Setting what was emitted, one field after the other. */
  lemma {:induction false} SetEmitted(owner: Owner, acc: Values, values: Values, slots: seq<Slot>)
    requires ValuesOk(values, slots) && Placed(owner, slots)
    ensures AllInSync(Emit(values, slots))
    ensures SetAll(owner, acc, ReloadedAll(Emit(values, slots))) == Ok(acc + BackValues(values, slots))
    decreases |slots|
  {
    EmittedInSync(values, slots);
    if slots == [] {
      assert acc + BackValues(values, slots) == acc;
    } else if slots[0] in values {
      var ie := ToElement(slots[0].typ, slots[0].instance, values[slots[0]]);
      var acc' := acc[slots[0] := Back(slots[0].typ, values[slots[0]])];
      SetOne(owner, acc, values, slots);
      SetEmitted(owner, acc', values, slots[1..]);
      ReloadedCons(ie, Emit(values, slots[1..]));
      SetAllCons(owner, acc, Reloaded(ie), ReloadedAll(Emit(values, slots[1..])), acc');
      BackOfPresent(acc, values, slots);
    } else {
      SetEmitted(owner, acc, values, slots[1..]);
      assert Emit(values, slots) == Emit(values, slots[1..]);
      BackOfAbsent(values, slots);
    }
  }

  lemma TakeAllCons(r: Request, ie: Ie, rest: seq<Ie>, r': Request)
    requires Take(r, ie) == Ok(r')
    ensures TakeAll(r, [ie] + rest) == TakeAll(r', rest)
  {
    assert ([ie] + rest)[1..] == rest;
  }

  lemma {:induction false} TakeAllAppend(r: Request, a: seq<Ie>, b: seq<Ie>, r': Request)
    requires TakeAll(r, a) == Ok(r')
    ensures TakeAll(r, a + b) == TakeAll(r', b)
    decreases |a|
  {
    if a == [] {
      assert a + b == b;
    } else {
      var r1 := Take(r, a[0]).value;
      assert (a + b)[0] == a[0];
      assert (a + b)[1..] == a[1..] + b;
      TakeAllAppend(r1, a[1..], b, r');
    }
  }

  /** Elements that are not grouped are taken as they are set. */
  lemma {:induction false} TakeIsSet(r: Request, ies: seq<Ie>)
    requires forall i :: 0 <= i < |ies| ==> !ies[i].body.Group?
    requires SetAll(OfRequest, r.values, ies).Ok?
    ensures TakeAll(r, ies) == Ok(r.(values := SetAll(OfRequest, r.values, ies).value))
    decreases |ies|
  {
    if ies != [] {
      TakeIsSet(r.(values := Set(OfRequest, r.values, ies[0]).value), ies[1..]);
    }
  }

  lemma {:induction false} EmittedNotGrouped(values: Values, slots: seq<Slot>)
    requires ValuesOk(values, slots) && AllInSync(Emit(values, slots))
    ensures forall i :: 0 <= i < |Emit(values, slots)| ==> !ReloadedAll(Emit(values, slots))[i].body.Group?
    decreases |slots|
  {
    if slots != [] {
      EmittedInSync(values, slots[1..]);
      EmittedNotGrouped(values, slots[1..]);
      if slots[0] in values {
        EmittedReturns(values, slots);
        ReloadedCons(ToElement(slots[0].typ, slots[0].instance, values[slots[0]]), Emit(values, slots[1..]));
      } else {
        assert Emit(values, slots) == Emit(values, slots[1..]);
      }
    }
  }

  lemma TakeEmitted(r: Request, values: Values, slots: seq<Slot>)
    requires ValuesOk(values, slots) && Placed(OfRequest, slots)
    ensures AllInSync(Emit(values, slots))
    ensures TakeAll(r, ReloadedAll(Emit(values, slots))) == Ok(r.(values := r.values + BackValues(values, slots)))
  {
    SetEmitted(OfRequest, r.values, values, slots);
    EmittedNotGrouped(values, slots);
    TakeIsSet(r, ReloadedAll(Emit(values, slots)));
  }

  // ----- bearer contexts -----

  /** The types that bearer contexts are sent with: none of their elements is longer than 25. */
  predicate OnlySmall(slots: seq<Slot>) {
    forall k :: 0 <= k < |slots| ==>
      slots[k].typ == EPS_BEARER_ID || slots[k].typ == FULLY_QUALIFIED_TEID || slots[k].typ == BEARER_QOS
  }

  lemma {:induction false} EmitSmall(values: Values, slots: seq<Slot>)
    requires ValuesOk(values, slots) && OnlySmall(slots)
    ensures TotalLength(Emit(values, slots)) <= 29 * |slots|
    decreases |slots|
  {
    if slots != [] {
      EmitSmall(values, slots[1..]);
      if slots[0] in values {
        EmittedReturns(values, slots);
        var ie := ToElement(slots[0].typ, slots[0].instance, values[slots[0]]);
        assert Emit(values, slots) == [ie] + Emit(values, slots[1..]);
        assert ([ie] + Emit(values, slots[1..]))[1..] == Emit(values, slots[1..]);
      } else {
        assert Emit(values, slots) == Emit(values, slots[1..]);
      }
    }
  }

  function ContextElement(context: Values, slots: seq<Slot>, instance: byte): Ie
    requires ValuesOk(context, slots)
  {
    BuildGroup(EmptyGroup(instance), Emit(context, slots))
  }

  lemma ContextElementIs(context: Values, slots: seq<Slot>, instance: byte)
    requires ValuesOk(context, slots) && OnlySmall(slots) && |slots| <= 10
    ensures
      var ies := Emit(context, slots);
      && AllInSync(ies) && TotalLength(ies) < 0x1_0000
      && ContextElement(context, slots, instance) == Ie(Tlv(BEARER_CONTEXT, TotalLength(ies), instance), Group(ies))
  {
    var ies := Emit(context, slots);
    EmittedInSync(context, slots);
    EmitSmall(context, slots);
    BuildGroupCounts(EmptyGroup(instance), ies);
    assert [] + ies == ies;
  }

  /** The grouped element of a bearer context: it has the length of its elements, and it loads as
      they do, or not at all if there are none. */
  lemma ContextReturns(context: Values, slots: seq<Slot>, instance: byte)
    requires ValuesOk(context, slots) && OnlySmall(slots) && |slots| <= 10
    ensures
      var g := ContextElement(context, slots, instance);
      && AfterDump(g).tlv == g.tlv && g.tlv.fourth == instance
      && (IsEmpty(g) <==> Emit(context, slots) == [])
      && AllInSync(Emit(context, slots))
      && (!IsEmpty(g) ==> InSync(g) && Reloaded(g) == Ie(g.tlv, Group(ReloadedAll(Emit(context, slots)))))
  {
    var ies := Emit(context, slots);
    ContextElementIs(context, slots, instance);
    var tlv := Tlv(BEARER_CONTEXT, TotalLength(ies), instance);
    GroupPayload(Ie(tlv, Group(ies)));
    if ies != [] {
      assert TotalLength(ies) >= TLV_LENGTH;
      GroupInSync(tlv, ies);
    }
  }

  /** Every bearer context is sent with at least one element. */
  predicate NoneEmpty(contexts: seq<Values>, slots: seq<Slot>)
    requires ContextsOk(contexts, slots)
  {
    forall k :: 0 <= k < |contexts| ==> Emit(contexts[k], slots) != []
  }

  lemma {:induction false} ContextsSync(contexts: seq<Values>, slots: seq<Slot>, instance: byte)
    requires ContextsOk(contexts, slots) && OnlySmall(slots) && |slots| <= 10
    ensures
      var ies := EmitContexts(contexts, slots, instance);
      && LengthsStay(ies)
      && forall k :: 0 <= k < |ies| ==>
           if Emit(contexts[k], slots) == [] then IsEmpty(ies[k]) else InSync(ies[k]) && !IsEmpty(ies[k])
    decreases |contexts|
  {
    if contexts != [] {
      ContextReturns(contexts[0], slots, instance);
      ContextsSync(contexts[1..], slots, instance);
    }
  }

  lemma ContextsSyncOrEmpty(contexts: seq<Values>, slots: seq<Slot>, instance: byte)
    requires ContextsOk(contexts, slots) && OnlySmall(slots) && |slots| <= 10
    ensures
      var ies := EmitContexts(contexts, slots, instance);
      && SyncOrEmpty(ies) && LengthsStay(ies)
      && (AnyEmpty(ies) <==> !NoneEmpty(contexts, slots))
      && (NoneEmpty(contexts, slots) ==> AllInSync(ies))
  {
    ContextsSync(contexts, slots, instance);
    var ies := EmitContexts(contexts, slots, instance);
    if !NoneEmpty(contexts, slots) {
      var k :| 0 <= k < |contexts| && Emit(contexts[k], slots) == [];
      assert IsEmpty(ies[k]);
    }
  }

  lemma AnyEmptyCons(ie: Ie, rest: seq<Ie>)
    ensures AnyEmpty([ie] + rest) <==> IsEmpty(ie) || AnyEmpty(rest)
  {
    var all := [ie] + rest;
    if IsEmpty(ie) { assert IsEmpty(all[0]); }
    if AnyEmpty(rest) {
      var i :| 0 <= i < |rest| && IsEmpty(rest[i]);
      assert IsEmpty(all[i + 1]);
    }
  }

  /** What a request gains by bearer contexts. */
  function AddContexts(r: Request, instance: byte, contexts: seq<Values>): Request {
    if instance == 0 then r.(created := r.created + contexts, hasCreated := r.hasCreated || contexts != [])
    else r.(removed := r.removed + contexts, hasRemoved := r.hasRemoved || contexts != [])
  }

  /** The fields that a bearer context of this instance is sent with are fields it has. */
  predicate SlotsFit(instance: byte, slots: seq<Slot>) {
    && instance < 2 && Placed(OfBearer, slots) && OnlySmall(slots) && |slots| <= 10
    && forall s :: s in slots ==> if instance == 0 then HasCreatedSlot(s) else HasRemovedSlot(s)
  }

  lemma ContextSlotsFit()
    ensures SlotsFit(0, CREATED_SLOTS) && SlotsFit(1, REMOVED_SLOTS)
  {}

  lemma NothingLeftOut(context: Values, slots: seq<Slot>, instance: byte)
    requires ValuesOk(context, slots) && SlotsFit(instance, slots)
    ensures
      var b := BackValues(context, slots);
      b == if instance == 0 then CreatedOf(b) else RemovedOf(b)
  {}

  /** What a loaded bearer context adds to the request. */
  lemma TakeGroup(r: Request, tlv: Tlv, ies: seq<Ie>, b: Values)
    requires SetAll(OfBearer, map[], ies) == Ok(b) && tlv.fourth < 2
    requires b == if tlv.fourth == 0 then CreatedOf(b) else RemovedOf(b)
    ensures Take(r, Ie(tlv, Group(ies))) == Ok(AddContexts(r, tlv.fourth, [b]))
  {}

  lemma TakeContext(r: Request, context: Values, slots: seq<Slot>, instance: byte)
    requires SlotsFit(instance, slots) && ValuesOk(context, slots) && Emit(context, slots) != []
    ensures InSync(ContextElement(context, slots, instance))
    ensures Take(r, Reloaded(ContextElement(context, slots, instance))) == Ok(AddContexts(r, instance, [BackValues(context, slots)]))
  {
    ContextReturns(context, slots, instance);
    SetEmitted(OfBearer, map[], context, slots);
    assert map[] + BackValues(context, slots) == BackValues(context, slots);
    NothingLeftOut(context, slots, instance);
    TakeGroup(r, ContextElement(context, slots, instance).tlv, ReloadedAll(Emit(context, slots)), BackValues(context, slots));
  }

  lemma AddContextsTwice(r: Request, instance: byte, a: Values, more: seq<Values>)
    ensures AddContexts(AddContexts(r, instance, [a]), instance, more) == AddContexts(r, instance, [a] + more)
  {}

  lemma {:induction false} TakeContexts(r: Request, contexts: seq<Values>, slots: seq<Slot>, instance: byte)
    requires SlotsFit(instance, slots) && ContextsOk(contexts, slots) && NoneEmpty(contexts, slots)
    ensures AllInSync(EmitContexts(contexts, slots, instance))
    ensures TakeAll(r, ReloadedAll(EmitContexts(contexts, slots, instance)))
            == Ok(AddContexts(r, instance, BackContexts(contexts, slots)))
    decreases |contexts|
  {
    ContextsSyncOrEmpty(contexts, slots, instance);
    if contexts == [] {
      assert AddContexts(r, instance, []) == r;
    } else {
      TakeContext(r, contexts[0], slots, instance);
      var r1 := AddContexts(r, instance, [BackValues(contexts[0], slots)]);
      TakeContexts(r1, contexts[1..], slots, instance);
      var g, rest := ContextElement(contexts[0], slots, instance), EmitContexts(contexts[1..], slots, instance);
      ReloadedCons(g, rest);
      TakeAllCons(r, Reloaded(g), ReloadedAll(rest), r1);
      BackContextsCons(contexts, slots);
      AddContextsTwice(r, instance, BackValues(contexts[0], slots), BackContexts(contexts[1..], slots));
    }
  }

  lemma BackContextsCons(contexts: seq<Values>, slots: seq<Slot>)
    requires ContextsOk(contexts, slots) && contexts != []
    ensures ContextsOk(contexts[1..], slots)
    ensures BackContexts(contexts, slots) == [BackValues(contexts[0], slots)] + BackContexts(contexts[1..], slots)
  {}
}
