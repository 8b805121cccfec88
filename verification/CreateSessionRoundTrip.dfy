/** The main results about Create Session Requests: which of them arrive, what arrives, and which
    arrive as they were sent. */
module CreateSessionRoundTrip {
  import opened Prelude
  import opened Octets
  import opened Elements
  import opened ElementRoundTrip
  import opened Messages
  import opened MessageTheorems
  import opened CoreTypes
  import opened CoreRoundTrip
  import opened CoreTheorems
  import opened CreateSession
  import opened CreateSessionTheorems

  // ----- the message of a request -----

  lemma {:induction false} AddAllIs(m: Message, ies: seq<Ie>)
    requires LengthsStay(ies)
    ensures AddAll(m, ies).ies == m.ies + ies
    ensures AddAll(m, ies).header == m.header.(messageLength := (m.header.messageLength + TotalLength(ies)) % 0x1_0000)
    decreases |ies|
  {
    if ies == [] {
      assert m.ies + ies == m.ies;
    } else {
      var m1 := AddIe(m, ies[0]);
      AddAllIs(m1, ies[1..]);
      assert m.ies + [ies[0]] + ies[1..] == m.ies + ies;
      Recount(m.header.messageLength + (TLV_LENGTH + ies[0].tlv.length), TotalLength(ies[1..]), m1.header.messageLength,
              AddAll(m, ies).header.messageLength);
    }
  }

  /** The message has the elements of the request, and the right length if that fits. */
  lemma RequestMessageIs(r: Request, teid: u32, n: nat)
    requires RequestOk(r) && LengthsStay(RequestElements(r)) && TotalLength(RequestElements(r)) + 8 < 0x1_0000
    ensures
      var m := RequestMessage(r, teid, n);
      && m.ies == RequestElements(r) && LengthFieldRight(m)
      && m.header == Header(0x48, CREATE_SESSION_REQUEST, 8 + TotalLength(RequestElements(r)), teid, n % 0x100_0000, 0)
  {
    var ies := RequestElements(r);
    var m := AddAll(Message(NewHeader(CREATE_SESSION_REQUEST), []), ies);
    FinishedMessage(ies, teid, n, m);
    RequestMessageMade(r, teid, n, m);
  }

  lemma FinishedMessage(ies: seq<Ie>, teid: u32, n: nat, m: Message)
    requires LengthsStay(ies) && TotalLength(ies) + 8 < 0x1_0000
    requires m == AddAll(Message(NewHeader(CREATE_SESSION_REQUEST), []), ies)
    ensures
      var h := SetSequenceNumber(SetTeid(m.header, teid), n);
      && m.ies == ies && LengthFieldRight(Message(h, ies))
      && h == Header(0x48, CREATE_SESSION_REQUEST, 8 + TotalLength(ies), teid, n % 0x100_0000, 0)
  {
    AddAllIs(Message(NewHeader(CREATE_SESSION_REQUEST), []), ies);
    assert [] + ies == ies;
    FinishedHeader(TotalLength(ies), teid, n);
  }

  lemma RequestMessageMade(r: Request, teid: u32, n: nat, m: Message)
    requires RequestOk(r) && m == AddAll(Message(NewHeader(CREATE_SESSION_REQUEST), []), RequestElements(r))
    ensures RequestMessage(r, teid, n) == Message(SetSequenceNumber(SetTeid(m.header, teid), n), m.ies)
  {}

  lemma FinishedHeader(total: nat, teid: u32, n: nat)
    requires total + 8 < 0x1_0000
    ensures
      var h := NewHeader(CREATE_SESSION_REQUEST).(messageLength := (4 + total) % 0x1_0000);
      && SetSequenceNumber(SetTeid(h, teid), n) == Header(0x48, CREATE_SESSION_REQUEST, 8 + total, teid, n % 0x100_0000, 0)
      && HasTeid(0x48)
  {}

  // ----- its elements -----

  /** No bearer context of the request is sent without an element. */
  predicate ContextsSent(r: Request)
    requires RequestOk(r)
  {
    (r.hasCreated ==> NoneEmpty(r.created, CREATED_SLOTS)) && (r.hasRemoved ==> NoneEmpty(r.removed, REMOVED_SLOTS))
  }

  lemma AnyEmptyAppend(a: seq<Ie>, b: seq<Ie>)
    ensures AnyEmpty(a + b) <==> AnyEmpty(a) || AnyEmpty(b)
  {
    if AnyEmpty(a) {
      var i :| 0 <= i < |a| && IsEmpty(a[i]);
      assert IsEmpty((a + b)[i]);
    }
    if AnyEmpty(b) {
      var i :| 0 <= i < |b| && IsEmpty(b[i]);
      assert IsEmpty((a + b)[|a| + i]);
    }
  }

  lemma {:induction false} EmittedNotEmpty(values: Values, slots: seq<Slot>)
    requires ValuesOk(values, slots)
    ensures !AnyEmpty(Emit(values, slots))
    decreases |slots|
  {
    if slots != [] {
      EmittedNotEmpty(values, slots[1..]);
      if slots[0] in values {
        EmittedReturns(values, slots);
        AnyEmptyCons(ToElement(slots[0].typ, slots[0].instance, values[slots[0]]), Emit(values, slots[1..]));
      } else {
        assert Emit(values, slots) == Emit(values, slots[1..]);
      }
    }
  }

  lemma SyncAppend(a: seq<Ie>, b: seq<Ie>)
    requires SyncOrEmpty(a) && SyncOrEmpty(b) && LengthsStay(a) && LengthsStay(b)
    ensures SyncOrEmpty(a + b) && LengthsStay(a + b) && (AnyEmpty(a + b) <==> AnyEmpty(a) || AnyEmpty(b))
  {
    AnyEmptyAppend(a, b);
  }

  lemma ElementsSync(r: Request)
    requires RequestOk(r)
    ensures SyncOrEmpty(RequestElements(r)) && LengthsStay(RequestElements(r))
    ensures AnyEmpty(RequestElements(r)) <==> !ContextsSent(r)
  {
    var a, d := Emit(r.values, FIRST_SLOTS), Emit(r.values, LAST_SLOTS);
    var b := if r.hasCreated then EmitContexts(r.created, CREATED_SLOTS, 0) else [];
    var c := if r.hasRemoved then EmitContexts(r.removed, REMOVED_SLOTS, 1) else [];
    ContextSlotsFit();
    EmittedInSync(r.values, FIRST_SLOTS);
    EmittedInSync(r.values, LAST_SLOTS);
    EmittedNotEmpty(r.values, FIRST_SLOTS);
    EmittedNotEmpty(r.values, LAST_SLOTS);
    ContextsSyncOrEmpty(r.created, CREATED_SLOTS, 0);
    ContextsSyncOrEmpty(r.removed, REMOVED_SLOTS, 1);
    SyncAppend(a, b);
    SyncAppend(a + b, c);
    SyncAppend(a + b + c, d);
  }

  // ----- the request of the loaded message -----

  lemma ScalarsPlaced()
    ensures Placed(OfRequest, FIRST_SLOTS) && Placed(OfRequest, LAST_SLOTS)
  {}

  lemma {:induction false} ReloadedAppend(a: seq<Ie>, b: seq<Ie>)
    requires AllInSync(a) && AllInSync(b)
    ensures AllInSync(a + b) && ReloadedAll(a + b) == ReloadedAll(a) + ReloadedAll(b)
    decreases |a|
  {
    if a == [] {
      assert a + b == b;
    } else {
      assert (a + b)[0] == a[0];
      assert (a + b)[1..] == a[1..] + b;
      ReloadedAppend(a[1..], b);
    }
  }

  /** Taking the elements of `b` after those of `a`. */
  lemma TakeBoth(r: Request, a: seq<Ie>, b: seq<Ie>, r1: Request, r2: Request)
    requires AllInSync(a) && AllInSync(b)
    requires TakeAll(r, ReloadedAll(a)) == Ok(r1) && TakeAll(r1, ReloadedAll(b)) == Ok(r2)
    ensures AllInSync(a + b) && TakeAll(r, ReloadedAll(a + b)) == Ok(r2)
  {
    ReloadedAppend(a, b);
    TakeAllAppend(r, ReloadedAll(a), ReloadedAll(b), r1);
  }

  lemma TakeOptional(r: Request, has: bool, contexts: seq<Values>, slots: seq<Slot>, instance: byte)
    requires SlotsFit(instance, slots) && ContextsOk(contexts, slots) && (has ==> NoneEmpty(contexts, slots))
    ensures
      var ies := if has then EmitContexts(contexts, slots, instance) else [];
      && AllInSync(ies)
      && TakeAll(r, ReloadedAll(ies)) == Ok(AddContexts(r, instance, if has then BackContexts(contexts, slots) else []))
  {
    if has { TakeContexts(r, contexts, slots, instance); }
    assert AddContexts(r, instance, []) == r;
  }

  lemma ElementsTaken(r: Request)
    requires RequestOk(r) && ContextsSent(r)
    ensures AllInSync(RequestElements(r))
    ensures TakeAll(EMPTY_REQUEST, ReloadedAll(RequestElements(r))) == Ok(ReceivedRequest(r))
  {
    ScalarsPlaced();
    ContextSlotsFit();
    var a, d := Emit(r.values, FIRST_SLOTS), Emit(r.values, LAST_SLOTS);
    var b := if r.hasCreated then EmitContexts(r.created, CREATED_SLOTS, 0) else [];
    var c := if r.hasRemoved then EmitContexts(r.removed, REMOVED_SLOTS, 1) else [];
    var r1 := EMPTY_REQUEST.(values := map[] + BackValues(r.values, FIRST_SLOTS));
    var r2 := AddContexts(r1, 0, if r.hasCreated then BackContexts(r.created, CREATED_SLOTS) else []);
    var r3 := AddContexts(r2, 1, if r.hasRemoved then BackContexts(r.removed, REMOVED_SLOTS) else []);
    TakeEmitted(EMPTY_REQUEST, r.values, FIRST_SLOTS);
    TakeOptional(r1, r.hasCreated, r.created, CREATED_SLOTS, 0);
    TakeOptional(r2, r.hasRemoved, r.removed, REMOVED_SLOTS, 1);
    TakeEmitted(r3, r.values, LAST_SLOTS);
    var r4 := r3.(values := r3.values + BackValues(r.values, LAST_SLOTS));
    TakeBoth(EMPTY_REQUEST, a, b, r1, r2);
    TakeBoth(EMPTY_REQUEST, a + b, c, r2, r3);
    TakeBoth(EMPTY_REQUEST, a + b + c, d, r3, r4);
    ReceivedIs(r, r4);
  }

  lemma ReceivedIs(r: Request, r4: Request)
    requires RequestOk(r)
    requires r4.values == map[] + BackValues(r.values, FIRST_SLOTS) + BackValues(r.values, LAST_SLOTS)
    requires r4.created == [] + (if r.hasCreated then BackContexts(r.created, CREATED_SLOTS) else [])
    requires r4.removed == [] + (if r.hasRemoved then BackContexts(r.removed, REMOVED_SLOTS) else [])
    requires r4.hasCreated == (r.hasCreated && r.created != []) && r4.hasRemoved == (r.hasRemoved && r.removed != [])
    ensures r4 == ReceivedRequest(r)
  {
    assert map[] + BackValues(r.values, FIRST_SLOTS) == BackValues(r.values, FIRST_SLOTS);
    assert r4.created == if r.hasCreated then BackContexts(r.created, CREATED_SLOTS) else [];
    assert r4.removed == if r.hasRemoved then BackContexts(r.removed, REMOVED_SLOTS) else [];
  }

  /** A Create Session Request whose values have the types of their fields and can be sent, and that
      fits in a message, loads at the peer if and only if every bearer context it sends has at least
      one element. Then the peer has the request that `ReceivedRequest` describes: every field that
      has an element, at the instance it was sent with, and every nested bearer context, in order. */
  lemma RequestArrives(r: Request, teid: u32, n: nat)
    requires RequestOk(r) && TotalLength(RequestElements(r)) + 8 < 0x1_0000
    ensures
      var loaded := LoadMessage(DumpMessage(RequestMessage(r, teid, n)));
      && (loaded.Ok? <==> ContextsSent(r))
      && (loaded.Ok? ==>
            && ToRequest(loaded.value) == Ok(ReceivedRequest(r))
            && loaded.value.header.sequenceNumber == n % 0x100_0000 && loaded.value.header.teid == teid
            && loaded.value.header.messageType == 32)
  {
    ElementsSync(r);
    RequestMessageIs(r, teid, n);
    var m := RequestMessage(r, teid, n);
    MessageRoundTrip(m);
    if ContextsSent(r) {
      ElementsTaken(r);
      assert HasTeid(0x48);
    }
  }

  // ----- which requests arrive as they were sent -----

  /** Every field has an element, and the value comes back as it was. */
  predicate ValuesNormal(values: Values, slots: seq<Slot>)
    requires ValuesOk(values, slots)
  {
    forall s :: s in values ==> s in slots && Normal(s.typ, values[s])
  }

  predicate ContextsNormal(contexts: seq<Values>, slots: seq<Slot>)
    requires ContextsOk(contexts, slots)
  {
    forall k :: 0 <= k < |contexts| ==> ValuesNormal(contexts[k], slots)
  }

  /** A request in normal form: nothing in fields that are never sent, values that come back, and the
      flag of each list of bearer contexts set exactly when the list has one. */
  predicate RequestNormal(r: Request)
    requires RequestOk(r)
  {
    && (forall s :: s in r.values ==> (s in FIRST_SLOTS || s in LAST_SLOTS) && Normal(s.typ, r.values[s]))
    && ContextsNormal(r.created, CREATED_SLOTS) && ContextsNormal(r.removed, REMOVED_SLOTS)
    && r.hasCreated == (r.created != []) && r.hasRemoved == (r.removed != [])
  }

  lemma OkAt(values: Values, slots: seq<Slot>, s: Slot)
    requires ValuesOk(values, slots) && s in slots && s in values
    ensures Typed(s.typ, values[s]) && !MadeEmpty(values[s])
    ensures Back(s.typ, values[s]) == values[s] <==> Normal(s.typ, values[s])
  {
    var k :| 0 <= k < |slots| && slots[k] == s;
    ReturnsUnchanged(s.typ, values[s]);
  }

  lemma BackValuesSame(values: Values, slots: seq<Slot>)
    requires ValuesOk(values, slots)
    ensures BackValues(values, slots) == values <==> ValuesNormal(values, slots)
  {
    var b := BackValues(values, slots);
    forall s | s in values && s in slots
      ensures s in b && (b[s] == values[s] <==> Normal(s.typ, values[s]))
    {
      OkAt(values, slots, s);
    }
    if b == values {
      forall s | s in values
        ensures s in slots && Normal(s.typ, values[s])
      {
        assert s in b;
      }
    }
    if ValuesNormal(values, slots) {
      assert forall s :: s in values ==> s in b && b[s] == values[s];
      assert b.Keys == values.Keys;
    }
  }

  lemma BackContextsSame(contexts: seq<Values>, slots: seq<Slot>)
    requires ContextsOk(contexts, slots)
    ensures BackContexts(contexts, slots) == contexts <==> ContextsNormal(contexts, slots)
  {
    var b := BackContexts(contexts, slots);
    forall k | 0 <= k < |contexts|
      ensures b[k] == contexts[k] <==> ValuesNormal(contexts[k], slots)
    {
      BackValuesSame(contexts[k], slots);
    }
    if b == contexts {
      forall k | 0 <= k < |contexts|
        ensures ValuesNormal(contexts[k], slots)
      {
        assert b[k] == contexts[k];
      }
    }
  }

  lemma ScalarsSame(values: Values)
    requires ValuesOk(values, FIRST_SLOTS) && ValuesOk(values, LAST_SLOTS)
    ensures
      BackValues(values, FIRST_SLOTS) + BackValues(values, LAST_SLOTS) == values <==>
        forall s :: s in values ==> (s in FIRST_SLOTS || s in LAST_SLOTS) && Normal(s.typ, values[s])
  {
    TwoListsSame(values, FIRST_SLOTS, LAST_SLOTS);
  }

  lemma TwoListsSame(values: Values, first: seq<Slot>, last: seq<Slot>)
    requires ValuesOk(values, first) && ValuesOk(values, last)
    ensures
      BackValues(values, first) + BackValues(values, last) == values <==>
        forall s :: s in values ==> (s in first || s in last) && Normal(s.typ, values[s])
  {
    var both := BackValues(values, first) + BackValues(values, last);
    forall s | s in values && (s in first || s in last)
      ensures s in both && (both[s] == values[s] <==> Normal(s.typ, values[s]))
    {
      if s in first { OkAt(values, first, s); }
      if s in last { OkAt(values, last, s); }
    }
    if both == values {
      forall s | s in values
        ensures (s in first || s in last) && Normal(s.typ, values[s])
      {
        assert s in both;
      }
    }
    if forall s :: s in values ==> (s in first || s in last) && Normal(s.typ, values[s]) {
      assert both.Keys == values.Keys;
    }
  }

  /** The peer ends up with the same request if and only if the request is in normal form, presence
      mask and nested bearer contexts included. */
  lemma RequestArrivesUnchanged(r: Request)
    requires RequestOk(r)
    ensures ReceivedRequest(r) == r <==> RequestNormal(r)
  {
    ScalarsSame(r.values);
    BackContextsSame(r.created, CREATED_SLOTS);
    BackContextsSame(r.removed, REMOVED_SLOTS);
  }
}
