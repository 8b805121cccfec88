/** Which fields of a Create Session Request are sent, and which elements of a received one are taken, with
    the types and instances of 3GPP TS 29.274 in numbers. */
module CreateSessionFields {
  import opened Prelude
  import opened Octets
  import opened Elements
  import opened ElementLoading
  import opened ElementRoundTrip
  import opened Messages
  import opened MessageTheorems
  import opened CoreTypes
  import opened CoreRoundTrip
  import opened CreateSession
  import opened CreateSessionTheorems
  import opened CreateSessionRoundTrip

  // ----- what is sent -----

  /** Types and instances that a request is sent with, apart from its bearer contexts. */
  predicate SentInRequest(t: byte, i: byte) {
    || (i == 0 && (t == 1 || 71 <= t <= 73 || 75 <= t <= 79 || t == 82 || t == 83 || t == 86 || t == 99 || t == 114
                   || t == 127 || t == 128))
    || (i < 2 && (t == 87 || t == 132))
  }

  /** The same for a bearer context to be created, and for one to be removed. */
  predicate SentInCreated(t: byte, i: byte) {
    (i == 0 && (t == 73 || t == 80)) || (i < 8 && t == 87)
  }

  predicate SentInRemoved(t: byte, i: byte) {
    i == 0 && (t == 73 || t == 87)
  }

  /** The fields in the order in which they go out. */
  lemma OrderInNumbers()
    ensures FIRST_SLOTS
            == [Slot(1, 0), Slot(76, 0), Slot(75, 0), Slot(86, 0), Slot(83, 0), Slot(82, 0), Slot(77, 0), Slot(87, 0), Slot(87, 1),
                Slot(71, 0), Slot(128, 0), Slot(99, 0), Slot(79, 0), Slot(127, 0), Slot(72, 0), Slot(73, 0), Slot(78, 0)]
    ensures LAST_SLOTS == [Slot(132, 0), Slot(132, 1), Slot(114, 0)]
    ensures CREATED_SLOTS
            == [Slot(73, 0), Slot(87, 0), Slot(87, 1), Slot(87, 2), Slot(87, 3), Slot(87, 4), Slot(87, 5), Slot(87, 6), Slot(80, 0),
                Slot(87, 7)]
    ensures REMOVED_SLOTS == [Slot(73, 0), Slot(87, 0)]
  {}

  lemma SentIsListed(t: byte, i: byte)
    ensures SentInRequest(t, i) <==> Slot(t, i) in FIRST_SLOTS || Slot(t, i) in LAST_SLOTS
    ensures SentInCreated(t, i) <==> Slot(t, i) in CREATED_SLOTS
    ensures SentInRemoved(t, i) <==> Slot(t, i) in REMOVED_SLOTS
  {
    ScalarsListed(t, i);
    CreatedListed(t, i);
    OrderInNumbers();
  }

  lemma ScalarsListed(t: byte, i: byte)
    ensures SentInRequest(t, i) <==> Slot(t, i) in FIRST_SLOTS || Slot(t, i) in LAST_SLOTS
  {
    OrderInNumbers();
    var s := Slot(t, i);
    var a, b := FIRST_SLOTS, LAST_SLOTS;
    assert s in b <==> s == b[0] || s == b[1] || s == b[2];
    assert s in a <==> s in a[..9] || s in a[9..];
    assert s in a[..9] <==> s == a[0] || s == a[1] || s == a[2] || s == a[3] || s == a[4] || s == a[5] || s == a[6] || s == a[7] || s == a[8];
    assert s in a[9..] <==> s == a[9] || s == a[10] || s == a[11] || s == a[12] || s == a[13] || s == a[14] || s == a[15] || s == a[16];
  }

  lemma CreatedListed(t: byte, i: byte)
    ensures SentInCreated(t, i) <==> Slot(t, i) in CREATED_SLOTS
  {
    OrderInNumbers();
    var s, a := Slot(t, i), CREATED_SLOTS;
    assert s in a <==> s == a[0] || s == a[1] || s == a[2] || s == a[3] || s == a[4] || s == a[5] || s == a[6] || s == a[7] || s == a[8] || s == a[9];
  }

  /** `b` has exactly the fields of `a` that are sent, in the form in which they come back. */
  ghost predicate Delivered(a: Values, b: Values, sent: (byte, byte) -> bool) {
    && (forall s :: s in b ==> sent(s.typ, s.instance) && s in a)
    && (forall s :: s in a && sent(s.typ, s.instance) ==> Typed(s.typ, a[s]) && !MadeEmpty(a[s]) && s in b && b[s] == Back(s.typ, a[s]))
  }

  /** Every field of a request that has a type and an instance to be sent with is in the request that the peer ends up
      with, and nothing else is; so for each of its bearer contexts, in their order. */
  lemma EveryFieldArrives(r: Request, teid: u32, n: nat)
    requires RequestOk(r) && ContextsSent(r) && TotalLength(RequestElements(r)) + 8 < 0x1_0000
    ensures
      var loaded := LoadMessage(DumpMessage(RequestMessage(r, teid, n)));
      && loaded.Ok? && ToRequest(loaded.value).Ok?
      && var q := ToRequest(loaded.value).value;
         && Delivered(r.values, q.values, (t: byte, i: byte) => SentInRequest(t, i))
         && |q.created| == (if r.hasCreated then |r.created| else 0)
         && |q.removed| == (if r.hasRemoved then |r.removed| else 0)
         && (forall k :: 0 <= k < |q.created| ==> Delivered(r.created[k], q.created[k], (t: byte, i: byte) => SentInCreated(t, i)))
         && (forall k :: 0 <= k < |q.removed| ==> Delivered(r.removed[k], q.removed[k], (t: byte, i: byte) => SentInRemoved(t, i)))
  {
    RequestArrives(r, teid, n);
    ScalarsDelivered(r);
    var q := ReceivedRequest(r);
    forall k | 0 <= k < |q.created|
      ensures Delivered(r.created[k], q.created[k], (t: byte, i: byte) => SentInCreated(t, i))
    {
      CreatedDelivered(r.created[k]);
    }
    forall k | 0 <= k < |q.removed|
      ensures Delivered(r.removed[k], q.removed[k], (t: byte, i: byte) => SentInRemoved(t, i))
    {
      RemovedDelivered(r.removed[k]);
    }
  }

  lemma ScalarsDelivered(r: Request)
    requires RequestOk(r)
    ensures Delivered(r.values, ReceivedRequest(r).values, (t: byte, i: byte) => SentInRequest(t, i))
  {
    var a, b := r.values, ReceivedRequest(r).values;
    forall s | s in a || s in b
      ensures s in b <==> s in a && SentInRequest(s.typ, s.instance)
      ensures s in b ==> Typed(s.typ, a[s]) && !MadeEmpty(a[s]) && b[s] == Back(s.typ, a[s])
    {
      ScalarsListed(s.typ, s.instance);
      assert Slot(s.typ, s.instance) == s;
      if s in a && s in FIRST_SLOTS { OkAt(a, FIRST_SLOTS, s); }
      if s in a && s in LAST_SLOTS { OkAt(a, LAST_SLOTS, s); }
    }
  }

  lemma CreatedDelivered(a: Values)
    requires ValuesOk(a, CREATED_SLOTS)
    ensures Delivered(a, BackValues(a, CREATED_SLOTS), (t: byte, i: byte) => SentInCreated(t, i))
  {
    forall s | s in a
      ensures s in CREATED_SLOTS <==> SentInCreated(s.typ, s.instance)
      ensures s in CREATED_SLOTS ==> Typed(s.typ, a[s]) && !MadeEmpty(a[s])
    {
      CreatedListed(s.typ, s.instance);
      assert Slot(s.typ, s.instance) == s;
      if s in CREATED_SLOTS { OkAt(a, CREATED_SLOTS, s); }
    }
  }

  lemma RemovedDelivered(a: Values)
    requires ValuesOk(a, REMOVED_SLOTS)
    ensures Delivered(a, BackValues(a, REMOVED_SLOTS), (t: byte, i: byte) => SentInRemoved(t, i))
  {
    forall s | s in a
      ensures s in REMOVED_SLOTS <==> SentInRemoved(s.typ, s.instance)
      ensures s in REMOVED_SLOTS ==> Typed(s.typ, a[s]) && !MadeEmpty(a[s])
    {
      SentIsListed(s.typ, s.instance);
      assert Slot(s.typ, s.instance) == s;
      if s in REMOVED_SLOTS { OkAt(a, REMOVED_SLOTS, s); }
    }
  }

  // ----- what is taken -----

  /** Types and instances that a request takes: most types with any instance, TEIDs with two, CSIDs with four. */
  predicate TakenByRequest(t: byte, i: byte) {
    || t == 1 || t == 3 || 71 <= t <= 73 || 75 <= t <= 79 || t == 82 || t == 83 || t == 86 || t == 99 || t == 114 || t == 127
    || t == 128 || (t == 87 && i < 2) || (t == 132 && i < 4)
  }

  /** And a bearer context: TEIDs with twelve. */
  predicate TakenByBearer(t: byte, i: byte) {
    || t == 2 || t == 73 || t == 78 || t == 80 || t == 84 || t == 94 || t == 97 || (t == 87 && i < 12)
  }

  lemma PlacesInNumbers(t: byte, i: byte)
    ensures Place(OfRequest, t, i)
            == if TakenByRequest(t, i) then Ok(Slot(t, if t == 87 || t == 132 then i else 0))
               else if t == 87 || t == 132 then Err(BadInstance) else Err(IllegalElement)
    ensures Place(OfBearer, t, i)
            == if TakenByBearer(t, i) then Ok(Slot(t, if t == 87 then i else 0))
               else if t == 87 then Err(BadInstance) else Err(IllegalElement)
  {}

  lemma {:induction false} SetAllExactly(owner: Owner, values: Values, ies: seq<Ie>)
    ensures SetAll(owner, values, ies).Ok? <==>
              forall x :: x in ies ==> Place(owner, x.tlv.typ, Instance(x.tlv)).Ok? && FromElement(x.tlv.typ, x.body).Ok?
    decreases |ies|
  {
    if ies != [] {
      var r := Set(owner, values, ies[0]);
      assert ies == [ies[0]] + ies[1..];
      if r.Ok? { SetAllExactly(owner, r.value, ies[1..]); }
    }
  }

  /** The element is one that a request takes, and holds a value of its type. */
  predicate IsTaken(ie: Ie) {
    if ie.body.Group? then
      ie.tlv.fourth % 16 < 2 && forall x :: x in ie.body.ies ==> TakenByBearer(x.tlv.typ, x.tlv.fourth % 16) && FromElement(x.tlv.typ, x.body).Ok?
    else
      TakenByRequest(ie.tlv.typ, ie.tlv.fourth % 16) && FromElement(ie.tlv.typ, ie.body).Ok?
  }

  lemma TakenExactly(r: Request, ie: Ie)
    ensures Take(r, ie).Ok? <==> IsTaken(ie)
  {
    if ie.body.Group? {
      SetAllExactly(OfBearer, map[], ie.body.ies);
      forall x | x in ie.body.ies
        ensures Place(OfBearer, x.tlv.typ, Instance(x.tlv)).Ok? <==> TakenByBearer(x.tlv.typ, x.tlv.fourth % 16)
      {
        PlacesInNumbers(x.tlv.typ, Instance(x.tlv));
      }
    } else {
      PlacesInNumbers(ie.tlv.typ, Instance(ie.tlv));
    }
  }

  predicate AllTaken(ies: seq<Ie>) { ies == [] || (IsTaken(ies[0]) && AllTaken(ies[1..])) }

  /** A request is made of a message if and only if each of its elements is taken. */
  lemma {:induction false} AcceptedExactly(r: Request, ies: seq<Ie>)
    ensures TakeAll(r, ies).Ok? <==> AllTaken(ies)
    decreases |ies|
  {
    if ies != [] {
      TakenExactly(r, ies[0]);
      if Take(r, ies[0]).Ok? { AcceptedExactly(Take(r, ies[0]).value, ies[1..]); }
    }
  }

  /** What one element that is taken changes: one field, or one list of bearer contexts, by the instance. */
  lemma TakenChanges(r: Request, ie: Ie)
    requires IsTaken(ie)
    ensures Take(r, ie).Ok?
    ensures
      var q := Take(r, ie).value;
      if ie.body.Group? then
        SetAll(OfBearer, map[], ie.body.ies).Ok?
        && var b := SetAll(OfBearer, map[], ie.body.ies).value;
           if ie.tlv.fourth % 16 == 0 then q == r.(created := r.created + [CreatedOf(b)], hasCreated := true)
           else q == r.(removed := r.removed + [RemovedOf(b)], hasRemoved := true)
      else
        q == r.(values := r.values[Slot(ie.tlv.typ, if ie.tlv.typ == 87 || ie.tlv.typ == 132 then ie.tlv.fourth % 16 else 0)
                                   := FromElement(ie.tlv.typ, ie.body).value])
  {
    TakenExactly(r, ie);
    PlacesInNumbers(ie.tlv.typ, Instance(ie.tlv));
  }

  /** What a bearer context takes over of the elements in it: to be created the bearer id, the traffic flow template, the
      QoS and eight TEIDs, to be removed the bearer id and one TEID. */
  lemma ContextTakesOver(b: Values, t: byte, i: byte)
    ensures Slot(t, i) in CreatedOf(b) <==> Slot(t, i) in b && (t == 73 || t == 84 || t == 80 || (t == 87 && i < 8))
    ensures Slot(t, i) in RemovedOf(b) <==> Slot(t, i) in b && (t == 73 || (t == 87 && i == 0))
    ensures Slot(t, i) in CreatedOf(b) ==> CreatedOf(b)[Slot(t, i)] == b[Slot(t, i)]
    ensures Slot(t, i) in RemovedOf(b) ==> RemovedOf(b)[Slot(t, i)] == b[Slot(t, i)]
  {}

  // ----- one element more -----

  /** The request with another value in one field. */
  function WithField(r: Result<Request, Error>, slot: Slot, v: Core): Result<Request, Error> {
    match r
    case Err(e) => Err(e)
    case Ok(q) => Ok(q.(values := q.values[slot := v]))
  }

  predicate SetsField(ie: Ie, slot: Slot) {
    !ie.body.Group? && Place(OfRequest, ie.tlv.typ, Instance(ie.tlv)) == Ok(slot)
  }

  lemma TakeCommutes(r: Request, ie: Ie, slot: Slot, v: Core)
    requires !SetsField(ie, slot)
    ensures Take(r.(values := r.values[slot := v]), ie) == WithField(Take(r, ie), slot, v)
  {
    if !ie.body.Group? {
      var place := Place(OfRequest, ie.tlv.typ, Instance(ie.tlv));
      var value := FromElement(ie.tlv.typ, ie.body);
      if place.Ok? && value.Ok? {
        assert r.values[slot := v][place.value := value.value] == r.values[place.value := value.value][slot := v];
      }
    }
  }

  lemma {:induction false} TakeAllCommutes(r: Request, ies: seq<Ie>, slot: Slot, v: Core)
    requires forall x :: x in ies ==> !SetsField(x, slot)
    ensures TakeAll(r.(values := r.values[slot := v]), ies) == WithField(TakeAll(r, ies), slot, v)
    decreases |ies|
  {
    if ies != [] {
      TakeCommutes(r, ies[0], slot, v);
      if Take(r, ies[0]).Ok? {
        TakeAllCommutes(Take(r, ies[0]).value, ies[1..], slot, v);
      }
    }
  }

  lemma {:induction false} TakeAllOf(r: Request, a: seq<Ie>, b: seq<Ie>)
    ensures TakeAll(r, a + b) == match TakeAll(r, a) case Err(e) => Err(e) case Ok(q) => TakeAll(q, b)
    decreases |a|
  {
    if a == [] {
      assert a + b == b;
    } else {
      assert (a + b)[0] == a[0] && (a + b)[1..] == a[1..] + b;
      if Take(r, a[0]).Ok? { TakeAllOf(Take(r, a[0]).value, a[1..], b); }
    }
  }

  /** An element that sets a field, added anywhere in a message with no later element for the field, changes that field and
      nothing else, and does not make an acceptable message unacceptable or the other way round. */
  lemma ElementAdded(r: Request, before: seq<Ie>, ie: Ie, behind: seq<Ie>, slot: Slot, v: Core)
    requires SetsField(ie, slot) && FromElement(ie.tlv.typ, ie.body) == Ok(v)
    requires forall x :: x in behind ==> !SetsField(x, slot)
    ensures TakeAll(r, before + [ie] + behind) == WithField(TakeAll(r, before + behind), slot, v)
  {
    TakeAllOf(r, before + [ie], behind);
    TakeAllOf(r, before, [ie]);
    TakeAllOf(r, before, behind);
    var a := TakeAll(r, before);
    if a.Ok? {
      assert [ie][1..] == [];
      assert Take(a.value, ie) == Ok(a.value.(values := a.value.values[slot := v]));
      assert TakeAll(a.value, [ie]) == Ok(a.value.(values := a.value.values[slot := v]));
      TakeAllCommutes(a.value, behind, slot, v);
    }
  }

  /** So a restart counter, which is never sent here but which peers send: element 3 of one octet. */
  lemma RecoveryAdded(r: Request, before: seq<Ie>, fourth: byte, o: byte, behind: seq<Ie>)
    requires forall x :: x in behind ==> x.tlv.typ != 3
    ensures TakeAll(r, before + [Ie(Tlv(3, 1, fourth), Raw([o]))] + behind)
            == WithField(TakeAll(r, before + behind), Slot(3, 0), OctetCore(o))
  {
    var ie := Ie(Tlv(3, 1, fourth), Raw([o]));
    PlacesInNumbers(3, Instance(ie.tlv));
    forall x | x in behind
      ensures !SetsField(x, Slot(3, 0))
    {
      PlacesInNumbers(x.tlv.typ, Instance(x.tlv));
    }
    ElementAdded(r, before, ie, behind, Slot(3, 0), OctetCore(o));
  }

  /** And the CSIDs of an ePDG and of a TWAN: element 132 with instance 2 or 3. */
  lemma FurtherCsidAdded(r: Request, before: seq<Ie>, length: u16, i: byte, first: byte, node: Node, csids: seq<u16>, behind: seq<Ie>)
    requires 2 <= i < 4 && forall x :: x in behind ==> !(x.tlv.typ == 132 && x.tlv.fourth % 16 == i)
    ensures TakeAll(r, before + [Ie(Tlv(132, length, i), FqCsid(first, node, csids))] + behind)
            == WithField(TakeAll(r, before + behind), Slot(132, i), FqCsidCore(node, csids))
  {
    var ie := Ie(Tlv(132, length, i), FqCsid(first, node, csids));
    PlacesInNumbers(132, Instance(ie.tlv));
    forall x | x in behind
      ensures !SetsField(x, Slot(132, i))
    {
      PlacesInNumbers(x.tlv.typ, Instance(x.tlv));
    }
    ElementAdded(r, before, ie, behind, Slot(132, i), FqCsidCore(node, csids));
  }

  // ----- values that are taken but never sent -----

  /** The traffic flow template without the number of its packet filters, the bearer flags, the charging id, and
      indication flags of fewer octets, the rest zero. */
  lemma ReceivedOnly(o: byte, id: seq<byte>, flags: seq<byte>)
    requires |id| == 4 && |flags| <= 7
    ensures FromElement(84, Raw([o])) == Ok(OctetCore(o / 16 * 16))
    ensures FromElement(97, Raw([o])) == Ok(OctetCore(o))
    ensures FromElement(94, Raw(id)) == Ok(NumberCore(OctetsU32(id)))
    ensures
      var all := flags + Zeros(7 - |flags|);
      FromElement(77, Raw(flags)) == Ok(IndicationCore(all[6 := all[6] % 32]))
  {}

  /** A cause, of two octets or of six with the offending element. */
  lemma CauseReceived(fourth: byte, o: seq<byte>)
    requires |o| == 6
    ensures
      var short := LoadLeaf(Tlv(2, 2, fourth), o);
      && short.Ok? && short.value.used == 2
      && FromElement(2, short.value.body) == Ok(CauseCore(o[0], o[1] % 8, 0, 0, 0))
    ensures
      var long := LoadLeaf(Tlv(2, 6, fourth), o);
      && long.Ok? && long.value.used == 6
      && FromElement(2, long.value.body) == Ok(CauseCore(o[0], o[1] % 8, o[2], (o[3] as int) * 256 + o[4], o[5] % 16))
  {
    assert o[3..5] == [o[3], o[4]];
  }
}
