/** The Create Session Request: the request as the rest of the system holds it, the message made of
    it, and the request made of a loaded message. */
module CreateSession {
  import opened Prelude
  import opened Octets
  import opened Elements
  import opened ElementLoading
  import opened Messages
  import opened MessageTheorems
  import opened CoreTypes
  import opened CoreRoundTrip

  const CREATE_SESSION_REQUEST: byte := 32

  /** A field of a request or of a bearer context, named by the element type and the instance
      that stand for it. The set of fields present is the original's presence mask. */
  datatype Slot = Slot(typ: byte, instance: byte)

  type Values = map<Slot, Core>

  /** The fields of a request, and its bearer contexts, each list with a flag of its own in the
      presence mask. */
  datatype Request = Request(values: Values, created: seq<Values>, hasCreated: bool, removed: seq<Values>, hasRemoved: bool)

  const EMPTY_REQUEST := Request(map[], [], false, [], false)

  // ----- from the request to the message -----

  /** The fields in front of the bearer contexts in the message, in order, and those behind. */
  const FIRST_SLOTS: seq<Slot> :=
    [Slot(IMSI, 0), Slot(MSISDN, 0), Slot(MOBILE_EQUIPMENT_IDENTITY, 0), Slot(USER_LOCATION_INFORMATION, 0),
     Slot(SERVING_NETWORK, 0), Slot(RAT_TYPE, 0), Slot(INDICATION, 0), Slot(FULLY_QUALIFIED_TEID, 0),
     Slot(FULLY_QUALIFIED_TEID, 1), Slot(ACCESS_POINT_NAME, 0), Slot(SELECTION_MODE, 0), Slot(PDN_TYPE, 0),
     Slot(PDN_ADDRESS_ALLOCATION, 0), Slot(APN_RESTRICTION, 0), Slot(AGGREGATE_MAXIMUM_BIT_RATE, 0),
     Slot(EPS_BEARER_ID, 0), Slot(PROTOCOL_CONFIGURATION_OPTIONS, 0)]

  const LAST_SLOTS: seq<Slot> := [Slot(FQ_CSID, 0), Slot(FQ_CSID, 1), Slot(UE_TIME_ZONE, 0)]

  /** The fields of a bearer context to be created, and of one to be removed. */
  const CREATED_SLOTS: seq<Slot> :=
    [Slot(EPS_BEARER_ID, 0), Slot(FULLY_QUALIFIED_TEID, 0), Slot(FULLY_QUALIFIED_TEID, 1), Slot(FULLY_QUALIFIED_TEID, 2),
     Slot(FULLY_QUALIFIED_TEID, 3), Slot(FULLY_QUALIFIED_TEID, 4), Slot(FULLY_QUALIFIED_TEID, 5),
     Slot(FULLY_QUALIFIED_TEID, 6), Slot(BEARER_QOS, 0), Slot(FULLY_QUALIFIED_TEID, 7)]

  const REMOVED_SLOTS: seq<Slot> := [Slot(EPS_BEARER_ID, 0), Slot(FULLY_QUALIFIED_TEID, 0)]

  /** The values for `slots` have the type of their field, can be sent, and are not empty. */
  predicate ValuesOk(values: Values, slots: seq<Slot>) {
    forall k :: 0 <= k < |slots| && slots[k] in values ==>
      Typed(slots[k].typ, values[slots[k]]) && Sendable(values[slots[k]]) && !MadeEmpty(values[slots[k]])
  }

  /** The elements of the fields that are present, in order. */
  function Emit(values: Values, slots: seq<Slot>): seq<Ie>
    requires ValuesOk(values, slots)
    decreases |slots|
  {
    if slots == [] then []
    else
      (if slots[0] in values then [ToElement(slots[0].typ, slots[0].instance, values[slots[0]])] else [])
      + Emit(values, slots[1..])
  }

  predicate ContextsOk(contexts: seq<Values>, slots: seq<Slot>) {
    forall k :: 0 <= k < |contexts| ==> ValuesOk(contexts[k], slots)
  }

  /** A grouped element for each bearer context, put together element by element. */
  function EmitContexts(contexts: seq<Values>, slots: seq<Slot>, instance: byte): (r: seq<Ie>)
    requires ContextsOk(contexts, slots)
    ensures |r| == |contexts|
    decreases |contexts|
  {
    if contexts == [] then []
    else [BuildGroup(EmptyGroup(instance), Emit(contexts[0], slots))] + EmitContexts(contexts[1..], slots, instance)
  }

  predicate RequestOk(r: Request) {
    && ValuesOk(r.values, FIRST_SLOTS) && ValuesOk(r.values, LAST_SLOTS)
    && ContextsOk(r.created, CREATED_SLOTS) && ContextsOk(r.removed, REMOVED_SLOTS)
  }

  function RequestElements(r: Request): seq<Ie>
    requires RequestOk(r)
  {
    Emit(r.values, FIRST_SLOTS)
    + (if r.hasCreated then EmitContexts(r.created, CREATED_SLOTS, 0) else [])
    + (if r.hasRemoved then EmitContexts(r.removed, REMOVED_SLOTS, 1) else [])
    + Emit(r.values, LAST_SLOTS)
  }

  function AddAll(m: Message, ies: seq<Ie>): Message
    decreases |ies|
  {
    if ies == [] then m else AddAll(AddIe(m, ies[0]), ies[1..])
  }

  /** The message of the request, as it is sent: with the peer's TEID and a sequence number. */
  function RequestMessage(r: Request, teid: u32, n: nat): Message
    requires RequestOk(r)
  {
    var m := AddAll(Message(NewHeader(CREATE_SESSION_REQUEST), []), RequestElements(r));
    m.(header := SetSequenceNumber(SetTeid(m.header, teid), n))
  }

  // ----- from the message to the request -----

  datatype Owner = OfRequest | OfBearer

  predicate SetByRequest(typ: byte) {
    || typ == IMSI || typ == MSISDN || typ == MOBILE_EQUIPMENT_IDENTITY || typ == USER_LOCATION_INFORMATION
    || typ == SERVING_NETWORK || typ == RAT_TYPE || typ == INDICATION || typ == ACCESS_POINT_NAME || typ == SELECTION_MODE
    || typ == PDN_TYPE || typ == PDN_ADDRESS_ALLOCATION || typ == APN_RESTRICTION || typ == AGGREGATE_MAXIMUM_BIT_RATE
    || typ == EPS_BEARER_ID || typ == PROTOCOL_CONFIGURATION_OPTIONS || typ == RECOVERY || typ == UE_TIME_ZONE
  }

  predicate SetByBearer(typ: byte) {
    || typ == EPS_BEARER_ID || typ == BEARER_TFT || typ == BEARER_QOS || typ == CAUSE || typ == CHARGING_ID
    || typ == BEARER_FLAGS || typ == PROTOCOL_CONFIGURATION_OPTIONS
  }

  /** The field that an element sets. Most ignore the instance; a TEID or a CSID has one field for
      each instance, and others have none. */
  function Place(owner: Owner, typ: byte, instance: byte): Result<Slot, Error> {
    if typ == FULLY_QUALIFIED_TEID then
      if instance < (if owner == OfRequest then 2 else 12) then Ok(Slot(typ, instance)) else Err(BadInstance)
    else if owner == OfRequest && typ == FQ_CSID then
      if instance < 4 then Ok(Slot(typ, instance)) else Err(BadInstance)
    else if (if owner == OfRequest then SetByRequest(typ) else SetByBearer(typ)) then
      Ok(Slot(typ, 0))
    else
      Err(IllegalElement)
  }

  /** What one element that is not grouped sets. */
  function Set(owner: Owner, values: Values, ie: Ie): Result<Values, Error> {
    match Place(owner, ie.tlv.typ, Instance(ie.tlv))
    case Err(e) => Err(e)
    case Ok(slot) =>
      match FromElement(ie.tlv.typ, ie.body)
      case Err(e) => Err(e)
      case Ok(v) => Ok(values[slot := v])
  }

  function SetAll(owner: Owner, values: Values, ies: seq<Ie>): Result<Values, Error>
    decreases |ies|
  {
    if ies == [] then Ok(values)
    else
      match Set(owner, values, ies[0])
      case Err(e) => Err(e)
      case Ok(more) => SetAll(owner, more, ies[1..])
  }

  /** A bearer context to be created has a traffic flow template too, which is never sent. */
  predicate HasCreatedSlot(s: Slot) {
    || s.typ == EPS_BEARER_ID || s.typ == BEARER_TFT || s.typ == BEARER_QOS || (s.typ == FULLY_QUALIFIED_TEID && s.instance < 8)
  }

  predicate HasRemovedSlot(s: Slot) {
    s.typ == EPS_BEARER_ID || s == Slot(FULLY_QUALIFIED_TEID, 0)
  }

  function CreatedOf(b: Values): Values { map s | s in b && HasCreatedSlot(s) :: b[s] }
  function RemovedOf(b: Values): Values { map s | s in b && HasRemovedSlot(s) :: b[s] }

  /** Adds what one element of the message says to the request. */
  function Take(r: Request, ie: Ie): Result<Request, Error> {
    if ie.body.Group? then
      match SetAll(OfBearer, map[], ie.body.ies)
      case Err(e) => Err(e)
      case Ok(b) =>
        if Instance(ie.tlv) == 0 then Ok(r.(created := r.created + [CreatedOf(b)], hasCreated := true))
        else if Instance(ie.tlv) == 1 then Ok(r.(removed := r.removed + [RemovedOf(b)], hasRemoved := true))
        else Err(BadInstance)
    else
      match Set(OfRequest, r.values, ie)
      case Err(e) => Err(e)
      case Ok(values) => Ok(r.(values := values))
  }

  function TakeAll(r: Request, ies: seq<Ie>): Result<Request, Error>
    decreases |ies|
  {
    if ies == [] then Ok(r)
    else
      match Take(r, ies[0])
      case Err(e) => Err(e)
      case Ok(more) => TakeAll(more, ies[1..])
  }

  function ToRequest(m: Message): Result<Request, Error> {
    TakeAll(EMPTY_REQUEST, m.ies)
  }
}
