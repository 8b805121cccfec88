/** A Create Session Request as an object whose fields are set one after the other, with the
    presence mask kept as the set of fields that have a value. */
module SessionObject {
  import opened Prelude
  import opened Elements
  import opened ElementLoading
  import opened Messages
  import opened CoreTypes
  import opened CreateSession

  class CreateSessionRequest {
    var values: Values
    var created: seq<Values>
    var hasCreated: bool
    var removed: seq<Values>
    var hasRemoved: bool

    function Contents(): Request
      reads this
    {
      Request(values, created, hasCreated, removed, hasRemoved)
    }

    constructor ()
      ensures Contents() == EMPTY_REQUEST
    {
      values := map[];
      created := [];
      hasCreated := false;
      removed := [];
      hasRemoved := false;
    }

    method SetValue(slot: Slot, v: Core)
      modifies this`values
      ensures values == old(values)[slot := v]
    {
      values := values[slot := v];
    }

    method AddBearerContextToBeCreated(b: Values)
      modifies this`created, this`hasCreated
      ensures created == old(created) + [b] && hasCreated
    {
      created := created + [b];
      hasCreated := true;
    }

    method AddBearerContextToBeRemoved(b: Values)
      modifies this`removed, this`hasRemoved
      ensures removed == old(removed) + [b] && hasRemoved
    {
      removed := removed + [b];
      hasRemoved := true;
    }

    /** Takes over one element; an element that has no place is an error and changes nothing. */
    method TakeElement(ie: Ie) returns (error: Option<Error>)
      modifies this
      ensures
        match Take(old(Contents()), ie)
        case Err(e) => error == Some(e) && Contents() == old(Contents())
        case Ok(r) => error == None && Contents() == r
    {
      if ie.body.Group? {
        var b := BearerOf(ie.body.ies);
        if b.Err? {
          return Some(b.error);
        }
        if Instance(ie.tlv) == 0 {
          AddBearerContextToBeCreated(CreatedOf(b.value));
        } else if Instance(ie.tlv) == 1 {
          AddBearerContextToBeRemoved(RemovedOf(b.value));
        } else {
          return Some(BadInstance);
        }
        return None;
      }
      var place := Place(OfRequest, ie.tlv.typ, Instance(ie.tlv));
      if place.Err? {
        return Some(place.error);
      }
      var v := FromElement(ie.tlv.typ, ie.body);
      if v.Err? {
        return Some(v.error);
      }
      SetValue(place.value, v.value);
      error := None;
    }

    /** Takes over the elements of a message, up to the first error. */
    method TakeMessage(m: Message) returns (error: Option<Error>)
      requires Contents() == EMPTY_REQUEST
      modifies this
      ensures
        match ToRequest(m)
        case Err(e) => error == Some(e)
        case Ok(r) => error == None && Contents() == r
    {
      var i := 0;
      error := None;
      while i < |m.ies|
        invariant 0 <= i <= |m.ies| && error == None
        invariant ToRequest(m) == TakeAll(Contents(), m.ies[i..])
      {
        assert m.ies[i..][0] == m.ies[i] && m.ies[i..][1..] == m.ies[i + 1..];
        error := TakeElement(m.ies[i]);
        if error.Some? {
          return;
        }
        i := i + 1;
      }
    }
  }

  /** The container that a grouped element fills. */
  method BearerOf(ies: seq<Ie>) returns (r: Result<Values, Error>)
    ensures r == SetAll(OfBearer, map[], ies)
  {
    var b: Values := map[];
    var i := 0;
    while i < |ies|
      invariant 0 <= i <= |ies|
      invariant SetAll(OfBearer, map[], ies) == SetAll(OfBearer, b, ies[i..])
    {
      assert ies[i..][0] == ies[i] && ies[i..][1..] == ies[i + 1..];
      var next := Set(OfBearer, b, ies[i]);
      if next.Err? {
        return Err(next.error);
      }
      b := next.value;
      i := i + 1;
    }
    r := Ok(b);
  }
}
