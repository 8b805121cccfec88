/** A GTPv2-C message as an object that is put together, dumped and loaded in place. */
module MessageObject {
  import opened Prelude
  import opened Octets
  import opened Elements
  import opened ElementLoading
  import opened Messages
  import opened MessageTheorems
  import opened CoreTypes
  import opened CreateSession
  import opened Streams
  import opened ElementIo

  /** The result of the loop over elements that started with what was read before. */
  function BehindIes(before: seq<Ie>, r: Result<Ies, Error>): Result<Ies, Error> {
    match r
    case Err(e) => Err(e)
    case Ok(more) => Ok(Ies(before + more.ies, more.total))
  }

  class Gtpv2cMsg {
    var first: byte
    var messageType: byte
    var messageLength: u16
    var teid: u32
    var sequenceNumber: u24
    var last: byte
    var ies: seq<Ie>

    function Contents(): Message
      reads this
    {
      Message(Header(first, messageType, messageLength, teid, sequenceNumber, last), ies)
    }

    constructor (typ: byte)
      ensures Contents() == Message(NewHeader(typ), [])
    {
      first := 0x40;
      messageType := typ;
      messageLength := 3 + 1;
      teid := 0;
      sequenceNumber := 0;
      last := 0;
      ies := [];
    }

    method SetTeid(t: u32)
      modifies this
      ensures Contents() == old(Contents()).(header := Messages.SetTeid(old(Contents()).header, t))
    {
      teid := t;
      if first / 8 % 2 == 0 {
        first := first + 8;
        messageLength := (messageLength + 4) % 0x1_0000;
      }
    }

    method SetSequenceNumber(n: nat)
      modifies this
      ensures Contents() == old(Contents()).(header := Messages.SetSequenceNumber(old(Contents()).header, n))
    {
      sequenceNumber := n % 0x100_0000;
    }

    method AddIe(ie: Ie)
      modifies this
      ensures Contents() == Messages.AddIe(old(Contents()), ie)
    {
      ies := ies + [ie];
      messageLength := (messageLength + TLV_LENGTH + ie.tlv.length) % 0x1_0000;
    }

    /** Clears the spare bits, and the flag and the priority that do not count, while it writes. */
    method DumpHeader(output: OutStream)
      modifies this`first, this`last, output
      ensures output.data == old(output.data) + HeaderOctets(old(Contents()).header)
      ensures Contents() == old(Contents()).(header := HeaderAfterDump(old(Contents()).header))
    {
      ghost var h := Contents().header;
      ghost var start := output.data;
      SpareCleared(first);
      first := first / 4 * 4;
      last := last / 16 * 16;
      output.Write([first] + [messageType]);
      output.Write(U16Octets(messageLength));
      ghost var teidOctets := if HasTeid(first) then U32Octets(teid) else [];
      if HasTeid(first) {
        output.Write(U32Octets(teid));
      } else {
        first := first / 8 * 8;
      }
      assert first == FirstAfter(h.first);
      output.Write(U24Octets(sequenceNumber));
      if !HasPriority(first) {
        last := 0;
      }
      assert last == LastWritten(h.first, h.last);
      output.Write([last]);
      HeaderParts(start, h, teidOctets);
    }

    /** Writes the message. The element objects are left as their dump methods leave them. */
    method DumpTo(output: OutStream)
      modifies this, output
      ensures output.data == old(output.data) + DumpMessage(old(Contents()))
      ensures Contents() == MessageAfterDump(old(Contents()))
    {
      DumpHeader(output);
      ies := DumpElements(ies, output);
    }

    method LoadHeaderFrom(input: InStream) returns (error: Option<Error>)
      requires input.Valid()
      modifies this, input
      ensures input.Valid() && ies == old(ies)
      ensures
        match LoadHeader(old(input.Rest()))
        case Err(e) => error == Some(e)
        case Ok(h) => error == None && Contents().header == h && input.Rest() == old(input.Rest())[HeaderSize(h.first)..]
    {
      ghost var s := input.Rest();
      if input.pos == |input.data| {
        return Some(Truncated);
      }
      var size := HeaderSize(input.data[input.pos]);
      var head := input.Read(size);
      if head.None? {
        return Some(Truncated);
      }
      var o := head.value;
      first := o[0];
      messageType := o[1];
      messageLength := OctetsU16(o[2..4]);
      if HasTeid(first) {
        teid := OctetsU32(o[4..8]);
      } else {
        teid := 0;
      }
      sequenceNumber := (o[size - 4] as int) * 0x1_0000 + (o[size - 3] as int) * 0x100 + o[size - 2];
      last := o[size - 1];
      error := None;
      HeaderFields(s, o);
    }

    /** Loads a message: the header, then elements as long as their lengths are below what the
        header announces. */
    method LoadFrom(input: InStream) returns (error: Option<Error>)
      requires input.Valid() && ies == []
      modifies this, input
      ensures input.Valid()
      ensures
        match LoadMessage(old(input.Rest()))
        case Err(e) => error == Some(e)
        case Ok(m) => error == None && Contents() == m
    {
      error := LoadHeaderFrom(input);
      if error.Some? {
        return;
      }
      ghost var h := Contents().header;
      var announced: u16 := (messageLength - 3 - 1 - if HasTeid(first) then 4 else 0) % 0x1_0000;
      var loaded := LoadElements(input, announced);
      if loaded.Err? {
        return Some(loaded.error);
      }
      ies := loaded.value.ies;
      if loaded.value.total != announced {
        error := Some(BadMessageLength);
      }
    }

    /** Adds an element for each field that is present. */
    method AddValues(values: Values, slots: seq<Slot>)
      requires ValuesOk(values, slots)
      modifies this
      ensures Contents() == AddAll(old(Contents()), Emit(values, slots))
    {
      var i := 0;
      ghost var m := Contents();
      while i < |slots|
        invariant 0 <= i <= |slots|
        invariant AddAll(m, Emit(values, slots)) == AddAll(Contents(), Emit(values, slots[i..]))
      {
        EmitFrom(values, slots, i);
        if slots[i] in values {
          var ie := ToElement(slots[i].typ, slots[i].instance, values[slots[i]]);
          AddAllCons(Contents(), ie, Emit(values, slots[i + 1..]));
          AddIe(ie);
        }
        i := i + 1;
      }
    }

    /** Adds a grouped element for each bearer context. */
    method AddContextElements(contexts: seq<Values>, slots: seq<Slot>, instance: byte)
      requires ContextsOk(contexts, slots)
      modifies this
      ensures Contents() == AddAll(old(Contents()), EmitContexts(contexts, slots, instance))
    {
      var i := 0;
      ghost var m := Contents();
      while i < |contexts|
        invariant 0 <= i <= |contexts|
        invariant AddAll(m, EmitContexts(contexts, slots, instance)) == AddAll(Contents(), EmitContexts(contexts[i..], slots, instance))
      {
        var group := MakeContext(contexts[i], slots, instance);
        assert contexts[i..][0] == contexts[i] && contexts[i..][1..] == contexts[i + 1..];
        AddAllCons(Contents(), group, EmitContexts(contexts[i + 1..], slots, instance));
        AddIe(group);
        i := i + 1;
      }
    }

    /** The message of a Create Session Request. */
    method AddRequest(r: Request)
      requires RequestOk(r)
      modifies this
      ensures Contents() == AddAll(old(Contents()), RequestElements(r))
    {
      ghost var m := Contents();
      AddValues(r.values, FIRST_SLOTS);
      ghost var a := Emit(r.values, FIRST_SLOTS);
      ghost var b := if r.hasCreated then EmitContexts(r.created, CREATED_SLOTS, 0) else [];
      ghost var c := if r.hasRemoved then EmitContexts(r.removed, REMOVED_SLOTS, 1) else [];
      if r.hasCreated {
        AddContextElements(r.created, CREATED_SLOTS, 0);
      }
      if r.hasRemoved {
        AddContextElements(r.removed, REMOVED_SLOTS, 1);
      }
      AddValues(r.values, LAST_SLOTS);
      AddAllAppend(m, a, b);
      AddAllAppend(m, a + b, c);
      AddAllAppend(m, a + b + c, Emit(r.values, LAST_SLOTS));
    }
  }

  /** The loop over a message's elements: one is always tried. */
  method LoadElements(input: InStream, announced: u16) returns (r: Result<Ies, Error>)
    requires input.Valid()
    modifies input
    ensures input.Valid() && r == LoadIes(old(input.Rest()), 0, announced)
  {
    ghost var s := input.Rest();
    var ies: seq<Ie> := [];
    var total: u16 := 0;
    var more := true;
    NoIesBefore(LoadIes(s, 0, announced));
    while more
      invariant input.Valid()
      invariant more ==> LoadIes(s, 0, announced) == BehindIes(ies, LoadIes(input.Rest(), total, announced))
      invariant !more ==> LoadIes(s, 0, announced) == Ok(Ies(ies, total))
      decreases if more then |input.Rest()| + 1 else 0
    {
      ghost var here := input.Rest();
      var made := NewIeFromStream(input);
      match made {
        case Nothing =>
          NoMoreIes(ies, here, total, announced);
          more := false;
        case Failure(e) =>
          NoMoreIes(ies, here, total, announced);
          return Err(e);
        case Object(ie) =>
          OneMoreIe(ies, here, total, announced);
          ies := ies + [ie];
          total := (total + TLV_LENGTH + ie.tlv.length) % 0x1_0000;
          more := total < announced;
      }
    }
    r := Ok(Ies(ies, total));
  }

  /** The header is read from its first octets alone. */
  lemma HeaderFields(s: seq<byte>, o: seq<byte>)
    requires s != [] && |s| >= HeaderSize(s[0]) && o == s[..HeaderSize(s[0])]
    ensures
      var n := HeaderSize(o[0]);
      LoadHeader(s)
      == Ok(Header(o[0], o[1], OctetsU16(o[2..4]), if HasTeid(o[0]) then OctetsU32(o[4..8]) else 0,
                   (o[n - 4] as int) * 0x1_0000 + (o[n - 3] as int) * 0x100 + o[n - 2], o[n - 1]))
  {
    assert o[2..4] == s[2..4];
    if HasTeid(o[0]) { assert o[4..8] == s[4..8]; }
  }

  lemma SpareCleared(first: byte)
    ensures HasTeid(first / 4 * 4) == HasTeid(first) && first / 4 * 4 / 8 * 8 == first / 8 * 8
  {}

  /** The parts of a header as they are written. */
  lemma HeaderParts(start: seq<byte>, h: Header, teidOctets: seq<byte>)
    requires teidOctets == if HasTeid(h.first) then U32Octets(h.teid) else []
    ensures
      start + ([FirstWritten(h.first)] + [h.messageType]) + U16Octets(h.messageLength) + teidOctets
      + U24Octets(h.sequenceNumber) + [LastWritten(h.first, h.last)]
      == start + HeaderOctets(h)
    ensures
      start + ([FirstWritten(h.first)] + [h.messageType]) + U16Octets(h.messageLength)
      + U24Octets(h.sequenceNumber) + [LastWritten(h.first, h.last)]
      == start + HeaderOctets(h) || HasTeid(h.first)
  {}

  /** The elements of the fields from one on. */
  lemma EmitFrom(values: Values, slots: seq<Slot>, i: nat)
    requires ValuesOk(values, slots) && i < |slots|
    ensures
      Emit(values, slots[i..])
      == if slots[i] in values then [ToElement(slots[i].typ, slots[i].instance, values[slots[i]])] + Emit(values, slots[i + 1..])
         else Emit(values, slots[i + 1..])
  {
    assert slots[i..][0] == slots[i] && slots[i..][1..] == slots[i + 1..];
    assert [] + Emit(values, slots[i + 1..]) == Emit(values, slots[i + 1..]);
  }

  /** The grouped element of a bearer context, element by element. */
  method MakeContext(context: Values, slots: seq<Slot>, instance: byte) returns (group: Ie)
    requires ValuesOk(context, slots)
    ensures group == BuildGroup(EmptyGroup(instance), Emit(context, slots))
  {
    group := EmptyGroup(instance);
    var i := 0;
    while i < |slots|
      invariant 0 <= i <= |slots| && group.body.Group?
      invariant BuildGroup(EmptyGroup(instance), Emit(context, slots)) == BuildGroup(group, Emit(context, slots[i..]))
    {
      EmitFrom(context, slots, i);
      if slots[i] in context {
        var ie := ToElement(slots[i].typ, slots[i].instance, context[slots[i]]);
        BuildGroupCons(group, ie, Emit(context, slots[i + 1..]));
        group := AddToGroup(group, ie);
      }
      i := i + 1;
    }
  }

  lemma BuildGroupCons(group: Ie, ie: Ie, rest: seq<Ie>)
    requires group.body.Group?
    ensures BuildGroup(group, [ie] + rest) == BuildGroup(AddToGroup(group, ie), rest)
  {
    assert ([ie] + rest)[1..] == rest;
  }

  lemma AddAllCons(m: Message, ie: Ie, rest: seq<Ie>)
    ensures AddAll(m, [ie] + rest) == AddAll(AddIe(m, ie), rest)
  {
    assert ([ie] + rest)[1..] == rest;
  }

  lemma {:induction false} AddAllAppend(m: Message, a: seq<Ie>, b: seq<Ie>)
    ensures AddAll(m, a + b) == AddAll(AddAll(m, a), b)
    decreases |a|
  {
    if a == [] {
      assert a + b == b;
    } else {
      assert a + b == [a[0]] + (a[1..] + b);
      AddAllCons(m, a[0], a[1..] + b);
      AddAllAppend(AddIe(m, a[0]), a[1..], b);
    }
  }

  lemma NoIesBefore(r: Result<Ies, Error>)
    ensures BehindIes([], r) == r
  {
    if r.Ok? { assert [] + r.value.ies == r.value.ies; }
  }

  /** The last turn of the loop, without an element. */
  lemma NoMoreIes(before: seq<Ie>, s: seq<byte>, sofar: u16, announced: u16)
    requires !ParseIe(s).Got?
    ensures BehindIes(before, LoadIes(s, sofar, announced))
            == if ParseIe(s).NoIe? then Ok(Ies(before, sofar)) else Err(ParseIe(s).error)
  {
    assert before + [] == before;
  }

  /** One more turn of the loop. */
  lemma OneMoreIe(before: seq<Ie>, s: seq<byte>, sofar: u16, announced: u16)
    requires ParseIe(s).Got?
    ensures
      var p := ParseIe(s);
      var total := (sofar + TLV_LENGTH + p.ie.tlv.length) % 0x1_0000;
      BehindIes(before, LoadIes(s, sofar, announced))
      == if total < announced then BehindIes(before + [p.ie], LoadIes(p.rest, total, announced)) else Ok(Ies(before + [p.ie], total))
  {
    var p := ParseIe(s);
    var total := (sofar + TLV_LENGTH + p.ie.tlv.length) % 0x1_0000;
    LoadIesTurnIs(s, sofar, announced, p.ie, p.rest, total);
    var more := LoadIes(p.rest, total, announced);
    if more.Ok? { assert before + ([p.ie] + more.value.ies) == before + [p.ie] + more.value.ies; }
  }

  lemma LoadIesTurnIs(s: seq<byte>, sofar: u16, announced: u16, ie: Ie, rest: seq<byte>, total: u16)
    requires ParseIe(s) == Got(ie, rest) && total == (sofar + TLV_LENGTH + ie.tlv.length) % 0x1_0000
    ensures LoadIes(s, sofar, announced) == if total < announced then BehindIes([ie], LoadIes(rest, total, announced)) else Ok(Ies([ie], total))
  {}
}
