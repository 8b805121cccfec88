/** The length field of a Create Session Request against the octets of the message. */
module CreateSessionLength {
  import opened Octets
  import opened Elements
  import opened ElementLoading
  import opened ElementRoundTrip
  import opened Messages
  import opened MessageTheorems
  import opened CoreTypes
  import opened CoreRoundTrip
  import opened CoreTheorems
  import opened CreateSession
  import opened CreateSessionTheorems
  import opened CreateSessionRoundTrip

  /** By how much the payloads of elements are longer than their lengths say, together. */
  function Defects(ies: seq<Ie>): int {
    if ies == [] then 0 else |Payload(ies[0])| - AfterDump(ies[0]).tlv.length + Defects(ies[1..])
  }

  lemma {:induction false} DumpDefects(ies: seq<Ie>)
    ensures |DumpAll(ies)| == TotalLength(ies) + Defects(ies)
    decreases |ies|
  {
    if ies != [] { DumpDefects(ies[1..]); }
  }

  lemma {:induction false} DefectsAppend(a: seq<Ie>, b: seq<Ie>)
    ensures Defects(a + b) == Defects(a) + Defects(b)
    decreases |a|
  {
    if a == [] {
      assert a + b == b;
    } else {
      assert (a + b)[1..] == a[1..] + b;
      DefectsAppend(a[1..], b);
    }
  }

  lemma {:induction false} NoDefects(ies: seq<Ie>)
    requires AllLengthsOk(ies)
    ensures Defects(ies) == 0
    decreases |ies|
  {
    if ies != [] { NoDefects(ies[1..]); }
  }

  predicate NoLocation(slots: seq<Slot>) {
    forall k :: 0 <= k < |slots| ==> slots[k].typ != USER_LOCATION_INFORMATION
  }

  lemma {:induction false} EmittedLengthsOk(values: Values, slots: seq<Slot>)
    requires ValuesOk(values, slots) && NoLocation(slots)
    ensures AllLengthsOk(Emit(values, slots))
    decreases |slots|
  {
    if slots != [] {
      EmittedLengthsOk(values, slots[1..]);
      if slots[0] in values { MadeLength(slots[0].typ, slots[0].instance, values[slots[0]]); }
    }
  }

  lemma {:induction false} EmitAppend(values: Values, a: seq<Slot>, b: seq<Slot>)
    requires ValuesOk(values, a) && ValuesOk(values, b)
    ensures ValuesOk(values, a + b) && Emit(values, a + b) == Emit(values, a) + Emit(values, b)
    decreases |a|
  {
    if a == [] {
      assert a + b == b;
    } else {
      assert (a + b)[0] == a[0] && (a + b)[1..] == a[1..] + b;
      OkOfBoth(values, a, b);
      EmitAppend(values, a[1..], b);
    }
  }

  lemma OkOfBoth(values: Values, a: seq<Slot>, b: seq<Slot>)
    requires ValuesOk(values, a) && ValuesOk(values, b)
    ensures ValuesOk(values, a + b)
  {
    forall k | 0 <= k < |a + b| && (a + b)[k] in values
      ensures Typed((a + b)[k].typ, values[(a + b)[k]]) && Sendable(values[(a + b)[k]]) && !MadeEmpty(values[(a + b)[k]])
    {
      assert (a + b)[k] == if k < |a| then a[k] else b[k - |a|];
    }
  }

  lemma {:induction false} ContextsLengthsOk(contexts: seq<Values>, slots: seq<Slot>, instance: byte)
    requires ContextsOk(contexts, slots) && OnlySmall(slots) && |slots| <= 10
    ensures AllLengthsOk(EmitContexts(contexts, slots, instance))
    decreases |contexts|
  {
    if contexts != [] {
      ContextsLengthsOk(contexts[1..], slots, instance);
      EmittedLengthsOk(contexts[0], slots);
      EmitSmall(contexts[0], slots);
      DumpAllLength(Emit(contexts[0], slots));
      GroupLengthConservation(instance, Emit(contexts[0], slots));
    }
  }

  /** The user location information of the request, if any, has a length that fits its fields. */
  predicate LocationLengthRight(values: Values) {
    var s := Slot(USER_LOCATION_INFORMATION, 0);
    s in values && values[s].UliCore? ==>
      !HasRai(values[s].location.flags) && (HasLai(values[s].location.flags) <==> HasMacro(values[s].location.flags))
  }

  lemma LocationDefect(values: Values)
    requires ValuesOk(values, [Slot(USER_LOCATION_INFORMATION, 0)])
    ensures Defects(Emit(values, [Slot(USER_LOCATION_INFORMATION, 0)])) == 0 <==> LocationLengthRight(values)
  {
    var s := Slot(USER_LOCATION_INFORMATION, 0);
    var slots := [s];
    assert slots[1..] == [] && slots[0] == s;
    if s in values {
      var ie := ToElement(s.typ, s.instance, values[s]);
      assert Emit(values, slots) == [ie];
      assert [ie][1..] == [];
      assert Defects([ie]) == |Payload(ie)| - AfterDump(ie).tlv.length;
      MadeTlvStays(s.typ, s.instance, values[s]);
      MadeLength(s.typ, s.instance, values[s]);
    }
  }

  lemma FirstSlotsSplit()
    ensures FIRST_SLOTS == FIRST_SLOTS[..3] + [Slot(USER_LOCATION_INFORMATION, 0)] + FIRST_SLOTS[4..]
    ensures NoLocation(FIRST_SLOTS[..3]) && NoLocation(FIRST_SLOTS[4..]) && NoLocation(LAST_SLOTS)
  {}

  lemma OkOfPart(values: Values, a: seq<Slot>, b: seq<Slot>, c: seq<Slot>)
    requires ValuesOk(values, a + b + c)
    ensures ValuesOk(values, a) && ValuesOk(values, b) && ValuesOk(values, c)
  {
    var all := a + b + c;
    assert forall k :: 0 <= k < |a| ==> all[k] == a[k];
    assert forall k :: 0 <= k < |b| ==> all[|a| + k] == b[k];
    assert forall k :: 0 <= k < |c| ==> all[|a| + |b| + k] == c[k];
  }

  lemma SplitDefects(values: Values, a: seq<Slot>, b: seq<Slot>, c: seq<Slot>)
    requires ValuesOk(values, a) && ValuesOk(values, b) && ValuesOk(values, c) && NoLocation(a) && NoLocation(c)
    ensures ValuesOk(values, a + b + c) && Defects(Emit(values, a + b + c)) == Defects(Emit(values, b))
  {
    EmitAppend(values, a, b);
    EmitAppend(values, a + b, c);
    DefectsAppend(Emit(values, a), Emit(values, b));
    DefectsAppend(Emit(values, a) + Emit(values, b), Emit(values, c));
    EmittedLengthsOk(values, a);
    EmittedLengthsOk(values, c);
    NoDefects(Emit(values, a));
    NoDefects(Emit(values, c));
  }

  lemma FirstDefects(values: Values)
    requires ValuesOk(values, FIRST_SLOTS)
    ensures Defects(Emit(values, FIRST_SLOTS)) == 0 <==> LocationLengthRight(values)
  {
    var a, c := FIRST_SLOTS[..3], FIRST_SLOTS[4..];
    FirstSlotsSplit();
    OkOfPart(values, a, [Slot(USER_LOCATION_INFORMATION, 0)], c);
    SplitDefects(values, a, [Slot(USER_LOCATION_INFORMATION, 0)], c);
    LocationDefect(values);
  }

  lemma ContextDefects(contexts: seq<Values>, slots: seq<Slot>, instance: byte, has: bool)
    requires ContextsOk(contexts, slots) && OnlySmall(slots) && |slots| <= 10
    ensures Defects(if has then EmitContexts(contexts, slots, instance) else []) == 0
  {
    ContextsLengthsOk(contexts, slots, instance);
    NoDefects(EmitContexts(contexts, slots, instance));
  }

  lemma RequestDefects(r: Request)
    requires RequestOk(r)
    ensures Defects(RequestElements(r)) == 0 <==> LocationLengthRight(r.values)
  {
    var a, d := Emit(r.values, FIRST_SLOTS), Emit(r.values, LAST_SLOTS);
    var b := if r.hasCreated then EmitContexts(r.created, CREATED_SLOTS, 0) else [];
    var c := if r.hasRemoved then EmitContexts(r.removed, REMOVED_SLOTS, 1) else [];
    ContextSlotsFit();
    FirstDefects(r.values);
    ContextDefects(r.created, CREATED_SLOTS, 0, r.hasCreated);
    ContextDefects(r.removed, REMOVED_SLOTS, 1, r.hasRemoved);
    FirstSlotsSplit();
    EmittedLengthsOk(r.values, LAST_SLOTS);
    NoDefects(d);
    DefectsAppend(a, b);
    DefectsAppend(a + b, c);
    DefectsAppend(a + b + c, d);
  }

  /** The length field of a Create Session Request counts the octets behind the first four if and
      only if its user location information, if it has one, has no RAI, and has both LAI and macro
      eNodeB id or neither. */
  lemma RequestLengthRight(r: Request, teid: u32, n: nat)
    requires RequestOk(r) && TotalLength(RequestElements(r)) + 8 < 0x1_0000
    ensures
      var m := RequestMessage(r, teid, n);
      m.header.messageLength == |DumpMessage(m)| - 4 <==> LocationLengthRight(r.values)
  {
    ElementsSync(r);
    RequestMessageIs(r, teid, n);
    RequestDefects(r);
    DumpDefects(RequestElements(r));
    assert HasTeid(0x48);
  }
}
