/** What holds of every message: its length field, its way through dump and load, what the parser
    guarantees of whatever it accepts, and what a second dump writes. */
module MessageTheorems {
  import opened Prelude
  import opened Octets
  import opened Elements
  import opened ElementLoading
  import opened ElementRoundTrip
  import opened Messages

  // ----- lengths -----

  /** The length in the object is the one that is dumped, and that of the payload. */
  predicate LengthOk(ie: Ie) {
    ie.tlv.length == AfterDump(ie).tlv.length == |Payload(ie)|
  }

  predicate AllLengthsOk(ies: seq<Ie>) {
    forall i :: 0 <= i < |ies| ==> LengthOk(ies[i])
  }

  lemma {:induction false} DumpAllLength(ies: seq<Ie>)
    requires AllLengthsOk(ies)
    ensures |DumpAll(ies)| == TotalLength(ies)
    decreases |ies|
  {
    if ies != [] { DumpAllLength(ies[1..]); }
  }

  lemma {:induction false} TotalSnoc(ies: seq<Ie>, ie: Ie)
    ensures TotalLength(ies + [ie]) == TotalLength(ies) + TLV_LENGTH + AfterDump(ie).tlv.length
    decreases |ies|
  {
    if ies == [] {
      assert [] + [ie] == [ie] && [ie][1..] == [];
    } else {
      assert (ies + [ie])[1..] == ies[1..] + [ie];
      TotalSnoc(ies[1..], ie);
    }
  }

  /** One step of putting a message together. */
  datatype BuildStep = Teid(teid: u32) | Number(n: nat) | Add(ie: Ie)

  function Build(m: Message, steps: seq<BuildStep>): Message
    decreases |steps|
  {
    if steps == [] then m
    else
      Build(match steps[0]
            case Teid(t) => m.(header := SetTeid(m.header, t))
            case Number(n) => m.(header := SetSequenceNumber(m.header, n))
            case Add(ie) => AddIe(m, ie), steps[1..])
  }

  predicate AddsOnlyLengthOk(steps: seq<BuildStep>) {
    forall i :: 0 <= i < |steps| && steps[i].Add? ==> LengthOk(steps[i].ie)
  }

  /** The length field counts, in 16 bits, what is dumped behind the first four octets. */
  ghost predicate Counts(m: Message) {
    AllLengthsOk(m.ies) && m.header.messageLength == (|DumpMessage(m)| - 4) % 0x1_0000
  }

  /** A length counted in 16 bits, `x` octets later. */
  lemma Recount(d: int, x: int, length: int, length': int)
    requires length == d % 0x1_0000 && length' == (length + x) % 0x1_0000
    ensures length' == (d + x) % 0x1_0000
  {}

  lemma DumpGrows(m: Message, ie: Ie)
    requires AllLengthsOk(m.ies) && LengthOk(ie)
    ensures AllLengthsOk(m.ies + [ie])
    ensures |DumpMessage(AddIe(m, ie))| == |DumpMessage(m)| + TLV_LENGTH + ie.tlv.length
  {
    DumpAllLength(m.ies);
    DumpAllLength(m.ies + [ie]);
    TotalSnoc(m.ies, ie);
  }

  lemma AddedCounts(m: Message, ie: Ie)
    requires Counts(m) && LengthOk(ie)
    ensures Counts(AddIe(m, ie))
  {
    DumpGrows(m, ie);
    Recount(|DumpMessage(m)| - 4, TLV_LENGTH + ie.tlv.length, m.header.messageLength, AddIe(m, ie).header.messageLength);
  }

  lemma FlagSet(first: byte)
    requires !HasTeid(first)
    ensures first + 8 < 0x100 && HasTeid(first + 8)
  {}

  lemma SetTeidIs(h: Header, t: u32)
    ensures HasTeid(SetTeid(h, t).first)
    ensures SetTeid(h, t).messageLength == if HasTeid(h.first) then h.messageLength else (h.messageLength + 4) % 0x1_0000
  {
    if !HasTeid(h.first) { FlagSet(h.first); }
  }

  lemma TeidCounts(m: Message, t: u32)
    requires Counts(m)
    ensures Counts(m.(header := SetTeid(m.header, t)))
  {
    SetTeidIs(m.header, t);
    var m' := m.(header := SetTeid(m.header, t));
    var n := |DumpAll(m.ies)|;
    assert |DumpMessage(m')| == 12 + n;
    if !HasTeid(m.header.first) {
      assert |DumpMessage(m)| == 8 + n;
      Recount(4 + n, 4, m.header.messageLength, m'.header.messageLength);
    }
  }

  lemma {:induction false} BuildCounts(m: Message, steps: seq<BuildStep>)
    requires Counts(m) && AddsOnlyLengthOk(steps)
    ensures Counts(Build(m, steps))
    decreases |steps|
  {
    if steps != [] {
      match steps[0] {
        case Teid(t) => TeidCounts(m, t); BuildCounts(m.(header := SetTeid(m.header, t)), steps[1..]);
        case Number(n) => BuildCounts(m.(header := SetSequenceNumber(m.header, n)), steps[1..]);
        case Add(ie) => AddedCounts(m, ie); BuildCounts(AddIe(m, ie), steps[1..]);
      }
    }
  }

  /** However a message is put together, with whatever repetitions of set_teid: if each element's
      length is that of its payload, the length field is the number of octets dumped behind the
      first four, as section 5.5 of 3GPP TS 29.274 requires, if and only if that number fits. */
  lemma LengthConservation(messageType: byte, steps: seq<BuildStep>)
    requires AddsOnlyLengthOk(steps)
    ensures
      var m := Build(Message(NewHeader(messageType), []), steps);
      m.header.messageLength == |DumpMessage(m)| - 4 <==> |DumpMessage(m)| - 4 < 0x1_0000
  {
    BuildCounts(Message(NewHeader(messageType), []), steps);
  }

  /** A grouped element put together one element after the other. */
  function BuildGroup(group: Ie, ies: seq<Ie>): (r: Ie)
    requires group.body.Group?
    ensures r.body.Group? && r.tlv.typ == group.tlv.typ && r.tlv.fourth == group.tlv.fourth
    decreases |ies|
  {
    if ies == [] then group else BuildGroup(AddToGroup(group, ies[0]), ies[1..])
  }

  /** Dumping does not change the length of these elements. */
  predicate LengthsStay(ies: seq<Ie>) {
    forall i :: 0 <= i < |ies| ==> AfterDump(ies[i]).tlv.length == ies[i].tlv.length
  }

  lemma {:induction false} BuildGroupCounts(group: Ie, ies: seq<Ie>)
    requires group.body.Group? && LengthsStay(ies)
    requires group.tlv.length == TotalLength(group.body.ies) % 0x1_0000
    ensures BuildGroup(group, ies).body.ies == group.body.ies + ies
    ensures BuildGroup(group, ies).tlv.length == TotalLength(group.body.ies + ies) % 0x1_0000
    decreases |ies|
  {
    if ies == [] {
      assert group.body.ies + ies == group.body.ies;
    } else {
      TotalSnoc(group.body.ies, ies[0]);
      BuildGroupCounts(AddToGroup(group, ies[0]), ies[1..]);
      assert group.body.ies + [ies[0]] + ies[1..] == group.body.ies + ies;
    }
  }

  function EmptyGroup(fourth: byte): Ie {
    Ie(Tlv(BEARER_CONTEXT, 0, fourth), Group([]))
  }

  /** A group's length is that of its nested elements if and only if it fits in 16 bits. */
  lemma GroupLengthConservation(fourth: byte, ies: seq<Ie>)
    requires AllLengthsOk(ies)
    ensures
      var g := BuildGroup(EmptyGroup(fourth), ies);
      && g.tlv == Tlv(BEARER_CONTEXT, TotalLength(ies) % 0x1_0000, fourth) && g.body == Group(ies)
      && (LengthOk(g) <==> |DumpAll(ies)| < 0x1_0000)
  {
    BuildGroupCounts(EmptyGroup(fourth), ies);
    assert [] + ies == ies;
    DumpAllLength(ies);
    GroupPayload(Ie(Tlv(BEARER_CONTEXT, TotalLength(ies) % 0x1_0000, fourth), Group(ies)));
    FitsIff(TotalLength(ies));
  }

  lemma FitsIff(n: nat)
    ensures n % 0x1_0000 == n <==> n < 0x1_0000
  {}

  lemma GroupPayload(g: Ie)
    requires g.body.Group?
    ensures Payload(g) == DumpAll(g.body.ies) && AfterDump(g).tlv == g.tlv
  {}

  // ----- round trip -----

  lemma HeaderRoundTrip(h: Header, rest: seq<byte>)
    ensures LoadHeader(HeaderOctets(h) + rest) == Ok(ReceivedHeader(h))
    ensures (HeaderOctets(h) + rest)[HeaderSize(FirstWritten(h.first))..] == rest
  {
    var s := HeaderOctets(h) + rest;
    var n := HeaderSize(FirstWritten(h.first));
    assert HasTeid(FirstWritten(h.first)) == HasTeid(h.first);
    assert s[2..4] == U16Octets(h.messageLength);
    assert s[n - 4..n - 1] == U24Octets(h.sequenceNumber);
    U16RoundTrip(h.messageLength);
    U24RoundTrip(h.sequenceNumber);
    if HasTeid(h.first) {
      assert s[4..8] == U32Octets(h.teid);
      U32RoundTrip(h.teid);
    }
  }

  /** The element loads as something empty: the factory makes no object of it. */
  predicate IsEmpty(ie: Ie) { AfterDump(ie).tlv.length == 0 }

  ghost predicate SyncOrEmpty(ies: seq<Ie>) {
    forall i :: 0 <= i < |ies| ==> InSync(ies[i]) || IsEmpty(ies[i])
  }

  predicate AnyEmpty(ies: seq<Ie>) {
    exists i :: 0 <= i < |ies| && IsEmpty(ies[i])
  }

  lemma LoadIesStops(s: seq<byte>, sofar: u16, announced: u16, ie: Ie, rest: seq<byte>)
    requires ParseIe(s) == Got(ie, rest)
    requires announced <= sofar + TLV_LENGTH + ie.tlv.length < 0x1_0000
    ensures LoadIes(s, sofar, announced) == Ok(Ies([ie], sofar + TLV_LENGTH + ie.tlv.length))
  {}

  lemma LoadIesGoesOn(s: seq<byte>, sofar: u16, announced: u16, ie: Ie, rest: seq<byte>, more: Ies)
    requires ParseIe(s) == Got(ie, rest)
    requires sofar + TLV_LENGTH + ie.tlv.length < announced
    requires LoadIes(rest, sofar + TLV_LENGTH + ie.tlv.length, announced) == Ok(more)
    ensures LoadIes(s, sofar, announced) == Ok(Ies([ie] + more.ies, more.total))
  {}

  /** An empty element first: the factory returns nothing and the loop stops. */
  lemma EmptyStops(ies: seq<Ie>, sofar: u16, announced: u16)
    requires ies != [] && IsEmpty(ies[0])
    ensures LoadIes(DumpAll(ies), sofar, announced) == Ok(Ies([], sofar))
  {
    TlvRoundTrip(AfterDump(ies[0]).tlv, Payload(ies[0]) + DumpAll(ies[1..]));
    assert DumpAll(ies) == TlvOctets(AfterDump(ies[0]).tlv) + (Payload(ies[0]) + DumpAll(ies[1..]));
  }

  /** One turn of the loop, on the octets `o` of an element that others follow. */
  lemma LoadIesTurnOn(o: seq<byte>, ie: Ie, behind: seq<byte>, sofar: u16, announced: u16, more: Ies)
    requires ParseIe(o) == Got(ie, [])
    requires sofar + TLV_LENGTH + ie.tlv.length < announced
    requires LoadIes(behind, sofar + TLV_LENGTH + ie.tlv.length, announced) == Ok(more)
    ensures LoadIes(o + behind, sofar, announced) == Ok(Ies([ie] + more.ies, more.total))
  {
    ParsePrefix(o, behind);
    assert [] + behind == behind;
    LoadIesGoesOn(o + behind, sofar, announced, ie, behind, more);
  }

  /** The loop over elements in sync ends where their lengths end. */
  lemma {:induction false} LoadIesOfDump(ies: seq<Ie>, sofar: u16)
    requires AllInSync(ies) && sofar + TotalLength(ies) < 0x1_0000
    ensures LoadIes(DumpAll(ies), sofar, sofar + TotalLength(ies)) == Ok(Ies(ReloadedAll(ies), sofar + TotalLength(ies)))
    decreases |ies|
  {
    if ies != [] {
      var announced := sofar + TotalLength(ies);
      ReloadedTlv(ies[0]);
      assert DumpAll(ies) == Dump(ies[0]) + DumpAll(ies[1..]);
      if ies[1..] == [] {
        assert ReloadedAll(ies) == [Reloaded(ies[0])];
        ParseDump(ies[0], DumpAll(ies[1..]));
        LoadIesStops(DumpAll(ies), sofar, announced, Reloaded(ies[0]), DumpAll(ies[1..]));
      } else {
        LoadIesOfDump(ies[1..], sofar + TLV_LENGTH + AfterDump(ies[0]).tlv.length);
        assert TotalLength(ies[1..]) >= TLV_LENGTH;
        LoadIesTurnOn(Dump(ies[0]), Reloaded(ies[0]), DumpAll(ies[1..]), sofar, announced, Ies(ReloadedAll(ies[1..]), announced));
      }
    }
  }

  /** With an empty element among them the loop ends too early. */
  lemma {:induction false} LoadIesUpToEmpty(ies: seq<Ie>, sofar: u16, announced: u16)
    requires SyncOrEmpty(ies) && AnyEmpty(ies) && sofar + TotalLength(ies) <= announced
    ensures LoadIes(DumpAll(ies), sofar, announced).Ok? && LoadIes(DumpAll(ies), sofar, announced).value.total < announced
    decreases |ies|
  {
    if IsEmpty(ies[0]) {
      EmptyStops(ies, sofar, announced);
    } else {
      ReloadedTlv(ies[0]);
      EmptyIsLater(ies);
      var n := sofar + TLV_LENGTH + AfterDump(ies[0]).tlv.length;
      LoadIesUpToEmpty(ies[1..], n, announced);
      assert DumpAll(ies) == Dump(ies[0]) + DumpAll(ies[1..]);
      LoadIesTurnOn(Dump(ies[0]), Reloaded(ies[0]), DumpAll(ies[1..]), sofar, announced,
                    LoadIes(DumpAll(ies[1..]), n, announced).value);
    }
  }

  lemma EmptyIsLater(ies: seq<Ie>)
    requires AnyEmpty(ies) && !IsEmpty(ies[0])
    ensures AnyEmpty(ies[1..]) && TotalLength(ies[1..]) >= TLV_LENGTH
    ensures TotalLength(ies) == TLV_LENGTH + AfterDump(ies[0]).tlv.length + TotalLength(ies[1..])
  {
    var i :| 0 <= i < |ies| && IsEmpty(ies[i]);
    assert ies[1..][i - 1] == ies[i];
  }

  /** A message whose length field is right. */
  predicate LengthFieldRight(m: Message) {
    m.header.messageLength == 4 + (if HasTeid(m.header.first) then 4 else 0) + TotalLength(m.ies)
  }

  /** The header a peer reads: without the spare bits, and with the priority only where it counts. */
  function ReceivedHeader(h: Header): Header {
    Header(FirstWritten(h.first), h.messageType, h.messageLength, if HasTeid(h.first) then h.teid else 0,
           h.sequenceNumber, LastWritten(h.first, h.last))
  }

  /** What a peer makes of the dump: the elements as they reload, under that header. */
  ghost function Received(m: Message): Message
    requires AllInSync(m.ies)
  {
    Message(ReceivedHeader(m.header), ReloadedAll(m.ies))
  }

  lemma AnnouncedRight(m: Message)
    requires LengthFieldRight(m)
    ensures Announced(ReceivedHeader(m.header)) == TotalLength(m.ies)
  {
    assert HasTeid(FirstWritten(m.header.first)) == HasTeid(m.header.first);
  }

  /** Loading is the header and then the loop over the elements. */
  lemma LoadMessageIs(s: seq<byte>, h: Header, behind: seq<byte>)
    requires LoadHeader(s) == Ok(h) && |s| >= HeaderSize(h.first) && s[HeaderSize(h.first)..] == behind
    ensures
      LoadMessage(s)
      == match LoadIes(behind, 0, Announced(h))
         case Err(e) => Err(e)
         case Ok(r) => if r.total == Announced(h) then Ok(Message(h, r.ies)) else Err(BadMessageLength)
  {}

  /** A message of elements that are in sync or empty, with the right length, loads if and only if
      none is empty; then every element comes back as it reloads, under the same sequence number. */
  lemma MessageRoundTrip(m: Message)
    requires SyncOrEmpty(m.ies) && LengthFieldRight(m)
    ensures LoadMessage(DumpMessage(m)).Ok? <==> !AnyEmpty(m.ies)
    ensures !AnyEmpty(m.ies) ==> AllInSync(m.ies) && LoadMessage(DumpMessage(m)) == Ok(Received(m))
  {
    HeaderRoundTrip(m.header, DumpAll(m.ies));
    AnnouncedRight(m);
    LoadMessageIs(DumpMessage(m), ReceivedHeader(m.header), DumpAll(m.ies));
    if AnyEmpty(m.ies) {
      LoadIesUpToEmpty(m.ies, 0, TotalLength(m.ies));
    } else {
      LoadIesOfDump(m.ies, 0);
    }
  }

  // ----- what the parser accepts -----

  /** The lengths of loaded elements, with the four octets of each. */
  function SumLengths(ies: seq<Ie>): nat {
    if ies == [] then 0 else TLV_LENGTH + ies[0].tlv.length + SumLengths(ies[1..])
  }

  /** In a group, only the last element may reach beyond the length of the group. */
  predicate OnlyLastOvershoots(ies: seq<Ie>, length: int) {
    && SumLengths(ies) >= length
    && (ies != [] ==> SumLengths(ies[..|ies| - 1]) < length)
    && (length > 0 ==> ies != [])
  }

  /** This holds of an element and of all nested ones, and no element is empty or unknown. */
  predicate WellNested(ie: Ie)
    decreases ie, 1
  {
    IsLoadable(ie.tlv) && (ie.tlv.typ == BEARER_CONTEXT <==> ie.body.Group?)
    && (ie.body.Group? ==> OnlyLastOvershoots(ie.body.ies, ie.tlv.length) && AllWellNested(ie.body.ies))
  }

  predicate AllWellNested(ies: seq<Ie>)
    decreases ies
  {
    ies == [] || (WellNested(ies[0]) && AllWellNested(ies[1..]))
  }

  lemma LeafIsNoGroup(tlv: Tlv, s: seq<byte>)
    requires IsLoadable(tlv) && tlv.typ != BEARER_CONTEXT && LoadLeaf(tlv, s).Ok?
    ensures !LoadLeaf(tlv, s).value.body.Group?
  {}

  lemma {:induction false} ParsedWellNested(s: seq<byte>)
    requires ParseIe(s).Got?
    ensures WellNested(ParseIe(s).ie)
    decreases |s|, 0
  {
    GotIsLoadable(s);
    ParseIs(s);
    var tlv := ParseTlv(s);
    if tlv.typ == BEARER_CONTEXT {
      GroupWellNested(s[4..], tlv.length);
    } else {
      LeafIsNoGroup(tlv, s[4..]);
    }
  }

  lemma {:induction false} GroupWellNested(s: seq<byte>, remaining: int)
    requires LoadGroup(s, remaining).Ok?
    ensures AllWellNested(LoadGroup(s, remaining).value.ies)
    ensures OnlyLastOvershoots(LoadGroup(s, remaining).value.ies, remaining)
    decreases |s|, 1
  {
    if remaining > 0 {
      var ie, r, g := GroupTurn(s, remaining);
      ParsedWellNested(s);
      GroupWellNested(r, remaining - (ie.tlv.length + TLV_LENGTH));
      var ies := [ie] + g.ies;
      assert ies[1..] == g.ies;
      if g.ies == [] {
        assert ies[..0] == [];
      } else {
        assert ies[..|ies| - 1] == [ie] + g.ies[..|g.ies| - 1];
        assert ies[..|ies| - 1][1..] == g.ies[..|g.ies| - 1];
      }
    } else {
      GroupEnds(s, remaining);
    }
  }

  /** One turn of the loop over a message's elements. */
  lemma LoadIesCases(s: seq<byte>, sofar: u16, announced: u16) returns (ie: Ie, rest: seq<byte>, total: u16, more: Ies)
    requires LoadIes(s, sofar, announced).Ok? && ParseIe(s).Got?
    ensures ParseIe(s) == Got(ie, rest) && total == (sofar + (TLV_LENGTH + ie.tlv.length)) % 0x1_0000
    ensures
      if total < announced then
        LoadIes(rest, total, announced) == Ok(more) && LoadIes(s, sofar, announced) == Ok(Ies([ie] + more.ies, more.total))
      else
        LoadIes(s, sofar, announced) == Ok(Ies([ie], total))
  {
    ie, rest := ParseIe(s).ie, ParseIe(s).rest;
    total := (sofar + (TLV_LENGTH + ie.tlv.length)) % 0x1_0000;
    more := if total < announced then LoadIes(rest, total, announced).value else Ies([], 0);
  }

  lemma {:induction false} LoadedIesTotal(s: seq<byte>, sofar: u16, announced: u16, r: Ies)
    requires LoadIes(s, sofar, announced) == Ok(r)
    ensures r.total == (sofar + SumLengths(r.ies)) % 0x1_0000
    decreases |s|
  {
    if ParseIe(s).Got? {
      var ie, rest, total, more := LoadIesCases(s, sofar, announced);
      if total < announced {
        LoadedIesTotal(rest, total, announced, more);
        TurnCounts(sofar, ie, total, more.ies, more.total);
      } else {
        TurnCounts(sofar, ie, total, [], total);
        assert r.ies == [ie] + [];
      }
    } else {
      assert r == Ies([], sofar);
    }
  }

  lemma TurnCounts(sofar: u16, ie: Ie, total: u16, more: seq<Ie>, total': u16)
    requires total == (sofar + (TLV_LENGTH + ie.tlv.length)) % 0x1_0000
    requires total' == (total + SumLengths(more)) % 0x1_0000
    ensures total' == (sofar + SumLengths([ie] + more)) % 0x1_0000
  {
    SumCons(ie, more);
    Recount(sofar + (TLV_LENGTH + ie.tlv.length), SumLengths(more), total, total');
  }

  lemma SumCons(ie: Ie, rest: seq<Ie>)
    ensures SumLengths([ie] + rest) == TLV_LENGTH + ie.tlv.length + SumLengths(rest)
  {
    assert ([ie] + rest)[1..] == rest;
  }

  lemma {:induction false} LoadedIesWellNested(s: seq<byte>, sofar: u16, announced: u16)
    requires LoadIes(s, sofar, announced).Ok?
    ensures AllWellNested(LoadIes(s, sofar, announced).value.ies)
    decreases |s|
  {
    if ParseIe(s).Got? {
      ParsedWellNested(s);
      var ie, rest, total, more := LoadIesCases(s, sofar, announced);
      if total < announced {
        LoadedIesWellNested(rest, total, announced);
        assert ([ie] + more.ies)[1..] == more.ies;
      } else {
        assert [ie][1..] == [];
      }
    }
  }

  /** Whatever octets arrive: if the parser accepts them, the lengths of the top-level elements add
      up to what the header announced, modulo 2^16, no element is empty or unknown, and in every
      group at every depth only the last element can reach beyond the group. */
  lemma ParserSoundness(s: seq<byte>)
    requires LoadMessage(s).Ok?
    ensures
      var m := LoadMessage(s).value;
      && m.header.messageLength == (4 + (if HasTeid(m.header.first) then 4 else 0) + SumLengths(m.ies)) % 0x1_0000
      && AllWellNested(m.ies)
  {
    var h := LoadHeader(s).value;
    var r := LoadIes(s[HeaderSize(h.first)..], 0, Announced(h)).value;
    LoadedIesTotal(s[HeaderSize(h.first)..], 0, Announced(h), r);
    LoadedIesWellNested(s[HeaderSize(h.first)..], 0, Announced(h));
    var m := LoadMessage(s).value;
    ModularSum(m.header.messageLength, 4 + if HasTeid(h.first) then 4 else 0, SumLengths(m.ies));
  }

  lemma ModularSum(length: u16, fixed: nat, sum: nat)
    requires (length - fixed) % 0x1_0000 == sum % 0x1_0000
    ensures length == (fixed + sum) % 0x1_0000
  {}
}
