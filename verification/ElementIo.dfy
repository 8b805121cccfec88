/** Reading and writing elements on streams, with the loops of the original. */
module ElementIo {
  import opened Prelude
  import opened Octets
  import opened Elements
  import opened ElementLoading
  import opened Streams
  import opened LeafIo

  /** What the factory returns; the rest of the octets stays in the stream. */
  datatype Made = Nothing | Failure(error: Error) | Object(ie: Ie)

  /** The result of a loop that started with what was read before. */
  function Behind(before: seq<Ie>, r: Result<Loaded, Error>): Result<Loaded, Error> {
    match r
    case Err(e) => Err(e)
    case Ok(g) => Ok(Loaded(before + g.ies, g.rest))
  }

  method NewIeFromStream(input: InStream) returns (made: Made)
    requires input.Valid()
    modifies input
    ensures input.Valid()
    ensures
      match ParseIe(old(input.Rest()))
      case NoIe => made == Nothing
      case Failed(e) => made == Failure(e)
      case Got(ie, rest) => made == Object(ie) && input.Rest() == rest
    decreases |input.Rest()|, 0
  {
    ghost var s := input.Rest();
    if input.pos == |input.data| {
      assert s == [];
      return Nothing;
    }
    assert s != [];
    var head := input.Read(TLV_LENGTH);
    if head.None? {
      return Failure(Truncated);
    }
    var tlv := ParseTlv(head.value);
    TlvOfHead(s);
    assert head.value == s[..TLV_LENGTH];
    if !IsLoadable(tlv) {
      return Nothing;
    }
    ParseIs(s);
    if tlv.typ == BEARER_CONTEXT {
      var ies := LoadGrouped(input, tlv.length);
      made := match ies case Ok(nested) => Object(Ie(tlv, Group(nested))) case Err(e) => Failure(e);
    } else {
      var body := LoadBodyOf(tlv, input);
      made := match body case Ok(b) => Object(Ie(tlv, b)) case Err(e) => Failure(e);
    }
  }

  /** The loader of an element that is not grouped. */
  method LoadBodyOf(tlv: Tlv, input: InStream) returns (r: Result<Body, Error>)
    requires input.Valid() && IsLoadable(tlv) && tlv.typ != BEARER_CONTEXT
    modifies input
    ensures input.Valid()
    ensures
      match LoadLeaf(tlv, old(input.Rest()))
      case Err(e) => r == Err(e)
      case Ok(leaf) => r == Ok(leaf.body) && input.Rest() == old(input.Rest())[leaf.used..]
  {
    if IsRaw(tlv.typ) {
      r := LoadRawBody(tlv, input);
    } else if IsDigits(tlv.typ) {
      r := LoadDigitsBody(tlv, input);
    } else if tlv.typ == CAUSE {
      r := LoadCauseBody(tlv, input);
    } else if tlv.typ == IP_ADDRESS {
      r := LoadIpAddressBody(tlv, input);
    } else if tlv.typ == PROTOCOL_CONFIGURATION_OPTIONS {
      r := LoadPcoBody(tlv, input);
    } else {
      r := LoadFqCsidBody(tlv, input);
    }
  }

  /** The loader of the protocol configuration options: one octet, and the containers. */
  method LoadPcoBody(tlv: Tlv, input: InStream) returns (r: Result<Body, Error>)
    requires input.Valid() && tlv.length > 0
    modifies input
    ensures input.Valid()
    ensures
      match LoadPco(tlv, old(input.Rest()))
      case Err(e) => r == Err(e)
      case Ok(leaf) => r == Ok(leaf.body) && input.Rest() == old(input.Rest())[leaf.used..]
  {
    ghost var s := input.Rest();
    var first := input.Read(1);
    if first.None? {
      return Err(Truncated);
    }
    assert first.value == s[..1] && first.value[0] == s[0];
    var cs := LoadContainerList(input, tlv.length - 1);
    r := match cs case Ok(containers) => Ok(Pco(first.value[0], containers)) case Err(e) => Err(e);
    if cs.Ok? { assert input.Rest() == s[tlv.length..]; }
  }

  lemma TlvOfHead(s: seq<byte>)
    requires |s| >= TLV_LENGTH
    ensures ParseTlv(s[..TLV_LENGTH]) == ParseTlv(s)
  {
    assert s[..4][1..3] == s[1..3];
  }

  /** The nested elements, while octets of the group's length remain. */
  method LoadGrouped(input: InStream, length: nat) returns (r: Result<seq<Ie>, Error>)
    requires input.Valid()
    modifies input
    ensures input.Valid()
    ensures
      match LoadGroup(old(input.Rest()), length)
      case Err(e) => r == Err(e)
      case Ok(g) => r == Ok(g.ies) && input.Rest() == g.rest
    decreases |input.Rest()|, 1
  {
    ghost var s := input.Rest();
    var remaining: int := length;
    var ies: seq<Ie> := [];
    EmptyBefore(LoadGroup(s, length));
    while remaining > 0
      invariant input.Valid() && |input.Rest()| <= |s|
      invariant LoadGroup(s, length) == Behind(ies, LoadGroup(input.Rest(), remaining))
      decreases |input.Rest()|
    {
      ghost var here := input.Rest();
      var made := NewIeFromStream(input);
      match made {
        case Nothing =>
          GroupFails(here, remaining);
          return Err(BadLength);
        case Failure(e) =>
          GroupFails(here, remaining);
          return Err(e);
        case Object(ie) =>
          OneMore(ies, here, remaining);
          remaining := remaining - (ie.tlv.length + TLV_LENGTH);
          ies := ies + [ie];
      }
    }
    GroupDone(ies, input.Rest(), remaining);
    r := Ok(ies);
  }

  lemma GroupDone(before: seq<Ie>, rest: seq<byte>, remaining: int)
    requires remaining <= 0
    ensures Behind(before, LoadGroup(rest, remaining)) == Ok(Loaded(before, rest))
  {
    GroupEnds(rest, remaining);
    assert before + [] == before;
  }

  lemma GroupFails(s: seq<byte>, remaining: int)
    requires remaining > 0 && !ParseIe(s).Got?
    ensures LoadGroup(s, remaining) == Err(if ParseIe(s).NoIe? then BadLength else ParseIe(s).error)
  {}

  lemma EmptyBefore(r: Result<Loaded, Error>)
    ensures Behind([], r) == r
  {
    if r.Ok? { assert [] + r.value.ies == r.value.ies; }
  }

  /** One more turn of the loop. */
  lemma OneMore(before: seq<Ie>, s: seq<byte>, remaining: int)
    requires remaining > 0 && ParseIe(s).Got?
    ensures
      var p := ParseIe(s);
      Behind(before, LoadGroup(s, remaining)) == Behind(before + [p.ie], LoadGroup(p.rest, remaining - (p.ie.tlv.length + TLV_LENGTH)))
  {
    var p := ParseIe(s);
    var more := LoadGroup(p.rest, remaining - (p.ie.tlv.length + TLV_LENGTH));
    GroupTurnIs(s, remaining, p.ie, p.rest);
    if more.Ok? {
      assert before + ([p.ie] + more.value.ies) == before + [p.ie] + more.value.ies;
    }
  }

  lemma GroupTurnIs(s: seq<byte>, remaining: int, ie: Ie, rest: seq<byte>)
    requires remaining > 0 && ParseIe(s) == Got(ie, rest)
    ensures LoadGroup(s, remaining) == Behind([ie], LoadGroup(rest, remaining - (ie.tlv.length + TLV_LENGTH)))
  {}

  /** The same for the loop over containers, which has read `used` octets before. */
  function BehindContainers(before: seq<Container>, used: nat, r: Result<(seq<Container>, nat), Error>)
    : Result<(seq<Container>, nat), Error>
  {
    match r
    case Err(e) => Err(e)
    case Ok((cs, more)) => Ok((before + cs, used + more))
  }

  /** The containers of protocol configuration options, while octets remain. */
  method LoadContainerList(input: InStream, length: nat) returns (r: Result<seq<Container>, Error>)
    requires input.Valid()
    modifies input
    ensures input.Valid()
    ensures r.Err? ==> LoadContainers(old(input.Rest()), length) == Err(r.error)
    ensures r.Ok? ==>
              LoadContainers(old(input.Rest()), length) == Ok((r.value, length)) && input.pos == old(input.pos) + length
  {
    ghost var s := input.Rest();
    var remaining: int := length;
    var cs: seq<Container> := [];
    ghost var used := 0;
    NoContainersBefore(LoadContainers(s, length));
    while remaining > 0
      invariant input.Valid() && 0 <= remaining && used + remaining == length
      invariant input.pos == old(input.pos) + used
      invariant LoadContainers(s, length) == BehindContainers(cs, used, LoadContainers(input.Rest(), remaining))
      decreases remaining
    {
      var c := NextContainer(input, remaining);
      if c.Err? {
        return Err(c.error);
      }
      var n := (c.value.length as int) + 3;
      BehindTwice(cs, used, c.value, n, LoadContainers(input.Rest(), remaining - n));
      cs := cs + [c.value];
      used := used + n;
      remaining := remaining - n;
    }
    NoContainersLeft(cs, used, input.Rest());
    r := Ok(cs);
  }

  lemma NoContainersLeft(cs: seq<Container>, used: nat, rest: seq<byte>)
    ensures BehindContainers(cs, used, LoadContainers(rest, 0)) == Ok((cs, used))
  {
    assert cs + [] == cs;
  }

  /** One container, as long as it says, if there is room for it. */
  method NextContainer(input: InStream, remaining: nat) returns (r: Result<Container, Error>)
    requires input.Valid() && remaining > 0
    modifies input
    ensures input.Valid()
    ensures
      match r
      case Err(e) => LoadContainers(old(input.Rest()), remaining) == Err(e)
      case Ok(c) =>
        var n := (c.length as int) + 3;
        && n <= remaining && input.pos == old(input.pos) + n
        && LoadContainers(old(input.Rest()), remaining) == BehindContainers([c], n, LoadContainers(input.Rest(), remaining - n))
  {
    ghost var s := input.Rest();
    var head := input.Read(3);
    if head.None? {
      return Err(Truncated);
    }
    var contents := input.Read(head.value[2]);
    if contents.None? {
      return Err(Truncated);
    }
    ContainerRead(s, head.value, contents.value);
    DropTwice(input.data, old(input.pos), 3 + head.value[2] as nat);
    FirstContainer(s, remaining);
    assert input.Rest() == s[3 + s[2] as nat..];
    if (head.value[2] as int) + 3 <= remaining {
      r := Ok(Container(OctetsU16(head.value[..2]), head.value[2], contents.value));
    } else {
      r := Err(BadLength);
    }
  }

  /** The first container and the others. */
  lemma FirstContainer(s: seq<byte>, remaining: nat)
    requires remaining > 0 && |s| >= 3 && |s| >= 3 + s[2] as nat
    ensures
      var n := 3 + s[2] as nat;
      LoadContainers(s, remaining)
      == if n <= remaining then
           BehindContainers([Container(OctetsU16(s[..2]), s[2], s[3..n])], n, LoadContainers(s[n..], remaining - n))
         else Err(BadLength)
  {}

  lemma DropTwice(s: seq<byte>, k: nat, n: nat)
    requires k + n <= |s|
    ensures s[k..][n..] == s[k + n..]
  {}

  lemma NoContainersBefore(r: Result<(seq<Container>, nat), Error>)
    ensures BehindContainers([], 0, r) == r
  {
    if r.Ok? { assert [] + r.value.0 == r.value.0; }
  }

  lemma BehindTwice(before: seq<Container>, used: nat, c: Container, n: nat, r: Result<(seq<Container>, nat), Error>)
    ensures BehindContainers(before, used, BehindContainers([c], n, r)) == BehindContainers(before + [c], used + n, r)
  {
    if r.Ok? { assert before + ([c] + r.value.0) == before + [c] + r.value.0; }
  }

  lemma ContainerRead(s: seq<byte>, head: seq<byte>, contents: seq<byte>)
    requires |s| >= 3 && head == s[..3] && |s| >= 3 + head[2] as nat && contents == s[3..][..head[2]]
    ensures head[..2] == s[..2] && head[2] == s[2] && contents == s[3..3 + s[2] as nat]
    ensures s[3..][head[2]..] == s[3 + s[2] as nat..]
  {}

  // ----- writing -----

  /** Writes a fully qualified CSID: each CSID is exchanged in place, and goes out in network order. */
  method DumpCsids(csids: seq<u16>, output: OutStream) returns (after: seq<u16>)
    modifies output
    ensures output.data == old(output.data) + CsidOctets(csids) && after == SwappedAll(csids)
  {
    after := csids;
    var i := 0;
    ghost var start := output.data;
    assert start + CsidOctets(csids[..0]) == start;
    while i < |csids|
      invariant 0 <= i <= |csids| == |after|
      invariant output.data == start + CsidOctets(csids[..i])
      invariant forall j :: 0 <= j < |csids| ==> after[j] == if j < i then Swapped(csids[j]) else csids[j]
    {
      after := after[i := Swapped(csids[i])];
      output.Write(U16Octets(csids[i]));
      CsidOctetsSnoc(csids[..i], csids[i]);
      assert csids[..i + 1] == csids[..i] + [csids[i]];
      i := i + 1;
    }
    assert csids[..i] == csids;
  }

  lemma {:induction false} CsidOctetsSnoc(xs: seq<u16>, x: u16)
    ensures CsidOctets(xs + [x]) == CsidOctets(xs) + U16Octets(x)
    decreases |xs|
  {
    if xs == [] {
      assert [] + [x] == [x] && [x][1..] == [];
    } else {
      assert (xs + [x])[1..] == xs[1..] + [x];
      CsidOctetsSnoc(xs[1..], x);
    }
  }

  /** Writes an IMSI, an MEI or an MSISDN. Only the MSISDN limits its digits and sets the filler. */
  method DumpDigits(ie: Ie, output: OutStream) returns (after: Ie)
    requires ie.body.Digits?
    modifies output
    ensures output.data == old(output.data) + Dump(ie) && after == AfterDump(ie)
  {
    after := ie;
    if ie.tlv.typ == MSISDN {
      var n := if ie.body.count > 15 then 15 else ie.body.count;
      var b := ie.body.buffer;
      if n % 2 == 1 {
        b := b[n / 2 := FillerHigh(b[n / 2])];
      }
      after := Ie(ie.tlv.(length := (n + 1) / 2), Digits(b, n));
    }
    output.Write(TlvOctets(after.tlv));
    output.Write(after.body.buffer[..MinNat(after.tlv.length, 8)]);
    DumpIs(ie, after.body.buffer[..MinNat(after.tlv.length, 8)]);
  }

  lemma DumpIs(ie: Ie, payload: seq<byte>)
    requires payload == Payload(ie)
    ensures Dump(ie) == TlvOctets(AfterDump(ie).tlv) + payload
  {}

  method DumpCause(ie: Ie, output: OutStream) returns (after: Ie)
    requires ie.body.Cause?
    modifies output
    ensures output.data == old(output.data) + Dump(ie) && after == AfterDump(ie)
  {
    after := ie.(tlv := ie.tlv.(length := if ie.body.value == MANDATORY_IE_INCORRECT then 6 else 2));
    output.Write(TlvOctets(after.tlv));
    output.Write([ie.body.value, ie.body.flags]);
    if after.tlv.length == 6 {
      output.Write([ie.body.offendingType]);
      output.Write(U16Octets(ie.body.offendingLength));
    }
  }

  method DumpFqCsid(ie: Ie, output: OutStream) returns (after: Ie)
    requires ie.body.FqCsid?
    modifies output
    ensures output.data == old(output.data) + Dump(ie) && after == AfterDump(ie)
  {
    output.Write(TlvOctets(ie.tlv));
    output.Write([ie.body.first]);
    output.Write(NodeOctets(ie.body.node));
    var swapped := DumpCsids(ie.body.csids, output);
    after := Ie(ie.tlv, FqCsid(ie.body.first, ie.body.node, swapped));
  }

  /** Writes one element and returns the object as its dump method leaves it. */
  method DumpElement(ie: Ie, output: OutStream) returns (after: Ie)
    modifies output
    ensures output.data == old(output.data) + Dump(ie) && after == AfterDump(ie)
    decreases ie, 1
  {
    match ie.body
    case Group(ies) =>
      output.Write(TlvOctets(ie.tlv));
      var nested := DumpElements(ies, output);
      after := Ie(ie.tlv, Group(nested));
    case FqCsid(_, _, _) => after := DumpFqCsid(ie, output);
    case Digits(_, _) => after := DumpDigits(ie, output);
    case Cause(_, _, _, _, _) => after := DumpCause(ie, output);
    case Raw(octets) =>
      after := if ie.tlv.typ == ACCESS_POINT_NAME then ie.(tlv := ie.tlv.(length := |octets| % 0x1_0000)) else ie;
      output.Write(TlvOctets(after.tlv));
      output.Write(octets);
    case IpAddress(isIpv4, address) =>
      after := ie;
      output.Write(TlvOctets(ie.tlv));
      output.Write(if isIpv4 then address[..4] else address);
    case Pco(first, containers) =>
      after := ie;
      output.Write(TlvOctets(ie.tlv));
      output.Write([first]);
      DumpContainers(containers, output);
  }

  method DumpContainers(cs: seq<Container>, output: OutStream)
    modifies output
    ensures output.data == old(output.data) + AllContainerOctets(cs)
  {
    var i := 0;
    ghost var start := output.data;
    assert start + AllContainerOctets(cs[..0]) == start;
    while i < |cs|
      invariant 0 <= i <= |cs|
      invariant output.data == start + AllContainerOctets(cs[..i])
    {
      output.Write(U16Octets(cs[i].id));
      output.Write([cs[i].length]);
      output.Write(cs[i].contents);
      ContainersSnoc(cs[..i], cs[i]);
      assert cs[..i + 1] == cs[..i] + [cs[i]];
      i := i + 1;
    }
    assert cs[..i] == cs;
  }

  lemma {:induction false} ContainersSnoc(cs: seq<Container>, c: Container)
    ensures AllContainerOctets(cs + [c]) == AllContainerOctets(cs) + ContainerOctets(c)
    decreases |cs|
  {
    if cs == [] {
      assert [] + [c] == [c] && [c][1..] == [];
    } else {
      assert (cs + [c])[1..] == cs[1..] + [c];
      ContainersSnoc(cs[1..], c);
    }
  }

  method DumpElements(ies: seq<Ie>, output: OutStream) returns (after: seq<Ie>)
    modifies output
    ensures output.data == old(output.data) + DumpAll(ies) && after == AfterDumpAll(ies)
    decreases ies, 0
  {
    after := [];
    var i := 0;
    ghost var start := output.data;
    assert start + DumpAll(ies[..0]) == start;
    while i < |ies|
      invariant 0 <= i <= |ies|
      invariant output.data == start + DumpAll(ies[..i]) && after == AfterDumpAll(ies[..i])
    {
      var one := DumpElement(ies[i], output);
      after := after + [one];
      DumpAllSnoc(ies[..i], ies[i]);
      assert ies[..i + 1] == ies[..i] + [ies[i]];
      i := i + 1;
    }
    assert ies[..i] == ies;
  }

  lemma {:induction false} DumpAllSnoc(ies: seq<Ie>, ie: Ie)
    ensures DumpAll(ies + [ie]) == DumpAll(ies) + Dump(ie)
    ensures AfterDumpAll(ies + [ie]) == AfterDumpAll(ies) + [AfterDump(ie)]
    decreases |ies|
  {
    if ies == [] {
      assert [] + [ie] == [ie] && [ie][1..] == [];
    } else {
      assert (ies + [ie])[1..] == ies[1..] + [ie];
      DumpAllSnoc(ies[1..], ie);
    }
  }
}
