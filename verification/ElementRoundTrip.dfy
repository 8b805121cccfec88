/** Loading what an element dumped. An element is in sync when its loader reads exactly the octets
    its dumper wrote; a stream of such elements is read back element by element. */
module ElementRoundTrip {
  import opened Prelude
  import opened Octets
  import opened Elements
  import opened ElementLoading

  ghost predicate InSync(ie: Ie) {
    ParseIe(Dump(ie)).Got? && ParseIe(Dump(ie)).rest == []
  }

  /** What loading the dump gives. */
  ghost function Reloaded(ie: Ie): Ie
    requires InSync(ie)
  {
    ParseIe(Dump(ie)).ie
  }

  ghost predicate AllInSync(ies: seq<Ie>) {
    forall i :: 0 <= i < |ies| ==> InSync(ies[i])
  }

  ghost function ReloadedAll(ies: seq<Ie>): (r: seq<Ie>)
    requires AllInSync(ies)
    ensures |r| == |ies|
  {
    if ies == [] then [] else [Reloaded(ies[0])] + ReloadedAll(ies[1..])
  }

  /** The octets the elements take up by their own account. */
  function TotalLength(ies: seq<Ie>): nat {
    if ies == [] then 0 else TLV_LENGTH + AfterDump(ies[0]).tlv.length + TotalLength(ies[1..])
  }

  lemma TlvRoundTrip(t: Tlv, rest: seq<byte>)
    ensures ParseTlv(TlvOctets(t) + rest) == t && (TlvOctets(t) + rest)[4..] == rest
  {
    var s := TlvOctets(t) + rest;
    assert s[1..3] == U16Octets(t.length);
    U16RoundTrip(t.length);
  }

  /** Whatever follows, an element in sync is read back, and no more. */
  lemma ParseDump(ie: Ie, rest: seq<byte>)
    requires InSync(ie)
    ensures ParseIe(Dump(ie) + rest) == Got(Reloaded(ie), rest)
  {
    ParsePrefix(Dump(ie), rest);
    assert [] + rest == rest;
  }

  /** The parse of a dump looks at the payload. */
  lemma ParseIsLoad(ie: Ie)
    ensures IsLoadable(AfterDump(ie).tlv) ==> ParseIe(Dump(ie)) == LoadBody(AfterDump(ie).tlv, Payload(ie))
    ensures !IsLoadable(AfterDump(ie).tlv) ==> ParseIe(Dump(ie)) == NoIe
  {
    TlvRoundTrip(AfterDump(ie).tlv, Payload(ie));
    if IsLoadable(AfterDump(ie).tlv) { ParseIs(Dump(ie)); }
  }

  /** Reloading keeps the type, the length and the instance that were dumped. */
  lemma ReloadedTlv(ie: Ie)
    requires InSync(ie)
    ensures Reloaded(ie).tlv == AfterDump(ie).tlv && IsLoadable(Reloaded(ie).tlv)
  {
    ParseIsLoad(ie);
  }

  // ----- nesting -----

  /** One turn of the loop of the grouped element, on the octets `o` of an element. */
  lemma GroupTurnOn(o: seq<byte>, ie: Ie, behind: seq<byte>, remaining: int, g: Loaded)
    requires ParseIe(o) == Got(ie, []) && remaining > 0
    requires LoadGroup(behind, remaining - (ie.tlv.length + TLV_LENGTH)) == Ok(g)
    ensures LoadGroup(o + behind, remaining) == Ok(Loaded([ie] + g.ies, g.rest))
  {
    ParsePrefix(o, behind);
    assert [] + behind == behind;
    GroupFrom(o + behind, remaining, ie, behind, g);
  }

  lemma DumpAllSplits(ies: seq<Ie>, rest: seq<byte>)
    requires ies != []
    ensures DumpAll(ies) + rest == Dump(ies[0]) + (DumpAll(ies[1..]) + rest)
  {}

  lemma FirstReloaded(ies: seq<Ie>)
    requires AllInSync(ies) && ies != []
    ensures InSync(ies[0]) && AllInSync(ies[1..]) && ReloadedAll(ies) == [Reloaded(ies[0])] + ReloadedAll(ies[1..])
    ensures TotalLength(ies) == TLV_LENGTH + Reloaded(ies[0]).tlv.length + TotalLength(ies[1..])
  {
    ReloadedTlv(ies[0]);
  }

  lemma {:induction false} LoadGroupOfDump(ies: seq<Ie>, rest: seq<byte>)
    requires AllInSync(ies)
    ensures LoadGroup(DumpAll(ies) + rest, TotalLength(ies)) == Ok(Loaded(ReloadedAll(ies), rest))
    decreases |ies|
  {
    if ies == [] {
      assert DumpAll(ies) + rest == rest;
      GroupEnds(rest, 0);
    } else {
      DumpAllSplits(ies, rest);
      FirstReloaded(ies);
      LoadGroupOfDump(ies[1..], rest);
      GroupTurnOn(Dump(ies[0]), Reloaded(ies[0]), DumpAll(ies[1..]) + rest, TotalLength(ies),
                  Loaded(ReloadedAll(ies[1..]), rest));
    }
  }

  /** A bearer context whose length is the total of its elements, all in sync, is in sync. */
  lemma GroupInSync(tlv: Tlv, ies: seq<Ie>)
    requires tlv.typ == BEARER_CONTEXT && tlv.length == TotalLength(ies) && ies != [] && AllInSync(ies)
    ensures InSync(Ie(tlv, Group(ies))) && Reloaded(Ie(tlv, Group(ies))) == Ie(tlv, Group(ReloadedAll(ies)))
  {
    var ie := Ie(tlv, Group(ies));
    ParseIsLoad(ie);
    LoadGroupOfDump(ies, []);
    assert DumpAll(ies) + [] == DumpAll(ies);
  }

  // ----- leaves -----

  lemma LeafInSync(ie: Ie, leaf: Leaf)
    requires !ie.body.Group? && IsLoadable(AfterDump(ie).tlv) && AfterDump(ie).tlv.typ != BEARER_CONTEXT
    requires LoadLeaf(AfterDump(ie).tlv, Payload(ie)) == Ok(leaf) && leaf.used == |Payload(ie)|
    ensures InSync(ie) && Reloaded(ie) == Ie(AfterDump(ie).tlv, leaf.body)
  {
    ParseIsLoad(ie);
    assert Payload(ie)[leaf.used..] == [];
  }

  /** An element that is its octets is in sync if and only if its loader would read that many; it
      is then reloaded as it is. */
  lemma RawInSync(ie: Ie)
    requires ie.body.Raw? && IsRaw(ie.tlv.typ)
    ensures
      var o := ie.body.octets;
      var length := AfterDump(ie).tlv.length;
      InSync(ie) <==> length > 0 && o != [] && ReadSize(ie.tlv.typ, length, o[0]) == Ok(|o|)
    ensures InSync(ie) ==> Reloaded(ie) == AfterDump(ie)
  {
    var o, tlv := ie.body.octets, AfterDump(ie).tlv;
    ParseIsLoad(ie);
    if tlv.length > 0 && o != [] {
      assert LoadLeaf(tlv, o) == LoadRaw(tlv, o);
      if ReadSize(tlv.typ, tlv.length, o[0]) == Ok(|o|) {
        assert o[..|o|] == o;
        LeafInSync(ie, Leaf(Raw(o), |o|));
      }
    }
  }

  /** The digits and the buffer that reading back `length` octets gives. */
  function DigitsRead(typ: byte, buffer: Octets8, length: nat): Body
    requires 0 < length <= 8
  {
    Digits(buffer[..length] + Zeros(8 - length), DigitCount(typ, buffer[length - 1], length))
  }

  lemma LoadDigitsOf(tlv: Tlv, buffer: Octets8)
    requires 0 < tlv.length <= 8
    ensures LoadDigits(tlv, buffer[..tlv.length]) == Ok(Leaf(DigitsRead(tlv.typ, buffer, tlv.length), tlv.length))
  {
    assert buffer[..tlv.length][..tlv.length] == buffer[..tlv.length];
  }

  lemma DigitsPayload(ie: Ie)
    requires ie.body.Digits? && AfterDump(ie).tlv.length <= 8
    ensures AfterDump(ie).body.Digits? && Payload(ie) == AfterDump(ie).body.buffer[..AfterDump(ie).tlv.length]
    ensures AfterDump(ie).tlv.typ == ie.tlv.typ
  {}

  lemma LeafOfDigits(tlv: Tlv, s: seq<byte>)
    requires IsDigits(tlv.typ) && tlv.length > 0
    ensures LoadLeaf(tlv, s) == LoadDigits(tlv, s)
  {}

  /** An IMSI, MEI or MSISDN is in sync unless it has no digits. */
  lemma DigitsInSync(ie: Ie)
    requires ie.body.Digits? && IsDigits(ie.tlv.typ) && AfterDump(ie).tlv.length <= 8
    ensures AfterDump(ie).body.Digits? && (InSync(ie) <==> AfterDump(ie).tlv.length > 0)
    ensures InSync(ie) ==>
              Reloaded(ie) == Ie(AfterDump(ie).tlv, DigitsRead(ie.tlv.typ, AfterDump(ie).body.buffer, AfterDump(ie).tlv.length))
  {
    DigitsPayload(ie);
    var tlv, buffer := AfterDump(ie).tlv, AfterDump(ie).body.buffer;
    if tlv.length > 0 {
      LoadDigitsOf(tlv, buffer);
      LeafOfDigits(tlv, Payload(ie));
      LeafInSync(ie, Leaf(DigitsRead(tlv.typ, buffer, tlv.length), tlv.length));
    } else {
      ParseIsLoad(ie);
    }
  }

  /** A cause is in sync if and only if it is not the one for an incorrect mandatory element: that
      one is dumped with five octets of the six that its length announces and its loader reads. */
  lemma CauseInSync(ie: Ie)
    requires ie.body.Cause? && ie.tlv.typ == CAUSE
    ensures InSync(ie) <==> ie.body.value != 69
    ensures InSync(ie) ==> Reloaded(ie) == Ie(AfterDump(ie).tlv, Cause(ie.body.value, ie.body.flags, 0, 0, 0))
    ensures ie.body.value == 69 ==> AfterDump(ie).tlv.length == 6 && |Payload(ie)| == 5
  {
    ParseIsLoad(ie);
    if ie.body.value != MANDATORY_IE_INCORRECT {
      LeafInSync(ie, Leaf(Cause(ie.body.value, ie.body.flags, 0, 0, 0), 2));
    }
  }

  // ----- protocol configuration options -----

  predicate LengthsMatch(cs: seq<Container>) {
    forall i :: 0 <= i < |cs| ==> |cs[i].contents| == cs[i].length
  }

  lemma {:induction false} ContainersRoundTrip(cs: seq<Container>)
    requires LengthsMatch(cs)
    ensures LoadContainers(AllContainerOctets(cs), |AllContainerOctets(cs)|) == Ok((cs, |AllContainerOctets(cs)|))
    decreases |cs|
  {
    if cs != [] {
      ContainersRoundTrip(cs[1..]);
      ContainerTurn(cs[0], cs[1..], AllContainerOctets(cs[1..]));
      assert [cs[0]] + cs[1..] == cs;
    }
  }

  lemma ContainerSlices(c: Container, behind: seq<byte>)
    requires |c.contents| == c.length
    ensures
      var s := ContainerOctets(c) + behind;
      var used := 3 + c.length as nat;
      && |s| == used + |behind| && s[2] == c.length
      && OctetsU16(s[..2]) == c.id && s[3..used] == c.contents && s[used..] == behind
  {
    U16RoundTrip(c.id);
    assert (ContainerOctets(c) + behind)[..2] == U16Octets(c.id);
  }

  /** One turn of the loop over containers. */
  lemma ContainerTurn(c: Container, cs: seq<Container>, behind: seq<byte>)
    requires |c.contents| == c.length && LoadContainers(behind, |behind|) == Ok((cs, |behind|))
    ensures
      var s := ContainerOctets(c) + behind;
      LoadContainers(s, |s|) == Ok(([c] + cs, |s|))
  {
    ContainerSlices(c, behind);
  }

  /** Containers are only ever loaded with the length they have. */
  lemma {:induction false} LoadedLengthsMatch(s: seq<byte>, remaining: int)
    requires LoadContainers(s, remaining).Ok?
    ensures LengthsMatch(LoadContainers(s, remaining).value.0)
    decreases |s|
  {
    if remaining > 0 {
      var used := 3 + s[2] as nat;
      LoadedLengthsMatch(s[used..], remaining - used);
    }
  }

  lemma PcoPayload(ie: Ie)
    requires ie.body.Pco?
    ensures AfterDump(ie) == ie && Payload(ie) == [ie.body.first] + AllContainerOctets(ie.body.containers)
    ensures Payload(ie)[1..] == AllContainerOctets(ie.body.containers)
  {}

  lemma PcoMatchingInSync(ie: Ie)
    requires ie.body.Pco? && ie.tlv.typ == PROTOCOL_CONFIGURATION_OPTIONS && ie.tlv.length == |Payload(ie)|
    requires LengthsMatch(ie.body.containers)
    ensures InSync(ie) && Reloaded(ie) == ie
  {
    PcoPayload(ie);
    ContainersRoundTrip(ie.body.containers);
    assert LoadPco(ie.tlv, Payload(ie)) == Ok(Leaf(ie.body, |Payload(ie)|));
    LeafInSync(ie, Leaf(ie.body, |Payload(ie)|));
  }

  /** Protocol configuration options of the right length come back as they were if and only if
      every container is as long as it says. (Section 10.5.6.3 of 3GPP TS 24.008.) */
  lemma PcoInSync(ie: Ie)
    requires ie.body.Pco? && ie.tlv.typ == PROTOCOL_CONFIGURATION_OPTIONS && ie.tlv.length == |Payload(ie)|
    ensures InSync(ie) && Reloaded(ie) == ie <==> LengthsMatch(ie.body.containers)
  {
    if LengthsMatch(ie.body.containers) {
      PcoMatchingInSync(ie);
    } else if InSync(ie) {
      PcoReloadedMatches(ie);
    }
  }

  lemma LoadedPcoMatches(tlv: Tlv, s: seq<byte>)
    requires LoadPco(tlv, s).Ok?
    ensures LoadPco(tlv, s).value.body.Pco? && LengthsMatch(LoadPco(tlv, s).value.body.containers)
  {
    LoadedLengthsMatch(s[1..], tlv.length - 1);
  }

  lemma PcoReloadedMatches(ie: Ie)
    requires ie.body.Pco? && ie.tlv.typ == PROTOCOL_CONFIGURATION_OPTIONS && InSync(ie)
    ensures Reloaded(ie).body.Pco? && LengthsMatch(Reloaded(ie).body.containers)
  {
    PcoPayload(ie);
    ParseIsLoad(ie);
    LoadedPcoMatches(ie.tlv, Payload(ie));
  }

  /** Options that load take up exactly their length, whatever the octets are. */
  lemma PcoUsesItsLength(tlv: Tlv, s: seq<byte>)
    requires tlv.typ == PROTOCOL_CONFIGURATION_OPTIONS && tlv.length > 0
    requires LoadLeaf(tlv, s).Ok?
    ensures LoadLeaf(tlv, s).value.used == tlv.length
  {}

  // ----- fully qualified CSID -----

  /** The node comes back unless it is an operator's number that does not fit its fields. */
  predicate NodeFits(n: Node) {
    n.Exotic? ==> n.mnc < 1000 && n.id < 0x1000 && 1000 * n.mcc + n.mnc < 0x10_0000
  }

  lemma SplitPacked(x: int, id: int)
    requires 0 <= x < 0x10_0000 && 0 <= id < 0x1000
    ensures (x * 0x1000 + id) / 0x1000 == x && (x * 0x1000 + id) % 0x1000 == id
  {}

  lemma SplitThousands(high: int, mcc: int, mnc: int)
    requires 0 <= high && 0 <= mcc && 0 <= mnc
    ensures high / 1000 == mcc && high % 1000 == mnc <==> high == 1000 * mcc + mnc && mnc < 1000
  {
    var q, r := high / 1000, high % 1000;
    assert high == 1000 * q + r && 0 <= r < 1000;
    if high == 1000 * mcc + mnc && mnc < 1000 {
      assert 1000 * (q - mcc) == mnc - r;
    }
  }

  /** The upper 20 bits as they are packed. */
  function PackedHigh(mcc: u16, mnc: u16, id: u16): (high: int)
    ensures 0 <= high < 0x10_0000
    ensures id < 0x1000 ==> high == (1000 * mcc + mnc) % 0x10_0000
  {
    var x := (1000 * mcc + mnc) % 0x10_0000;
    x / 16 * 16 + OrNibbles(x % 16, id / 0x1000)
  }

  lemma UnpackedIs(mcc: u16, mnc: u16, id: u16)
    ensures
      var high := PackedHigh(mcc, mnc, id);
      && PackExotic(mcc, mnc, id) / 0x1000 == high && PackExotic(mcc, mnc, id) % 0x1000 == id % 0x1000
  {
    var high := PackedHigh(mcc, mnc, id);
    assert PackExotic(mcc, mnc, id) == high * 0x1000 + id % 0x1000;
    SplitPacked(high, id % 0x1000);
  }

  /** Packing 1000 * mcc + mnc and the id in 32 bits is undone by mask, shift, division and
      remainder if and only if the three fit: mnc below 1000, id below 4096, and the sum below 2^20. */
  lemma ExoticRoundTrip(mcc: u16, mnc: u16, id: u16)
    ensures UnpackExotic(PackExotic(mcc, mnc, id)) == Exotic(mcc, mnc, id) <==> NodeFits(Exotic(mcc, mnc, id))
  {
    var high := PackedHigh(mcc, mnc, id);
    UnpackedIs(mcc, mnc, id);
    assert UnpackExotic(PackExotic(mcc, mnc, id)) == Exotic(mcc, mnc, id)
           <==> high / 1000 == mcc && high % 1000 == mnc && id % 0x1000 == id;
    SplitThousands(high, mcc, mnc);
    if id < 0x1000 {
      RemainderSame(1000 * mcc + mnc);
    } else {
      assert id % 0x1000 != id;
    }
  }

  lemma RemainderSame(n: nat)
    ensures n % 0x10_0000 == n <==> n < 0x10_0000
  {}

  /** The node that comes back. */
  function NodeBack(n: Node): Node {
    if n.Exotic? then UnpackExotic(PackExotic(n.mcc, n.mnc, n.id)) else n
  }

  lemma NodeRoundTrip(n: Node)
    ensures LoadNode(NodeKind(n), NodeOctets(n)) == Ok((NodeBack(n), |NodeOctets(n)|))
  {
    match n
    case Ipv4Node(a) => assert a[..4] == a;
    case Ipv6Node(a) => assert a[..16] == a;
    case Exotic(mcc, mnc, id) =>
      var o := NodeOctets(n);
      assert o[..4] == o;
      U32RoundTrip(PackExotic(mcc, mnc, id));
  }

  lemma {:induction false} CsidsRoundTrip(xs: seq<u16>)
    ensures OctetsCsids(CsidOctets(xs), |xs|) == xs
    decreases |xs|
  {
    if xs != [] {
      assert CsidOctets(xs)[..2] == U16Octets(xs[0]) && CsidOctets(xs)[2..] == CsidOctets(xs[1..]);
      U16RoundTrip(xs[0]);
      CsidsRoundTrip(xs[1..]);
    }
  }

  /** A fully qualified CSID as its constructor makes it: the first octet counts the CSIDs. */
  predicate FqCsidBuilt(ie: Ie) {
    && ie.body.FqCsid? && ie.tlv.typ == FQ_CSID
    && ie.body.first / 16 == NodeKind(ie.body.node) && ie.body.first % 16 == |ie.body.csids|
    && ie.tlv.length == 1 + |NodeOctets(ie.body.node)| + 2 * |ie.body.csids|
  }

  lemma FqCsidInSync(ie: Ie)
    requires FqCsidBuilt(ie)
    ensures InSync(ie) && Reloaded(ie).tlv == ie.tlv && Reloaded(ie).body.FqCsid?
    ensures Reloaded(ie) == ie <==> NodeFits(ie.body.node)
    ensures Reloaded(ie).body == FqCsid(ie.body.first, NodeBack(ie.body.node), ie.body.csids)
  {
    FqCsidReload(ie);
    var node := ie.body.node;
    if node.Exotic? { ExoticRoundTrip(node.mcc, node.mnc, node.id); }
  }

  lemma FqCsidPayload(b: Body, length: u16)
    requires b.FqCsid?
    ensures
      var p := LeafPayload(b, length);
      var size := |NodeOctets(b.node)|;
      && p == [b.first] + NodeOctets(b.node) + CsidOctets(b.csids) && p[1..] == NodeOctets(b.node) + CsidOctets(b.csids)
      && p[1 + size..1 + size + 2 * |b.csids|] == CsidOctets(b.csids)
  {}

  lemma FqCsidReload(ie: Ie)
    requires FqCsidBuilt(ie)
    ensures InSync(ie) && Reloaded(ie).tlv == ie.tlv
    ensures Reloaded(ie).body == FqCsid(ie.body.first, NodeBack(ie.body.node), ie.body.csids)
  {
    var b, p := ie.body, Payload(ie);
    FqCsidPayload(b, ie.tlv.length);
    NodeRoundTrip(b.node);
    LoadNodePrefix(NodeKind(b.node), NodeOctets(b.node), CsidOctets(b.csids));
    CsidsRoundTrip(b.csids);
    LeafInSync(ie, Leaf(FqCsid(b.first, NodeBack(b.node), b.csids), |p|));
  }
}
