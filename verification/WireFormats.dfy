/** The octets on the wire, in numbers: section 8 of 3GPP TS 29.274 for the elements of a Create Session
    Request, section 5 for the header. Writing and reading agree by the round trips; what they agree on
    is said here. */
module WireFormats {
  import opened Prelude
  import opened Octets
  import opened Elements
  import opened ElementLoading
  import opened ElementRoundTrip
  import opened Messages
  import opened MessageTheorems
  import opened Retransmission
  import opened CoreTypes
  import opened CoreRoundTrip
  import opened CoreTheorems

  // ----- numbers, headers and element headers -----

  /** The number that octets stand for, the most significant octet first. */
  function Value(s: seq<byte>): nat {
    if s == [] then 0 else Value(s[..|s| - 1]) * 0x100 + s[|s| - 1]
  }

  lemma ValueOfTwo(s: seq<byte>)
    requires |s| == 2
    ensures Value(s) == (s[0] as int) * 256 + s[1]
  {
    assert Value(s[..1]) == s[0] as nat by { assert s[..1][..0] == []; }
    assert s[..2] == s;
  }

  lemma ValueOfThree(s: seq<byte>)
    requires |s| == 3
    ensures Value(s) == (s[0] as int) * 65536 + (s[1] as int) * 256 + s[2]
  {
    ValueOfTwo(s[..2]);
  }

  lemma ValueOfFour(s: seq<byte>)
    requires |s| == 4
    ensures Value(s) == 65536 * Value(s[..2]) + Value(s[2..])
  {
    ValueOfThree(s[..3]);
    assert s[..3][0] == s[0];
    ValueOfTwo(s[..2]);
    ValueOfTwo(s[2..]);
  }

  lemma ValueOfFive(s: seq<byte>)
    requires |s| == 5
    ensures Value(s) == (s[0] as int) * 4294967296 + Value(s[1..])
  {
    ValueOfFour(s[..4]);
    ValueOfFour(s[1..]);
    ValueOfTwo(s[..4][..2]);
    ValueOfTwo(s[..4][2..]);
    ValueOfTwo(s[1..][..2]);
    ValueOfTwo(s[1..][2..]);
  }

  /** Numbers go out with the most significant octet first, and are read so. */
  lemma NetworkOrder16(n: u16, s: seq<byte>)
    requires |s| == 2
    ensures Value(U16Octets(n)) == n && OctetsU16(s) == Value(s)
  {
    ValueOfTwo(U16Octets(n));
    ValueOfTwo(s);
  }

  lemma NetworkOrder24(n: nat, s: seq<byte>)
    requires n < 0x100_0000 && |s| == 3
    ensures Value(U24Octets(n)) == n && OctetsU24(s) == Value(s)
  {
    ValueOfThree(U24Octets(n));
    ValueOfThree(s);
  }

  lemma NetworkOrder32(n: u32, s: seq<byte>)
    requires |s| == 4
    ensures Value(U32Octets(n)) == n && OctetsU32(s) == Value(s)
  {
    ValueOfFour(U32Octets(n));
    NetworkOrder16(n / 0x1_0000, s[..2]);
    NetworkOrder16(n % 0x1_0000, s[2..]);
    assert U32Octets(n)[..2] == U16Octets(n / 0x1_0000) && U32Octets(n)[2..] == U16Octets(n % 0x1_0000);
    ValueOfFour(s);
  }

  lemma NetworkOrder40(n: u64, s: seq<byte>)
    requires |s| == 5
    ensures Value(RateOctets(n)) == n % 1099511627776 && OctetsRate(s) == Value(s)
  {
    ValueOfFive(RateOctets(n));
    NetworkOrder32(n % 0x1_0000_0000, s[1..]);
    assert RateOctets(n)[1..] == U32Octets(n % 0x1_0000_0000);
    SplitRate(n);
    ValueOfFive(s);
  }

  /** The header of a message: the flags, the type, the length, the TEID if the flag of value 8 is set, the
      sequence number and one octet more. */
  lemma HeaderOnTheWire(h: Header)
    ensures
      var o := HeaderOctets(h);
      var i := if h.first / 8 % 2 == 1 then 8 else 4;
      && |o| == i + 4
      && o[0] == h.first / 4 * 4 && o[1] == h.messageType && Value(o[2..4]) == h.messageLength
      && (h.first / 8 % 2 == 1 ==> Value(o[4..8]) == h.teid)
      && Value(o[i..i + 3]) == h.sequenceNumber
      && o[i + 3] == (if h.first / 8 % 2 == 1 && h.first / 4 % 2 == 1 then h.last / 16 * 16 else 0)
  {
    var o := HeaderOctets(h);
    var i := if h.first / 8 % 2 == 1 then 8 else 4;
    NetworkOrder16(h.messageLength, [0, 0]);
    NetworkOrder24(h.sequenceNumber, [0, 0, 0]);
    NetworkOrder32(h.teid, [0, 0, 0, 0]);
    assert o[2..4] == U16Octets(h.messageLength) && o[i..i + 3] == U24Octets(h.sequenceNumber);
    if i == 8 { assert o[4..8] == U32Octets(h.teid); }
    PriorityStays(h.first);
  }

  lemma PriorityStays(first: byte)
    ensures HasPriority(FirstAfter(first)) <==> first / 8 % 2 == 1 && first / 4 % 2 == 1
  {
    var a, b := first / 8, first / 4;
    assert b / 2 == a;
    assert first / 4 * 4 / 4 == b && first / 8 * 8 / 4 == 2 * a;
  }

  /** The type of an element, its length in two octets, and the instance. */
  lemma ElementHeaderOnTheWire(t: Tlv)
    ensures
      var o := TlvOctets(t);
      |o| == 4 && o[0] == t.typ && (o[1] as int) * 256 + o[2] == t.length && o[3] == t.fourth && Instance(t) == t.fourth % 16
  {
    NetworkOrder16(t.length, [0, 0]);
    ValueOfTwo(U16Octets(t.length));
  }

  // ----- what the factory reads -----

  /** The types that objects are made of, and the one whose elements are grouped. */
  lemma KnownTypes(t: byte, i: byte)
    ensures IsKnown(t) <==>
              || 1 <= t <= 3 || 71 <= t <= 84 || t == 86 || t == 87 || 92 <= t <= 94 || t == 97 || t == 99 || t == 114 || t == 127
              || t == 128 || t == 132 || t == 135 || t == 152 || t == 194
    ensures EmptyGroup(i).tlv == Tlv(93, 0, i)
  {}

  lemma GroupsAreBearerContexts(s: seq<byte>)
    requires ParseIe(s).Got?
    ensures ParseIe(s).ie.body.Group? <==> s[0] == 93
    ensures |s| >= 4 && s[0] == ParseIe(s).ie.tlv.typ && Value(s[1..3]) == ParseIe(s).ie.tlv.length && s[3] == ParseIe(s).ie.tlv.fourth
  {
    GotIsLoadable(s);
    ParseIs(s);
    NetworkOrder16(0, s[1..3]);
    var tlv := ParseTlv(s);
    if tlv.typ != BEARER_CONTEXT { LeafIsNoGroup(tlv, s[4..]); }
  }

  /** How many octets an element of fixed size is read with, and which length it must announce: `None` if any will do. */
  function FixedSize(t: byte): Option<(nat, Option<nat>)> {
    if t == 82 || t == 92 || t == 97 || t == 99 || t == 127 || t == 128 || t == 135 || t == 152 || t == 194 then Some((1, Some(1)))
    else if t == 3 || t == 73 || t == 84 then Some((1, None))
    else if t == 72 then Some((8, None))
    else if t == 80 then Some((22, Some(22)))
    else if t == 81 then Some((21, Some(21)))
    else if t == 83 then Some((3, Some(3)))
    else if t == 94 then Some((4, Some(4)))
    else if t == 114 then Some((2, Some(2)))
    else None
  }

  lemma FixedSizesAreRead(tlv: Tlv, o: seq<byte>)
    requires tlv.length > 0 && o != [] && FixedSize(tlv.typ).Some?
    ensures IsLeafType(tlv.typ)
    ensures
      var (n, length) := FixedSize(tlv.typ).value;
      LoadLeaf(tlv, o)
      == if length.Some? && tlv.length != length.value then Err(BadLength)
         else if |o| < n then Err(Truncated) else Ok(Leaf(Raw(o[..n]), n))
  {}

  /** An IP address of an IPv4 address comes back; of an IPv6 address the octets are kept, but not that it is one. */
  lemma IpAddressInSync(ie: Ie)
    requires ie.body.IpAddress? && ie.tlv.typ == 74 && ie.tlv.length == if ie.body.isIpv4 then 4 else 16
    requires ie.body.isIpv4 ==> ie.body.address[4..] == Zeros(12)
    ensures InSync(ie) && Reloaded(ie) == Ie(ie.tlv, IpAddress(true, ie.body.address))
    ensures Reloaded(ie) == ie <==> ie.body.isIpv4
  {
    var a := ie.body.address;
    assert Payload(ie) == if ie.body.isIpv4 then a[..4] else a;
    assert a[..4] + a[4..] == a && a[..16] == a && a[..4][..4] == a[..4];
    LeafInSync(ie, Leaf(IpAddress(true, a), |Payload(ie)|));
  }

  // ----- the elements of values -----

  /** What goes out for a value. */
  function Wire(typ: byte, instance: byte, v: Core): seq<byte>
    requires Typed(typ, v)
  {
    Dump(ToElement(typ, instance, v))
  }

  lemma RawOnTheWire(typ: byte, instance: byte, v: Core)
    requires Typed(typ, v) && Make(typ, v).1.Raw? && Make(typ, v).0 < 256
    requires typ == ACCESS_POINT_NAME ==> |Make(typ, v).1.octets| == Make(typ, v).0
    ensures Wire(typ, instance, v) == [typ, 0, Make(typ, v).0, instance] + Make(typ, v).1.octets
  {
    RawDump(ToElement(typ, instance, v));
  }

  lemma RawDump(ie: Ie)
    requires ie.body.Raw? && ie.tlv.length < 256
    requires ie.tlv.typ == ACCESS_POINT_NAME ==> |ie.body.octets| == ie.tlv.length
    ensures Dump(ie) == [ie.tlv.typ, 0, ie.tlv.length, ie.tlv.fourth] + ie.body.octets
  {
    assert AfterDump(ie).tlv == ie.tlv;
    ShortHeader(ie.tlv);
  }

  lemma ShortHeader(t: Tlv)
    requires t.length < 256
    ensures TlvOctets(t) == [t.typ, 0, t.length, t.fourth]
  {
    assert U16Octets(t.length) == [0, t.length];
  }

  /** Elements of one number: the bearer id keeps four bits, the PDN type three, the selection mode two, the
      RAT type, the APN restriction and the restart counter eight. */
  lemma NumbersOnTheWire(i: byte, x: byte)
    ensures Typed(73, OctetCore(x)) && Wire(73, i, OctetCore(x)) == [73, 0, 1, i, x % 16]
    ensures Typed(99, OctetCore(x)) && Wire(99, i, OctetCore(x)) == [99, 0, 1, i, x % 8]
    ensures Typed(128, OctetCore(x)) && Wire(128, i, OctetCore(x)) == [128, 0, 1, i, x % 4]
    ensures Typed(82, OctetCore(x)) && Wire(82, i, OctetCore(x)) == [82, 0, 1, i, x]
    ensures Typed(127, OctetCore(x)) && Wire(127, i, OctetCore(x)) == [127, 0, 1, i, x]
    ensures Typed(3, OctetCore(x)) && Wire(3, i, OctetCore(x)) == [3, 0, 1, i, x]
  {
    RawOnTheWire(73, i, OctetCore(x));
    RawOnTheWire(99, i, OctetCore(x));
    RawOnTheWire(128, i, OctetCore(x));
    RawOnTheWire(82, i, OctetCore(x));
    RawOnTheWire(127, i, OctetCore(x));
    RawOnTheWire(3, i, OctetCore(x));
  }

  /** They come back as what they keep. */
  lemma NumbersComeBack(i: byte, x: byte)
    ensures Typed(73, OctetCore(x)) && Back(73, OctetCore(x)) == OctetCore(x % 16)
    ensures Typed(99, OctetCore(x)) && Back(99, OctetCore(x)) == OctetCore(x % 8)
    ensures Typed(128, OctetCore(x)) && Back(128, OctetCore(x)) == OctetCore(x % 4)
    ensures Typed(82, OctetCore(x)) && Back(82, OctetCore(x)) == OctetCore(x)
    ensures Typed(127, OctetCore(x)) && Back(127, OctetCore(x)) == OctetCore(x)
    ensures Typed(3, OctetCore(x)) && Back(3, OctetCore(x)) == OctetCore(x)
  {}

  /** Access point name, serving network, time zone and indication flags: the octets, with the spare bits of
      the last indication octet cleared. */
  lemma OctetsOnTheWire(i: byte, name: seq<byte>, plmn: Octets3, zone: byte, daylight: nat, flags: Octets7)
    requires |name| < 256 && daylight < 4
    ensures Typed(71, ApnCore(name)) && Wire(71, i, ApnCore(name)) == [71, 0, |name|, i] + name
    ensures Typed(83, PlmnCore(plmn)) && Wire(83, i, PlmnCore(plmn)) == [83, 0, 3, i] + plmn
    ensures Typed(114, TimeZoneCore(zone, daylight)) && Wire(114, i, TimeZoneCore(zone, daylight)) == [114, 0, 2, i, zone, daylight]
    ensures Typed(77, IndicationCore(flags)) && Wire(77, i, IndicationCore(flags)) == [77, 0, 7, i] + flags[..6] + [flags[6] % 32]
  {
    RawOnTheWire(71, i, ApnCore(name));
    RawOnTheWire(83, i, PlmnCore(plmn));
    RawOnTheWire(114, i, TimeZoneCore(zone, daylight));
    RawOnTheWire(77, i, IndicationCore(flags));
    assert flags[6 := flags[6] % 32] == flags[..6] + [flags[6] % 32];
  }

  /** The aggregate maximum bit rate: the uplink first. */
  lemma AmbrOnTheWire(i: byte, uplink: u32, downlink: u32)
    ensures Typed(72, AmbrCore(uplink, downlink))
    ensures
      var o := Wire(72, i, AmbrCore(uplink, downlink));
      |o| == 12 && o[..4] == [72, 0, 8, i] && Value(o[4..8]) == uplink && Value(o[8..12]) == downlink
  {
    RawOnTheWire(72, i, AmbrCore(uplink, downlink));
    var o := Wire(72, i, AmbrCore(uplink, downlink));
    assert o[4..8] == U32Octets(uplink) && o[8..12] == U32Octets(downlink);
    NetworkOrder32(uplink, [0, 0, 0, 0]);
    NetworkOrder32(downlink, [0, 0, 0, 0]);
  }

  /** A PDN address: the type, then prefix and IPv6 address, then IPv4 address, as the type has it. */
  lemma PaaOnTheWire(i: byte, v: Core)
    requires v.PaaCore? && 1 <= v.pdnType <= 4
    ensures Typed(79, v)
    ensures v.pdnType == 1 ==> Wire(79, i, v) == [79, 0, 5, i, 1] + v.v4
    ensures v.pdnType == 2 ==> Wire(79, i, v) == [79, 0, 18, i, 2, v.prefix] + v.v6
    ensures v.pdnType == 3 ==> Wire(79, i, v) == [79, 0, 22, i, 3, v.prefix] + v.v6 + v.v4
    ensures v.pdnType == 4 ==> Wire(79, i, v) == [79, 0, 1, i, 4]
  {
    PaaMade(v);
    RawOnTheWire(79, i, v);
    JoinPaa(v);
  }

  lemma PaaMade(v: Core)
    requires v.PaaCore? && 1 <= v.pdnType <= 4
    ensures Typed(79, v)
    ensures Make(79, v) == (if v.pdnType == 1 then 5 else if v.pdnType == 2 then 18 else if v.pdnType == 3 then 22 else 1,
                            Raw(Join(PaaParts(v))))
  {}

  lemma JoinPaa(v: Core)
    requires v.PaaCore? && 1 <= v.pdnType <= 4
    ensures
      var b6, b4 := v.pdnType == 2 || v.pdnType == 3, v.pdnType == 1 || v.pdnType == 3;
      Join(PaaParts(v)) == [v.pdnType] + If(b6, [v.prefix] + v.v6) + If(b4, v.v4)
  {
    var b6, b4 := v.pdnType == 2 || v.pdnType == 3, v.pdnType == 1 || v.pdnType == 3;
    JoinFour([v.pdnType], If(b6, [v.prefix]), If(b6, v.v6), If(b4, v.v4));
  }

  /** A bearer QoS: pre-emption capability, priority level and vulnerability in one octet, the QCI, and the rates
      in 40 bits each: maximum uplink and downlink, guaranteed uplink and downlink. */
  lemma QosOnTheWire(i: byte, v: Core)
    requires v.QosCore? && v.pl < 16
    ensures Typed(80, v)
    ensures
      var o := Wire(80, i, v);
      && |o| == 26 && o[..4] == [80, 0, 22, i]
      && o[4] == (if v.pci then 64 else 0) + 4 * v.pl + (if v.pvi then 1 else 0) && o[5] == v.qci
      && Value(o[6..11]) == v.maxUplink % 1099511627776 && Value(o[11..16]) == v.maxDownlink % 1099511627776
      && Value(o[16..21]) == v.guaranteedUplink % 1099511627776 && Value(o[21..26]) == v.guaranteedDownlink % 1099511627776
  {
    RawOnTheWire(80, i, v);
    QosOctets(v);
    var p := Join(QosParts(v));
    var o := Wire(80, i, v);
    assert o == [80, 0, 22, i] + p;
    assert o[6..11] == p[2..7] && o[11..16] == p[7..12] && o[16..21] == p[12..17] && o[21..26] == p[17..22];
    var z := Zeros(5);
    NetworkOrder40(v.maxUplink, z);
    NetworkOrder40(v.maxDownlink, z);
    NetworkOrder40(v.guaranteedUplink, z);
    NetworkOrder40(v.guaranteedDownlink, z);
  }

  /** An F-TEID: which addresses there are and the interface type in one octet, the TEID, the IPv4 and the
      IPv6 address. */
  lemma FteidOnTheWire(i: byte, v: Core)
    requires v.FteidCore? && v.interfaceType < 64
    ensures Typed(87, v)
    ensures
      var o := Wire(87, i, v);
      var n := (if v.hasV4 then 4 else 0) + if v.hasV6 then 16 else 0;
      && |o| == 9 + n && o[..4] == [87, 0, 5 + n, i]
      && o[4] == (if v.hasV4 then 128 else 0) + (if v.hasV6 then 64 else 0) + v.interfaceType
      && Value(o[5..9]) == v.teid && o[9..] == (if v.hasV4 then v.ipv4 else []) + (if v.hasV6 then v.ipv6 else [])
  {
    var p := Join(FteidParts(v));
    var n := (if v.hasV4 then 4 else 0) + if v.hasV6 then 16 else 0;
    FteidMade(v, 5 + n);
    RawOnTheWire(87, i, v);
    FteidPayload(v);
    assert Wire(87, i, v) == [87, 0, 5 + n, i] + p;
    assert Wire(87, i, v)[5..9] == p[1..5] && Wire(87, i, v)[9..] == p[5..];
  }

  lemma FteidMade(v: Core, n: u16)
    requires v.FteidCore? && v.interfaceType < 64 && n == 5 + Bit(v.hasV4, 4) + Bit(v.hasV6, 16)
    ensures Typed(87, v) && Make(87, v) == (n, Raw(Join(FteidParts(v))))
  {}

  lemma FteidPayload(v: Core)
    requires v.FteidCore? && v.interfaceType < 64
    ensures
      var p := Join(FteidParts(v));
      && |p| == 5 + Bit(v.hasV4, 4) + Bit(v.hasV6, 16)
      && p[0] == (if v.hasV4 then 128 else 0) + (if v.hasV6 then 64 else 0) + v.interfaceType
      && Value(p[1..5]) == v.teid && p[5..] == (if v.hasV4 then v.ipv4 else []) + (if v.hasV6 then v.ipv6 else [])
  {
    FteidOctets(v);
    NetworkOrder32(v.teid, [0, 0, 0, 0]);
    var p := Join(FteidParts(v));
    var j := 5 + Bit(v.hasV4, 4);
    assert p[5..] == p[5..j] + p[j..];
  }

  /** How many octets the digits take up. */
  function DigitOctets(typ: byte, count: nat): nat { ((if typ == 76 && count == 16 then 15 else count) + 1) / 2 }

  /** IMSI, MEI and MSISDN: two digits in each octet. */
  lemma DigitsOnTheWire(i: byte, typ: byte, buffer: Octets8, count: nat)
    requires (typ == 1 || typ == 75 || typ == 76) && count <= 16
    ensures Typed(typ, DigitsCore(buffer, count))
    ensures
      var o := Wire(typ, i, DigitsCore(buffer, count));
      var n := DigitOctets(typ, count);
      && |o| == 4 + n && o[..4] == [typ, 0, n, i]
      && (forall k :: 0 <= k < n - 1 ==> o[4 + k] == buffer[k])
      && (n > 0 ==> o[3 + n] % 16 == buffer[n - 1] % 16)
  {
    var v := DigitsCore(buffer, count);
    var n, d := DigitOctets(typ, count), DumpedBuffer(typ, buffer, count);
    DigitsDump(i, typ, buffer, count);
    if n > 0 { DumpedDigits(typ, buffer, count); }
    assert Wire(typ, i, v) == [typ, 0, n, i] + d[..n];
  }

  lemma DumpedDigits(typ: byte, buffer: Octets8, count: nat)
    requires (typ == 1 || typ == 75 || typ == 76) && 0 < count <= 16
    ensures
      var n, d := DigitOctets(typ, count), DumpedBuffer(typ, buffer, count);
      n > 0 && (forall k :: 0 <= k < n - 1 ==> d[k] == buffer[k]) && d[n - 1] % 16 == buffer[n - 1] % 16
  {
    DumpedBufferIs(typ, buffer, count);
    FillerOr(buffer[DigitOctets(typ, count) - 1]);
  }

  lemma DigitsDump(i: byte, typ: byte, buffer: Octets8, count: nat)
    requires (typ == 1 || typ == 75 || typ == 76) && count <= 16
    ensures Typed(typ, DigitsCore(buffer, count))
    ensures
      var n := DigitOctets(typ, count);
      n <= 8 && Wire(typ, i, DigitsCore(buffer, count)) == [typ, 0, n, i] + DumpedBuffer(typ, buffer, count)[..n]
  {
    var v := DigitsCore(buffer, count);
    var ie := ToElement(typ, i, v);
    DigitsAfterDump(typ, i, v);
    DigitsPayload(ie);
    ShortHeader(ie.tlv);
    assert (DigitLimit(typ, count) + 1) / 2 == DigitOctets(typ, count);
  }

  /** Protocol configuration options: the extension flag and the protocol in one octet, then the containers. */
  lemma PcoOnTheWire(i: byte, ext: bool, protocol: nat, cs: seq<Container>)
    requires protocol < 8 && |cs| <= 8
    ensures Typed(78, PcoCore(ext, protocol, cs))
    ensures
      var o := Wire(78, i, PcoCore(ext, protocol, cs));
      && |o| == 5 + |AllContainerOctets(cs)| && o[0] == 78 && o[3] == i
      && Value(o[1..3]) == (1 + DeclaredLength(cs)) % 65536
      && o[4] == (if ext then 128 else 0) + protocol && o[5..] == AllContainerOctets(cs)
  {
    var v := PcoCore(ext, protocol, cs);
    PcoPayload(ToElement(78, i, v));
    var n: u16 := (1 + DeclaredLength(cs)) % 65536;
    NetworkOrder16(n, [0, 0]);
    assert Wire(78, i, v)[1..3] == U16Octets(n);
  }

  /** A container: its id in two octets, its length in one, and its contents. */
  lemma ContainerOnTheWire(c: Container)
    ensures
      var o := ContainerOctets(c);
      |o| == 3 + |c.contents| && Value(o[..2]) == c.id && o[2] == c.length && o[3..] == c.contents
  {
    NetworkOrder16(c.id, [0, 0]);
    assert ContainerOctets(c)[..2] == U16Octets(c.id);
  }

  /** The node of a fully qualified CSID: an address, or the packed number of an operator. */
  lemma NodeOnTheWire(node: Node)
    ensures node.Ipv4Node? ==> NodeKind(node) == 0 && |NodeOctets(node)| == 4 && NodeOctets(node) == node.v4
    ensures node.Ipv6Node? ==> NodeKind(node) == 1 && |NodeOctets(node)| == 16 && NodeOctets(node) == node.v6
    ensures node.Exotic? ==> NodeKind(node) == 2 && |NodeOctets(node)| == 4
    ensures node.Exotic? && node.id < 4096 ==>
              Value(NodeOctets(node)) == ((1000 * node.mcc + node.mnc) * 4096 + node.id) % 4294967296
  {
    if node.Exotic? {
      NetworkOrder32(PackExotic(node.mcc, node.mnc, node.id), [0, 0, 0, 0]);
      if node.id < 4096 { PackedInNumbers(node.mcc, node.mnc, node.id); }
    }
  }

  /** The element of a fully qualified CSID: the kind of its node and the number of CSIDs share its first octet. */
  lemma FqCsidMade(i: byte, node: Node, csids: seq<u16>)
    requires |csids| <= 15
    ensures Typed(132, FqCsidCore(node, csids))
    ensures
      var (n, body) := MakeFqCsid(node, csids);
      && ToElement(132, i, FqCsidCore(node, csids)) == Ie(Tlv(132, n, i), body)
      && n == 1 + |NodeOctets(node)| + 2 * |csids| && body.FqCsid? && body.node == node && body.csids == csids
      && body.first == NodeKind(node) * 16 + |csids|
  {}

  /** It goes out as that octet, the node, and the CSIDs. */
  lemma FqCsidOnTheWire(typ: byte, n: u16, i: byte, first: byte, node: Node, csids: seq<u16>)
    requires n < 256
    ensures Dump(Ie(Tlv(typ, n, i), FqCsid(first, node, csids)))
            == [typ, 0, n, i] + ([first] + NodeOctets(node) + CsidOctets(csids))
  {
    var ie := Ie(Tlv(typ, n, i), FqCsid(first, node, csids));
    FqCsidPayload(ie.body, n);
    ShortHeader(ie.tlv);
    assert AfterDump(ie).tlv == ie.tlv;
  }

  lemma PackedInNumbers(mcc: u16, mnc: u16, id: u16)
    requires id < 4096
    ensures PackExotic(mcc, mnc, id) == ((1000 * mcc + mnc) * 4096 + id) % 4294967296
  {
    var sum := 1000 * mcc + mnc;
    var q, x := sum / 0x10_0000, sum % 0x10_0000;
    assert PackExotic(mcc, mnc, id) == PackedHigh(mcc, mnc, id) * 0x1000 + id;
    assert sum * 4096 + id == q * 4294967296 + (x * 4096 + id);
  }

  /** CSIDs go out in network order, and dumping exchanges the two octets of each one that is kept. */
  lemma {:induction false} CsidOnTheWire(xs: seq<u16>, k: nat)
    requires k < |xs|
    ensures |CsidOctets(xs)| == 2 * |xs| && Value(CsidOctets(xs)[2 * k..2 * k + 2]) == xs[k]
    ensures U16Octets(Swapped(xs[k])) == [U16Octets(xs[k])[1], U16Octets(xs[k])[0]]
    decreases k
  {
    var o := CsidOctets(xs);
    if k == 0 {
      assert o[..2] == U16Octets(xs[0]);
      NetworkOrder16(xs[0], [0, 0]);
    } else {
      CsidOnTheWire(xs[1..], k - 1);
      assert o[2..] == CsidOctets(xs[1..]);
      assert o[2 * k..2 * k + 2] == o[2..][2 * (k - 1)..2 * (k - 1) + 2];
    }
  }

  /** A CSID stays the same if and only if its two octets are equal. */
  lemma SameSwappedInNumbers(ie: Ie)
    requires ie.body.FqCsid?
    ensures SameSwapped(ie) <==> forall k :: 0 <= k < |ie.body.csids| ==> ie.body.csids[k] / 256 == ie.body.csids[k] % 256
  {
    var xs := ie.body.csids;
    forall k | 0 <= k < |xs|
      ensures Swapped(xs[k]) == xs[k] <==> xs[k] / 256 == xs[k] % 256
    {
      SwappedSame(xs[k]);
    }
    if forall k :: 0 <= k < |xs| ==> xs[k] / 256 == xs[k] % 256 {
      assert SwappedAll(xs) == xs;
    } else {
      var k :| 0 <= k < |xs| && xs[k] / 256 != xs[k] % 256;
      assert SwappedAll(xs)[k] != xs[k];
    }
  }

  lemma SwappedSame(x: u16)
    ensures Swapped(x) == x <==> x / 256 == x % 256
  {
    assert x == x / 256 * 256 + x % 256;
  }

  // ----- user location information -----

  /** The flags of a location, one bit each. */
  function LocationOctet(cgi: bool, sai: bool, rai: bool, tai: bool, ecgi: bool, lai: bool, macro: bool, ext: bool): byte {
    (if cgi then 1 else 0) + (if sai then 2 else 0) + (if rai then 4 else 0) + (if tai then 8 else 0)
    + (if ecgi then 16 else 0) + (if lai then 32 else 0) + (if macro then 64 else 0) + (if ext then 128 else 0)
  }

  lemma HalfOctet(b0: bool, b1: bool, b2: bool, b3: bool)
    ensures
      var n := (if b0 then 1 else 0) + (if b1 then 2 else 0) + (if b2 then 4 else 0) + (if b3 then 8 else 0);
      && 0 <= n < 16 && (n % 2 == 1 <==> b0) && (n / 2 % 2 == 1 <==> b1) && (n / 4 % 2 == 1 <==> b2) && (n / 8 == 1 <==> b3)
  {}

  /** Division of 16 * h + l by a power of two up to 16, and of h. */
  lemma Halved(h: nat, l: nat, d: nat, q: nat)
    requires l < 16 && d * q == 16 && d > 0
    ensures (16 * h + l) / d == q * h + l / d
  {
    var f := 16 * h + l;
    var a, r := l / d, l % d;
    assert l == a * d + r;
    assert f == (q * h + a) * d + r by {
      assert (q * h + a) * d == q * d * h + a * d;
    }
    Quotient(f, d, q * h + a, r);
  }

  lemma Quotient(f: nat, d: nat, q: nat, r: nat)
    requires f == q * d + r && r < d
    ensures f / d == q
  {
    var e := f / d - q;
    assert e * d == r - f % d;
    if e >= 1 { assert e * d >= d; }
    if e <= -1 { assert e * d <= -d; }
  }

  lemma HalvesOfOctet(h: nat, l: nat)
    requires h < 16 && l < 16
    ensures
      var f := 16 * h + l;
      && f / 128 == h / 8 && f / 64 == h / 4 && f / 32 == h / 2 && f / 16 == h
      && f / 8 % 2 == l / 8 && f / 4 % 2 == l / 4 % 2 && f / 2 % 2 == l / 2 % 2 && f % 2 == l % 2
  {
    LowHalf(h, l);
    HighHalf(h, l);
  }

  lemma LowHalf(h: nat, l: nat)
    requires h < 16 && l < 16
    ensures
      var f := 16 * h + l;
      f / 8 % 2 == l / 8 && f / 4 % 2 == l / 4 % 2 && f / 2 % 2 == l / 2 % 2 && f % 2 == l % 2
  {
    Halved(h, l, 2, 8);
    Halved(h, l, 4, 4);
    Halved(h, l, 8, 2);
  }

  lemma HighHalf(h: nat, l: nat)
    requires h < 16 && l < 16
    ensures
      var f := 16 * h + l;
      f / 128 == h / 8 && f / 64 == h / 4 && f / 32 == h / 2 && f / 16 == h
  {
    var f := 16 * h + l;
    Quotient(f, 16, h, l);
    Quotient(f, 32, h / 2, 16 * (h % 2) + l);
    Quotient(f, 64, h / 4, 16 * (h % 4) + l);
    Quotient(f, 128, h / 8, 16 * (h % 8) + l);
  }

  lemma LocationBits(cgi: bool, sai: bool, rai: bool, tai: bool, ecgi: bool, lai: bool, macro: bool, ext: bool)
    ensures
      LocationFlags(LocationOctet(cgi, sai, rai, tai, ecgi, lai, macro, ext)) == [ext, macro, lai, ecgi, tai, rai, sai, cgi]
  {
    HalfOctet(cgi, sai, rai, tai);
    HalfOctet(ecgi, lai, macro, ext);
    var h := (if ecgi then 1 else 0) + (if lai then 2 else 0) + (if macro then 4 else 0) + (if ext then 8 else 0);
    var l := (if cgi then 1 else 0) + (if sai then 2 else 0) + (if rai then 4 else 0) + (if tai then 8 else 0);
    LocationBitsOf(LocationOctet(cgi, sai, rai, tai, ecgi, lai, macro, ext), h, l);
  }

  lemma LocationBitsOf(f: byte, h: nat, l: nat)
    requires f == 16 * h + l && h < 16 && l < 16
    ensures LocationFlags(f)
            == [h / 8 == 1, h / 4 % 2 == 1, h / 2 % 2 == 1, h % 2 == 1, l / 8 == 1, l / 4 % 2 == 1, l / 2 % 2 == 1, l % 2 == 1]
  {
    HalvesOfOctet(h, l);
  }

  lemma JoinOfEight(p: seq<bool>, s: seq<seq<byte>>)
    requires |p| == 8 && |s| == 8
    ensures JoinPresent(p, s)
            == If(p[0], s[0]) + (If(p[1], s[1]) + (If(p[2], s[2]) + (If(p[3], s[3])
               + (If(p[4], s[4]) + (If(p[5], s[5]) + (If(p[6], s[6]) + If(p[7], s[7])))))))
  {
    JoinOfFour(p[4..], s[4..]);
    assert p[1..][1..] == p[2..] && s[1..][1..] == s[2..] && p[2..][1..] == p[3..] && s[2..][1..] == s[3..];
    assert p[3..][1..] == p[4..] && s[3..][1..] == s[4..];
    assert JoinPresent(p[3..], s[3..]) == If(p[3], s[3]) + JoinPresent(p[4..], s[4..]);
    assert JoinPresent(p[2..], s[2..]) == If(p[2], s[2]) + JoinPresent(p[3..], s[3..]);
    assert JoinPresent(p[1..], s[1..]) == If(p[1], s[1]) + JoinPresent(p[2..], s[2..]);
  }

  lemma JoinOfFour(p: seq<bool>, s: seq<seq<byte>>)
    requires |p| == 4 && |s| == 4
    ensures JoinPresent(p, s) == If(p[0], s[0]) + (If(p[1], s[1]) + (If(p[2], s[2]) + If(p[3], s[3])))
  {
    assert p[1..][1..] == p[2..] && s[1..][1..] == s[2..] && p[2..][1..] == p[3..] && s[2..][1..] == s[3..];
    assert p[3..][1..] == [] && JoinPresent([], []) == [];
    assert JoinPresent(p[3..], s[3..]) == If(p[3], s[3]) + [];
    assert JoinPresent(p[2..], s[2..]) == If(p[2], s[2]) + JoinPresent(p[3..], s[3..]);
    assert JoinPresent(p[1..], s[1..]) == If(p[1], s[1]) + JoinPresent(p[2..], s[2..]);
  }

  lemma SizeOfEight(p: seq<bool>, n: seq<nat>)
    requires |p| == 8 && |n| == 8
    ensures PresentSize(p, n) == Bit(p[0], n[0]) + Bit(p[1], n[1]) + Bit(p[2], n[2]) + Bit(p[3], n[3])
                                 + Bit(p[4], n[4]) + Bit(p[5], n[5]) + Bit(p[6], n[6]) + Bit(p[7], n[7])
  {
    assert p[1..][1..] == p[2..] && n[1..][1..] == n[2..] && p[2..][1..] == p[3..] && n[2..][1..] == n[3..];
    assert p[3..][1..] == p[4..] && n[3..][1..] == n[4..] && p[4..][1..] == p[5..] && n[4..][1..] == n[5..];
    assert p[5..][1..] == p[6..] && n[5..][1..] == n[6..] && p[6..][1..] == p[7..] && n[6..][1..] == n[7..];
    assert p[7..][1..] == [] && PresentSize([], []) == 0;
    assert PresentSize(p[7..], n[7..]) == Bit(p[7], n[7]);
    assert PresentSize(p[6..], n[6..]) == Bit(p[6], n[6]) + PresentSize(p[7..], n[7..]);
    assert PresentSize(p[5..], n[5..]) == Bit(p[5], n[5]) + PresentSize(p[6..], n[6..]);
    assert PresentSize(p[4..], n[4..]) == Bit(p[4], n[4]) + PresentSize(p[5..], n[5..]);
    assert PresentSize(p[3..], n[3..]) == Bit(p[3], n[3]) + PresentSize(p[4..], n[4..]);
    assert PresentSize(p[2..], n[2..]) == Bit(p[2], n[2]) + PresentSize(p[3..], n[3..]);
    assert PresentSize(p[1..], n[1..]) == Bit(p[1], n[1]) + PresentSize(p[2..], n[2..]);
  }

  /** The fields of a location are on the wire in this order, each exactly if its own flag is set: the extended and
      the other eNodeB id, LAI, ECGI, TAI, RAI, SAI and CGI. */
  lemma LocationOnTheWire(l: Location, cgi: bool, sai: bool, rai: bool, tai: bool, ecgi: bool, lai: bool, macro: bool, ext: bool)
    requires l.extId < 0x20_0000 && l.flags == LocationOctet(cgi, sai, rai, tai, ecgi, lai, macro, ext)
    ensures
      JoinPresent(LocationFlags(l.flags), LocationFields(l))
      == If(ext, ExtOctets(l)) + (If(macro, MacroOctets(l)) + (If(lai, l.lai) + (If(ecgi, EcgiMade(l.ecgi))
         + (If(tai, l.tai) + (If(rai, l.rai) + (If(sai, l.sai) + If(cgi, l.cgi)))))))
  {
    LocationBits(cgi, sai, rai, tai, ecgi, lai, macro, ext);
    var s := [ExtOctets(l), MacroOctets(l), l.lai, EcgiMade(l.ecgi), l.tai, l.rai, l.sai, l.cgi];
    FieldsAre(l, s);
    JoinOfEight([ext, macro, lai, ecgi, tai, rai, sai, cgi], s);
  }

  /** The sizes of the fields whose flag is set add up. */
  lemma LocationSizes(cgi: bool, sai: bool, rai: bool, tai: bool, ecgi: bool, lai: bool, macro: bool, ext: bool)
    ensures
      LocationSize(LocationOctet(cgi, sai, rai, tai, ecgi, lai, macro, ext))
      == Bit(ext, 6) + Bit(macro, 5) + Bit(lai, 5) + Bit(ecgi, 7) + Bit(tai, 5) + Bit(rai, 7) + Bit(sai, 7) + Bit(cgi, 7)
  {
    LocationBits(cgi, sai, rai, tai, ecgi, lai, macro, ext);
    LocationSizeIs(LocationOctet(cgi, sai, rai, tai, ecgi, lai, macro, ext), [ext, macro, lai, ecgi, tai, rai, sai, cgi]);
  }

  lemma LocationSizeIs(f: byte, p: seq<bool>)
    requires LocationFlags(f) == p
    ensures LocationSize(f) == Bit(p[0], 6) + Bit(p[1], 5) + Bit(p[2], 5) + Bit(p[3], 7) + Bit(p[4], 5) + Bit(p[5], 7)
                               + Bit(p[6], 7) + Bit(p[7], 7)
  {
    SizeOfEight(p, LOCATION_SIZES);
  }

  lemma FieldsAre(l: Location, s: seq<seq<byte>>)
    requires l.extId < 0x20_0000
    requires s == [ExtOctets(l), MacroOctets(l), l.lai, EcgiMade(l.ecgi), l.tai, l.rai, l.sai, l.cgi]
    ensures LocationFields(l) == s
  {}

  /** The fields of `b` are those of `l` whose flag is set, and zeros for the others. */
  predicate HasAllFields(b: Location, l: Location, cgi: bool, sai: bool, rai: bool, tai: bool, ecgi: bool, lai: bool, macro: bool,
                         ext: bool)
  {
    && b.flags == l.flags
    && b.cgi == (if cgi then l.cgi else Zeros(7)) && b.sai == (if sai then l.sai else Zeros(7))
    && b.rai == (if rai then l.rai else Zeros(7)) && b.tai == (if tai then l.tai else Zeros(5))
    && b.ecgi == (if ecgi then l.ecgi[3 := l.ecgi[3] % 16] else Zeros(7)) && b.lai == (if lai then l.lai else Zeros(5))
    && b.macroId == (if macro then l.macroId % 65536 else 0) && b.macroPlmn == (if macro then l.macroPlmn else Zeros(3))
    && b.extId == (if ext then l.extId % 1048576 else 0) && b.extPlmn == (if ext then l.extPlmn else Zeros(3))
    && b.smenb == (ext && l.smenb)
  }

  /** The element of a location, written and loaded by any peer: 86, the flags and the fields; every octet of it is
      read, and each field comes back exactly if its own flag is set. */
  lemma LocationComesBack(i: byte, l: Location, cgi: bool, sai: bool, rai: bool, tai: bool, ecgi: bool, lai: bool, macro: bool,
                          ext: bool)
    requires l.extId < 0x20_0000 && l.macroId < 0x10_0000
    requires l.flags == LocationOctet(cgi, sai, rai, tai, ecgi, lai, macro, ext)
    ensures Typed(86, UliCore(l)) && InSync(ToElement(86, i, UliCore(l)))
    ensures
      var back := FromElement(86, Reloaded(ToElement(86, i, UliCore(l))).body);
      back.Ok? && back.value.UliCore? && HasAllFields(back.value.location, l, cgi, sai, rai, tai, ecgi, lai, macro, ext)
  {
    UliReturn(86, i, UliCore(l));
    UliBackIs(UliCore(l));
    LocationFieldsBack(l, cgi, sai, rai, tai, ecgi, lai, macro, ext);
  }

  lemma LocationFieldsBack(l: Location, cgi: bool, sai: bool, rai: bool, tai: bool, ecgi: bool, lai: bool, macro: bool, ext: bool)
    requires l.extId < 0x20_0000 && l.macroId < 0x10_0000
    requires l.flags == LocationOctet(cgi, sai, rai, tai, ecgi, lai, macro, ext)
    ensures HasAllFields(LocationBack(l), l, cgi, sai, rai, tai, ecgi, lai, macro, ext)
  {
    LocationBits(cgi, sai, rai, tai, ecgi, lai, macro, ext);
    assert LocationFlags(l.flags)[0] == ext && LocationFlags(l.flags)[1] == macro;
    LocationBackExt(l);
    LocationBackMacro(l);
    FieldsKept(l);
  }

  lemma FieldsKept(l: Location)
    requires l.extId < 0x20_0000
    ensures
      var b, p := LocationBack(l), LocationFlags(l.flags);
      && b.flags == l.flags && b.lai == Kept(p[2], l.lai) && b.ecgi == Kept(p[3], EcgiMade(l.ecgi)) && b.tai == Kept(p[4], l.tai)
      && b.rai == Kept(p[5], l.rai) && b.sai == Kept(p[6], l.sai) && b.cgi == Kept(p[7], l.cgi)
  {}

  /** The two eNodeB ids, in numbers: the PLMN, then four bits of the id with the flag of the extended one, then
      sixteen bits of the id; of the other one only sixteen bits. */
  lemma EnodebIdsOnTheWire(l: Location)
    requires l.extId < 0x20_0000
    ensures
      var e, m := ExtOctets(l), MacroOctets(l);
      && e[..3] == l.extPlmn && e[3] == (if l.smenb then 128 else 0) + l.extId / 65536 % 16 && Value(e[4..]) == l.extId % 65536
      && m[..3] == l.macroPlmn && Value(m[3..]) == l.macroId % 65536
  {
    NetworkOrder16(l.extId % 65536, [0, 0]);
    NetworkOrder16(l.macroId % 65536, [0, 0]);
    assert ExtOctets(l)[4..] == U16Octets(l.extId % 65536) && MacroOctets(l)[3..] == U16Octets(l.macroId % 65536);
  }
}
