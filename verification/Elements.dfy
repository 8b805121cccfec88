/** GTPv2-C information elements as the original's objects hold them, and what they write.

    Section 8 of 3GPP TS 29.274 defines the elements. An element whose loader reads octets into
    fields and whose dumper writes the same fields back is `Raw`, the octets themselves; the
    elements with more structure have bodies of their own. */
module Elements {
  import opened Octets

  // Element types.
  const IMSI := 1
  const CAUSE := 2
  const RECOVERY := 3
  const ACCESS_POINT_NAME := 71
  const AGGREGATE_MAXIMUM_BIT_RATE := 72
  const EPS_BEARER_ID := 73
  const IP_ADDRESS := 74
  const MOBILE_EQUIPMENT_IDENTITY := 75
  const MSISDN := 76
  const INDICATION := 77
  const PROTOCOL_CONFIGURATION_OPTIONS := 78
  const PDN_ADDRESS_ALLOCATION := 79
  const BEARER_QOS := 80
  const FLOW_QOS := 81
  const RAT_TYPE := 82
  const SERVING_NETWORK := 83
  const BEARER_TFT := 84
  const USER_LOCATION_INFORMATION := 86
  const FULLY_QUALIFIED_TEID := 87
  const DELAY_VALUE := 92
  const BEARER_CONTEXT := 93
  const CHARGING_ID := 94
  const BEARER_FLAGS := 97
  const PDN_TYPE := 99
  const UE_TIME_ZONE := 114
  const APN_RESTRICTION := 127
  const SELECTION_MODE := 128
  const FQ_CSID := 132
  const NODE_TYPE := 135
  const NODE_FEATURES := 152
  const CIOT_OPTIMIZATIONS_SUPPORT := 194

  predicate IsDigits(typ: byte) {
    typ == IMSI || typ == MOBILE_EQUIPMENT_IDENTITY || typ == MSISDN
  }

  /** Elements of one octet whose loader insists on a length of 1. */
  predicate IsCheckedOctet(typ: byte) {
    || typ == RAT_TYPE || typ == DELAY_VALUE || typ == BEARER_FLAGS || typ == PDN_TYPE || typ == APN_RESTRICTION
    || typ == SELECTION_MODE || typ == NODE_TYPE || typ == NODE_FEATURES || typ == CIOT_OPTIMIZATIONS_SUPPORT
  }

  /** Elements of which the loader reads one octet whatever their length. */
  predicate IsUncheckedOctet(typ: byte) {
    typ == RECOVERY || typ == EPS_BEARER_ID || typ == BEARER_TFT
  }

  predicate IsRaw(typ: byte) {
    || IsCheckedOctet(typ) || IsUncheckedOctet(typ)
    || typ == ACCESS_POINT_NAME || typ == AGGREGATE_MAXIMUM_BIT_RATE || typ == INDICATION
    || typ == PDN_ADDRESS_ALLOCATION || typ == BEARER_QOS || typ == FLOW_QOS || typ == SERVING_NETWORK
    || typ == USER_LOCATION_INFORMATION || typ == FULLY_QUALIFIED_TEID || typ == CHARGING_ID || typ == UE_TIME_ZONE
  }

  /** The types that the factory makes objects for. */
  predicate IsKnown(typ: byte) {
    || IsRaw(typ) || IsDigits(typ) || typ == CAUSE || typ == IP_ADDRESS || typ == PROTOCOL_CONFIGURATION_OPTIONS
    || typ == FQ_CSID || typ == BEARER_CONTEXT
  }

  const TLV_LENGTH := 4
  const MANDATORY_IE_INCORRECT := 69

  /** The type, the length and the instance of an element; the fourth octet holds the instance
      in its low half. */
  datatype Tlv = Tlv(typ: byte, length: u16, fourth: byte)

  function Instance(t: Tlv): byte { t.fourth % 16 }

  type Octets8 = s: seq<byte> | |s| == 8 witness [0, 0, 0, 0, 0, 0, 0, 0]
  type Octets16 = s: seq<byte> | |s| == 16 witness [0, 0, 0, 0, 0, 0, 0, 0, 0, 0, 0, 0, 0, 0, 0, 0]
  type Octets4 = s: seq<byte> | |s| == 4 witness [0, 0, 0, 0]

  /** A protocol or container of the protocol configuration options: its length is stored, not
      computed from the contents. */
  datatype Container = Container(id: u16, length: byte, contents: seq<byte>)

  /** The node of a fully qualified CSID. */
  datatype Node = Ipv4Node(v4: Octets4) | Ipv6Node(v6: Octets16) | Exotic(mcc: u16, mnc: u16, id: u16)

  datatype Body =
    | Raw(octets: seq<byte>)
    | Digits(buffer: Octets8, count: nat)
    | Cause(value: byte, flags: byte, offendingType: byte, offendingLength: u16, offendingInstance: byte)
    | IpAddress(isIpv4: bool, address: Octets16)
    | Pco(first: byte, containers: seq<Container>)
    | FqCsid(first: byte, node: Node, csids: seq<u16>)
    | Group(ies: seq<Ie>)

  datatype Ie = Ie(tlv: Tlv, body: Body)

  function TlvOctets(t: Tlv): (r: seq<byte>)
    ensures |r| == TLV_LENGTH
  {
    [t.typ] + U16Octets(t.length) + [t.fourth]
  }

  // ----- dumping -----

  /** The low half of an octet, with the high half set to 1111. */
  function FillerHigh(o: byte): byte { 0xF0 + o % 16 }

  function MinNat(a: nat, b: nat): nat { if a <= b then a else b }

  /** An MSISDN limits its digits and sets the filler when it is dumped. */
  function MsisdnAfterDump(buffer: Octets8, count: nat): Body {
    var n := MinNat(count, 15);
    Digits(if n % 2 == 1 then buffer[n / 2 := FillerHigh(buffer[n / 2])] else buffer, n)
  }

  /** A CSID with its two octets exchanged, as htons leaves it in the object. */
  function Swapped(x: u16): u16 { x % 0x100 * 0x100 + x / 0x100 }

  function SwappedAll(xs: seq<u16>): (r: seq<u16>)
    ensures |r| == |xs| && forall i :: 0 <= i < |xs| ==> r[i] == Swapped(xs[i])
  {
    seq(|xs|, i requires 0 <= i < |xs| => Swapped(xs[i]))
  }

  /** The object after its dump method ran: some set their length again, an MSISDN its filler,
      and a fully qualified CSID exchanges the octets of every stored CSID. */
  function AfterDump(ie: Ie): Ie
    decreases ie
  {
    match ie.body
    case Raw(octets) => if ie.tlv.typ == ACCESS_POINT_NAME then ie.(tlv := ie.tlv.(length := |octets| % 0x1_0000)) else ie
    case Digits(buffer, count) =>
      if ie.tlv.typ == MSISDN then
        var body := MsisdnAfterDump(buffer, count);
        Ie(ie.tlv.(length := (body.count + 1) / 2), body)
      else ie
    case Cause(value, _, _, _, _) => ie.(tlv := ie.tlv.(length := if value == MANDATORY_IE_INCORRECT then 6 else 2))
    case FqCsid(first, node, csids) => ie.(body := FqCsid(first, node, SwappedAll(csids)))
    case Group(ies) => ie.(body := Group(AfterDumpAll(ies)))
    case _ => ie
  }

  function AfterDumpAll(ies: seq<Ie>): (r: seq<Ie>)
    ensures |r| == |ies|
    decreases ies
  {
    if ies == [] then [] else [AfterDump(ies[0])] + AfterDumpAll(ies[1..])
  }

  function ContainerOctets(c: Container): seq<byte> {
    U16Octets(c.id) + [c.length] + c.contents
  }

  function AllContainerOctets(cs: seq<Container>): seq<byte> {
    if cs == [] then [] else ContainerOctets(cs[0]) + AllContainerOctets(cs[1..])
  }

  /** Four bits or-ed with four bits. */
  function OrNibbles(a: int, b: int): int
    requires 0 <= a < 16 && 0 <= b < 16
    ensures 0 <= OrNibbles(a, b) < 16
    ensures b == 0 ==> OrNibbles(a, b) == a
  {
    (if a / 8 == 1 || b / 8 == 1 then 8 else 0)
    + (if a / 4 % 2 == 1 || b / 4 % 2 == 1 then 4 else 0)
    + (if a / 2 % 2 == 1 || b / 2 % 2 == 1 then 2 else 0)
    + (if a % 2 == 1 || b % 2 == 1 then 1 else 0)
  }

  /** ((1000 * mcc + mnc) << 12) | id, in 32 bits. The id has 16 bits, so its top four overlap. */
  function PackExotic(mcc: u16, mnc: u16, id: u16): u32 {
    var x := (1000 * mcc + mnc) % 0x10_0000;
    (x / 16 * 16 + OrNibbles(x % 16, id / 0x1000)) * 0x1000 + id % 0x1000
  }

  function NodeOctets(n: Node): seq<byte> {
    match n
    case Ipv4Node(a) => a
    case Ipv6Node(a) => a
    case Exotic(mcc, mnc, id) => U32Octets(PackExotic(mcc, mnc, id))
  }

  function NodeKind(n: Node): int {
    match n
    case Ipv4Node(_) => 0
    case Ipv6Node(_) => 1
    case Exotic(_, _, _) => 2
  }

  function CsidOctets(xs: seq<u16>): (r: seq<byte>)
    ensures |r| == 2 * |xs|
  {
    if xs == [] then [] else U16Octets(xs[0]) + CsidOctets(xs[1..])
  }

  /** What an element without nested ones writes behind its type, length and instance, of which
      `length` is the length. The CSIDs go out in network order, as they were stored. */
  function LeafPayload(body: Body, length: u16): seq<byte>
    requires !body.Group?
  {
    match body
    case Raw(octets) => octets
    case Digits(buffer, _) => buffer[..MinNat(length, 8)]
    case Cause(value, flags, typ, len, _) => [value, flags] + if length == 6 then [typ] + U16Octets(len) else []
    case IpAddress(isIpv4, address) => if isIpv4 then address[..4] else address
    case Pco(first, containers) => [first] + AllContainerOctets(containers)
    case FqCsid(first, node, csids) => [first] + NodeOctets(node) + CsidOctets(csids)
  }

  function Payload(ie: Ie): seq<byte>
    decreases ie, 0
  {
    match ie.body
    case Group(ies) => DumpAll(ies)
    case Digits(_, _) => LeafPayload(AfterDump(ie).body, AfterDump(ie).tlv.length)
    case _ => LeafPayload(ie.body, AfterDump(ie).tlv.length)
  }

  /** The octets an element writes. The dump methods that adjust the object do so first; only the
      CSIDs are exchanged while they are written. */
  function Dump(ie: Ie): seq<byte>
    decreases ie, 1
  {
    TlvOctets(AfterDump(ie).tlv) + Payload(ie)
  }

  function DumpAll(ies: seq<Ie>): seq<byte>
    decreases ies
  {
    if ies == [] then [] else Dump(ies[0]) + DumpAll(ies[1..])
  }
}
