/** The values the rest of the system works with, the elements made from them, and the values
    made from loaded elements. The six digits of a PLMN are kept in the three octets that hold them. */
module CoreTypes {
  import opened Prelude
  import opened Octets
  import opened Elements
  import opened ElementLoading

  type Octets3 = s: seq<byte> | |s| == 3 witness [0, 0, 0]
  type Octets5 = s: seq<byte> | |s| == 5 witness [0, 0, 0, 0, 0]
  type Octets7 = s: seq<byte> | |s| == 7 witness [0, 0, 0, 0, 0, 0, 0]

  /** User location information: flags for eight fields, and the fields. The macro eNodeB id has 20
      bits, the extended one 21. */
  datatype Location = Location(flags: byte, cgi: Octets7, sai: Octets7, rai: Octets7, tai: Octets5, ecgi: Octets7,
                               lai: Octets5, macroPlmn: Octets3, macroId: nat,
                               extPlmn: Octets3, smenb: bool, extId: nat)

  datatype Core =
    | DigitsCore(buffer: Octets8, count: nat)                       // IMSI, MEI, MSISDN
    | OctetCore(value: byte)                                        // the types of one number
    | ApnCore(name: seq<byte>)
    | AmbrCore(uplink: u32, downlink: u32)
    | IndicationCore(indications: Octets7)
    | PcoCore(ext: bool, protocol: nat, containers: seq<Container>)
    | PaaCore(pdnType: byte, prefix: byte, v6: Octets16, v4: Octets4)
    | QosCore(pci: bool, pl: nat, pvi: bool, qci: byte, maxUplink: u64, maxDownlink: u64, guaranteedUplink: u64,
              guaranteedDownlink: u64)
    | PlmnCore(plmn: Octets3)
    | UliCore(location: Location)
    | FteidCore(hasV4: bool, hasV6: bool, interfaceType: nat, teid: u32, ipv4: Octets4, ipv6: Octets16)
    | TimeZoneCore(zone: byte, daylight: nat)
    | FqCsidCore(node: Node, csids: seq<u16>)
    | CauseCore(value: byte, flags: byte, offendingType: byte, offendingLength: u16, offendingInstance: byte)
    | NumberCore(number: u32)

  /** The element types that are made from a single number, and the width the element keeps. */
  function OctetWidth(typ: byte): Option<nat> {
    if typ == EPS_BEARER_ID then Some(16)
    else if typ == PDN_TYPE then Some(8)
    else if typ == SELECTION_MODE then Some(4)
    else if typ == RAT_TYPE || typ == APN_RESTRICTION || typ == RECOVERY then Some(256)
    else None
  }

  /** The values of the type that belongs to an element type, in the widths of their fields, for
      which the constructor of the element does not throw or write outside its buffers. */
  predicate Typed(typ: byte, v: Core) {
    match v
    case DigitsCore(_, count) => IsDigits(typ) && (typ != MSISDN ==> count <= 16)
    case OctetCore(_) => OctetWidth(typ).Some?
    case ApnCore(name) => typ == ACCESS_POINT_NAME
    case AmbrCore(_, _) => typ == AGGREGATE_MAXIMUM_BIT_RATE
    case IndicationCore(_) => typ == INDICATION
    case PcoCore(_, protocol, cs) => typ == PROTOCOL_CONFIGURATION_OPTIONS && protocol < 8 && |cs| <= 8
    case PaaCore(pdnType, _, _, _) => typ == PDN_ADDRESS_ALLOCATION && PaaSize(pdnType % 8).Some?
    case QosCore(_, pl, _, _, _, _, _, _) => typ == BEARER_QOS && pl < 16
    case PlmnCore(_) => typ == SERVING_NETWORK
    case UliCore(l) => typ == USER_LOCATION_INFORMATION && l.macroId < 0x10_0000 && l.extId < 0x20_0000
    case FteidCore(_, _, interfaceType, _, _, _) => typ == FULLY_QUALIFIED_TEID && interfaceType < 64
    case TimeZoneCore(_, daylight) => typ == UE_TIME_ZONE && daylight < 4
    case FqCsidCore(_, csids) => typ == FQ_CSID && |csids| <= 15
    case _ => false
  }

  // ----- five octets -----

  const RATE_MODULUS := 0x100_0000_0000

  /** A rate of 40 bits, the most significant octet first. */
  function RateOctets(n: u64): (r: seq<byte>)
    ensures |r| == 5
  {
    [n / 0x1_0000_0000 % 0x100] + U32Octets(n % 0x1_0000_0000)
  }

  function OctetsRate(s: seq<byte>): u64
    requires |s| == 5
  {
    (s[0] as int) * 0x1_0000_0000 + OctetsU32(s[1..])
  }

  // ----- making elements -----

  function If(b: bool, s: seq<byte>): seq<byte> { if b then s else [] }

  /** Parts of a payload, one after the other. */
  function Join(parts: seq<seq<byte>>): seq<byte> {
    if parts == [] then [] else parts[0] + Join(parts[1..])
  }

  /** The spare half of the octet before the E-UTRAN cell identifier is cleared. */
  function EcgiMade(ecgi: Octets7): Octets7 { ecgi[3 := ecgi[3] % 16] }

  /** The upper four bits of an eNodeB id have a place of their own; that of the extended id keeps
      four of its five, and that of the other id is never written. */
  function ExtOctets(l: Location): (r: seq<byte>)
    requires l.extId < 0x20_0000
    ensures |r| == 6
  {
    l.extPlmn + [Bit(l.smenb, 0x80) + l.extId / 0x1_0000 % 16] + U16Octets(l.extId % 0x1_0000)
  }

  function MacroOctets(l: Location): (r: seq<byte>)
    ensures |r| == 5
  {
    l.macroPlmn + U16Octets(l.macroId % 0x1_0000)
  }

  /** The fields in the order in which they are written. */
  function LocationFields(l: Location): (r: seq<seq<byte>>)
    requires l.extId < 0x20_0000
    ensures |r| == 8 && forall k :: 0 <= k < 8 ==> |r[k]| == LOCATION_SIZES[k]
  {
    [ExtOctets(l), MacroOctets(l), l.lai, EcgiMade(l.ecgi), l.tai, l.rai, l.sai, l.cgi]
  }

  /** The parts that are present, one after the other. */
  function JoinPresent(present: seq<bool>, parts: seq<seq<byte>>): seq<byte>
    requires |present| == |parts|
  {
    if present == [] then [] else If(present[0], parts[0]) + JoinPresent(present[1..], parts[1..])
  }

  /** What the constructor adds to the length for each field: for the macro eNodeB id, the LAI and
      the RAI it is not what the field takes up. */
  const LOCATION_LENGTHS: seq<nat> := [6, 6, 4, 7, 5, 5, 7, 7]

  function LocationLength(flags: byte): (r: u16)
    ensures r > 0
  {
    PresentAtMost(LocationFlags(flags), LOCATION_LENGTHS, 7);
    1 + PresentSize(LocationFlags(flags), LOCATION_LENGTHS)
  }

  lemma {:induction false} PresentAtMost(present: seq<bool>, sizes: seq<nat>, most: nat)
    requires |present| == |sizes| && forall k :: 0 <= k < |sizes| ==> sizes[k] <= most
    ensures PresentSize(present, sizes) <= most * |sizes|
    decreases |sizes|
  {
    if present != [] { PresentAtMost(present[1..], sizes[1..], most); }
  }

  function PaaParts(v: Core): seq<seq<byte>>
    requires v.PaaCore?
  {
    var t: byte := v.pdnType % 8;
    [[t], If(t == 2 || t == 3, [v.prefix]), If(t == 2 || t == 3, v.v6), If(t == 1 || t == 3, v.v4)]
  }

  function FteidParts(v: Core): seq<seq<byte>>
    requires v.FteidCore? && v.interfaceType < 64
  {
    [[Bit(v.hasV4, 0x80) + Bit(v.hasV6, 0x40) + v.interfaceType], U32Octets(v.teid), If(v.hasV4, v.ipv4), If(v.hasV6, v.ipv6)]
  }

  function QosParts(v: Core): seq<seq<byte>>
    requires v.QosCore? && v.pl < 16
  {
    [[Bit(v.pci, 0x40) + v.pl * 4 + Bit(v.pvi, 1)], [v.qci], RateOctets(v.maxUplink), RateOctets(v.maxDownlink),
     RateOctets(v.guaranteedUplink), RateOctets(v.guaranteedDownlink)]
  }

  /** The declared lengths of containers, with the three octets in front of each. */
  function DeclaredLength(cs: seq<Container>): nat {
    if cs == [] then 0 else cs[0].length + 3 + DeclaredLength(cs[1..])
  }

  /** The digits of the element: the constructor of an MEI sets the filler, that of an MSISDN leaves
      out the sixteenth half octet. */
  function DigitsMade(typ: byte, buffer: Octets8, count: nat): Body
    requires typ != MSISDN ==> count <= 16
  {
    if typ == MOBILE_EQUIPMENT_IDENTITY && count % 2 == 1 then
      Digits(buffer[count / 2 := FillerHigh(buffer[count / 2])], count)
    else if typ == MSISDN then
      Digits(buffer[7 := buffer[7] % 16], count)
    else
      Digits(buffer, count)
  }

  /** An MSISDN's length is that of 15 digits at most. */
  function DigitLimit(typ: byte, count: nat): nat { if typ == MSISDN then MinNat(count, 15) else count }

  /** What the constructor of an element makes of a value: the length and the body. */
  function Make(typ: byte, v: Core): (u16, Body)
    requires Typed(typ, v)
  {
    match v
    case DigitsCore(buffer, count) => ((DigitLimit(typ, count) + 1) / 2, DigitsMade(typ, buffer, count))
    case OctetCore(value) => (1, Raw([value % OctetWidth(typ).value]))
    case ApnCore(name) => (|name| % 0x1_0000, Raw(name))
    case AmbrCore(uplink, downlink) => (8, Raw(U32Octets(uplink) + U32Octets(downlink)))
    case IndicationCore(flags) => (7, Raw(flags[6 := flags[6] % 32]))
    case PcoCore(ext, protocol, cs) => ((1 + DeclaredLength(cs)) % 0x1_0000, Pco(Bit(ext, 0x80) + protocol, cs))
    case PaaCore(pdnType, _, _, _) => (PaaSize(pdnType % 8).value, Raw(Join(PaaParts(v))))
    case QosCore(_, _, _, _, _, _, _, _) => (22, Raw(Join(QosParts(v))))
    case PlmnCore(plmn) => (3, Raw(plmn))
    case UliCore(l) => (LocationLength(l.flags), Raw([l.flags] + JoinPresent(LocationFlags(l.flags), LocationFields(l))))
    case FteidCore(hasV4, hasV6, _, _, _, _) => (5 + Bit(hasV4, 4) + Bit(hasV6, 16), Raw(Join(FteidParts(v))))
    case TimeZoneCore(zone, daylight) => (2, Raw([zone, daylight]))
    case FqCsidCore(node, csids) => MakeFqCsid(node, csids)
  }

  /** The first octet holds the kind of the node and the number of CSIDs. */
  function MakeFqCsid(node: Node, csids: seq<u16>): (u16, Body)
    requires |csids| <= 15
  {
    (1 + |NodeOctets(node)| + 2 * |csids|, FqCsid(NodeKind(node) * 16 + |csids|, node, csids))
  }

  function ToElement(typ: byte, instance: byte, v: Core): Ie
    requires Typed(typ, v)
  {
    Ie(Tlv(typ, Make(typ, v).0, instance), Make(typ, v).1)
  }

  // ----- making values -----

  /** The next `n` octets if they are there, else zeros. */
  function Section(b: bool, o: seq<byte>, i: nat, n: nat): (r: seq<byte>)
    requires b ==> i + n <= |o|
    ensures |r| == n
  {
    if b then o[i..i + n] else Zeros(n)
  }

  /** Parts of known sizes, read one after the other where they are present, zeros where not. */
  function ReadPresent(o: seq<byte>, present: seq<bool>, sizes: seq<nat>): (r: seq<seq<byte>>)
    requires |present| == |sizes| && |o| == PresentSize(present, sizes)
    ensures |r| == |sizes| && forall k :: 0 <= k < |r| ==> |r[k]| == sizes[k]
    decreases |sizes|
  {
    if present == [] then []
    else
      var n := Bit(present[0], sizes[0]);
      [if present[0] then o[..n] else Zeros(sizes[0])] + ReadPresent(o[n..], present[1..], sizes[1..])
  }

  /** The location from the octets of its element: the flags, then the fields they announce. */
  function ParseLocation(o: seq<byte>): Location
    requires o != [] && |o| == 1 + LocationSize(o[0])
  {
    LocationOf(o[0], ReadPresent(o[1..], LocationFlags(o[0]), LOCATION_SIZES))
  }

  function LocationOf(flags: byte, fields: seq<seq<byte>>): Location
    requires |fields| == 8 && forall k :: 0 <= k < 8 ==> |fields[k]| == LOCATION_SIZES[k]
  {
    var ext, macro := fields[0], fields[1];
    Location(flags, fields[7], fields[6], fields[5], fields[4], fields[3], fields[2], macro[..3], OctetsU16(macro[3..]),
             ext[..3], ext[3] / 0x80 == 1, ext[3] % 16 * 0x1_0000 + OctetsU16(ext[4..]))
  }

  function ParsePaa(o: seq<byte>): Core
    requires o != [] && PaaSize(o[0] % 8) == Some(|o|)
  {
    var t: byte := o[0] % 8;
    var i := 1 + Bit(t == 2 || t == 3, 17);
    PaaCore(t, Section(t == 2 || t == 3, o, 1, 1)[0], Section(t == 2 || t == 3, o, 2, 16), Section(t == 1 || t == 3, o, i, 4))
  }

  function ParseFteid(o: seq<byte>): Core
    requires o != [] && |o| == TeidSize(o[0])
  {
    var hasV4, hasV6 := o[0] / 0x80 == 1, o[0] / 0x40 % 2 == 1;
    FteidCore(hasV4, hasV6, o[0] % 0x40, OctetsU32(o[1..5]), Section(hasV4, o, 5, 4), Section(hasV6, o, 5 + Bit(hasV4, 4), 16))
  }

  function ParseQos(o: seq<byte>): Core
    requires |o| == 22
  {
    QosCore(o[0] / 0x40 % 2 == 1, o[0] / 4 % 16, o[0] % 2 == 1, o[1], OctetsRate(o[2..7]), OctetsRate(o[7..12]),
            OctetsRate(o[12..17]), OctetsRate(o[17..22]))
  }

  function FromLocation(o: seq<byte>): Result<Core, Error> {
    if o != [] && |o| == 1 + LocationSize(o[0]) then Ok(UliCore(ParseLocation(o))) else Err(BadLength)
  }

  /** The value of an element that is its octets. A loader never makes one of another size. */
  function FromRaw(typ: byte, o: seq<byte>): Result<Core, Error> {
    if typ == USER_LOCATION_INFORMATION then
      FromLocation(o)
    else if OctetWidth(typ).Some? then
      if |o| == 1 then Ok(OctetCore(o[0] % OctetWidth(typ).value)) else Err(BadLength)
    else if typ == BEARER_TFT || typ == BEARER_FLAGS then
      // The number of packet filters is not taken over.
      if |o| == 1 then Ok(OctetCore(if typ == BEARER_TFT then o[0] / 16 * 16 else o[0])) else Err(BadLength)
    else if typ == ACCESS_POINT_NAME then Ok(ApnCore(o))
    else if typ == AGGREGATE_MAXIMUM_BIT_RATE then
      if |o| == 8 then Ok(AmbrCore(OctetsU32(o[..4]), OctetsU32(o[4..]))) else Err(BadLength)
    else if typ == INDICATION then
      if |o| <= 7 then
        var all := o + Zeros(7 - |o|);
        Ok(IndicationCore(all[6 := all[6] % 32]))
      else Err(BadLength)
    else if typ == PDN_ADDRESS_ALLOCATION then
      if o != [] && PaaSize(o[0] % 8) == Some(|o|) then Ok(ParsePaa(o)) else Err(BadValue)
    else if typ == BEARER_QOS then
      if |o| == 22 then Ok(ParseQos(o)) else Err(BadLength)
    else if typ == SERVING_NETWORK then
      if |o| == 3 then Ok(PlmnCore(o)) else Err(BadLength)
    else if typ == FULLY_QUALIFIED_TEID then
      if o != [] && |o| == TeidSize(o[0]) then Ok(ParseFteid(o)) else Err(BadLength)
    else if typ == UE_TIME_ZONE then
      if |o| == 2 then Ok(TimeZoneCore(o[0], o[1] % 4)) else Err(BadLength)
    else if typ == CHARGING_ID then
      if |o| == 4 then Ok(NumberCore(OctetsU32(o))) else Err(BadLength)
    else
      Err(IllegalElement)
  }

  /** What the element of a type hands to the message it belongs to. */
  function FromElement(typ: byte, body: Body): Result<Core, Error> {
    match body
    case Raw(o) => FromRaw(typ, o)
    case Digits(buffer, count) =>
      // An MSISDN has no sixteenth half octet.
      Ok(DigitsCore(if typ == MSISDN then buffer[7 := buffer[7] % 16] else buffer, count))
    case Cause(value, flags, offendingType, length, instance) => Ok(CauseCore(value, flags % 8, offendingType, length, instance % 16))
    case Pco(first, cs) =>
      // There is room for eight containers; more are a failure here.
      if |cs| <= 8 then Ok(PcoCore(first / 0x80 == 1, first % 8, cs)) else Err(TooLong)
    case FqCsid(_, node, csids) => Ok(FqCsidCore(node, csids))
    case _ => Err(IllegalElement)
  }
}
