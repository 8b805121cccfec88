/** Reading information elements from a stream of octets: the factory, the loaders it calls, and
    the loop of the grouped element. A stream that ends before a loader has read what it needs
    is a failure here, as every exception of the original is. */
module ElementLoading {
  import opened Prelude
  import opened Octets
  import opened Elements

  datatype Error = Truncated | BadLength | BadValue | TooLong | BadMessageLength | IllegalElement | BadInstance

  /** A body and the number of octets it was read from. */
  datatype Leaf = Leaf(body: Body, used: nat)

  // ----- elements that are their octets -----

  function Bit(b: bool, weight: nat): nat { if b then weight else 0 }

  // The fields of the user location information, by the flags of its first octet.
  predicate HasExt(flags: byte) { flags / 0x80 == 1 }
  predicate HasMacro(flags: byte) { flags / 0x40 % 2 == 1 }
  predicate HasLai(flags: byte) { flags / 0x20 % 2 == 1 }
  predicate HasEcgi(flags: byte) { flags / 0x10 % 2 == 1 }
  predicate HasTai(flags: byte) { flags / 8 % 2 == 1 }
  predicate HasRai(flags: byte) { flags / 4 % 2 == 1 }
  predicate HasSai(flags: byte) { flags / 2 % 2 == 1 }
  predicate HasCgi(flags: byte) { flags % 2 == 1 }

  function LocationFlags(f: byte): (r: seq<bool>)
    ensures |r| == 8
  {
    [HasExt(f), HasMacro(f), HasLai(f), HasEcgi(f), HasTai(f), HasRai(f), HasSai(f), HasCgi(f)]
  }

  /** The octets of each field, in the order in which they are written and read. */
  const LOCATION_SIZES: seq<nat> := [6, 5, 5, 7, 5, 7, 7, 7]

  /** The sizes of the parts that are present, together. */
  function PresentSize(present: seq<bool>, sizes: seq<nat>): nat
    requires |present| == |sizes|
  {
    if present == [] then 0 else Bit(present[0], sizes[0]) + PresentSize(present[1..], sizes[1..])
  }

  /** The octets of the fields that the flags announce. */
  function LocationSize(flags: byte): nat {
    PresentSize(LocationFlags(flags), LOCATION_SIZES)
  }

  /** One, and the addresses that the PDN type announces. */
  function PaaSize(pdnType: int): Option<nat> {
    if pdnType == 1 then Some(5)
    else if pdnType == 2 then Some(18)
    else if pdnType == 3 then Some(22)
    else if pdnType == 4 then Some(1)
    else None
  }

  function TeidSize(first: byte): nat {
    5 + Bit(first / 0x80 == 1, 4) + Bit(first / 0x40 % 2 == 1, 16)
  }

  function Exactly(n: nat, length: u16): Result<nat, Error> {
    if length == n then Ok(n) else Err(BadLength)
  }

  /** How many octets the loader of an element reads, given its length and its first octet. */
  function ReadSize(typ: byte, length: u16, first: byte): Result<nat, Error>
    requires IsRaw(typ) && length > 0
  {
    if IsCheckedOctet(typ) then Exactly(1, length)
    else if IsUncheckedOctet(typ) then Ok(1)
    else if typ == ACCESS_POINT_NAME then Ok(length)
    else if typ == AGGREGATE_MAXIMUM_BIT_RATE then Ok(8)
    else if typ == INDICATION then Ok(MinNat(length, 7))
    else if typ == SERVING_NETWORK then Exactly(3, length)
    else if typ == CHARGING_ID then Exactly(4, length)
    else if typ == UE_TIME_ZONE then Exactly(2, length)
    else if typ == BEARER_QOS then Exactly(22, length)
    else if typ == FLOW_QOS then Exactly(21, length)
    else if typ == USER_LOCATION_INFORMATION then Ok(1 + LocationSize(first))
    else if typ == FULLY_QUALIFIED_TEID then Exactly(TeidSize(first), length)
    else
      match PaaSize(first % 8)
      case None => Err(BadValue)
      case Some(n) => Exactly(n, length)
  }

  function LoadRaw(tlv: Tlv, s: seq<byte>): (r: Result<Leaf, Error>)
    requires IsRaw(tlv.typ) && tlv.length > 0
    ensures r.Ok? ==> r.value.used <= |s|
  {
    if s == [] then Err(Truncated)
    else
      match ReadSize(tlv.typ, tlv.length, s[0])
      case Err(e) => Err(e)
      case Ok(n) => if n <= |s| then Ok(Leaf(Raw(s[..n]), n)) else Err(Truncated)
  }

  // ----- elements with structure -----

  /** The number of digits: two in each octet, but a high half of 1111 in the last is a filler.
      An IMSI and an MEI are limited to 15 digits, an MSISDN is not. */
  function DigitCount(typ: byte, last: byte, length: nat): nat
    requires length > 0
  {
    var n := 2 * length - if last / 16 == 15 then 1 else 0;
    if typ == MSISDN then n else MinNat(n, 15)
  }

  function LoadDigits(tlv: Tlv, s: seq<byte>): (r: Result<Leaf, Error>)
    requires tlv.length > 0
    ensures r.Ok? ==> r.value.used <= |s|
  {
    if tlv.length > 8 then Err(TooLong)
    else if |s| < tlv.length then Err(Truncated)
    else Ok(Leaf(Digits(s[..tlv.length] + Zeros(8 - tlv.length), DigitCount(tlv.typ, s[tlv.length - 1], tlv.length)), tlv.length))
  }

  /** With a length of 6 the loader reads one octet more than the dumper writes. */
  function LoadCause(tlv: Tlv, s: seq<byte>): (r: Result<Leaf, Error>)
    ensures r.Ok? ==> r.value.used <= |s|
  {
    if tlv.length == 6 then
      if |s| < 6 then Err(Truncated) else Ok(Leaf(Cause(s[0], s[1], s[2], OctetsU16(s[3..5]), s[5]), 6))
    else
      if |s| < 2 then Err(Truncated) else Ok(Leaf(Cause(s[0], s[1], 0, 0, 0), 2))
  }

  /** The object stays one of an IPv4 address. */
  function LoadIpAddress(tlv: Tlv, s: seq<byte>): (r: Result<Leaf, Error>)
    ensures r.Ok? ==> r.value.used <= |s|
  {
    if tlv.length == 4 then
      if |s| < 4 then Err(Truncated) else Ok(Leaf(IpAddress(true, s[..4] + Zeros(12)), 4))
    else if tlv.length == 16 then
      if |s| < 16 then Err(Truncated) else Ok(Leaf(IpAddress(true, s[..16]), 16))
    else
      Err(BadLength)
  }

  /** The containers that take up `remaining` octets. */
  function LoadContainers(s: seq<byte>, remaining: int): (r: Result<(seq<Container>, nat), Error>)
    ensures r.Ok? ==> r.value.1 <= |s| && r.value.1 == (if remaining > 0 then remaining else 0)
    decreases |s|
  {
    if remaining <= 0 then Ok(([], 0))
    else if |s| < 3 || |s| < 3 + s[2] as nat then Err(Truncated)
    else
      var used := 3 + s[2] as nat;
      if used <= remaining then
        match LoadContainers(s[used..], remaining - used)
        case Err(e) => Err(e)
        case Ok((cs, more)) => Ok(([Container(OctetsU16(s[..2]), s[2], s[3..used])] + cs, used + more))
      else
        Err(BadLength)
  }

  function LoadPco(tlv: Tlv, s: seq<byte>): (r: Result<Leaf, Error>)
    ensures r.Ok? ==> r.value.used <= |s|
  {
    if s == [] then Err(Truncated)
    else
      match LoadContainers(s[1..], tlv.length - 1)
      case Err(e) => Err(e)
      case Ok((cs, used)) => Ok(Leaf(Pco(s[0], cs), 1 + used))
  }

  function UnpackExotic(e: u32): Node {
    Exotic(e / 0x1000 / 1000, e / 0x1000 % 1000, e % 0x1000)
  }

  /** The node at the start of a stream: 0 is an IPv4 address, 1 an IPv6 address, 2 an operator's number. */
  function LoadNode(kind: int, s: seq<byte>): Result<(Node, nat), Error> {
    if kind == 0 then
      if |s| < 4 then Err(Truncated) else Ok((Ipv4Node(s[..4]), 4))
    else if kind == 1 then
      if |s| < 16 then Err(Truncated) else Ok((Ipv6Node(s[..16]), 16))
    else if kind == 2 then
      if |s| < 4 then Err(Truncated) else Ok((UnpackExotic(OctetsU32(s[..4])), 4))
    else
      Err(BadValue)
  }

  function OctetsCsids(s: seq<byte>, n: nat): (r: seq<u16>)
    requires |s| == 2 * n
    ensures |r| == n
  {
    if n == 0 then [] else [OctetsU16(s[..2])] + OctetsCsids(s[2..], n - 1)
  }

  function LoadFqCsid(tlv: Tlv, s: seq<byte>): (r: Result<Leaf, Error>)
    ensures r.Ok? ==> r.value.used <= |s|
  {
    if s == [] then Err(Truncated)
    else
      var kind, n := s[0] / 16, s[0] % 16;
      if kind > 2 then Err(BadValue)
      else if tlv.length < (if kind == 1 then 17 else 5) + 2 * n then Err(BadLength)
      else
        match LoadNode(kind, s[1..])
        case Err(e) => Err(e)
        case Ok((node, size)) =>
          if |s| < 1 + size + 2 * n then Err(Truncated)
          else Ok(Leaf(FqCsid(s[0], node, OctetsCsids(s[1 + size..1 + size + 2 * n], n)), 1 + size + 2 * n))
  }

  predicate IsLeafType(typ: byte) { IsKnown(typ) && typ != BEARER_CONTEXT }

  function LoadLeaf(tlv: Tlv, s: seq<byte>): (r: Result<Leaf, Error>)
    requires IsLeafType(tlv.typ) && tlv.length > 0
    ensures r.Ok? ==> r.value.used <= |s|
  {
    if IsRaw(tlv.typ) then LoadRaw(tlv, s)
    else if IsDigits(tlv.typ) then LoadDigits(tlv, s)
    else if tlv.typ == CAUSE then LoadCause(tlv, s)
    else if tlv.typ == IP_ADDRESS then LoadIpAddress(tlv, s)
    else if tlv.typ == PROTOCOL_CONFIGURATION_OPTIONS then LoadPco(tlv, s)
    else LoadFqCsid(tlv, s)
  }

  // ----- the factory and the grouped element -----

  /** What the factory returns: no object, an exception, or an element and the rest of the stream. */
  datatype Parsed = NoIe | Failed(error: Error) | Got(ie: Ie, rest: seq<byte>)

  datatype Loaded = Loaded(ies: seq<Ie>, rest: seq<byte>)

  function ParseTlv(s: seq<byte>): Tlv
    requires |s| >= TLV_LENGTH
  {
    Tlv(s[0], OctetsU16(s[1..3]), s[3])
  }

  /** The factory. Every element it returns took at least the four octets of its type, length and
      instance, so the loops around it end on every stream. */
  function ParseIe(s: seq<byte>): (r: Parsed)
    ensures r.Got? ==> |r.rest| + TLV_LENGTH <= |s|
    decreases |s|, 0
  {
    if s == [] then NoIe
    else if |s| < TLV_LENGTH then Failed(Truncated)
    else if !IsLoadable(ParseTlv(s)) then NoIe
    else LoadBody(ParseTlv(s), s[4..])
  }

  /** The factory makes no object for an empty element or one it does not know. */
  predicate IsLoadable(tlv: Tlv) { tlv.length > 0 && IsKnown(tlv.typ) }

  function LoadBody(tlv: Tlv, s: seq<byte>): (r: Parsed)
    requires IsLoadable(tlv)
    ensures r.Got? ==> |r.rest| <= |s|
    decreases |s|, 2
  {
    if tlv.typ == BEARER_CONTEXT then
      match LoadGroup(s, tlv.length)
      case Err(e) => Failed(e)
      case Ok(g) => Got(Ie(tlv, Group(g.ies)), g.rest)
    else
      match LoadLeaf(tlv, s)
      case Err(e) => Failed(e)
      case Ok(leaf) => Got(Ie(tlv, leaf.body), s[leaf.used..])
  }

  /** The loop of the grouped element: while octets of its length remain. */
  function LoadGroup(s: seq<byte>, remaining: int): (r: Result<Loaded, Error>)
    ensures r.Ok? ==> |r.value.rest| <= |s|
    decreases |s|, 1
  {
    if remaining <= 0 then Ok(Loaded([], s))
    else
      match ParseIe(s)
      case NoIe => Err(BadLength)
      case Failed(e) => Err(e)
      case Got(ie, rest) =>
        match LoadGroup(rest, remaining - (ie.tlv.length + TLV_LENGTH))
        case Err(e) => Err(e)
        case Ok(g) => Ok(Loaded([ie] + g.ies, g.rest))
  }

  // ----- a longer stream -----

  lemma LoadRawPrefix(tlv: Tlv, s: seq<byte>, rest: seq<byte>)
    requires IsRaw(tlv.typ) && tlv.length > 0 && LoadRaw(tlv, s).Ok?
    ensures LoadRaw(tlv, s + rest) == LoadRaw(tlv, s)
  {
    var n := LoadRaw(tlv, s).value.used;
    assert (s + rest)[0] == s[0] && (s + rest)[..n] == s[..n];
  }

  lemma LoadDigitsPrefix(tlv: Tlv, s: seq<byte>, rest: seq<byte>)
    requires tlv.length > 0 && LoadDigits(tlv, s).Ok?
    ensures LoadDigits(tlv, s + rest) == LoadDigits(tlv, s)
  {
    assert (s + rest)[..tlv.length] == s[..tlv.length];
  }

  lemma LoadCausePrefix(tlv: Tlv, s: seq<byte>, rest: seq<byte>)
    requires LoadCause(tlv, s).Ok?
    ensures LoadCause(tlv, s + rest) == LoadCause(tlv, s)
  {
    if tlv.length == 6 { assert (s + rest)[3..5] == s[3..5]; }
  }

  lemma LoadIpAddressPrefix(tlv: Tlv, s: seq<byte>, rest: seq<byte>)
    requires LoadIpAddress(tlv, s).Ok?
    ensures LoadIpAddress(tlv, s + rest) == LoadIpAddress(tlv, s)
  {
    assert (s + rest)[..tlv.length] == s[..tlv.length];
  }

  lemma {:induction false} LoadContainersPrefix(s: seq<byte>, remaining: int, rest: seq<byte>)
    requires LoadContainers(s, remaining).Ok?
    ensures LoadContainers(s + rest, remaining) == LoadContainers(s, remaining)
    decreases |s|
  {
    if remaining > 0 {
      var used := 3 + s[2] as nat;
      LoadContainersPrefix(s[used..], remaining - used, rest);
      assert (s + rest)[..2] == s[..2] && (s + rest)[3..used] == s[3..used] && (s + rest)[2] == s[2];
      assert (s + rest)[used..] == s[used..] + rest;
      ContainersFrom(s, remaining);
      ContainersFrom(s + rest, remaining);
    }
  }

  /** One turn of the loop over containers. */
  lemma ContainersFrom(s: seq<byte>, remaining: int)
    requires remaining > 0 && |s| >= 3 && |s| >= 3 + s[2] as nat && 3 + s[2] as nat <= remaining
    ensures
      var used := 3 + s[2] as nat;
      LoadContainers(s, remaining)
      == match LoadContainers(s[used..], remaining - used)
         case Err(e) => Err(e)
         case Ok(r) => Ok(([Container(OctetsU16(s[..2]), s[2], s[3..used])] + r.0, used + r.1))
  {}

  lemma LoadPcoPrefix(tlv: Tlv, s: seq<byte>, rest: seq<byte>)
    requires LoadPco(tlv, s).Ok?
    ensures LoadPco(tlv, s + rest) == LoadPco(tlv, s)
  {
    assert (s + rest)[1..] == s[1..] + rest;
    LoadContainersPrefix(s[1..], tlv.length - 1, rest);
  }

  lemma LoadNodePrefix(kind: int, s: seq<byte>, rest: seq<byte>)
    requires LoadNode(kind, s).Ok?
    ensures LoadNode(kind, s + rest) == LoadNode(kind, s)
  {
    var n := LoadNode(kind, s).value.1;
    assert (s + rest)[..n] == s[..n];
  }

  lemma LoadFqCsidPrefix(tlv: Tlv, s: seq<byte>, rest: seq<byte>)
    requires LoadFqCsid(tlv, s).Ok?
    ensures LoadFqCsid(tlv, s + rest) == LoadFqCsid(tlv, s)
  {
    assert (s + rest)[0] == s[0] && (s + rest)[1..] == s[1..] + rest;
    LoadNodePrefix(s[0] / 16, s[1..], rest);
    var from, to := 1 + LoadNode(s[0] / 16, s[1..]).value.1, LoadFqCsid(tlv, s).value.used;
    assert (s + rest)[from..to] == s[from..to];
  }

  lemma LoadLeafPrefix(tlv: Tlv, s: seq<byte>, rest: seq<byte>)
    requires IsLeafType(tlv.typ) && tlv.length > 0 && LoadLeaf(tlv, s).Ok?
    ensures LoadLeaf(tlv, s + rest) == LoadLeaf(tlv, s)
  {
    if IsRaw(tlv.typ) { LoadRawPrefix(tlv, s, rest); }
    else if IsDigits(tlv.typ) { LoadDigitsPrefix(tlv, s, rest); }
    else if tlv.typ == CAUSE { LoadCausePrefix(tlv, s, rest); }
    else if tlv.typ == IP_ADDRESS { LoadIpAddressPrefix(tlv, s, rest); }
    else if tlv.typ == PROTOCOL_CONFIGURATION_OPTIONS { LoadPcoPrefix(tlv, s, rest); }
    else { LoadFqCsidPrefix(tlv, s, rest); }
  }

  lemma ParseTlvPrefix(s: seq<byte>, rest: seq<byte>)
    requires |s| >= TLV_LENGTH
    ensures ParseTlv(s + rest) == ParseTlv(s) && (s + rest)[4..] == s[4..] + rest
  {
    assert (s + rest)[1..3] == s[1..3];
  }

  lemma ParseIs(s: seq<byte>)
    requires |s| >= TLV_LENGTH && IsLoadable(ParseTlv(s))
    ensures ParseIe(s) == LoadBody(ParseTlv(s), s[4..])
  {}

  lemma GotIsLoadable(s: seq<byte>)
    requires ParseIe(s).Got?
    ensures |s| >= TLV_LENGTH && IsLoadable(ParseTlv(s))
  {}

  /** Octets behind an element do not change what is read, and are left in the stream. */
  lemma {:induction false} ParsePrefix(s: seq<byte>, rest: seq<byte>)
    requires ParseIe(s).Got?
    ensures ParseIe(s + rest) == Got(ParseIe(s).ie, ParseIe(s).rest + rest)
    decreases |s|, 0
  {
    GotIsLoadable(s);
    ParseIs(s);
    ParseTlvPrefix(s, rest);
    ParseIs(s + rest);
    LoadBodyPrefix(ParseTlv(s), s[4..], rest);
  }

  lemma {:induction false} LoadBodyPrefix(tlv: Tlv, s: seq<byte>, rest: seq<byte>)
    requires IsLoadable(tlv) && LoadBody(tlv, s).Got?
    ensures LoadBody(tlv, s + rest) == Got(LoadBody(tlv, s).ie, LoadBody(tlv, s).rest + rest)
    decreases |s|, 2
  {
    if tlv.typ == BEARER_CONTEXT {
      LoadGroupPrefix(s, tlv.length, rest);
    } else {
      LoadLeafPrefix(tlv, s, rest);
      var used := LoadLeaf(tlv, s).value.used;
      assert (s + rest)[used..] == s[used..] + rest;
    }
  }

  /** The loop of the grouped element, one turn. */
  lemma GroupTurn(s: seq<byte>, remaining: int) returns (ie: Ie, r: seq<byte>, g: Loaded)
    requires remaining > 0 && LoadGroup(s, remaining).Ok?
    ensures ParseIe(s) == Got(ie, r) && LoadGroup(r, remaining - (ie.tlv.length + TLV_LENGTH)) == Ok(g)
    ensures LoadGroup(s, remaining) == Ok(Loaded([ie] + g.ies, g.rest))
  {
    ie, r := ParseIe(s).ie, ParseIe(s).rest;
    g := LoadGroup(r, remaining - (ie.tlv.length + TLV_LENGTH)).value;
  }

  lemma GroupFrom(s: seq<byte>, remaining: int, ie: Ie, r: seq<byte>, g: Loaded)
    requires remaining > 0
    requires ParseIe(s) == Got(ie, r) && LoadGroup(r, remaining - (ie.tlv.length + TLV_LENGTH)) == Ok(g)
    ensures LoadGroup(s, remaining) == Ok(Loaded([ie] + g.ies, g.rest))
  {}

  lemma GroupEnds(s: seq<byte>, remaining: int)
    requires remaining <= 0
    ensures LoadGroup(s, remaining) == Ok(Loaded([], s))
  {}

  lemma {:induction false} LoadGroupPrefix(s: seq<byte>, remaining: int, rest: seq<byte>)
    requires LoadGroup(s, remaining).Ok?
    ensures
      var g := LoadGroup(s, remaining).value;
      LoadGroup(s + rest, remaining) == Ok(Loaded(g.ies, g.rest + rest))
    decreases |s|, 1
  {
    if remaining > 0 {
      var ie, r, g := GroupTurn(s, remaining);
      ParsePrefix(s, rest);
      LoadGroupPrefix(r, remaining - (ie.tlv.length + TLV_LENGTH), rest);
      GroupFrom(s + rest, remaining, ie, r + rest, Loaded(g.ies, g.rest + rest));
    } else {
      GroupEnds(s, remaining);
      GroupEnds(s + rest, remaining);
    }
  }
}
