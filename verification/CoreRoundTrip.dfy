/** What becomes of a value that is sent: made into an element, dumped, loaded by the peer and made
    into a value again. For every type, what comes back, and exactly which values come back as
    they were. */
module CoreRoundTrip {
  import opened Prelude
  import opened Octets
  import opened Elements
  import opened ElementLoading
  import opened ElementRoundTrip
  import opened CoreTypes

  /** Two things a caller must see to: containers are as long as they say, and an access point name
      fits the length field. */
  predicate Sendable(v: Core) {
    && (v.PcoCore? ==> LengthsMatch(v.containers) && DeclaredLength(v.containers) < 0xFFFF)
    && (v.ApnCore? ==> |v.name| < 0x1_0000)
  }

  /** The element of the value has no octets. */
  predicate MadeEmpty(v: Core) {
    (v.DigitsCore? && v.count == 0) || (v.ApnCore? && v.name == [])
  }

  // ----- what comes back -----

  /** The buffer that is dumped: with the filler, where the constructor or the dump method sets it. */
  function DumpedBuffer(typ: byte, buffer: Octets8, count: nat): Octets8
    requires typ != MSISDN ==> count <= 16
  {
    var made := DigitsMade(typ, buffer, count).buffer;
    if typ == MSISDN then MsisdnAfterDump(made, count).buffer else made
  }

  function DigitsBack(typ: byte, buffer: Octets8, count: nat): Core
    requires count > 0 && (typ != MSISDN ==> count <= 16)
  {
    var read := DigitsRead(typ, DumpedBuffer(typ, buffer, count), (DigitLimit(typ, count) + 1) / 2);
    DigitsCore(if typ == MSISDN then read.buffer[7 := read.buffer[7] % 16] else read.buffer, read.count)
  }

  function LocationBack(l: Location): Location
    requires l.extId < 0x20_0000
  {
    LocationOf(l.flags, KeptPresent(LocationFlags(l.flags), LocationFields(l)))
  }

  function KeptPresent(present: seq<bool>, parts: seq<seq<byte>>): (r: seq<seq<byte>>)
    requires |present| == |parts|
    ensures |r| == |parts| && forall k :: 0 <= k < |r| ==> r[k] == Kept(present[k], parts[k])
  {
    seq(|parts|, k requires 0 <= k < |parts| => Kept(present[k], parts[k]))
  }

  function Kept(b: bool, s: seq<byte>): (r: seq<byte>)
    ensures |r| == |s|
  {
    if b then s else Zeros(|s|)
  }

  function PaaBack(v: Core): Core
    requires v.PaaCore?
  {
    var t: byte := v.pdnType % 8;
    PaaCore(t, if t == 2 || t == 3 then v.prefix else 0, Kept(t == 2 || t == 3, v.v6), Kept(t == 1 || t == 3, v.v4))
  }

  /** The value that comes back. */
  function Back(typ: byte, v: Core): Core
    requires Typed(typ, v) && !MadeEmpty(v)
  {
    match v
    case DigitsCore(buffer, count) => DigitsBack(typ, buffer, count)
    case OctetCore(value) => OctetCore(value % OctetWidth(typ).value)
    case IndicationCore(flags) => IndicationCore(flags[6 := flags[6] % 32])
    case PaaCore(_, _, _, _) => PaaBack(v)
    case QosCore(pci, pl, pvi, qci, a, b, c, d) =>
      QosCore(pci, pl, pvi, qci, a % RATE_MODULUS, b % RATE_MODULUS, c % RATE_MODULUS, d % RATE_MODULUS)
    case UliCore(l) => UliCore(LocationBack(l))
    case FteidCore(hasV4, hasV6, interfaceType, teid, ipv4, ipv6) =>
      FteidCore(hasV4, hasV6, interfaceType, teid, Kept(hasV4, ipv4), Kept(hasV6, ipv6))
    case FqCsidCore(node, csids) => FqCsidCore(NodeBack(node), csids)
    case _ => v
  }

  // ----- which values come back as they were -----

  predicate AllZero(s: seq<byte>) { forall i :: 0 <= i < |s| ==> s[i] == 0 }

  /** Digits in the original's convention: at most 15, a filler of 1111 behind an odd number and no
      such half octet at the end of an even one, and nothing behind them. Behind the fifteenth digit
      of an IMSI anything may stand, and for that of an MSISDN there is no room for a filler. */
  predicate DigitsNormal(typ: byte, buffer: Octets8, count: nat) {
    && 1 <= count <= 15 && AllZero(buffer[(count + 1) / 2..])
    && if typ == IMSI && count == 15 then true
       else if typ == MSISDN && count == 15 then buffer[7] < 16
       else if count % 2 == 1 then buffer[count / 2] / 16 == 15
       else buffer[count / 2 - 1] / 16 != 15
  }

  /** Nothing in the fields that the flags do not announce, and eNodeB ids that fit what is sent of
      them: 16 bits of the macro eNodeB id, 20 of the extended one. */
  predicate LocationNormal(l: Location) {
    var f := l.flags;
    && (if HasExt(f) then l.extId < 0x10_0000 else AllZero(l.extPlmn) && !l.smenb && l.extId == 0)
    && (if HasMacro(f) then l.macroId < 0x1_0000 else AllZero(l.macroPlmn) && l.macroId == 0)
    && (if HasEcgi(f) then l.ecgi[3] < 16 else AllZero(l.ecgi))
    && (HasLai(f) || AllZero(l.lai)) && (HasTai(f) || AllZero(l.tai)) && (HasRai(f) || AllZero(l.rai))
    && (HasSai(f) || AllZero(l.sai)) && (HasCgi(f) || AllZero(l.cgi))
  }

  predicate PaaNormal(v: Core)
    requires v.PaaCore?
  {
    && v.pdnType < 8
    && (v.pdnType == 2 || v.pdnType == 3 || (v.prefix == 0 && AllZero(v.v6)))
    && (v.pdnType == 1 || v.pdnType == 3 || AllZero(v.v4))
  }

  predicate Normal(typ: byte, v: Core)
    requires Typed(typ, v)
  {
    match v
    case DigitsCore(buffer, count) => DigitsNormal(typ, buffer, count)
    case OctetCore(value) => value < OctetWidth(typ).value
    case IndicationCore(flags) => flags[6] < 32
    case PaaCore(_, _, _, _) => PaaNormal(v)
    case QosCore(_, _, _, _, a, b, c, d) => a < RATE_MODULUS && b < RATE_MODULUS && c < RATE_MODULUS && d < RATE_MODULUS
    case UliCore(l) => LocationNormal(l)
    case FteidCore(hasV4, hasV6, _, _, ipv4, ipv6) => (hasV4 || AllZero(ipv4)) && (hasV6 || AllZero(ipv6))
    case FqCsidCore(node, _) => NodeFits(node)
    case _ => true
  }

  // ----- digits -----

  lemma FillerOr(o: byte)
    ensures FillerHigh(o) / 16 == 15 && FillerHigh(o) % 16 == o % 16
    ensures FillerHigh(o) == o <==> o / 16 == 15
  {}

  /** The buffer that comes back is the one given, up to the filler and what lies behind the digits. */
  lemma DumpedBufferIs(typ: byte, buffer: Octets8, count: nat)
    requires IsDigits(typ) && 1 <= count && (typ != MSISDN ==> count <= 16)
    ensures
      var d := DumpedBuffer(typ, buffer, count);
      var n := DigitLimit(typ, count);
      var last := (n + 1) / 2 - 1;
      && (forall i :: 0 <= i < last ==> d[i] == buffer[i])
      && d[last] == (if typ != IMSI && n % 2 == 1 then FillerHigh(buffer[last]) else buffer[last])
  {
    FillerOr(buffer[7] % 16);
  }

  /** The half octets that are dumped last. */
  function LastOctet(typ: byte, buffer: Octets8, count: nat): byte
    requires 1 <= count <= 15
  {
    var o := buffer[(count + 1) / 2 - 1];
    if typ != IMSI && count % 2 == 1 then FillerHigh(o) else o
  }

  lemma DigitsReadIs(typ: byte, buffer: Octets8, d: Octets8, last: nat)
    requires last < 8 && forall i :: 0 <= i < last ==> d[i] == buffer[i]
    ensures DigitsRead(typ, d, last + 1).buffer == buffer[..last] + [d[last]] + Zeros(7 - last)
  {
    assert d[..last + 1] == buffer[..last] + [d[last]];
    assert Zeros(7 - last) == Zeros(8 - (last + 1));
  }

  lemma BufferBackIs(typ: byte, buffer: Octets8, count: nat)
    requires IsDigits(typ) && 1 <= count <= 15
    ensures
      var last := (count + 1) / 2 - 1;
      var o := LastOctet(typ, buffer, count);
      DigitsBack(typ, buffer, count).buffer
      == buffer[..last] + [if typ == MSISDN && last == 7 then o % 16 else o] + Zeros(7 - last)
  {
    DumpedBufferIs(typ, buffer, count);
    var last := (count + 1) / 2 - 1;
    var d := DumpedBuffer(typ, buffer, count);
    var o := LastOctet(typ, buffer, count);
    assert d[last] == o;
    DigitsReadIs(typ, buffer, d, last);
    var b := buffer[..last] + [o] + Zeros(7 - last);
    if typ == MSISDN {
      assert b[7 := b[7] % 16] == buffer[..last] + [if last == 7 then o % 16 else o] + Zeros(7 - last);
    }
  }

  lemma CountBackIs(typ: byte, buffer: Octets8, count: nat)
    requires IsDigits(typ) && 1 <= count <= 15
    ensures
      DigitsBack(typ, buffer, count).count
      == DigitCount(typ, LastOctet(typ, buffer, count), (count + 1) / 2)
  {
    DumpedBufferIs(typ, buffer, count);
  }

  lemma SameBuffer(buffer: Octets8, last: nat, o: byte)
    requires last < 8
    ensures buffer[..last] + [o] + Zeros(7 - last) == buffer <==> buffer[last] == o && AllZero(buffer[last + 1..])
  {
    var b := buffer[..last] + [o] + Zeros(7 - last);
    var tail := buffer[last + 1..];
    if b == buffer {
      assert b[last] == o;
      forall i | 0 <= i < |tail|
        ensures tail[i] == 0
      {
        assert b[last + 1 + i] == 0;
      }
    }
    if buffer[last] == o && AllZero(tail) {
      assert tail == Zeros(7 - last);
      assert buffer == buffer[..last] + [buffer[last]] + tail;
    }
  }

  /** The last octet that comes back is the last one given. */
  predicate LastKept(typ: byte, buffer: Octets8, count: nat)
    requires 1 <= count <= 15
  {
    var o := LastOctet(typ, buffer, count);
    (if typ == MSISDN && count == 15 then o % 16 else o) == buffer[(count + 1) / 2 - 1]
  }

  lemma BufferBackSame(typ: byte, buffer: Octets8, count: nat)
    requires IsDigits(typ) && 1 <= count <= 15
    ensures DigitsBack(typ, buffer, count).buffer == buffer
            <==> LastKept(typ, buffer, count) && AllZero(buffer[(count + 1) / 2..])
  {
    var last := (count + 1) / 2 - 1;
    var o := LastOctet(typ, buffer, count);
    BufferBackIs(typ, buffer, count);
    assert last == 7 <==> count == 15;
    SameBuffer(buffer, last, if typ == MSISDN && last == 7 then o % 16 else o);
  }

  /** The half octets at the end, for an odd number of digits. */
  lemma OddLastSame(typ: byte, buffer: Octets8, count: nat)
    requires IsDigits(typ) && 1 <= count <= 15 && count % 2 == 1
    ensures
      LastKept(typ, buffer, count) && DigitCount(typ, LastOctet(typ, buffer, count), (count + 1) / 2) == count
      <==> if typ == IMSI && count == 15 then true
           else if typ == MSISDN && count == 15 then buffer[7] < 16
           else buffer[count / 2] / 16 == 15
  {
    assert (count + 1) / 2 - 1 == count / 2 && 2 * ((count + 1) / 2) == count + 1;
    FillerOr(buffer[count / 2]);
  }

  /** The same for an even number. */
  lemma EvenLastSame(typ: byte, buffer: Octets8, count: nat)
    requires IsDigits(typ) && 1 <= count <= 15 && count % 2 == 0
    ensures
      LastKept(typ, buffer, count) && DigitCount(typ, LastOctet(typ, buffer, count), (count + 1) / 2) == count
      <==> buffer[count / 2 - 1] / 16 != 15
  {
    assert (count + 1) / 2 == count / 2 && 2 * (count / 2) == count;
  }

  lemma DigitsNormalIs(typ: byte, buffer: Octets8, count: nat)
    requires IsDigits(typ) && 1 <= count <= 15
    ensures DigitsNormal(typ, buffer, count)
            <==> AllZero(buffer[(count + 1) / 2..]) && LastKept(typ, buffer, count)
                 && DigitCount(typ, LastOctet(typ, buffer, count), (count + 1) / 2) == count
  {
    if count % 2 == 1 { OddLastSame(typ, buffer, count); } else { EvenLastSame(typ, buffer, count); }
  }

  /** Exactly the digits in the original's convention come back as they were. */
  lemma DigitsBackSame(typ: byte, buffer: Octets8, count: nat)
    requires IsDigits(typ) && count > 0 && (typ != MSISDN ==> count <= 16)
    ensures DigitsBack(typ, buffer, count) == DigitsCore(buffer, count) <==> DigitsNormal(typ, buffer, count)
  {
    if count <= 15 {
      BufferBackSame(typ, buffer, count);
      CountBackIs(typ, buffer, count);
      DigitsNormalIs(typ, buffer, count);
    } else {
      CountBackIsSmall(typ, buffer, count);
    }
  }

  lemma CountBackIsSmall(typ: byte, buffer: Octets8, count: nat)
    requires IsDigits(typ) && count >= 16 && (typ != MSISDN ==> count <= 16)
    ensures DigitsBack(typ, buffer, count).count <= 15
  {
    DumpedBufferIs(typ, buffer, count);
    FillerOr(buffer[7]);
  }

  lemma DigitsReturn(typ: byte, instance: byte, v: Core)
    requires Typed(typ, v) && v.DigitsCore? && v.count > 0
    ensures InSync(ToElement(typ, instance, v))
    ensures FromElement(typ, Reloaded(ToElement(typ, instance, v)).body) == Ok(Back(typ, v))
  {
    var ie := ToElement(typ, instance, v);
    DigitsAfterDump(typ, instance, v);
    DigitsInSync(ie);
    var tlv := AfterDump(ie).tlv;
    var body := DigitsRead(typ, DumpedBuffer(typ, v.buffer, v.count), tlv.length);
    assert Reloaded(ie) == Ie(tlv, body);
    DigitsTaken(typ, v.buffer, v.count, body);
    DigitsBackIs(typ, v);
  }

  lemma DigitsTaken(typ: byte, buffer: Octets8, count: nat, body: Body)
    requires count > 0 && (typ != MSISDN ==> count <= 16)
    requires body == DigitsRead(typ, DumpedBuffer(typ, buffer, count), (DigitLimit(typ, count) + 1) / 2)
    ensures FromElement(typ, body) == Ok(DigitsBack(typ, buffer, count))
  {}

  lemma DigitsBackIs(typ: byte, v: Core)
    requires Typed(typ, v) && v.DigitsCore? && v.count > 0
    ensures Back(typ, v) == DigitsBack(typ, v.buffer, v.count)
  {}

  lemma DigitsAfterDump(typ: byte, instance: byte, v: Core)
    requires Typed(typ, v) && v.DigitsCore?
    ensures
      var ie := ToElement(typ, instance, v);
      && ie.body.Digits? && AfterDump(ie).body.Digits? && AfterDump(ie).tlv == ie.tlv
      && AfterDump(ie).tlv.length == (DigitLimit(typ, v.count) + 1) / 2 <= 8
      && AfterDump(ie).body.buffer == DumpedBuffer(typ, v.buffer, v.count)
  {}

  // ----- elements that are their octets -----

  lemma RawReturn(typ: byte, instance: byte, v: Core)
    requires Typed(typ, v) && Make(typ, v).1.Raw? && IsRaw(typ) && (typ == ACCESS_POINT_NAME ==> |Make(typ, v).1.octets| < 0x1_0000)
    requires
      var o := Make(typ, v).1.octets;
      Make(typ, v).0 > 0 && o != [] && ReadSize(typ, Make(typ, v).0, o[0]) == Ok(|o|)
    requires FromRaw(typ, Make(typ, v).1.octets) == Ok(Back(typ, v))
    ensures InSync(ToElement(typ, instance, v))
    ensures FromElement(typ, Reloaded(ToElement(typ, instance, v)).body) == Ok(Back(typ, v))
  {
    RawInSync(ToElement(typ, instance, v));
  }

  lemma IndicationReturn(typ: byte, instance: byte, v: Core)
    requires Typed(typ, v) && v.IndicationCore?
    ensures InSync(ToElement(typ, instance, v))
    ensures FromElement(typ, Reloaded(ToElement(typ, instance, v)).body) == Ok(Back(typ, v))
  {
    var o := Make(typ, v).1.octets;
    assert o + Zeros(7 - |o|) == o && o[6 := o[6] % 32] == o;
    RawReturn(typ, instance, v);
  }

  lemma OctetReturn(typ: byte, instance: byte, v: Core)
    requires Typed(typ, v) && v.OctetCore?
    ensures InSync(ToElement(typ, instance, v))
    ensures FromElement(typ, Reloaded(ToElement(typ, instance, v)).body) == Ok(Back(typ, v))
  {
    RawReturn(typ, instance, v);
  }

  lemma SimpleReturn(typ: byte, instance: byte, v: Core)
    requires Typed(typ, v) && Sendable(v) && !MadeEmpty(v)
    requires v.ApnCore? || v.PlmnCore? || v.TimeZoneCore?
    ensures InSync(ToElement(typ, instance, v))
    ensures FromElement(typ, Reloaded(ToElement(typ, instance, v)).body) == Ok(Back(typ, v))
  {
    RawReturn(typ, instance, v);
  }

  lemma AmbrReturn(typ: byte, instance: byte, v: Core)
    requires Typed(typ, v) && v.AmbrCore?
    ensures InSync(ToElement(typ, instance, v))
    ensures FromElement(typ, Reloaded(ToElement(typ, instance, v)).body) == Ok(Back(typ, v))
  {
    var o := Make(typ, v).1.octets;
    assert o[..4] == U32Octets(v.uplink) && o[4..] == U32Octets(v.downlink);
    U32RoundTrip(v.uplink);
    U32RoundTrip(v.downlink);
    RawReturn(typ, instance, v);
  }

  // ----- elements of several parts -----

  lemma JoinFour(a: seq<byte>, b: seq<byte>, c: seq<byte>, d: seq<byte>)
    ensures Join([a, b, c, d]) == a + (b + (c + d))
  {
    assert [a, b, c, d][1..] == [b, c, d] && [b, c, d][1..] == [c, d] && [c, d][1..] == [d] && [d][1..] == [];
    assert Join([d]) == d;
    assert Join([c, d]) == c + d;
    assert Join([b, c, d]) == b + (c + d);
  }

  /** Two more parts in front. */
  lemma JoinTwoMore(a: seq<byte>, b: seq<byte>, parts: seq<seq<byte>>)
    ensures Join([a, b] + parts) == a + (b + Join(parts))
  {
    var all := [a, b] + parts;
    assert all[1..] == [b] + parts && ([b] + parts)[1..] == parts;
  }

  lemma RateRoundTrip(n: u64)
    ensures OctetsRate(RateOctets(n)) == n % RATE_MODULUS
  {
    assert RateOctets(n)[1..] == U32Octets(n % 0x1_0000_0000);
    U32RoundTrip(n % 0x1_0000_0000);
    SplitRate(n);
  }

  lemma SplitRate(n: nat)
    ensures n / 0x1_0000_0000 % 0x100 * 0x1_0000_0000 + n % 0x1_0000_0000 == n % RATE_MODULUS
  {}

  lemma QosOctets(v: Core)
    requires v.QosCore? && v.pl < 16
    ensures
      var o := Join(QosParts(v));
      && |o| == 22 && o[0] == Bit(v.pci, 0x40) + v.pl * 4 + Bit(v.pvi, 1) && o[1] == v.qci
      && o[2..7] == RateOctets(v.maxUplink) && o[7..12] == RateOctets(v.maxDownlink)
      && o[12..17] == RateOctets(v.guaranteedUplink) && o[17..22] == RateOctets(v.guaranteedDownlink)
  {
    var p := QosParts(v);
    var o := p[0] + (p[1] + (p[2] + (p[3] + (p[4] + p[5]))));
    JoinFour(p[2], p[3], p[4], p[5]);
    JoinTwoMore(p[0], p[1], [p[2], p[3], p[4], p[5]]);
    assert [p[0], p[1]] + [p[2], p[3], p[4], p[5]] == p;
    assert o[2..7] == p[2] && o[7..12] == p[3] && o[12..17] == p[4] && o[17..22] == p[5];
  }

  /** The bearer QoS comes back with each rate modulo 2^40. */
  lemma QosReturn(typ: byte, instance: byte, v: Core)
    requires Typed(typ, v) && v.QosCore?
    ensures InSync(ToElement(typ, instance, v))
    ensures FromElement(typ, Reloaded(ToElement(typ, instance, v)).body) == Ok(Back(typ, v))
  {
    QosParsed(v);
    QosTaken(Join(QosParts(v)));
    assert Make(typ, v) == (22, Raw(Join(QosParts(v))));
    RawReturn(typ, instance, v);
  }

  lemma QosParsed(v: Core)
    requires v.QosCore? && v.pl < 16
    ensures
      var o := Join(QosParts(v));
      && |o| == 22
      && ParseQos(o) == QosCore(v.pci, v.pl, v.pvi, v.qci, v.maxUplink % RATE_MODULUS, v.maxDownlink % RATE_MODULUS,
                                v.guaranteedUplink % RATE_MODULUS, v.guaranteedDownlink % RATE_MODULUS)
  {
    QosOctets(v);
    RateRoundTrip(v.maxUplink);
    RateRoundTrip(v.maxDownlink);
    RateRoundTrip(v.guaranteedUplink);
    RateRoundTrip(v.guaranteedDownlink);
    QosFirst(v.pci, v.pl, v.pvi);
  }

  lemma QosTaken(o: seq<byte>)
    requires |o| == 22
    ensures FromRaw(BEARER_QOS, o) == Ok(ParseQos(o)) && ReadSize(BEARER_QOS, 22, o[0]) == Ok(22)
  {}

  lemma QosFirst(pci: bool, pl: nat, pvi: bool)
    requires pl < 16
    ensures
      var o := Bit(pci, 0x40) + pl * 4 + Bit(pvi, 1);
      (o / 0x40 % 2 == 1 <==> pci) && o / 4 % 16 == pl && (o % 2 == 1 <==> pvi)
  {
    var o := Bit(pci, 0x40) + pl * 4 + Bit(pvi, 1);
    assert o / 4 == Bit(pci, 16) + pl;
    assert o / 0x40 == Bit(pci, 1);
  }

  lemma FteidFirst(hasV4: bool, hasV6: bool, interfaceType: nat)
    requires interfaceType < 64
    ensures
      var o := Bit(hasV4, 0x80) + Bit(hasV6, 0x40) + interfaceType;
      (o / 0x80 == 1 <==> hasV4) && (o / 0x40 % 2 == 1 <==> hasV6) && o % 0x40 == interfaceType
  {}

  lemma FteidOctets(v: Core)
    requires v.FteidCore? && v.interfaceType < 64
    ensures
      var o := Join(FteidParts(v));
      var i := 5 + Bit(v.hasV4, 4);
      && |o| == i + Bit(v.hasV6, 16) && o[0] == Bit(v.hasV4, 0x80) + Bit(v.hasV6, 0x40) + v.interfaceType
      && o[1..5] == U32Octets(v.teid) && o[5..i] == If(v.hasV4, v.ipv4) && o[i..] == If(v.hasV6, v.ipv6)
  {
    var p := FteidParts(v);
    var o := p[0] + (p[1] + (p[2] + p[3]));
    JoinFour(p[0], p[1], p[2], p[3]);
    assert [p[0], p[1], p[2], p[3]] == p;
    var i := 5 + Bit(v.hasV4, 4);
    assert o[1..5] == p[1] && o[5..i] == p[2] && o[i..] == p[3];
  }

  lemma FteidReturn(typ: byte, instance: byte, v: Core)
    requires Typed(typ, v) && v.FteidCore?
    ensures InSync(ToElement(typ, instance, v))
    ensures FromElement(typ, Reloaded(ToElement(typ, instance, v)).body) == Ok(Back(typ, v))
  {
    FteidOctets(v);
    FteidFirst(v.hasV4, v.hasV6, v.interfaceType);
    U32RoundTrip(v.teid);
    var o := Join(FteidParts(v));
    var i := 5 + Bit(v.hasV4, 4);
    assert v.hasV6 ==> o[i..i + 16] == o[i..];
    assert ParseFteid(o) == Back(typ, v);
    RawReturn(typ, instance, v);
  }

  lemma PaaOctets(v: Core)
    requires v.PaaCore? && PaaSize(v.pdnType % 8).Some?
    ensures
      var o := Join(PaaParts(v));
      var t: byte := v.pdnType % 8;
      var b6, b4 := t == 2 || t == 3, t == 1 || t == 3;
      && |o| == 1 + Bit(b6, 17) + Bit(b4, 4) && o[0] == t
      && (b6 ==> o[1] == v.prefix && o[2..18] == v.v6)
      && o[1 + Bit(b6, 17)..] == If(b4, v.v4)
  {
    var p := PaaParts(v);
    var o := p[0] + (p[1] + (p[2] + p[3]));
    JoinFour(p[0], p[1], p[2], p[3]);
    assert [p[0], p[1], p[2], p[3]] == p;
  }

  lemma PaaReturn(typ: byte, instance: byte, v: Core)
    requires Typed(typ, v) && v.PaaCore?
    ensures InSync(ToElement(typ, instance, v))
    ensures FromElement(typ, Reloaded(ToElement(typ, instance, v)).body) == Ok(Back(typ, v))
  {
    PaaOctets(v);
    var o := Join(PaaParts(v));
    var t: byte := v.pdnType % 8;
    var i := 1 + Bit(t == 2 || t == 3, 17);
    assert o[0] % 8 == t;
    assert t == 2 || t == 3 ==> o[1..2] == [v.prefix];
    assert t == 1 || t == 3 ==> o[i..i + 4] == o[i..];
    assert ParsePaa(o) == Back(typ, v);
    RawReturn(typ, instance, v);
  }
}
