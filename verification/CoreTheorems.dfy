/** The round trip of a value of any type, and the length of its element. */
module CoreTheorems {
  import opened Prelude
  import opened Octets
  import opened Elements
  import opened ElementLoading
  import opened ElementRoundTrip
  import opened MessageTheorems
  import opened CoreTypes
  import opened CoreRoundTrip

  // ----- protocol configuration options, fully qualified CSID -----

  lemma {:induction false} DeclaredIsReal(cs: seq<Container>)
    requires LengthsMatch(cs)
    ensures |AllContainerOctets(cs)| == DeclaredLength(cs)
    decreases |cs|
  {
    if cs != [] { DeclaredIsReal(cs[1..]); }
  }

  lemma PcoFirst(ext: bool, protocol: nat)
    requires protocol < 8
    ensures
      var o := Bit(ext, 0x80) + protocol;
      (o / 0x80 == 1 <==> ext) && o % 8 == protocol
  {}

  lemma PcoReturn(typ: byte, instance: byte, v: Core)
    requires Typed(typ, v) && v.PcoCore? && Sendable(v)
    ensures InSync(ToElement(typ, instance, v))
    ensures FromElement(typ, Reloaded(ToElement(typ, instance, v)).body) == Ok(Back(typ, v))
  {
    DeclaredIsReal(v.containers);
    PcoFirst(v.ext, v.protocol);
    var ie := ToElement(typ, instance, v);
    PcoPayload(ie);
    PcoMatchingInSync(ie);
  }

  lemma FqCsidReturn(typ: byte, instance: byte, v: Core)
    requires Typed(typ, v) && v.FqCsidCore?
    ensures InSync(ToElement(typ, instance, v))
    ensures FromElement(typ, Reloaded(ToElement(typ, instance, v)).body) == Ok(Back(typ, v))
  {
    FirstSplits(NodeKind(v.node), |v.csids|);
    FqCsidInSync(ToElement(typ, instance, v));
  }

  lemma FirstSplits(kind: nat, n: nat)
    requires n <= 15
    ensures (kind * 16 + n) / 16 == kind && (kind * 16 + n) % 16 == n
  {}

  // ----- user location information -----

  /** The parts that are present are read back from their octets, and zeros for the others. */
  lemma {:induction false} ReadJoined(present: seq<bool>, parts: seq<seq<byte>>, sizes: seq<nat>)
    requires |present| == |parts| == |sizes| && forall k :: 0 <= k < |parts| ==> |parts[k]| == sizes[k]
    ensures |JoinPresent(present, parts)| == PresentSize(present, sizes)
    ensures ReadPresent(JoinPresent(present, parts), present, sizes) == KeptPresent(present, parts)
    decreases |parts|
  {
    if present != [] {
      ReadJoined(present[1..], parts[1..], sizes[1..]);
      SplitAt(If(present[0], parts[0]), JoinPresent(present[1..], parts[1..]));
      assert KeptPresent(present, parts) == [Kept(present[0], parts[0])] + KeptPresent(present[1..], parts[1..]);
    }
  }

  lemma SplitAt(a: seq<byte>, b: seq<byte>)
    ensures (a + b)[..|a|] == a && (a + b)[|a|..] == b
  {}

  lemma LocationParsed(l: Location)
    requires l.extId < 0x20_0000
    ensures
      var o := [l.flags] + JoinPresent(LocationFlags(l.flags), LocationFields(l));
      |o| == 1 + LocationSize(l.flags) && o[0] == l.flags && ParseLocation(o) == LocationBack(l)
  {
    ReadJoined(LocationFlags(l.flags), LocationFields(l), LOCATION_SIZES);
    var o := [l.flags] + JoinPresent(LocationFlags(l.flags), LocationFields(l));
    assert o[1..] == JoinPresent(LocationFlags(l.flags), LocationFields(l));
  }

  /** Another size for one part matters if and only if the part is present. */
  lemma {:induction false} PresentUpdated(present: seq<bool>, sizes: seq<nat>, k: nat, n: nat)
    requires |present| == |sizes| && k < |sizes|
    ensures PresentSize(present, sizes[k := n]) + Bit(present[k], sizes[k]) == PresentSize(present, sizes) + Bit(present[k], n)
    decreases |sizes|
  {
    if k == 0 {
      assert sizes[0 := n][1..] == sizes[1..];
    } else {
      assert sizes[k := n][1..] == sizes[1..][k - 1 := n];
      PresentUpdated(present[1..], sizes[1..], k - 1, n);
    }
  }

  lemma UliMade(v: Core)
    requires Typed(USER_LOCATION_INFORMATION, v)
    ensures v.UliCore?
    ensures
      var l := v.location;
      Make(USER_LOCATION_INFORMATION, v)
      == (LocationLength(l.flags), Raw([l.flags] + JoinPresent(LocationFlags(l.flags), LocationFields(l))))
  {}

  /** The element of a location is read whole, whatever length it announces. */
  lemma UliRead(v: Core)
    requires Typed(USER_LOCATION_INFORMATION, v)
    ensures v.UliCore?
    ensures
      var (length, body) := Make(USER_LOCATION_INFORMATION, v);
      && length == LocationLength(v.location.flags) && body.Raw? && body.octets != []
      && |body.octets| == 1 + LocationSize(v.location.flags) && body.octets[0] == v.location.flags
      && FromRaw(USER_LOCATION_INFORMATION, body.octets) == Ok(UliCore(LocationBack(v.location)))
  {
    UliMade(v);
    LocationFromRaw(v.location);
  }

  lemma LocationFromRaw(l: Location)
    requires l.extId < 0x20_0000
    ensures
      var o := [l.flags] + JoinPresent(LocationFlags(l.flags), LocationFields(l));
      && |o| == 1 + LocationSize(l.flags) && o[0] == l.flags
      && FromRaw(USER_LOCATION_INFORMATION, o) == Ok(UliCore(LocationBack(l)))
  {
    LocationParsed(l);
    LocationIsTaken([l.flags] + JoinPresent(LocationFlags(l.flags), LocationFields(l)));
  }

  lemma LocationIsTaken(o: seq<byte>)
    ensures FromRaw(USER_LOCATION_INFORMATION, o) == FromLocation(o)
  {}

  lemma UliReturn(typ: byte, instance: byte, v: Core)
    requires Typed(typ, v) && v.UliCore?
    ensures InSync(ToElement(typ, instance, v))
    ensures FromElement(typ, Reloaded(ToElement(typ, instance, v)).body) == Ok(Back(typ, v))
  {
    UliRead(v);
    var octets := Make(typ, v).1.octets;
    LocationReadSize(LocationLength(v.location.flags), octets[0]);
    UliBackIs(v);
    RawReturn(typ, instance, v);
  }

  lemma LocationReadSize(length: u16, first: byte)
    requires length > 0
    ensures ReadSize(USER_LOCATION_INFORMATION, length, first) == Ok(1 + LocationSize(first))
  {}

  lemma UliBackIs(v: Core)
    requires Typed(USER_LOCATION_INFORMATION, v) && v.UliCore?
    ensures Back(USER_LOCATION_INFORMATION, v) == UliCore(LocationBack(v.location))
  {}

  lemma LocationLengthIs(f: byte)
    ensures LocationLength(f) == 1 + LocationSize(f) <==> !HasRai(f) && (HasLai(f) <==> HasMacro(f))
  {
    var p, s1 := LocationFlags(f), LOCATION_SIZES;
    var s2 := s1[1 := 6];
    var s3 := s2[2 := 4];
    PresentUpdated(p, s1, 1, 6);
    PresentUpdated(p, s2, 2, 4);
    PresentUpdated(p, s3, 5, 5);
    assert s3[5 := 5] == LOCATION_LENGTHS;
  }

  /** What the two eNodeB ids are reloaded as. */
  lemma LocationBackExt(l: Location)
    requires l.extId < 0x20_0000
    ensures
      var b := LocationBack(l);
      && (HasExt(l.flags) ==> b.extPlmn == l.extPlmn && b.smenb == l.smenb && b.extId == l.extId % 0x10_0000)
      && (!HasExt(l.flags) ==> b.extPlmn == Zeros(3) && !b.smenb && b.extId == 0)
  {
    BackExtIs(l);
    if HasExt(l.flags) {
      ExtOctetsRead(l);
    } else {
      var z := Zeros(6);
      assert z[..3] == Zeros(3) && OctetsU16(z[4..]) == 0;
    }
  }

  lemma BackExtIs(l: Location)
    requires l.extId < 0x20_0000
    ensures
      var b := LocationBack(l);
      var ext := Kept(HasExt(l.flags), ExtOctets(l));
      && b.extPlmn == ext[..3] && b.smenb == (ext[3] / 0x80 == 1)
      && b.extId == ext[3] % 16 * 0x1_0000 + OctetsU16(ext[4..])
  {}

  lemma ExtOctetsRead(l: Location)
    requires l.extId < 0x20_0000
    ensures
      var ext := ExtOctets(l);
      && ext[..3] == l.extPlmn && (ext[3] / 0x80 == 1 <==> l.smenb)
      && ext[3] % 16 * 0x1_0000 + OctetsU16(ext[4..]) == l.extId % 0x10_0000
  {
    var ext := ExtOctets(l);
    var high := l.extId / 0x1_0000 % 16;
    assert ext[..3] == l.extPlmn && ext[3] == Bit(l.smenb, 0x80) + high && ext[4..] == U16Octets(l.extId % 0x1_0000);
    U16RoundTrip(l.extId % 0x1_0000);
    SmenbOctet(l.smenb, high);
    ExtIdSplits(l.extId);
  }

  lemma LocationBackMacro(l: Location)
    requires l.extId < 0x20_0000 && l.macroId < 0x10_0000
    ensures
      var b := LocationBack(l);
      && (HasMacro(l.flags) ==> b.macroPlmn == l.macroPlmn && b.macroId == l.macroId % 0x1_0000)
      && (!HasMacro(l.flags) ==> b.macroPlmn == Zeros(3) && b.macroId == 0)
  {
    var macro := MacroOctets(l);
    assert macro[..3] == l.macroPlmn && macro[3..] == U16Octets(l.macroId % 0x1_0000);
    U16RoundTrip(l.macroId % 0x1_0000);
    var z := Zeros(5);
    assert z[..3] == Zeros(3) && OctetsU16(z[3..]) == 0;
  }

  lemma SmenbOctet(smenb: bool, high: nat)
    requires high < 16
    ensures ((Bit(smenb, 0x80) + high) / 0x80 == 1 <==> smenb) && (Bit(smenb, 0x80) + high) % 16 == high
  {}

  lemma ExtIdSplits(n: nat)
    requires n < 0x20_0000
    ensures n / 0x1_0000 % 16 * 0x1_0000 + n % 0x1_0000 == n % 0x10_0000
  {}

  lemma KeptSame(b: bool, s: seq<byte>)
    ensures Kept(b, s) == s <==> b || AllZero(s)
  {}

  lemma ExtSame(l: Location)
    requires l.extId < 0x20_0000 && l.macroId < 0x10_0000
    ensures
      var b := LocationBack(l);
      b.extPlmn == l.extPlmn && b.smenb == l.smenb && b.extId == l.extId <==>
        if HasExt(l.flags) then l.extId < 0x10_0000 else AllZero(l.extPlmn) && !l.smenb && l.extId == 0
  {
    LocationBackExt(l);
    KeptSame(false, l.extPlmn);
  }

  lemma MacroSame(l: Location)
    requires l.extId < 0x20_0000 && l.macroId < 0x10_0000
    ensures
      var b := LocationBack(l);
      b.macroPlmn == l.macroPlmn && b.macroId == l.macroId <==>
        if HasMacro(l.flags) then l.macroId < 0x1_0000 else AllZero(l.macroPlmn) && l.macroId == 0
  {
    LocationBackMacro(l);
    KeptSame(false, l.macroPlmn);
  }

  lemma EcgiSame(b: bool, ecgi: Octets7)
    ensures Kept(b, EcgiMade(ecgi)) == ecgi <==> if b then ecgi[3] < 16 else AllZero(ecgi)
  {
    assert EcgiMade(ecgi)[3] == ecgi[3] % 16;
    assert ecgi[3 := ecgi[3]] == ecgi;
    KeptSame(false, ecgi);
  }

  lemma LocationBackSame(l: Location)
    requires l.extId < 0x20_0000 && l.macroId < 0x10_0000
    ensures LocationBack(l) == l <==> LocationNormal(l)
  {
    var f := l.flags;
    ExtSame(l);
    MacroSame(l);
    EcgiSame(HasEcgi(f), l.ecgi);
    var fields := KeptPresent(LocationFlags(f), LocationFields(l));
    KeptSame(HasLai(f), l.lai);
    KeptSame(HasTai(f), l.tai);
    KeptSame(HasRai(f), l.rai);
    KeptSame(HasSai(f), l.sai);
    KeptSame(HasCgi(f), l.cgi);
  }

  // ----- every type -----

  /** A value that is sent comes back as `Back` says, whatever the instance. */
  lemma ValueReturns(typ: byte, instance: byte, v: Core)
    requires Typed(typ, v) && Sendable(v) && !MadeEmpty(v)
    ensures InSync(ToElement(typ, instance, v))
    ensures FromElement(typ, Reloaded(ToElement(typ, instance, v)).body) == Ok(Back(typ, v))
  {
    match v
    case DigitsCore(_, _) => DigitsReturn(typ, instance, v);
    case AmbrCore(_, _) => AmbrReturn(typ, instance, v);
    case PcoCore(_, _, _) => PcoReturn(typ, instance, v);
    case PaaCore(_, _, _, _) => PaaReturn(typ, instance, v);
    case QosCore(_, _, _, _, _, _, _, _) => QosReturn(typ, instance, v);
    case UliCore(_) => UliReturn(typ, instance, v);
    case FteidCore(_, _, _, _, _, _) => FteidReturn(typ, instance, v);
    case FqCsidCore(_, _) => FqCsidReturn(typ, instance, v);
    case IndicationCore(_) => IndicationReturn(typ, instance, v);
    case OctetCore(_) => OctetReturn(typ, instance, v);
    case _ => SimpleReturn(typ, instance, v);
  }

  lemma PaaBackSame(v: Core)
    requires v.PaaCore? && PaaSize(v.pdnType % 8).Some?
    ensures PaaBack(v) == v <==> PaaNormal(v)
  {
    KeptSame(false, v.v6);
    KeptSame(false, v.v4);
  }

  /** It comes back as it was if and only if it is normal. */
  lemma ReturnsUnchanged(typ: byte, v: Core)
    requires Typed(typ, v) && !MadeEmpty(v)
    ensures Back(typ, v) == v <==> Normal(typ, v)
  {
    match v
    case DigitsCore(buffer, count) => DigitsBackSame(typ, buffer, count);
    case UliCore(l) => LocationBackSame(l);
    case PaaCore(_, _, _, _) => PaaBackSame(v);
    case FteidCore(hasV4, hasV6, _, _, ipv4, ipv6) => KeptSame(hasV4, ipv4); KeptSame(hasV6, ipv6);
    case IndicationCore(flags) =>
      assert flags[6 := flags[6]] == flags && flags[6 := flags[6] % 32][6] == flags[6] % 32;
    case FqCsidCore(node, _) => if node.Exotic? { ExoticRoundTrip(node.mcc, node.mnc, node.id); }
    case _ =>
  }

  // ----- lengths -----

  /** The dump method does not change the length or the instance the constructor set. */
  lemma MadeTlvStays(typ: byte, instance: byte, v: Core)
    requires Typed(typ, v)
    ensures AfterDump(ToElement(typ, instance, v)).tlv == ToElement(typ, instance, v).tlv
    ensures Sendable(v) ==> (MadeEmpty(v) <==> ToElement(typ, instance, v).tlv.length == 0)
  {
    if v.DigitsCore? { DigitsAfterDump(typ, instance, v); }
  }

  lemma RawLengthOk(ie: Ie)
    requires ie.body.Raw? && AfterDump(ie).tlv == ie.tlv
    ensures LengthOk(ie) <==> ie.tlv.length == |ie.body.octets|
  {}

  lemma RawMadeLength(typ: byte, instance: byte, v: Core)
    requires Typed(typ, v) && Sendable(v) && Make(typ, v).1.Raw? && !v.UliCore?
    ensures LengthOk(ToElement(typ, instance, v))
  {
    MadeTlvStays(typ, instance, v);
    RawLengthOk(ToElement(typ, instance, v));
    match v
    case PaaCore(_, _, _, _) => PaaOctets(v);
    case QosCore(_, _, _, _, _, _, _, _) => QosOctets(v);
    case FteidCore(_, _, _, _, _, _) => FteidOctets(v);
    case _ =>
  }

  lemma UliMadeLength(typ: byte, instance: byte, v: Core)
    requires Typed(typ, v) && v.UliCore?
    ensures LengthOk(ToElement(typ, instance, v)) <==>
              !HasRai(v.location.flags) && (HasLai(v.location.flags) <==> HasMacro(v.location.flags))
  {
    MadeTlvStays(typ, instance, v);
    RawLengthOk(ToElement(typ, instance, v));
    UliRead(v);
    LocationLengthIs(v.location.flags);
  }

  /** The length of an element made from a value is that of its payload, except for user location
      information: there, if and only if the RAI is absent and the LAI and the macro eNodeB id are
      both present or both absent. */
  lemma MadeLength(typ: byte, instance: byte, v: Core)
    requires Typed(typ, v) && Sendable(v)
    ensures
      LengthOk(ToElement(typ, instance, v)) <==>
        (v.UliCore? ==> !HasRai(v.location.flags) && (HasLai(v.location.flags) <==> HasMacro(v.location.flags)))
  {
    match v
    case UliCore(_) => UliMadeLength(typ, instance, v);
    case DigitsCore(_, _) => DigitsMadeLength(typ, instance, v);
    case PcoCore(_, _, cs) => PcoMadeLength(typ, instance, v);
    case FqCsidCore(_, _) => FqCsidMadeLength(typ, instance, v);
    case _ => RawMadeLength(typ, instance, v);
  }

  lemma DigitsMadeLength(typ: byte, instance: byte, v: Core)
    requires Typed(typ, v) && v.DigitsCore?
    ensures LengthOk(ToElement(typ, instance, v))
  {
    DigitsAfterDump(typ, instance, v);
    DigitsPayload(ToElement(typ, instance, v));
  }

  lemma PcoMadeLength(typ: byte, instance: byte, v: Core)
    requires Typed(typ, v) && v.PcoCore? && Sendable(v)
    ensures LengthOk(ToElement(typ, instance, v))
  {
    DeclaredIsReal(v.containers);
    PcoPayload(ToElement(typ, instance, v));
  }

  lemma FqCsidMadeLength(typ: byte, instance: byte, v: Core)
    requires Typed(typ, v) && v.FqCsidCore?
    ensures LengthOk(ToElement(typ, instance, v))
  {}
}
