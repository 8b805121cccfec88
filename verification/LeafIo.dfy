/** Reading the elements that are not grouped from a stream, field by field as the loaders of the
    original do. */
module LeafIo {
  import opened Prelude
  import opened Octets
  import opened Elements
  import opened ElementLoading
  import opened Streams

  /** What a loader leaves of the stream. */
  ghost predicate DoneAs(spec: Result<Leaf, Error>, s: seq<byte>, r: Result<Body, Error>, rest: seq<byte>)
    requires spec.Ok? ==> spec.value.used <= |s|
  {
    match spec
    case Err(e) => r == Err(e)
    case Ok(leaf) => r == Ok(leaf.body) && rest == s[leaf.used..]
  }

  /** An IMSI, MEI or MSISDN: the octets, and the number of digits with the filler taken off. */
  method LoadDigitsBody(tlv: Tlv, input: InStream) returns (r: Result<Body, Error>)
    requires input.Valid() && tlv.length > 0
    modifies input
    ensures input.Valid() && DoneAs(LoadDigits(tlv, old(input.Rest())), old(input.Rest()), r, input.Rest())
  {
    if tlv.length > 8 {
      return Err(TooLong);
    }
    var o := input.Read(tlv.length);
    if o.None? {
      return Err(Truncated);
    }
    var buffer := o.value + Zeros(8 - tlv.length);
    var count := tlv.length * 2;
    if buffer[tlv.length - 1] / 16 == 15 {
      count := count - 1;
    }
    if tlv.typ != MSISDN && count > 15 {
      count := 15;
    }
    r := Ok(Digits(buffer, count));
  }

  /** A cause: two octets, and with a length of 6 the offending element. */
  method LoadCauseBody(tlv: Tlv, input: InStream) returns (r: Result<Body, Error>)
    requires input.Valid()
    modifies input
    ensures input.Valid() && DoneAs(LoadCause(tlv, old(input.Rest())), old(input.Rest()), r, input.Rest())
  {
    ghost var s := input.Rest();
    var head := input.Read(2);
    if head.None? {
      return Err(Truncated);
    }
    assert head.value == s[..2];
    var value, flags := head.value[0], head.value[1];
    if tlv.length != 6 {
      return Ok(Cause(value, flags, 0, 0, 0));
    }
    var offending := input.Read(4);
    if offending.None? {
      return Err(Truncated);
    }
    assert offending.value == s[2..][..4] == s[2..6];
    assert offending.value[1..3] == s[3..5] && s[2..][4..] == s[6..];
    r := Ok(Cause(value, flags, offending.value[0], OctetsU16(offending.value[1..3]), offending.value[3]));
  }

  method LoadIpAddressBody(tlv: Tlv, input: InStream) returns (r: Result<Body, Error>)
    requires input.Valid()
    modifies input
    ensures input.Valid() && DoneAs(LoadIpAddress(tlv, old(input.Rest())), old(input.Rest()), r, input.Rest())
  {
    if tlv.length != 4 && tlv.length != 16 {
      return Err(BadLength);
    }
    var o := input.Read(tlv.length);
    if o.None? {
      return Err(Truncated);
    }
    assert o.value + Zeros(0) == o.value;
    r := Ok(IpAddress(true, o.value + Zeros(16 - tlv.length)));
  }

  /** An element that is its octets: the first one says how many there are. */
  method LoadRawBody(tlv: Tlv, input: InStream) returns (r: Result<Body, Error>)
    requires input.Valid() && IsRaw(tlv.typ) && tlv.length > 0
    modifies input
    ensures input.Valid() && DoneAs(LoadRaw(tlv, old(input.Rest())), old(input.Rest()), r, input.Rest())
  {
    ghost var s := input.Rest();
    var first := input.Read(1);
    if first.None? {
      return Err(Truncated);
    }
    assert first.value == s[..1] && first.value[0] == s[0];
    var size := ReadSize(tlv.typ, tlv.length, first.value[0]);
    if size.Err? {
      return Err(size.error);
    }
    var n := size.value;
    ReadsOne(tlv.typ, tlv.length, first.value[0]);
    var others := input.Read(n - 1);
    if others.None? {
      return Err(Truncated);
    }
    FirstAndOthers(s, n);
    r := Ok(Raw(first.value + others.value));
  }

  lemma FirstAndOthers(s: seq<byte>, n: nat)
    requires 1 <= n <= |s|
    ensures s[..1] + s[1..][..n - 1] == s[..n] && s[1..][n - 1..] == s[n..]
  {}

  lemma ReadsOne(typ: byte, length: u16, first: byte)
    requires IsRaw(typ) && length > 0 && ReadSize(typ, length, first).Ok?
    ensures ReadSize(typ, length, first).value >= 1
  {}

  /** The node of a fully qualified CSID. */
  method LoadNodeFrom(kind: nat, input: InStream) returns (r: Result<Node, Error>)
    requires input.Valid() && kind <= 2
    modifies input
    ensures input.Valid()
    ensures
      match LoadNode(kind, old(input.Rest()))
      case Err(e) => r == Err(e)
      case Ok((node, size)) => r == Ok(node) && input.pos == old(input.pos) + size
  {
    var o := input.Read(if kind == 1 then 16 else 4);
    if o.None? {
      return Err(Truncated);
    }
    r := Ok(if kind == 0 then Ipv4Node(o.value) else if kind == 1 then Ipv6Node(o.value) else UnpackExotic(OctetsU32(o.value)));
  }

  /** The loop over `n` CSIDs. */
  method LoadCsids(n: nat, input: InStream) returns (r: Result<seq<u16>, Error>)
    requires input.Valid()
    modifies input
    ensures input.Valid()
    ensures
      var s := old(input.Rest());
      if |s| < 2 * n then r == Err(Truncated)
      else r == Ok(OctetsCsids(s[..2 * n], n)) && input.pos == old(input.pos) + 2 * n
  {
    ghost var s := input.Rest();
    var csids: seq<u16> := [];
    var i := 0;
    while i < n
      invariant input.Valid() && 0 <= i <= n && 2 * i <= |s|
      invariant input.pos == old(input.pos) + 2 * i
      invariant csids == OctetsCsids(s[..2 * i], i)
    {
      var o := input.Read(2);
      if o.None? {
        return Err(Truncated);
      }
      assert s[..2 * i] + o.value == s[..2 * (i + 1)];
      CsidsSnoc(s[..2 * i], o.value, i);
      csids := csids + [OctetsU16(o.value)];
      i := i + 1;
    }
    r := Ok(csids);
  }

  lemma {:induction false} CsidsSnoc(s: seq<byte>, o: seq<byte>, n: nat)
    requires |s| == 2 * n && |o| == 2
    ensures OctetsCsids(s + o, n + 1) == OctetsCsids(s, n) + [OctetsU16(o)]
    decreases n
  {
    if n == 0 {
      assert s + o == o && o[..2] == o && OctetsCsids(o[2..], 0) == [];
    } else {
      assert (s + o)[..2] == s[..2] && (s + o)[2..] == s[2..] + o;
      CsidsSnoc(s[2..], o, n - 1);
    }
  }

  method LoadFqCsidBody(tlv: Tlv, input: InStream) returns (r: Result<Body, Error>)
    requires input.Valid()
    modifies input
    ensures input.Valid() && DoneAs(LoadFqCsid(tlv, old(input.Rest())), old(input.Rest()), r, input.Rest())
  {
    ghost var s := input.Rest();
    var first := input.Read(1);
    if first.None? {
      return Err(Truncated);
    }
    assert first.value[0] == s[0];
    var kind, n := first.value[0] / 16, first.value[0] % 16;
    if kind > 2 {
      return Err(BadValue);
    }
    if tlv.length < (if kind == 1 then 17 else 5) + 2 * n {
      return Err(BadLength);
    }
    var node := LoadNodeFrom(kind, input);
    if node.Err? {
      return Err(node.error);
    }
    ghost var size := if kind == 1 then 16 else 4;
    assert input.Rest() == s[1 + size..];
    var csids := LoadCsids(n, input);
    if csids.Err? {
      return Err(csids.error);
    }
    assert s[1 + size..][..2 * n] == s[1 + size..1 + size + 2 * n];
    assert input.Rest() == s[1 + size + 2 * n..];
    r := Ok(FqCsid(first.value[0], node.value, csids.value));
  }
}
