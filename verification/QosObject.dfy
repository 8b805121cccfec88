/** The bearer QoS element as an object with four arrays of five octets, filled and read by loops. */
module QosObject {
  import opened Octets
  import opened ElementLoading
  import opened CoreTypes
  import opened CoreRoundTrip

  /** A rate after `k` shifts by eight bits. */
  function Shifted(n: nat, k: nat): nat { if k == 0 then n else Shifted(n, k - 1) / 0x100 }

  lemma FourShifts(n: nat)
    requires n < RATE_MODULUS
    ensures Shifted(n, 1) == n / 0x100 && Shifted(n, 2) == n / 0x1_0000
    ensures Shifted(n, 3) == n / 0x100_0000 && Shifted(n, 4) == n / 0x1_0000_0000 < 0x100
  {
    assert Shifted(n, 1) == Shifted(n, 0) / 0x100;
    assert Shifted(n, 2) == Shifted(n, 1) / 0x100;
    assert Shifted(n, 3) == Shifted(n, 2) / 0x100;
  }

  /** Octet `j` of a rate is what is left after the shifts for the octets behind it, cut to eight bits. */
  lemma RateOctetsAreShifts(n: u64)
    ensures
      var m := n % RATE_MODULUS;
      RateOctets(n) == [Shifted(m, 4) % 0x100, Shifted(m, 3) % 0x100, Shifted(m, 2) % 0x100, Shifted(m, 1) % 0x100, m % 0x100]
  {
    var m := n % RATE_MODULUS;
    FourShifts(m);
    var low := n % 0x1_0000_0000;
    HighAndLow(n);
    WordOctets(m);
    assert U32Octets(low) == [low / 0x1_0000 / 0x100, low / 0x1_0000 % 0x100, low % 0x1_0000 / 0x100, low % 0x1_0000 % 0x100];
  }

  lemma HighAndLow(n: nat)
    ensures n % RATE_MODULUS % 0x1_0000_0000 == n % 0x1_0000_0000
    ensures n % RATE_MODULUS / 0x1_0000_0000 == n / 0x1_0000_0000 % 0x100
  {}

  lemma WordOctets(m: nat)
    ensures
      var low := m % 0x1_0000_0000;
      && low / 0x1_0000 / 0x100 == m / 0x100_0000 % 0x100 && low / 0x1_0000 % 0x100 == m / 0x1_0000 % 0x100
      && low % 0x1_0000 / 0x100 == m / 0x100 % 0x100 && low % 0x1_0000 % 0x100 == m % 0x100
  {
    var m1 := m / 0x100;
    var m2 := m1 / 0x100;
    var m3 := m2 / 0x100;
    var b0, b1, b2 := m % 0x100, m1 % 0x100, m2 % 0x100;
    SplitOff(m2, b1 * 0x100 + b0, 0x1_0000);
    SplitOff(m3, (b2 * 0x100 + b1) * 0x100 + b0, 0x100_0000);
    FromDigits(b0, b1, b2, m3 % 0x100, m3 / 0x100);
  }

  lemma FromDigits(b0: nat, b1: nat, b2: nat, b3: nat, q: nat)
    requires b0 < 0x100 && b1 < 0x100 && b2 < 0x100 && b3 < 0x100
    ensures
      var m := ((((q * 0x100 + b3) * 0x100) + b2) * 0x100 + b1) * 0x100 + b0;
      var low := m % 0x1_0000_0000;
      && low == ((b3 * 0x100 + b2) * 0x100 + b1) * 0x100 + b0
      && low / 0x1_0000 / 0x100 == b3 && low / 0x1_0000 % 0x100 == b2
      && low % 0x1_0000 / 0x100 == b1 && low % 0x1_0000 % 0x100 == b0
  {
    var high, l := b3 * 0x100 + b2, b1 * 0x100 + b0;
    var low := high * 0x1_0000 + l;
    assert ((((q * 0x100 + b3) * 0x100) + b2) * 0x100 + b1) * 0x100 + b0 == q * 0x1_0000_0000 + low;
    SplitOff(q, low, 0x1_0000_0000);
    SplitOff(high, l, 0x1_0000);
    SplitOff(b3, b2, 0x100);
    SplitOff(b1, b0, 0x100);
  }

  lemma SplitOff(q: nat, r: nat, base: nat)
    requires r < base
    ensures (q * base + r) / base == q && (q * base + r) % base == r
  {
    assert (q * base + r) / base * base + (q * base + r) % base == q * base + r;
    var d := (q * base + r) / base - q;
    assert d * base == r - (q * base + r) % base;
    if d >= 1 { assert d * base >= base; }
    if d <= -1 { assert d * base <= -base; }
  }

  /** Octets as digits of a number, the most significant first. */
  function Number(s: seq<byte>): nat {
    if s == [] then 0 else Number(s[..|s| - 1]) * 0x100 + s[|s| - 1]
  }

  lemma NumberOfFive(s: seq<byte>)
    requires |s| == 5
    ensures Number(s) == OctetsRate(s)
  {
    assert s[..4][..3] == s[..3] && s[..3][..2] == s[..2] && s[..2][..1] == s[..1] && s[..1][..0] == [];
    assert Number(s[..1]) == s[0] as nat;
    assert Number(s[..2]) == Number(s[..1]) * 0x100 + s[1];
    assert Number(s[..3]) == Number(s[..2]) * 0x100 + s[2];
    assert Number(s[..4]) == Number(s[..3]) * 0x100 + s[3];
    assert s[1..][..2] == [s[1], s[2]] && s[1..][2..] == [s[3], s[4]];
  }

  /** Fills an array from its end, shifting the rate. */
  method PackRate(a: array<byte>, rate: u64)
    requires a.Length == 5
    modifies a
    ensures a[..] == RateOctets(rate)
  {
    var left := rate % RATE_MODULUS;
    ghost var m := left;
    var i := 4;
    while i >= 0
      invariant -1 <= i <= 4 && left == Shifted(m, 4 - i)
      invariant forall j :: i < j < 5 ==> a[j] == Shifted(m, 4 - j) % 0x100
    {
      a[i] := left % 0x100;
      left := left / 0x100;
      i := i - 1;
    }
    RateOctetsAreShifts(rate);
    assert a[..] == [a[0], a[1], a[2], a[3], a[4]];
  }

  /** Reads an array from its start, shifting what was read. */
  method UnpackRate(a: array<byte>) returns (rate: u64)
    requires a.Length == 5
    ensures rate == OctetsRate(a[..])
  {
    var n: nat := 0;
    for i := 0 to 5
      invariant n == Number(a[..i])
    {
      assert a[..i + 1][..i] == a[..i];
      n := n * 0x100 + a[i];
    }
    assert a[..5] == a[..];
    NumberOfFive(a[..]);
    rate := n;
  }

  class BearerQosIe {
    var first: byte
    var labelQci: byte
    const maximumUplink: array<byte>
    const maximumDownlink: array<byte>
    const guaranteedUplink: array<byte>
    const guaranteedDownlink: array<byte>

    predicate Valid()
      reads this
    {
      && maximumUplink.Length == 5 && maximumDownlink.Length == 5
      && guaranteedUplink.Length == 5 && guaranteedDownlink.Length == 5
    }

    /** What the object writes behind its type, length and instance. */
    function Octets(): seq<byte>
      requires Valid()
      reads this, maximumUplink, maximumDownlink, guaranteedUplink, guaranteedDownlink
    {
      [first, labelQci] + maximumUplink[..] + maximumDownlink[..] + guaranteedUplink[..] + guaranteedDownlink[..]
    }

    constructor (v: Core)
      requires v.QosCore? && v.pl < 16
      ensures Valid() && Octets() == Join(QosParts(v))
    {
      first := Bit(v.pci, 0x40) + v.pl * 4 + Bit(v.pvi, 1);
      labelQci := v.qci;
      maximumUplink := new byte[5];
      maximumDownlink := new byte[5];
      guaranteedUplink := new byte[5];
      guaranteedDownlink := new byte[5];
      new;
      PackRate(maximumUplink, v.maxUplink);
      PackRate(maximumDownlink, v.maxDownlink);
      PackRate(guaranteedUplink, v.guaranteedUplink);
      PackRate(guaranteedDownlink, v.guaranteedDownlink);
      QosOctets(v);
      ghost var o := Octets();
      assert o[2..7] == maximumUplink[..] && o[7..12] == maximumDownlink[..];
      assert o[12..17] == guaranteedUplink[..] && o[17..22] == guaranteedDownlink[..];
      SixParts(o, Join(QosParts(v)));
    }

    method ToCore() returns (v: Core)
      requires Valid()
      ensures |Octets()| == 22 && v == ParseQos(Octets())
    {
      var a := UnpackRate(maximumUplink);
      var b := UnpackRate(maximumDownlink);
      var c := UnpackRate(guaranteedUplink);
      var d := UnpackRate(guaranteedDownlink);
      v := QosCore(first / 0x40 % 2 == 1, first / 4 % 16, first % 2 == 1, labelQci, a, b, c, d);
      ghost var o := Octets();
      assert o[2..7] == maximumUplink[..] && o[7..12] == maximumDownlink[..];
      assert o[12..17] == guaranteedUplink[..] && o[17..22] == guaranteedDownlink[..];
    }
  }

  /** Equal octets, part by part. */
  lemma SixParts(o: seq<byte>, p: seq<byte>)
    requires |o| == 22 && |p| == 22 && o[0] == p[0] && o[1] == p[1]
    requires o[2..7] == p[2..7] && o[7..12] == p[7..12] && o[12..17] == p[12..17] && o[17..22] == p[17..22]
    ensures o == p
  {
    assert o == [o[0], o[1]] + o[2..7] + o[7..12] + o[12..17] + o[17..22];
    assert p == [p[0], p[1]] + p[2..7] + p[7..12] + p[12..17] + p[17..22];
  }
}
