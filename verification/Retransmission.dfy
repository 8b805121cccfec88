/** Dumping a message again. A stack keeps the message it sent, with the same element objects, and
    dumps it once more for every retransmission; the dump methods change the objects. */
module Retransmission {
  import opened Octets
  import opened Elements
  import opened Messages
  import opened MessageTheorems

  /** Exchanging the octets of the CSIDs changes nothing, here and in nested elements. */
  predicate SameSwapped(ie: Ie)
    decreases ie, 1
  {
    match ie.body
    case FqCsid(_, _, csids) => SwappedAll(csids) == csids
    case Group(ies) => AllSameSwapped(ies)
    case _ => true
  }

  predicate AllSameSwapped(ies: seq<Ie>)
    decreases ies
  {
    ies == [] || (SameSwapped(ies[0]) && AllSameSwapped(ies[1..]))
  }

  lemma {:induction false} CsidOctetsDiffer(xs: seq<u16>, ys: seq<u16>)
    requires |xs| == |ys|
    ensures CsidOctets(xs) == CsidOctets(ys) <==> xs == ys
    decreases |xs|
  {
    if xs != [] {
      CsidOctetsDiffer(xs[1..], ys[1..]);
      var a, b := CsidOctets(xs), CsidOctets(ys);
      assert a[..2] == U16Octets(xs[0]) && a[2..] == CsidOctets(xs[1..]);
      assert b[..2] == U16Octets(ys[0]) && b[2..] == CsidOctets(ys[1..]);
      U16RoundTrip(xs[0]);
      U16RoundTrip(ys[0]);
      assert xs == [xs[0]] + xs[1..] && ys == [ys[0]] + ys[1..];
    }
  }

  lemma SwappedTwice(xs: seq<u16>)
    ensures SwappedAll(SwappedAll(xs)) == xs
  {
    forall i | 0 <= i < |xs|
      ensures SwappedAll(SwappedAll(xs))[i] == xs[i]
    {
      SwapTwice(xs[i]);
    }
  }

  lemma SwapTwice(x: u16)
    ensures Swapped(Swapped(x)) == x
  {}

  /** Two messages are equal behind equal starts. */
  lemma EqualParts(a: seq<byte>, b: seq<byte>, c: seq<byte>, d: seq<byte>)
    requires |a| == |c|
    ensures a + b == c + d <==> a == c && b == d
  {
    if a + b == c + d {
      assert a == (a + b)[..|a|] && c == (c + d)[..|c|];
      assert b == (a + b)[|a|..] && d == (c + d)[|c|..];
    }
  }

  // ----- one element -----

  lemma MsisdnAfterTwoDumps(buffer: Octets8, count: nat)
    ensures var b := MsisdnAfterDump(buffer, count); b.Digits? && MsisdnAfterDump(b.buffer, b.count) == b
  {
    var b := MsisdnAfterDump(buffer, count);
    var n := MinNat(count, 15);
    if n % 2 == 1 {
      assert FillerHigh(FillerHigh(buffer[n / 2])) == FillerHigh(buffer[n / 2]);
      assert b.buffer[n / 2 := b.buffer[n / 2]] == b.buffer;
    }
  }

  /** A leaf other than a fully qualified CSID is settled after one dump. */
  lemma LeafSettles(ie: Ie)
    requires !ie.body.FqCsid? && !ie.body.Group?
    ensures AfterDump(AfterDump(ie)) == AfterDump(ie) && Dump(AfterDump(ie)) == Dump(ie)
  {
    if ie.body.Digits? { MsisdnAfterTwoDumps(ie.body.buffer, ie.body.count); }
  }

  lemma CsidDumpAgain(ie: Ie)
    requires ie.body.FqCsid?
    ensures AfterDump(AfterDump(ie)) == ie && AfterDump(ie).tlv == ie.tlv
    ensures |Dump(AfterDump(ie))| == |Dump(ie)|
    ensures Dump(AfterDump(ie)) == Dump(ie) <==> SameSwapped(ie)
  {
    var b := ie.body;
    var start := TlvOctets(ie.tlv) + ([b.first] + NodeOctets(b.node));
    assert Dump(ie) == start + CsidOctets(b.csids);
    assert Dump(AfterDump(ie)) == start + CsidOctets(SwappedAll(b.csids));
    SwappedTwice(b.csids);
    EqualParts(start, CsidOctets(SwappedAll(b.csids)), start, CsidOctets(b.csids));
    CsidOctetsDiffer(SwappedAll(b.csids), b.csids);
  }

  /** A second dump writes as many octets as the first, and the same ones if and only if exchanging
      the octets of its CSIDs changes nothing. */
  lemma {:induction false} DumpAgain(ie: Ie)
    ensures |Dump(AfterDump(ie))| == |Dump(ie)|
    ensures Dump(AfterDump(ie)) == Dump(ie) <==> SameSwapped(ie)
    decreases ie, 1
  {
    if ie.body.FqCsid? {
      CsidDumpAgain(ie);
    } else if ie.body.Group? {
      DumpAllAgain(ie.body.ies);
      assert AfterDump(ie).tlv == AfterDump(AfterDump(ie)).tlv == ie.tlv;
      EqualParts(TlvOctets(ie.tlv), DumpAll(AfterDumpAll(ie.body.ies)), TlvOctets(ie.tlv), DumpAll(ie.body.ies));
    } else {
      LeafSettles(ie);
    }
  }

  lemma {:induction false} DumpAllAgain(ies: seq<Ie>)
    ensures |DumpAll(AfterDumpAll(ies))| == |DumpAll(ies)|
    ensures DumpAll(AfterDumpAll(ies)) == DumpAll(ies) <==> AllSameSwapped(ies)
    decreases ies, 0
  {
    if ies != [] {
      DumpAgain(ies[0]);
      DumpAllAgain(ies[1..]);
      assert AfterDumpAll(ies)[1..] == AfterDumpAll(ies[1..]);
      EqualParts(Dump(AfterDump(ies[0])), DumpAll(AfterDumpAll(ies[1..])), Dump(ies[0]), DumpAll(ies[1..]));
    }
  }

  /** A third dump writes what the first wrote, and leaves what the first left. */
  lemma {:induction false} ThirdDump(ie: Ie)
    ensures Dump(AfterDump(AfterDump(ie))) == Dump(ie)
    ensures AfterDump(AfterDump(AfterDump(ie))) == AfterDump(ie)
    decreases ie, 1
  {
    if ie.body.FqCsid? {
      CsidDumpAgain(ie);
    } else if ie.body.Group? {
      ThirdDumpAll(ie.body.ies);
    } else {
      LeafSettles(ie);
    }
  }

  lemma {:induction false} ThirdDumpAll(ies: seq<Ie>)
    ensures DumpAll(AfterDumpAll(AfterDumpAll(ies))) == DumpAll(ies)
    ensures AfterDumpAll(AfterDumpAll(AfterDumpAll(ies))) == AfterDumpAll(ies)
    decreases ies, 0
  {
    if ies != [] {
      ThirdDump(ies[0]);
      ThirdDumpAll(ies[1..]);
      var once := AfterDumpAll(ies);
      assert once[1..] == AfterDumpAll(ies[1..]);
      assert AfterDumpAll(once)[1..] == AfterDumpAll(once[1..]);
    }
  }

  // ----- messages -----

  /** The header writes the same again unless it has a priority flag but no TEID: the flag goes out
      the first time and is cleared after it. */
  predicate HeaderSteady(h: Header) { HasPriority(h.first) ==> HasTeid(h.first) }

  lemma FlagsAfterDump(first: byte)
    ensures HasTeid(FirstAfter(first)) == HasTeid(first)
    ensures FirstAfter(FirstAfter(first)) == FirstAfter(first)
    ensures HasPriority(FirstAfter(first)) ==> HasTeid(first)
    ensures FirstWritten(FirstAfter(first)) == FirstWritten(first) <==> (HasPriority(first) ==> HasTeid(first))
  {}

  lemma LastAfterDump(first: byte, last: byte)
    ensures LastWritten(FirstAfter(first), LastWritten(first, last)) == LastWritten(first, last)
  {
    FlagsAfterDump(first);
  }

  lemma HeaderDumpAgain(h: Header)
    ensures |HeaderOctets(HeaderAfterDump(h))| == |HeaderOctets(h)|
    ensures HeaderOctets(HeaderAfterDump(h)) == HeaderOctets(h) <==> HeaderSteady(h)
    ensures HeaderSteady(HeaderAfterDump(h)) && HeaderAfterDump(HeaderAfterDump(h)) == HeaderAfterDump(h)
  {
    FlagsAfterDump(h.first);
    LastAfterDump(h.first, h.last);
    var tail := [h.messageType] + U16Octets(h.messageLength) + (if HasTeid(h.first) then U32Octets(h.teid) else [])
                + U24Octets(h.sequenceNumber) + [LastWritten(h.first, h.last)];
    assert HeaderOctets(h) == [FirstWritten(h.first)] + tail;
    assert HeaderOctets(HeaderAfterDump(h)) == [FirstWritten(FirstAfter(h.first))] + tail;
    EqualParts([FirstWritten(FirstAfter(h.first))], tail, [FirstWritten(h.first)], tail);
  }

  predicate Repeatable(m: Message) { HeaderSteady(m.header) && AllSameSwapped(m.ies) }

  lemma MessageDumpAgain(m: Message)
    ensures DumpMessage(MessageAfterDump(m)) == DumpMessage(m) <==> Repeatable(m)
  {
    HeaderDumpAgain(m.header);
    DumpAllAgain(m.ies);
    EqualParts(HeaderOctets(HeaderAfterDump(m.header)), DumpAll(AfterDumpAll(m.ies)), HeaderOctets(m.header), DumpAll(m.ies));
  }

  /** The message after `n` dumps. */
  function AfterDumps(m: Message, n: nat): Message
    decreases n
  {
    if n == 0 then m else AfterDumps(MessageAfterDump(m), n - 1)
  }

  /** From the second dump on, every other dump is the same. */
  lemma {:induction false} DumpsAlternate(m: Message, n: nat)
    ensures DumpMessage(AfterDumps(MessageAfterDump(m), n + 2)) == DumpMessage(AfterDumps(MessageAfterDump(m), n))
    decreases n
  {
    var once := MessageAfterDump(m);
    if n == 0 {
      HeaderDumpAgain(m.header);
      ThirdDumpAll(AfterDumpAll(m.ies));
      assert AfterDumps(once, 2) == AfterDumps(MessageAfterDump(once), 1) == MessageAfterDump(MessageAfterDump(once));
    } else {
      DumpsAlternate(once, n - 1);
    }
  }

  lemma {:induction false} RepeatableDumps(m: Message, n: nat)
    requires Repeatable(m)
    ensures DumpMessage(AfterDumps(m, n)) == DumpMessage(m)
    decreases n
  {
    if n > 0 {
      MessageDumpAgain(m);
      HeaderDumpAgain(m.header);
      StaysSameSwapped(m.ies);
      RepeatableDumps(MessageAfterDump(m), n - 1);
    }
  }

  lemma {:induction false} StaysSameSwapped(ies: seq<Ie>)
    requires AllSameSwapped(ies)
    ensures AllSameSwapped(AfterDumpAll(ies))
  {
    DumpAllAgain(ies);
    ThirdDumpAll(ies);
    DumpAllAgain(AfterDumpAll(ies));
  }

  /** All dumps of a message write the same octets if and only if its header is steady and no CSID
      in it changes when its two octets are exchanged. */
  lemma ByteIdenticalDumps(m: Message)
    ensures (forall n: nat :: DumpMessage(AfterDumps(m, n)) == DumpMessage(m)) <==> Repeatable(m)
  {
    MessageDumpAgain(m);
    if Repeatable(m) {
      forall n: nat
        ensures DumpMessage(AfterDumps(m, n)) == DumpMessage(m)
      {
        RepeatableDumps(m, n);
      }
    } else {
      assert AfterDumps(m, 1) == MessageAfterDump(m);
    }
  }

  lemma {:induction false} BuildKeepsFlags(m: Message, steps: seq<BuildStep>)
    requires m.header.first == 0x40 || m.header.first == 0x48
    ensures Build(m, steps).header.first == 0x40 || Build(m, steps).header.first == 0x48
    decreases |steps|
  {
    if steps != [] {
      match steps[0] {
        case Teid(t) => BuildKeepsFlags(m.(header := SetTeid(m.header, t)), steps[1..]);
        case Number(n) => BuildKeepsFlags(m.(header := SetSequenceNumber(m.header, n)), steps[1..]);
        case Add(ie) => BuildKeepsFlags(AddIe(m, ie), steps[1..]);
      }
    }
  }

  /** However a stack puts a request together, every retransmission repeats the first one octet by
      octet if and only if the request holds no CSID with two different octets. */
  lemma RetransmissionsIdentical(messageType: byte, steps: seq<BuildStep>)
    ensures
      var m := Build(Message(NewHeader(messageType), []), steps);
      (forall n: nat :: DumpMessage(AfterDumps(m, n)) == DumpMessage(m)) <==> AllSameSwapped(m.ies)
  {
    BuildKeepsFlags(Message(NewHeader(messageType), []), steps);
    ByteIdenticalDumps(Build(Message(NewHeader(messageType), []), steps));
  }
}
