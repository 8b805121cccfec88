/** GTPv2-C messages on values: the header of section 5 of 3GPP TS 29.274 and the elements behind
    it, how they are put together, dumped and loaded. */
module Messages {
  import opened Prelude
  import opened Octets
  import opened Elements
  import opened ElementLoading

  type u24 = n: int | 0 <= n < 0x100_0000

  /** The first octet holds the version, the flags P, T and MP, and two spare bits; the last one the
      message priority and four spare bits. */
  datatype Header = Header(first: byte, messageType: byte, messageLength: u16, teid: u32, sequenceNumber: u24, last: byte)

  datatype Message = Message(header: Header, ies: seq<Ie>)

  predicate HasTeid(first: byte) { first / 8 % 2 == 1 }
  predicate HasPriority(first: byte) { first / 4 % 2 == 1 }

  /** Version 2, no flags, and the length of the sequence number and the last octet. */
  function NewHeader(messageType: byte): Header {
    Header(0x40, messageType, 4, 0, 0, 0)
  }

  // ----- putting a message together -----

  function SetTeid(h: Header, teid: u32): Header {
    if HasTeid(h.first) then h.(teid := teid)
    else h.(teid := teid, first := h.first + 8, messageLength := (h.messageLength + 4) % 0x1_0000)
  }

  function SetSequenceNumber(h: Header, n: nat): Header {
    h.(sequenceNumber := n % 0x100_0000)
  }

  function AddIe(m: Message, ie: Ie): Message {
    Message(m.header.(messageLength := (m.header.messageLength + TLV_LENGTH + ie.tlv.length) % 0x1_0000), m.ies + [ie])
  }

  function AddToGroup(group: Ie, ie: Ie): Ie
    requires group.body.Group?
  {
    Ie(group.tlv.(length := (group.tlv.length + TLV_LENGTH + ie.tlv.length) % 0x1_0000), Group(group.body.ies + [ie]))
  }

  // ----- dumping -----

  /** The flags as they are written, and as they are when the rest is written. */
  function FirstWritten(first: byte): byte { first / 4 * 4 }

  function FirstAfter(first: byte): byte {
    if HasTeid(first) then first / 4 * 4 else first / 8 * 8
  }

  function LastWritten(first: byte, last: byte): byte {
    if HasPriority(FirstAfter(first)) then last / 16 * 16 else 0
  }

  function HeaderOctets(h: Header): (r: seq<byte>)
    ensures |r| == if HasTeid(h.first) then 12 else 8
  {
    [FirstWritten(h.first), h.messageType] + U16Octets(h.messageLength)
    + (if HasTeid(h.first) then U32Octets(h.teid) else [])
    + U24Octets(h.sequenceNumber) + [LastWritten(h.first, h.last)]
  }

  function HeaderAfterDump(h: Header): Header {
    h.(first := FirstAfter(h.first), last := LastWritten(h.first, h.last))
  }

  function DumpMessage(m: Message): seq<byte> {
    HeaderOctets(m.header) + DumpAll(m.ies)
  }

  function MessageAfterDump(m: Message): Message {
    Message(HeaderAfterDump(m.header), AfterDumpAll(m.ies))
  }

  // ----- loading -----

  function HeaderSize(first: byte): nat { if HasTeid(first) then 12 else 8 }

  function LoadHeader(s: seq<byte>): Result<Header, Error> {
    if s == [] || |s| < HeaderSize(s[0]) then Err(Truncated)
    else
      var n := HeaderSize(s[0]);
      Ok(Header(s[0], s[1], OctetsU16(s[2..4]), if HasTeid(s[0]) then OctetsU32(s[4..8]) else 0,
                OctetsU24(s[n - 4..n - 1]), s[n - 1]))
  }

  datatype Ies = Ies(ies: seq<Ie>, total: u16)

  /** The loop of the message: at least one element is tried, and then one more as long as the
      lengths read so far, in 16 bits, are below what the header announced. */
  function LoadIes(s: seq<byte>, sofar: u16, announced: u16): Result<Ies, Error>
    decreases |s|
  {
    match ParseIe(s)
    case NoIe => Ok(Ies([], sofar))
    case Failed(e) => Err(e)
    case Got(ie, rest) =>
      var total := (sofar + TLV_LENGTH + ie.tlv.length) % 0x1_0000;
      if total < announced then
        match LoadIes(rest, total, announced)
        case Err(e) => Err(e)
        case Ok(more) => Ok(Ies([ie] + more.ies, more.total))
      else
        Ok(Ies([ie], total))
  }

  function Announced(h: Header): u16 {
    (h.messageLength - 4 - if HasTeid(h.first) then 4 else 0) % 0x1_0000
  }

  function LoadMessage(s: seq<byte>): Result<Message, Error> {
    match LoadHeader(s)
    case Err(e) => Err(e)
    case Ok(h) =>
      match LoadIes(s[HeaderSize(h.first)..], 0, Announced(h))
      case Err(e) => Err(e)
      case Ok(r) => if r.total == Announced(h) then Ok(Message(h, r.ies)) else Err(BadMessageLength)
  }
}
