/** Where the transaction layer meets the codec: the number that a stack files a request under is
    the number its peer reads from the header of the message. */
module WireNumbers {
  import opened Prelude
  import opened MessageTypes
  import T = Transactions
  import opened SequenceNumbers
  import opened Octets
  import M = Messages
  import opened MessageTheorems

  /** What the peer reads when the next value of the counter was put into the header `h`. */
  function NumberRead(c: T.Config, es: seq<T.Event>, h: M.Header, rest: seq<byte>): Option<nat> {
    match M.LoadHeader(M.HeaderOctets(M.SetSequenceNumber(h, T.NextCounter(T.Run(Gtpv2c, c, es).s.counter))) + rest)
    case Ok(read) => Some(read.sequenceNumber)
    case Err(_) => None
  }

  /** After any calls, the peer reads the key of the pending procedure, whatever else is in the message. */
  lemma KeyIsRead(c: T.Config, es: seq<T.Event>, h: M.Header, rest: seq<byte>)
    ensures NumberRead(c, es, h, rest) == Some(NumberAfter(Gtpv2c, c, es))
  {
    var raw := T.NextCounter(T.Run(Gtpv2c, c, es).s.counter);
    HeaderRoundTrip(M.SetSequenceNumber(h, raw), rest);
  }

  /** Two requests are read under one number if and only if a multiple of 2^24 requests lies between. */
  lemma NumbersReadRepeat(c: T.Config, before: seq<T.Event>, between: seq<T.Event>,
                          h1: M.Header, rest1: seq<byte>, h2: M.Header, rest2: seq<byte>)
    ensures NumberRead(c, before, h1, rest1) == NumberRead(c, before + between, h2, rest2) <==>
              Sends(between) % T.SEQ_MODULUS == 0
  {
    KeyIsRead(c, before, h1, rest1);
    KeyIsRead(c, before + between, h2, rest2);
    NumbersRepeatAfter(Gtpv2c, c, before, between);
  }
}
