/** The sequence numbers a stack hands out: a 31-bit counter that is reset when its top bit
    comes up, cut to 24 bits, refines a counter modulo 2^24. */
module SequenceNumbers {
  import opened MessageTypes
  import opened Transactions

  predicate IsSend(e: Event) { e.SendInitial? }

  /** How many requests a list of calls sends. */
  function Sends(es: seq<Event>): nat
    decreases |es|
  {
    if es == [] then 0 else (if IsSend(es[0]) then 1 else 0) + Sends(es[1..])
  }

  /** The number that the request sent by the last of `es + [e]` carries. */
  function NumberAfter(v: Variant, c: Config, es: seq<Event>): SequenceNumber {
    NextSequenceNumber(Run(v, c, es).s)
  }

  lemma NextCounterIsModular(c: Counter, k: nat)
    ensures NextCounter((c + k) % COUNTER_MODULUS) == (c + k + 1) % COUNTER_MODULUS
  {}

  lemma CounterStep(v: Variant, c: Config, e: Event)
    ensures Next(v, c, e).s.counter == (c.s.counter + if IsSend(e) then 1 else 0) % COUNTER_MODULUS
  {}

  lemma SumModulo(a: nat, b: nat, k: nat, c: int)
    requires c == (a + b) % COUNTER_MODULUS
    ensures (c + k) % COUNTER_MODULUS == (a + (b + k)) % COUNTER_MODULUS
  {}

  /** Only sending advances the counter, and each time by one, modulo 2^31. */
  lemma {:induction false} CounterAfter(v: Variant, c: Config, es: seq<Event>)
    ensures Run(v, c, es).s.counter == (c.s.counter + Sends(es)) % COUNTER_MODULUS
    decreases |es|, 1
  {
    if es != [] {
      CounterStep(v, c, es[0]);
      FromSecond(v, c.s.counter, Next(v, c, es[0]), es);
      assert Run(v, c, es) == Run(v, Next(v, c, es[0]), es[1..]);
    }
  }

  lemma {:induction false} FromSecond(v: Variant, counter: Counter, c1: Config, es: seq<Event>)
    requires es != []
    requires c1.s.counter == (counter + if IsSend(es[0]) then 1 else 0) % COUNTER_MODULUS
    ensures Run(v, c1, es[1..]).s.counter == (counter + Sends(es)) % COUNTER_MODULUS
    decreases |es|, 0
  {
    CounterAfter(v, c1, es[1..]);
    SumModulo(counter, if IsSend(es[0]) then 1 else 0, Sends(es[1..]), c1.s.counter);
  }

  lemma CutIsModular(n: nat)
    ensures n % COUNTER_MODULUS % SEQ_MODULUS == n % SEQ_MODULUS
  {
    var q := n / COUNTER_MODULUS;
    assert n == q * 0x80 * SEQ_MODULUS + n % COUNTER_MODULUS;
    ModuloMultiple(q * 0x80, n % COUNTER_MODULUS);
  }

  lemma ModuloMultiple(q: nat, r: nat)
    ensures (q * SEQ_MODULUS + r) % SEQ_MODULUS == r % SEQ_MODULUS
  {}

  /** The number of the next request is the one a counter modulo 2^24 would give. */
  lemma RefinesModularCounter(v: Variant, c: Config, es: seq<Event>)
    ensures NumberAfter(v, c, es) == (c.s.counter + Sends(es) + 1) % SEQ_MODULUS
  {
    CounterAfter(v, c, es);
    NextCounterIsModular(c.s.counter, Sends(es));
    CutIsModular(c.s.counter + Sends(es) + 1);
  }

  lemma SameRemainder(a: nat, b: nat)
    requires a <= b
    ensures a % SEQ_MODULUS == b % SEQ_MODULUS <==> (b - a) % SEQ_MODULUS == 0
  {}

  /** Two requests of one run carry the same number if and only if the requests sent from the
      one to the other are a multiple of 2^24. So any 2^24 consecutive ones are all different. */
  lemma NumbersRepeatAfter(v: Variant, c: Config, before: seq<Event>, between: seq<Event>)
    ensures NumberAfter(v, c, before) == NumberAfter(v, c, before + between) <==> Sends(between) % SEQ_MODULUS == 0
    ensures 0 < Sends(between) < SEQ_MODULUS ==> NumberAfter(v, c, before) != NumberAfter(v, c, before + between)
  {
    RefinesModularCounter(v, c, before);
    RefinesModularCounter(v, c, before + between);
    SendsOfBoth(before, between);
    SameRemainder(c.s.counter + Sends(before) + 1, c.s.counter + Sends(before) + Sends(between) + 1);
  }

  lemma {:induction false} SendsOfBoth(es: seq<Event>, fs: seq<Event>)
    ensures Sends(es + fs) == Sends(es) + Sends(fs)
    decreases |es|
  {
    if es == [] {
      assert es + fs == fs;
    } else {
      assert (es + fs)[1..] == es[1..] + fs;
      SendsOfBoth(es[1..], fs);
    }
  }

  /** The request that a call puts on the wire carries that number. */
  lemma SentUnderNumber(v: Variant, c: Config, es: seq<Event>, e: Event)
    requires IsSend(e)
    ensures
      var out := Step(v, Run(v, c, es).s, e).1;
      |out| == 3 && out[2].RequestSent? && out[2].msg.seqNum == NumberAfter(v, c, es) && out[2].tx == e.tx
  {}
}
