/** The reliable-transaction layer shared by the GTPv2-C and the PFCP stack, on values.

    `Step` says what one call into a stack does to its four maps and its counter, and what
    it makes visible outside. The classes Gtpv2cStack and PfcpStack are proved against it. */
module Transactions {
  import opened Prelude
  import opened MessageTypes

  type TimerId = nat        // 0 is the timer service's invalid id
  type TxId = nat
  type Endpoint = nat       // opaque
  type Octets = seq<int>    // the payload of a message, opaque here

  const SEQ_MODULUS := 0x100_0000     // sequence numbers are 24 bits wide
  const COUNTER_MODULUS := 0x8000_0000
  type SequenceNumber = n: int | 0 <= n < SEQ_MODULUS
  type Counter = n: int | 0 <= n < COUNTER_MODULUS
  type Uint32 = n: int | 0 <= n < 0x1_0000_0000

  const RESPONSE_TIME_MS := 1000      // T3-RESPONSE, T1 for PFCP
  const MAX_RETRIES := 3              // N3-REQUESTS, N1 for PFCP
  const PROC_TIME_OUT_MS := RESPONSE_TIME_MS * (MAX_RETRIES + 1) + 1000

  datatype Message = Message(typ: MessageType, seqNum: SequenceNumber, content: Octets)

  /** A pending procedure; a timer id of 0 means that no timer is set. */
  datatype Procedure = Procedure(
    retryMsg: Option<Message>,
    remote: Endpoint,
    localTeid: nat,
    retryTimer: TimerId,
    cleanupTimer: TimerId,
    tx: TxId,
    initialType: MessageType,
    triggeredType: MessageType,
    retryCount: nat)

  datatype Stack = Stack(
    counter: Counter,
    txSeq: map<TxId, SequenceNumber>,
    cleanup: map<TimerId, SequenceNumber>,
    retry: map<TimerId, SequenceNumber>,
    pending: map<SequenceNumber, Procedure>)

  /** A call into the stack, with the identifiers the environment hands out during it. */
  datatype Event =
    | SendInitial(typ: MessageType, dest: Endpoint, localTeid: nat, content: Octets, tx: TxId,
                  retryTimer: TimerId, cleanupTimer: TimerId)
    | Receive(seqNum: SequenceNumber, typ: MessageType, newTx: TxId, cleanupTimer: TimerId)
    | SendTriggered(tx: TxId, typ: MessageType, dest: Endpoint, deleteTx: bool)
    | TimeOut(timer: TimerId, newTimer: TimerId)

  /** What a call makes visible: messages on the wire, reports to the user, timer requests. */
  datatype Entry =
    | TimerStarted(timer: TimerId, ms: nat)
    | TimerRemoved(timer: TimerId)
    | RequestSent(tx: TxId, msg: Message, dest: Endpoint, attempt: nat)
    | RequestOpened(tx: TxId, seqNum: SequenceNumber, typ: MessageType)
    | Accepted(tx: TxId, seqNum: SequenceNumber, typ: MessageType)
    | Discarded(seqNum: SequenceNumber, typ: MessageType)
    | ResponseSent(tx: TxId, seqNum: SequenceNumber, typ: MessageType, dest: Endpoint, closes: bool)
    | ResponseDropped(tx: TxId)
    | PeerNotResponding(tx: TxId, dest: Endpoint, localTeid: nat)
    | NullRetryMessage(seqNum: SequenceNumber)  // the code would follow a null pointer

  type Outcome = (Stack, seq<Entry>)

  function NextCounter(c: Counter): Counter {
    if c + 1 == COUNTER_MODULUS then 0 else c + 1
  }

  function NextSequenceNumber(s: Stack): SequenceNumber {
    NextCounter(s.counter) % SEQ_MODULUS
  }

  function NewRequest(e: Event, n: SequenceNumber): Procedure
    requires e.SendInitial?
  {
    Procedure(Some(Message(e.typ, n, e.content)), e.dest, e.localTeid, e.retryTimer, e.cleanupTimer,
              e.tx, e.typ, 0, 0)
  }

  function NewResponder(e: Event): Procedure
    requires e.Receive?
  {
    Procedure(None, 0, 0, 0, e.cleanupTimer, e.newTx, e.typ, 0, 0)
  }

  function SendInitialStep(s: Stack, e: Event): Outcome
    requires e.SendInitial?
  {
    var n := NextSequenceNumber(s);
    var p := NewRequest(e, n);
    (Stack(NextCounter(s.counter),
           InsertIfAbsent(s.txSeq, e.tx, n),
           InsertIfAbsent(s.cleanup, e.cleanupTimer, n),
           InsertIfAbsent(s.retry, e.retryTimer, n),
           InsertIfAbsent(s.pending, n, p)),
     [TimerStarted(e.retryTimer, RESPONSE_TIME_MS), TimerStarted(e.cleanupTimer, PROC_TIME_OUT_MS),
      RequestSent(e.tx, p.retryMsg.value, e.dest, 0)])
  }

  /** A message with an unknown sequence number. */
  function OpenStep(v: Variant, s: Stack, e: Event): Outcome
    requires e.Receive? && e.seqNum !in s.pending
  {
    if IsInitial(v, e.typ) then
      (s.(txSeq := InsertIfAbsent(s.txSeq, e.newTx, e.seqNum),
          cleanup := InsertIfAbsent(s.cleanup, e.cleanupTimer, e.seqNum),
          pending := s.pending[e.seqNum := NewResponder(e)]),
       [TimerStarted(e.cleanupTimer, PROC_TIME_OUT_MS), RequestOpened(e.newTx, e.seqNum, e.typ)])
    else
      (s, [Discarded(e.seqNum, e.typ)])
  }

  /** The type an answer is checked against: the first accepted answer, else the initial type. */
  function BaseType(p: Procedure): MessageType {
    if p.triggeredType == 0 then p.initialType else p.triggeredType
  }

  /** A message whose sequence number belongs to a pending procedure. */
  function AnswerStep(v: Variant, s: Stack, e: Event): Outcome
    requires e.Receive? && e.seqNum in s.pending
  {
    var p := s.pending[e.seqNum];
    if IsTriggered(v, BaseType(p), e.typ) then
      var p' := p.(triggeredType := if p.triggeredType == 0 then e.typ else p.triggeredType, retryTimer := 0);
      (s.(retry := if p.retryTimer != 0 then s.retry - {p.retryTimer} else s.retry,
          pending := s.pending[e.seqNum := p']),
       (if p.retryTimer != 0 then [TimerRemoved(p.retryTimer)] else [])
       + [Accepted(p.tx, e.seqNum, e.typ)])
    else
      (s, [Discarded(e.seqNum, e.typ)])
  }

  function SendTriggeredStep(s: Stack, e: Event): Outcome
    requires e.SendTriggered?
  {
    if e.tx in s.txSeq then
      var n := s.txSeq[e.tx];
      var sent := [ResponseSent(e.tx, n, e.typ, e.dest, e.deleteTx)];
      if !e.deleteTx then
        (s, sent)
      else if n in s.pending then
        // The cleanup timer's id is erased from the retry map, so its cleanup entry stays behind.
        (s.(txSeq := s.txSeq - {e.tx},
            retry := s.retry - {s.pending[n].cleanupTimer},
            pending := s.pending - {n}),
         sent + [TimerRemoved(s.pending[n].cleanupTimer)])
      else
        (s.(txSeq := s.txSeq - {e.tx}), sent)
    else
      (s, [ResponseDropped(e.tx)])
  }

  /** The expiry of a retry timer. */
  function RetryStep(v: Variant, s: Stack, e: Event): Outcome
    requires e.TimeOut? && e.timer in s.retry
  {
    var n := s.retry[e.timer];
    var s' := s.(retry := s.retry - {e.timer});
    if n !in s.pending then
      (s', [])
    else
      var p := s.pending[n];
      if p.retryCount < MAX_RETRIES then
        match p.retryMsg
        case None =>
          // GTPv2-C has cleared the timer id by the time it follows the null pointer.
          (s'.(pending := s.pending[n := p.(retryCount := p.retryCount + 1,
                                            retryTimer := if v == Gtpv2c then 0 else p.retryTimer)]),
           [NullRetryMessage(n)])
        case Some(m) =>
          (s'.(retry := InsertIfAbsent(s'.retry, e.newTimer, m.seqNum),
               pending := s.pending[n := p.(retryCount := p.retryCount + 1, retryTimer := e.newTimer)]),
           [TimerStarted(e.newTimer, RESPONSE_TIME_MS), RequestSent(p.tx, m, p.remote, p.retryCount + 1)])
      else
        // GTPv2-C forgets the procedure here, PFCP keeps it until its cleanup timer expires.
        (if v == Gtpv2c then s'.(pending := s.pending - {n}) else s',
         [PeerNotResponding(p.tx, p.remote, p.localTeid)])
  }

  /** The expiry of a cleanup timer: it erases by sequence number, whoever holds it now. */
  function CleanupStep(s: Stack, e: Event): Outcome
    requires e.TimeOut? && e.timer in s.cleanup
  {
    (s.(cleanup := s.cleanup - {e.timer}, pending := s.pending - {s.cleanup[e.timer]}), [])
  }

  predicate Handled(s: Stack, t: TimerId) {
    t in s.retry || t in s.cleanup
  }

  function Step(v: Variant, s: Stack, e: Event): Outcome {
    match e
    case SendInitial(_, _, _, _, _, _, _) => SendInitialStep(s, e)
    case Receive(_, _, _, _) => if e.seqNum in s.pending then AnswerStep(v, s, e) else OpenStep(v, s, e)
    case SendTriggered(_, _, _, _) => SendTriggeredStep(s, e)
    case TimeOut(_, _) =>
      if e.timer in s.retry then RetryStep(v, s, e)
      else if e.timer in s.cleanup then CleanupStep(s, e)
      else (s, [])
  }

  // ----- runs -----

  /** A stack together with everything it made visible, the identifiers handed out so far
      (timers by the purpose they were started for, transactions with their initial type),
      and the timers it asked the timer service to remove. */
  datatype Config = Config(
    s: Stack,
    log: seq<Entry>,
    retryIds: set<TimerId>,
    cleanupIds: set<TimerId>,
    removed: set<TimerId>,
    kinds: map<TxId, MessageType>)

  function InitialConfig(counter: Counter): Config {
    Config(Stack(counter, map[], map[], map[], map[]), [], {}, {}, {}, map[])
  }

  /** True when handling `e` starts a procedure. */
  predicate Opens(v: Variant, s: Stack, e: Event) {
    || e.SendInitial?
    || (e.Receive? && e.seqNum !in s.pending && IsInitial(v, e.typ))
  }

  /** The sequence number of the procedure that `e` starts. */
  function OpenedAt(s: Stack, e: Event): SequenceNumber
    requires e.SendInitial? || e.Receive?
  {
    if e.SendInitial? then NextSequenceNumber(s) else e.seqNum
  }

  /** The timers that handling `e` removes from the timer service. */
  function RemovedBy(v: Variant, s: Stack, e: Event): set<TimerId> {
    if e.Receive? && e.seqNum in s.pending && IsTriggered(v, BaseType(s.pending[e.seqNum]), e.typ)
       && s.pending[e.seqNum].retryTimer != 0 then
      {s.pending[e.seqNum].retryTimer}
    else if e.SendTriggered? && e.deleteTx && e.tx in s.txSeq && s.txSeq[e.tx] in s.pending then
      {s.pending[s.txSeq[e.tx]].cleanupTimer}
    else
      {}
  }

  function Next(v: Variant, c: Config, e: Event): Config {
    var (s', out) := Step(v, c.s, e);
    var opens := Opens(v, c.s, e);
    Config(s', c.log + out,
           c.retryIds + (if e.SendInitial? then {e.retryTimer} else if e.TimeOut? then {e.newTimer} else {}),
           c.cleanupIds + (if opens then {e.cleanupTimer} else {}),
           c.removed + RemovedBy(v, c.s, e),
           if opens then c.kinds[(if e.SendInitial? then e.tx else e.newTx) := e.typ] else c.kinds)
  }

  predicate FreshTimer(c: Config, t: TimerId) {
    t != 0 && t !in c.retryIds && t !in c.cleanupIds
  }

  /** The environment: timer ids are fresh and not 0, transaction ids are fresh, and only the
      request types that have an overload are sent. Any timer id may expire at any time. */
  predicate Allowed(v: Variant, c: Config, e: Event) {
    match e
    case SendInitial(typ, _, _, _, tx, rt, ct) =>
      FreshTimer(c, rt) && FreshTimer(c, ct) && rt != ct && tx !in c.kinds && IsSendable(v, typ)
    case Receive(_, _, newTx, ct) => FreshTimer(c, ct) && newTx !in c.kinds
    case SendTriggered(_, _, _, _) => true
    case TimeOut(_, newTimer) => FreshTimer(c, newTimer)
  }

  /** No procedure is started under a sequence number that a pending procedure or a retry
      timer still refers to. */
  predicate NoReuse(v: Variant, s: Stack, e: Event) {
    Opens(v, s, e) ==>
      var n := OpenedAt(s, e);
      n !in s.pending && forall t :: t in s.retry ==> s.retry[t] != n
  }

  function Run(v: Variant, c: Config, es: seq<Event>): Config
    decreases |es|
  {
    if es == [] then c else Run(v, Next(v, c, es[0]), es[1..])
  }

  predicate AllowedRun(v: Variant, c: Config, es: seq<Event>)
    decreases |es|
  {
    es == [] || (Allowed(v, c, es[0]) && AllowedRun(v, Next(v, c, es[0]), es[1..]))
  }

  predicate NoReuseRun(v: Variant, c: Config, es: seq<Event>)
    decreases |es|
  {
    es == [] || (NoReuse(v, c.s, es[0]) && NoReuseRun(v, Next(v, c, es[0]), es[1..]))
  }
}
