/** Which message types open a transaction and which ones answer it, for the two
    transport stacks: GTPv2-C (3GPP TS 29.274) and PFCP (3GPP TS 29.244). */
module MessageTypes {
  type MessageType = t: int | 0 <= t < 256

  /** The two stacks share one transaction layer; they differ in the tables below and in
      what they do when a peer never answers. */
  datatype Variant = Gtpv2c | Pfcp

  const GTP_INITIAL: set<int> :=
    {1, 32, 34, 36, 38, 40, 64, 66, 68, 95, 97, 99, 101, 103, 128, 130, 133, 135, 137, 139,
     149, 153, 155, 158, 160, 162, 164, 166, 168, 170, 176, 179, 200, 211, 231, 233, 235}

  // PFCP also opens a transaction on the node and session report responses (13 and 57).
  const PFCP_INITIAL: set<int> := {1, 3, 5, 7, 9, 12, 13, 50, 52, 54, 56, 57}

  const GTP_VERSION_NOT_SUPPORTED := 3
  const PFCP_VERSION_NOT_SUPPORTED := 11

  /** Create, update and delete bearer request: GTPv2-C accepts these as an answer to anything. */
  const BEARER_REQUESTS: set<int> := {95, 97, 99}

  /** The type that answers a request: the next number, in every request table. */
  function AnswerTo(t: MessageType): int { t + 1 }

  /** True when a message of type `t` opens a transaction. */
  predicate IsInitial(v: Variant, t: MessageType) {
    match v
    case Gtpv2c => t in GTP_INITIAL
    case Pfcp => t in PFCP_INITIAL
  }

  /** True when `t` is accepted while the transaction stands at type `base`. */
  predicate IsTriggered(v: Variant, base: MessageType, t: MessageType) {
    match v
    case Gtpv2c =>
      || (if base in GTP_INITIAL then t == AnswerTo(base) else t == GTP_VERSION_NOT_SUPPORTED)
      || t in BEARER_REQUESTS
    case Pfcp =>
      if base in PFCP_INITIAL - {13, 57} then t == AnswerTo(base) else t == PFCP_VERSION_NOT_SUPPORTED
  }

  /** The request types the stacks themselves can send: one per overload of the send operation. */
  predicate IsSendable(v: Variant, t: MessageType) {
    match v
    case Gtpv2c => t in {1, 32, 34, 36, 170, 176}
    case Pfcp => t in {1, 5, 9, 12, 50, 52, 54, 56}
  }

  /** Every request the stacks can send is an initial type, and none is a bearer request. */
  lemma SendableIsInitial(v: Variant, t: MessageType)
    requires IsSendable(v, t)
    ensures IsInitial(v, t) && t !in BEARER_REQUESTS
  {}

  /** The types the first accepted answer to a request can have. */
  predicate FirstAnswer(v: Variant, request: MessageType, t: MessageType) {
    || t == AnswerTo(request)
    || (v == Gtpv2c && t in BEARER_REQUESTS)
    || (v == Pfcp && request in {13, 57} && t == PFCP_VERSION_NOT_SUPPORTED)
  }

  lemma TriggeredIsFirstAnswer(v: Variant, request: MessageType, t: MessageType)
    requires IsInitial(v, request) && IsTriggered(v, request, t)
    ensures FirstAnswer(v, request, t)
  {}

  /** Once any first answer was accepted, the answer type of the request is accepted no more,
      unless the request is a bearer request. */
  lemma AnswersOnce(v: Variant, request: MessageType, first: MessageType, t: MessageType)
    requires IsInitial(v, request) && request !in BEARER_REQUESTS
    requires FirstAnswer(v, request, first) && IsTriggered(v, first, t)
    ensures t != AnswerTo(request)
  {}

  /** A repeated request is no answer to itself, unless it is a bearer request; nor is it an
      answer to what answered it. */
  lemma RequestIsNoAnswer(v: Variant, request: MessageType, first: MessageType)
    requires IsInitial(v, request)
    ensures IsTriggered(v, request, request) <==> v == Gtpv2c && request in BEARER_REQUESTS
    ensures FirstAnswer(v, request, first) ==>
              (IsTriggered(v, first, request) <==> v == Gtpv2c && request in BEARER_REQUESTS)
  {}

  /** The requests of GTPv2-C and of PFCP, in numbers, and what answers them. */
  lemma TypesInNumbers(t: MessageType, base: MessageType)
    ensures IsInitial(Gtpv2c, t) <==>
              || t == 1 || t == 32 || t == 34 || t == 36 || t == 38 || t == 40 || t == 64 || t == 66 || t == 68 || t == 95 || t == 97
              || t == 99 || t == 101 || t == 103 || t == 128 || t == 130 || t == 133 || t == 135 || t == 137 || t == 139 || t == 149
              || t == 153 || t == 155 || t == 158 || t == 160 || t == 162 || t == 164 || t == 166 || t == 168 || t == 170 || t == 176
              || t == 179 || t == 200 || t == 211 || t == 231 || t == 233 || t == 235
    ensures IsInitial(Pfcp, t) <==>
              || t == 1 || t == 3 || t == 5 || t == 7 || t == 9 || t == 12 || t == 13 || t == 50 || t == 52 || t == 54 || t == 56
              || t == 57
    ensures IsTriggered(Gtpv2c, base, t) <==>
              t == 95 || t == 97 || t == 99 || t == (if IsInitial(Gtpv2c, base) then base + 1 else 3)
    ensures IsTriggered(Pfcp, base, t) <==>
              t == if IsInitial(Pfcp, base) && base != 13 && base != 57 then base + 1 else 11
    ensures IsSendable(Gtpv2c, t) <==> t == 1 || t == 32 || t == 34 || t == 36 || t == 170 || t == 176
    ensures IsSendable(Pfcp, t) <==> t == 1 || t == 5 || t == 9 || t == 12 || t == 50 || t == 52 || t == 54 || t == 56
  {}
}
