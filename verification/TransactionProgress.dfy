/** What the transaction layer does, as opposed to what it never does: a request is on the wire once for
    each attempt, a report comes after all of them, and an open transaction gets its responses. */
module TransactionProgress {
  import opened Prelude
  import opened MessageTypes
  import opened Transactions
  import opened TransactionInvariants
  import opened TransactionOrder
  import opened TransactionOutcomes
  import opened TransactionTheorems
  import opened RequestFates

  // ----- a request is sent once for each attempt -----

  lemma {:induction false} SentCountAppend(log: seq<Entry>, out: seq<Entry>, tx: TxId)
    ensures SentCount(log + out, tx) == SentCount(log, tx) + SentCount(out, tx)
    decreases |out|
  {
    if out == [] {
      assert log + out == log;
    } else {
      var n := |out| - 1;
      assert (log + out)[..|log + out| - 1] == log + out[..n];
      SentCountAppend(log, out[..n], tx);
    }
  }

  lemma {:induction false} SentCountZero(log: seq<Entry>, tx: TxId)
    ensures SentCount(log, tx) == 0 <==> forall x :: x in log ==> !(x.RequestSent? && x.tx == tx)
    decreases |log|
  {
    if log != [] {
      var n := |log| - 1;
      assert log == log[..n] + [log[n]];
      SentCountZero(log[..n], tx);
    }
  }

  /** A request has been sent as often as its retry count says, and once more. */
  ghost predicate CountInv(c: Config) {
    && (forall n :: n in c.s.pending && c.s.pending[n].retryMsg.Some? ==>
          SentCount(c.log, c.s.pending[n].tx) == 1 + c.s.pending[n].retryCount)
    && (forall tx :: HasReported(c.log, tx) && SentCount(c.log, tx) > 0 ==> SentCount(c.log, tx) == 1 + MAX_RETRIES)
  }

  /** How often one step sends for a transaction. */
  lemma SentInStep(v: Variant, s: Stack, e: Event, tx: TxId)
    ensures SentCount(Step(v, s, e).1, tx)
            == if e.SendInitial? && e.tx == tx then 1
               else if e.TimeOut? && e.timer in s.retry && s.retry[e.timer] in s.pending
                       && s.pending[s.retry[e.timer]].tx == tx && s.pending[s.retry[e.timer]].retryCount < MAX_RETRIES
                       && s.pending[s.retry[e.timer]].retryMsg.Some?
               then 1 else 0
  {
    var out := Step(v, s, e).1;
    if |out| == 1 {
      CountOfOne(out[0], tx);
      assert out == [out[0]];
    } else if |out| == 2 {
      CountOfTwo(out[0], out[1], tx);
      assert out == [out[0], out[1]];
    } else if |out| == 3 {
      CountOfTwo(out[0], out[1], tx);
      CountOfOne(out[2], tx);
      SentCountAppend([out[0], out[1]], [out[2]], tx);
      assert out == [out[0], out[1]] + [out[2]];
    }
  }

  function IsSentFor(x: Entry, tx: TxId): nat { if x.RequestSent? && x.tx == tx then 1 else 0 }

  lemma CountOfOne(x: Entry, tx: TxId)
    ensures SentCount([x], tx) == IsSentFor(x, tx)
  {
    assert [x][..0] == [];
  }

  lemma CountOfTwo(x: Entry, y: Entry, tx: TxId)
    ensures SentCount([x, y], tx) == IsSentFor(x, tx) + IsSentFor(y, tx)
  {
    CountOfOne(x, tx);
    assert [x, y][..1] == [x];
  }

  lemma CountKeptFor(v: Variant, c: Config, e: Event, n: SequenceNumber)
    requires IndexInv(c) && LogInv(c) && CountInv(c) && Allowed(v, c, e)
    requires n in Next(v, c, e).s.pending && Next(v, c, e).s.pending[n].retryMsg.Some?
    ensures SentCount(Next(v, c, e).log, Next(v, c, e).s.pending[n].tx) == 1 + Next(v, c, e).s.pending[n].retryCount
  {
    var p' := Next(v, c, e).s.pending[n];
    ProcedureEvolves(v, c, e, n);
    SentCountAppend(c.log, Step(v, c.s, e).1, p'.tx);
    SentInStep(v, c.s, e, p'.tx);
    if n in c.s.pending {
      RetriesCounted(v, c, e, n);
    } else {
      UnopenedIsUnsent(c, p'.tx);
      OpenedAsRequest(v, c.s, e, n);
    }
  }

  lemma UnopenedIsUnsent(c: Config, tx: TxId)
    requires LogInv(c) && tx !in c.kinds
    ensures SentCount(c.log, tx) == 0
  {
    SentCountZero(c.log, tx);
    forall x | x in c.log
      ensures !(x.RequestSent? && x.tx == tx)
    {
      assert EntryOk(c.kinds, c.removed, x);
    }
  }

  lemma OpenedAsRequest(v: Variant, s: Stack, e: Event, n: SequenceNumber)
    requires n in Step(v, s, e).0.pending && n !in s.pending && Step(v, s, e).0.pending[n].retryMsg.Some?
    ensures e.SendInitial? && n == NextSequenceNumber(s) && Step(v, s, e).0.pending[n] == NewRequest(e, n)
  {}

  /** The retry count goes up with the expiry of a retry timer for the procedure, and only then. */
  lemma RetriesCounted(v: Variant, c: Config, e: Event, n: SequenceNumber)
    requires IndexInv(c) && Allowed(v, c, e)
    requires n in c.s.pending && c.s.pending[n].retryMsg.Some? && n in Next(v, c, e).s.pending
    ensures Next(v, c, e).s.pending[n].retryCount == c.s.pending[n].retryCount + SentCount(Step(v, c.s, e).1, c.s.pending[n].tx)
  {
    SentInStep(v, c.s, e, c.s.pending[n].tx);
  }

  lemma ReportsCounted(v: Variant, c: Config, e: Event, tx: TxId)
    requires Inv(v, c) && CountInv(c) && Allowed(v, c, e)
    requires HasReported(Next(v, c, e).log, tx) && SentCount(Next(v, c, e).log, tx) > 0
    ensures SentCount(Next(v, c, e).log, tx) == 1 + MAX_RETRIES
  {
    var out := Step(v, c.s, e).1;
    SentCountAppend(c.log, out, tx);
    SentInStep(v, c.s, e, tx);
    if HasReported(c.log, tx) {
      ReportedIsSentNoMore(v, c, e, tx);
    } else {
      var x :| x in out && IsReported(tx, x);
      ReportedLast(v, c, e, x);
    }
  }

  lemma ReportedIsSentNoMore(v: Variant, c: Config, e: Event, tx: TxId)
    requires Inv(v, c) && CountInv(c) && Allowed(v, c, e) && HasReported(c.log, tx)
    ensures SentCount(Step(v, c.s, e).1, tx) == 0
  {
    SentInStep(v, c.s, e, tx);
    var x :| x in c.log && IsReported(tx, x);
    assert EntryOk(c.kinds, c.removed, x);
    if e.TimeOut? && e.timer in c.s.retry && c.s.retry[e.timer] in c.s.pending && c.s.pending[c.s.retry[e.timer]].tx == tx
       && c.s.pending[c.s.retry[e.timer]].retryMsg.Some? {
      assert SentCount(c.log, tx) == 1 + c.s.pending[c.s.retry[e.timer]].retryCount;
    }
  }

  lemma ReportedLast(v: Variant, c: Config, e: Event, x: Entry)
    requires Inv(v, c) && CountInv(c) && x in Step(v, c.s, e).1 && x.PeerNotResponding?
    ensures SentCount(c.log, x.tx) == 0 || SentCount(c.log, x.tx) == 1 + MAX_RETRIES
    ensures SentCount(Step(v, c.s, e).1, x.tx) == 0
  {
    SentInStep(v, c.s, e, x.tx);
    ReportedBy(v, c, e, x);
    var n := c.s.retry[e.timer];
    assert SentOk(c.log, c.s.pending[n]);
    SentCountZero(c.log, x.tx);
  }

  lemma CountInvKept(v: Variant, c: Config, e: Event)
    requires Inv(v, c) && CountInv(c) && Allowed(v, c, e)
    ensures CountInv(Next(v, c, e))
  {
    var c' := Next(v, c, e);
    forall n | n in c'.s.pending && c'.s.pending[n].retryMsg.Some?
      ensures SentCount(c'.log, c'.s.pending[n].tx) == 1 + c'.s.pending[n].retryCount
    {
      CountKeptFor(v, c, e, n);
    }
    forall tx | HasReported(c'.log, tx) && SentCount(c'.log, tx) > 0
      ensures SentCount(c'.log, tx) == 1 + MAX_RETRIES
    {
      ReportsCounted(v, c, e, tx);
    }
  }

  lemma {:induction false} ReachCountInv(v: Variant, counter: Counter, es: seq<Event>)
    requires AllowedFromStart(v, counter, es)
    ensures CountInv(Reach(v, counter, es))
    decreases |es|
  {
    if es != [] {
      var before, e := es[..|es| - 1], es[|es| - 1];
      assert es == before + [e];
      RunSnoc(v, InitialConfig(counter), before, e);
      ReachCountInv(v, counter, before);
      ReachInv(v, counter, before);
      CountInvKept(v, Reach(v, counter, before), e);
    }
  }

  /** In every run a pending request was sent once for its opening and once for each retry; and what was
      sent at all and then reported was sent four times. */
  lemma SentForEachAttempt(v: Variant, counter: Counter, es: seq<Event>)
    requires AllowedFromStart(v, counter, es)
    ensures
      var c := Reach(v, counter, es);
      && (forall n :: n in c.s.pending && c.s.pending[n].retryMsg.Some? ==>
            SentCount(c.log, c.s.pending[n].tx) == 1 + c.s.pending[n].retryCount)
      && (forall tx :: HasReported(c.log, tx) && SentCount(c.log, tx) > 0 ==> SentCount(c.log, tx) == 4)
  {
    ReachCountInv(v, counter, es);
  }

  // ----- what is sent and reported is what the caller asked for -----

  /** The call opens `tx` for this peer, and sends this. */
  predicate IsOpening(e: Event, tx: TxId, typ: MessageType, content: Octets, dest: Endpoint) {
    e.SendInitial? && e.tx == tx && e.typ == typ && e.content == content && e.dest == dest
  }

  ghost predicate AskedFor(es: seq<Event>, p: Procedure) {
    p.retryMsg.Some? ==>
      exists e :: e in es && IsOpening(e, p.tx, p.retryMsg.value.typ, p.retryMsg.value.content, p.remote)
                  && e.localTeid == p.localTeid
  }

  ghost predicate AskedInv(es: seq<Event>, c: Config) {
    && (forall n :: n in c.s.pending ==> AskedFor(es, c.s.pending[n]))
    && (forall x :: x in c.log && x.RequestSent? ==>
          exists e :: e in es && IsOpening(e, x.tx, x.msg.typ, x.msg.content, x.dest))
    && (forall x :: x in c.log && x.PeerNotResponding? ==>
          exists e :: e in es && e.SendInitial? && e.tx == x.tx && e.dest == x.dest && e.localTeid == x.localTeid)
  }

  lemma AskedGrows(es: seq<Event>, e: Event, p: Procedure)
    requires AskedFor(es, p)
    ensures AskedFor(es + [e], p)
  {
    if p.retryMsg.Some? {
      var o :| o in es && IsOpening(o, p.tx, p.retryMsg.value.typ, p.retryMsg.value.content, p.remote)
               && o.localTeid == p.localTeid;
      assert o in es + [e];
    }
  }

  lemma SentAsAsked(v: Variant, es: seq<Event>, c: Config, e: Event, x: Entry)
    requires AskedInv(es, c) && x in Step(v, c.s, e).1 && x.RequestSent?
    ensures exists o :: o in es + [e] && IsOpening(o, x.tx, x.msg.typ, x.msg.content, x.dest)
  {
    if e.SendInitial? {
      assert IsOpening(e, x.tx, x.msg.typ, x.msg.content, x.dest) && e in es + [e];
    } else {
      SentBy(v, c, e, x);
      var p := c.s.pending[c.s.retry[e.timer]];
      AskedGrows(es, e, p);
    }
  }

  lemma ReportedAsAsked(v: Variant, es: seq<Event>, c: Config, e: Event, x: Entry)
    requires AskedInv(es, c) && TimersOwned(c.s) && x in Step(v, c.s, e).1 && x.PeerNotResponding?
    ensures exists o :: o in es + [e] && o.SendInitial? && o.tx == x.tx && o.dest == x.dest && o.localTeid == x.localTeid
  {
    var p := c.s.pending[c.s.retry[e.timer]];
    AskedGrows(es, e, p);
  }

  lemma AskedForKept(v: Variant, es: seq<Event>, c: Config, e: Event, n: SequenceNumber)
    requires AskedInv(es, c) && Allowed(v, c, e) && n in Next(v, c, e).s.pending
    ensures AskedFor(es + [e], Next(v, c, e).s.pending[n])
  {
    var p' := Next(v, c, e).s.pending[n];
    if n in c.s.pending {
      OldProcedureEvolves(v, c.s, e, n);
      AskedGrows(es, e, c.s.pending[n]);
    } else if p'.retryMsg.Some? {
      OpenedAsRequest(v, c.s, e, n);
      assert e in es + [e];
    }
  }

  lemma AskedInvKept(v: Variant, es: seq<Event>, c: Config, e: Event)
    requires AskedInv(es, c) && TimersOwned(c.s) && Allowed(v, c, e)
    ensures AskedInv(es + [e], Next(v, c, e))
  {
    var c' := Next(v, c, e);
    forall n | n in c'.s.pending
      ensures AskedFor(es + [e], c'.s.pending[n])
    {
      AskedForKept(v, es, c, e, n);
    }
    forall x | x in c'.log && x.RequestSent?
      ensures exists o :: o in es + [e] && IsOpening(o, x.tx, x.msg.typ, x.msg.content, x.dest)
    {
      if x in c.log {
        var o :| o in es && IsOpening(o, x.tx, x.msg.typ, x.msg.content, x.dest);
        assert o in es + [e];
      } else {
        SentAsAsked(v, es, c, e, x);
      }
    }
    forall x | x in c'.log && x.PeerNotResponding?
      ensures exists o :: o in es + [e] && o.SendInitial? && o.tx == x.tx && o.dest == x.dest && o.localTeid == x.localTeid
    {
      if x in c.log {
        var o :| o in es && o.SendInitial? && o.tx == x.tx && o.dest == x.dest && o.localTeid == x.localTeid;
        assert o in es + [e];
      } else {
        ReportedAsAsked(v, es, c, e, x);
      }
    }
  }

  lemma {:induction false} ReachAskedInv(v: Variant, counter: Counter, es: seq<Event>)
    requires AllowedFromStart(v, counter, es) && NoReuseFromStart(v, counter, es)
    ensures AskedInv(es, Reach(v, counter, es))
    decreases |es|
  {
    if es != [] {
      var before, e := es[..|es| - 1], es[|es| - 1];
      assert es == before + [e];
      RunSnoc(v, InitialConfig(counter), before, e);
      ReachAskedInv(v, counter, before);
      ReachOutcomeInv(v, counter, before);
      AskedInvKept(v, before, Reach(v, counter, before), e);
    }
  }

  /** Whatever goes out for a transaction, first or again, has the type, the contents and the destination
      that the call gave; a report names the destination and the local TEID of that call, and
      comes after four attempts. */
  lemma SentAndReportedAsAsked(v: Variant, counter: Counter, es: seq<Event>, x: Entry)
    requires AllowedFromStart(v, counter, es) && NoReuseFromStart(v, counter, es)
    requires x in Reach(v, counter, es).log
    ensures x.RequestSent? ==> exists e :: e in es && IsOpening(e, x.tx, x.msg.typ, x.msg.content, x.dest)
    ensures x.PeerNotResponding? ==>
              && (exists e :: e in es && e.SendInitial? && e.tx == x.tx && e.dest == x.dest && e.localTeid == x.localTeid)
              && SentCount(Reach(v, counter, es).log, x.tx) == 4
  {
    ReachAskedInv(v, counter, es);
    if x.PeerNotResponding? {
      var e :| e in es && e.SendInitial? && e.tx == x.tx && e.dest == x.dest && e.localTeid == x.localTeid;
      EveryCallSends(v, counter, es, e);
      ReachCountInv(v, counter, es);
      assert IsReported(x.tx, x);
    }
  }

  /** Every call that sends a request puts it on the wire, at once. */
  lemma {:induction false} EveryCallSends(v: Variant, counter: Counter, es: seq<Event>, e: Event)
    requires e in es && e.SendInitial?
    ensures SentCount(Reach(v, counter, es).log, e.tx) > 0
    decreases |es|
  {
    var before, last := es[..|es| - 1], es[|es| - 1];
    assert es == before + [last];
    RunSnoc(v, InitialConfig(counter), before, last);
    var c := Reach(v, counter, before);
    SentCountAppend(c.log, Step(v, c.s, last).1, e.tx);
    SentInStep(v, c.s, last, e.tx);
    if last != e {
      EveryCallSends(v, counter, before, e);
    }
  }

  // ----- responses -----

  /** An id is open from its opening until its closing response. */
  ghost predicate OpenInv(c: Config) {
    forall x, tx, n :: x in c.log && OpenedUnder(tx, n, x) && !Closed(c.log, tx) ==> tx in c.s.txSeq
  }

  lemma OpenInvKept(v: Variant, c: Config, e: Event)
    requires OpenInv(c)
    ensures OpenInv(Next(v, c, e))
  {
    var c' := Next(v, c, e);
    forall x, tx, n | x in c'.log && OpenedUnder(tx, n, x) && !Closed(c'.log, tx)
      ensures tx in c'.s.txSeq
    {
      ClosedGrows(c.log, Step(v, c.s, e).1, tx);
      if x in c.log {
        OpenStays(v, c, e, tx);
      } else {
        assert x in Step(v, c.s, e).1;
        OpeningIsIndexed(v, c.s, e, x, tx, n);
      }
    }
  }

  lemma ClosedGrows(log: seq<Entry>, out: seq<Entry>, tx: TxId)
    ensures Closed(log, tx) ==> Closed(log + out, tx)
    ensures (exists x :: x in out && IsClosing(tx, x)) ==> Closed(log + out, tx)
  {
    assert forall x :: x in log || x in out ==> x in log + out;
  }

  lemma OpenStays(v: Variant, c: Config, e: Event, tx: TxId)
    requires tx in c.s.txSeq && !Closed(Next(v, c, e).log, tx)
    ensures tx in Next(v, c, e).s.txSeq
  {
    if e.SendTriggered? && e.deleteTx && e.tx == tx {
      var out := Step(v, c.s, e).1;
      assert IsClosing(tx, out[0]) && out[0] in out;
      ClosedGrows(c.log, out, tx);
    }
  }

  lemma OpeningIsIndexed(v: Variant, s: Stack, e: Event, x: Entry, tx: TxId, n: SequenceNumber)
    requires x in Step(v, s, e).1 && OpenedUnder(tx, n, x)
    ensures tx in Step(v, s, e).0.txSeq
  {}

  /** A response that is asked for under an indexed id is sent, as asked; otherwise it is dropped. One that
      does not delete the id changes nothing. */
  lemma ResponseIsSent(v: Variant, s: Stack, e: Event)
    requires e.SendTriggered?
    ensures e.tx in s.txSeq ==> ResponseSent(e.tx, s.txSeq[e.tx], e.typ, e.dest, e.deleteTx) in Step(v, s, e).1
    ensures e.tx !in s.txSeq ==> Step(v, s, e) == (s, [ResponseDropped(e.tx)])
    ensures !e.deleteTx ==> Step(v, s, e).0 == s
  {
    var out := Step(v, s, e).1;
    assert e.tx in s.txSeq ==> out[0] == ResponseSent(e.tx, s.txSeq[e.tx], e.typ, e.dest, e.deleteTx);
  }

  lemma {:induction false} ReachOpenInv(v: Variant, counter: Counter, es: seq<Event>)
    ensures OpenInv(Reach(v, counter, es))
    decreases |es|
  {
    if es != [] {
      var before, e := es[..|es| - 1], es[|es| - 1];
      assert es == before + [e];
      RunSnoc(v, InitialConfig(counter), before, e);
      ReachOpenInv(v, counter, before);
      OpenInvKept(v, Reach(v, counter, before), e);
    }
  }

  /** In every run a response goes out, with its type and to its destination, if and only if its id was
      opened and no response has deleted it. */
  lemma ResponsesGoOutExactly(v: Variant, counter: Counter, es: seq<Event>, e: Event)
    requires AllowedFromStart(v, counter, es) && e.SendTriggered?
    ensures
      var c := Reach(v, counter, es);
      (exists n :: ResponseSent(e.tx, n, e.typ, e.dest, e.deleteTx) in Step(v, c.s, e).1) <==>
      (exists x, n :: x in c.log && OpenedUnder(e.tx, n, x)) && !Closed(c.log, e.tx)
  {
    ReachInv(v, counter, es);
    ReachOpenInv(v, counter, es);
    var c := Reach(v, counter, es);
    ResponseIsSent(v, c.s, e);
    if e.tx in c.s.txSeq {
      var x :| x in c.log && OpenedUnder(e.tx, c.s.txSeq[e.tx], x);
      assert !Closed(c.log, e.tx);
    }
  }

  // ----- what the receiver is told -----

  /** Of a message the user is told last: that it opened a transaction, or answers one, or is discarded;
      with its number and type, and the id of the transaction. */
  lemma ReceivedIsTold(v: Variant, s: Stack, e: Event)
    requires e.Receive?
    ensures
      var out := Step(v, s, e).1;
      && |out| > 0
      && out[|out| - 1] == if e.seqNum !in s.pending then
                             if IsInitial(v, e.typ) then RequestOpened(e.newTx, e.seqNum, e.typ) else Discarded(e.seqNum, e.typ)
                           else
                             if IsTriggered(v, BaseType(s.pending[e.seqNum]), e.typ) then
                               Accepted(s.pending[e.seqNum].tx, e.seqNum, e.typ)
                             else Discarded(e.seqNum, e.typ)
  {}

  // ----- expiries -----

  /** An expiry is the stack's own, and said to be, if and only if it changes something; any other says nothing. */
  lemma HandledExactly(v: Variant, c: Config, e: Event)
    requires TimersInv(c) && e.TimeOut? && Allowed(v, c, e)
    ensures Handled(c.s, e.timer) <==> Step(v, c.s, e).0 != c.s
    ensures !Handled(c.s, e.timer) ==> Step(v, c.s, e).1 == []
  {
    var s' := Step(v, c.s, e).0;
    if e.timer in c.s.retry {
      assert e.timer !in s'.retry;
    } else if e.timer in c.s.cleanup {
      assert e.timer !in s'.cleanup;
    }
  }
}
