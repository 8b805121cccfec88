/** The GTPv2-C stack as an object with the fields of the original; each of its entry points
    does what one step of the transaction layer does. What `log` gains is what the original
    sends, reports to its user, or asks of the timer service. */
module Gtpv2cStacks {
  import opened Prelude
  import opened MessageTypes
  import opened Transactions

  class Gtpv2cStack {
    var seqNum: Uint32
    var txIdToSeqNum: map<TxId, SequenceNumber>
    var procCleanupTimers: map<TimerId, SequenceNumber>
    var msgOutRetryTimers: map<TimerId, SequenceNumber>
    var pendingProcedures: map<SequenceNumber, Procedure>
    ghost var log: seq<Entry>

    /** The counter never has its top bit set between calls. */
    predicate Valid()
      reads this
    {
      seqNum < COUNTER_MODULUS
    }

    function Contents(): Stack
      reads this
      requires Valid()
    {
      Stack(seqNum, txIdToSeqNum, procCleanupTimers, msgOutRetryTimers, pendingProcedures)
    }

    /** The counter starts at the nanoseconds of the clock, without the top bit. */
    constructor (nanoseconds: Uint32)
      ensures Valid() && Contents() == InitialConfig(nanoseconds % COUNTER_MODULUS).s && log == []
    {
      seqNum := nanoseconds % COUNTER_MODULUS;
      txIdToSeqNum := map[];
      procCleanupTimers := map[];
      msgOutRetryTimers := map[];
      pendingProcedures := map[];
      log := [];
    }

    method GetNextSeqNum() returns (n: Uint32)
      requires Valid()
      modifies this`seqNum
      ensures Valid() && n == seqNum == NextCounter(old(seqNum))
    {
      seqNum := seqNum + 1;
      if seqNum / 0x8000_0000 % 2 == 1 {
        seqNum := 0;
      }
      n := seqNum;
    }

    /** itti's timer_setup hands out `timer`. A running timer is not overwritten. */
    method StartMsgRetryTimer(p: Procedure, ms: nat, n: SequenceNumber, timer: TimerId) returns (p': Procedure)
      modifies this`msgOutRetryTimers, this`log
      ensures p' == if p.retryTimer == 0 then p.(retryTimer := timer) else p
      ensures msgOutRetryTimers
              == if p.retryTimer == 0 then InsertIfAbsent(old(msgOutRetryTimers), timer, n) else old(msgOutRetryTimers)
      ensures log == old(log) + if p.retryTimer == 0 then [TimerStarted(timer, ms)] else []
    {
      p' := p;
      if p.retryTimer == 0 {
        p' := p.(retryTimer := timer);
        log := log + [TimerStarted(timer, ms)];
        msgOutRetryTimers := InsertIfAbsent(msgOutRetryTimers, timer, n);
      }
    }

    method StopMsgRetryTimer(p: Procedure) returns (p': Procedure)
      modifies this`msgOutRetryTimers, this`log
      ensures p' == p.(retryTimer := 0)
      ensures msgOutRetryTimers
              == if p.retryTimer != 0 then old(msgOutRetryTimers) - {p.retryTimer} else old(msgOutRetryTimers)
      ensures log == old(log) + if p.retryTimer != 0 then [TimerRemoved(p.retryTimer)] else []
    {
      p' := p;
      if p.retryTimer != 0 {
        log := log + [TimerRemoved(p.retryTimer)];
        msgOutRetryTimers := msgOutRetryTimers - {p.retryTimer};
        p' := p.(retryTimer := 0);
      }
    }

    method StartProcCleanupTimer(p: Procedure, ms: nat, n: SequenceNumber, timer: TimerId) returns (p': Procedure)
      modifies this`procCleanupTimers, this`log
      ensures p' == if p.cleanupTimer == 0 then p.(cleanupTimer := timer) else p
      ensures procCleanupTimers
              == if p.cleanupTimer == 0 then InsertIfAbsent(old(procCleanupTimers), timer, n) else old(procCleanupTimers)
      ensures log == old(log) + if p.cleanupTimer == 0 then [TimerStarted(timer, ms)] else []
    {
      p' := p;
      if p.cleanupTimer == 0 {
        p' := p.(cleanupTimer := timer);
        log := log + [TimerStarted(timer, ms)];
        procCleanupTimers := InsertIfAbsent(procCleanupTimers, timer, n);
      }
    }

    /** Erases the id from the map of the retry timers. */
    method StopProcCleanupTimer(p: Procedure) returns (p': Procedure)
      modifies this`msgOutRetryTimers, this`log
      ensures p' == p.(cleanupTimer := 0)
      ensures msgOutRetryTimers == old(msgOutRetryTimers) - {p.cleanupTimer}
      ensures log == old(log) + [TimerRemoved(p.cleanupTimer)]
    {
      log := log + [TimerRemoved(p.cleanupTimer)];
      msgOutRetryTimers := msgOutRetryTimers - {p.cleanupTimer};
      p' := p.(cleanupTimer := 0);
    }

    method HandleReceiveMessage(n: SequenceNumber, typ: MessageType, newTx: TxId, timer: TimerId)
      returns (error: bool, tx: TxId)
      requires Valid()
      modifies this
      ensures Valid()
      ensures
        var (s, out) := Step(Gtpv2c, old(Contents()), Receive(n, typ, newTx, timer));
        && Contents() == s && log == old(log) + out
        && error == out[|out| - 1].Discarded?
        && (error ==> tx == 0)
        && (!error ==> out[|out| - 1] == if n in old(pendingProcedures) then Accepted(tx, n, typ) else RequestOpened(tx, n, typ))
    {
      tx := 0;
      error := true;
      if n !in pendingProcedures {
        if IsInitial(Gtpv2c, typ) {
          var p := Procedure(None, 0, 0, 0, 0, newTx, typ, 0, 0);
          p := StartProcCleanupTimer(p, PROC_TIME_OUT_MS, n, timer);
          pendingProcedures := InsertIfAbsent(pendingProcedures, n, p);
          txIdToSeqNum := InsertIfAbsent(txIdToSeqNum, p.tx, n);
          log := log + [RequestOpened(p.tx, n, typ)];
          error := false;
          tx := p.tx;
        } else {
          log := log + [Discarded(n, typ)];
        }
      } else {
        var p := pendingProcedures[n];
        var base := if p.triggeredType == 0 then p.initialType else p.triggeredType;
        if IsTriggered(Gtpv2c, base, typ) {
          if p.triggeredType == 0 {
            p := p.(triggeredType := typ);
          }
          error := false;
          tx := p.tx;
          if p.retryTimer != 0 {
            p := StopMsgRetryTimer(p);
          }
          pendingProcedures := pendingProcedures[n := p];
          log := log + [Accepted(tx, n, typ)];
        } else {
          log := log + [Discarded(n, typ)];
        }
      }
    }

    method SendInitialMessage(typ: MessageType, dest: Endpoint, localTeid: nat, content: Octets, tx: TxId,
                              retryTimer: TimerId, cleanupTimer: TimerId)
      returns (n: SequenceNumber)
      requires Valid()
      modifies this
      ensures Valid()
      ensures
        var (s, out) := Step(Gtpv2c, old(Contents()),
                             SendInitial(typ, dest, localTeid, content, tx, retryTimer, cleanupTimer));
        Contents() == s && log == old(log) + out
      ensures n == NextSequenceNumber(old(Contents()))
    {
      var counter := GetNextSeqNum();
      n := counter % SEQ_MODULUS;
      var msg := Message(typ, n, content);
      var p := Procedure(Some(msg), dest, localTeid, 0, 0, tx, typ, 0, 0);
      p := StartMsgRetryTimer(p, RESPONSE_TIME_MS, n, retryTimer);
      p := StartProcCleanupTimer(p, PROC_TIME_OUT_MS, n, cleanupTimer);
      pendingProcedures := InsertIfAbsent(pendingProcedures, n, p);
      txIdToSeqNum := InsertIfAbsent(txIdToSeqNum, p.tx, n);
      log := log + [RequestSent(tx, msg, dest, 0)];
    }

    method SendTriggeredMessage(tx: TxId, typ: MessageType, dest: Endpoint, deleteTx: bool)
      requires Valid()
      modifies this
      ensures Valid()
      ensures
        var (s, out) := Step(Gtpv2c, old(Contents()), SendTriggered(tx, typ, dest, deleteTx));
        Contents() == s && log == old(log) + out
    {
      if tx in txIdToSeqNum {
        var n := txIdToSeqNum[tx];
        log := log + [ResponseSent(tx, n, typ, dest, deleteTx)];
        if deleteTx {
          if n in pendingProcedures {
            var p := StopProcCleanupTimer(pendingProcedures[n]);
            pendingProcedures := pendingProcedures - {n};
          }
          txIdToSeqNum := txIdToSeqNum - {tx};
        }
      } else {
        log := log + [ResponseDropped(tx)];
      }
    }

    method TimeOutEvent(timer: TimerId, newTimer: TimerId) returns (handled: bool)
      requires Valid()
      modifies this
      ensures Valid()
      ensures
        var (s, out) := Step(Gtpv2c, old(Contents()), TimeOut(timer, newTimer));
        Contents() == s && log == old(log) + out
      ensures handled == Handled(old(Contents()), timer)
    {
      handled := false;
      if timer in msgOutRetryTimers {
        var n := msgOutRetryTimers[timer];
        msgOutRetryTimers := msgOutRetryTimers - {timer};
        handled := true;
        if n in pendingProcedures {
          var p := pendingProcedures[n];
          if p.retryCount < MAX_RETRIES {
            p := p.(retryCount := p.retryCount + 1);
            p := p.(retryTimer := 0);
            if p.retryMsg.Some? {
              p := StartMsgRetryTimer(p, RESPONSE_TIME_MS, p.retryMsg.value.seqNum, newTimer);
              log := log + [RequestSent(p.tx, p.retryMsg.value, p.remote, p.retryCount)];
            } else {
              log := log + [NullRetryMessage(n)];
            }
            pendingProcedures := pendingProcedures[n := p];
          } else {
            log := log + [PeerNotResponding(p.tx, p.remote, p.localTeid)];
            pendingProcedures := pendingProcedures - {n};
          }
        }
      } else if timer in procCleanupTimers {
        var n := procCleanupTimers[timer];
        procCleanupTimers := procCleanupTimers - {timer};
        handled := true;
        pendingProcedures := pendingProcedures - {n};
      }
    }
  }
}
