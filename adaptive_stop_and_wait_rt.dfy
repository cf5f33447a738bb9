/** The Stop-and-Wait retransmission buffer of the older tree: one slot that
    addPacket overwrites, a retransmission once more than `timeout`
    microseconds have passed since the last transmission, and, when enabled,
    an adaptive timeout updated from the round trip each time the held packet
    is acknowledged. The clock is the parameter `now`; the mutex is dropped. */
module AdaptiveStopAndWaitRt {
  import opened ArqBasics
  import opened BufferObjects

  /** The cap on an adaptive timeout: 100 ms. */
  const MAX_TIMEOUT: int := 100000

  function Min(a: int, b: int): int {
    if a < b then a else b
  }

  function Max(a: int, b: int): int {
    if a < b then b else a
  }

  /** Halving a std::chrono duration: integer division rounding toward zero. */
  function Halved(x: int): (r: int)
    ensures -1 <= x - 2 * r <= 1
    ensures x >= 0 ==> 0 <= r && 2 * r <= x
    ensures x <= 0 ==> r <= 0 && x <= 2 * r
  {
    if x >= 0 then x / 2 else -((-x) / 2)
  }

  /** The timeout after an ACK: the mean of the measured round trip and the
      old timeout, capped at MAX_TIMEOUT. */
  function NewTimeout(roundTrip: int, timeout: int): int {
    Min(Halved(roundTrip + timeout), MAX_TIMEOUT)
  }

  /** An adaptive timeout never exceeds 100 ms; with a non-negative round
      trip and old timeout it is the damped mean, lying between the two
      unless the cap applies. */
  lemma {:induction false} NewTimeoutBounds(roundTrip: int, timeout: int)
    ensures NewTimeout(roundTrip, timeout) <= MAX_TIMEOUT
    ensures roundTrip >= 0 && timeout >= 0 ==> 0 <= NewTimeout(roundTrip, timeout) <= Max(roundTrip, timeout)
    ensures roundTrip >= 0 && timeout >= 0 && NewTimeout(roundTrip, timeout) < MAX_TIMEOUT ==>
              Min(roundTrip, timeout) <= NewTimeout(roundTrip, timeout)
  {
    var h := Halved(roundTrip + timeout);
    if roundTrip >= 0 && timeout >= 0 {
      assert 2 * h <= roundTrip + timeout <= 2 * Max(roundTrip, timeout);
      assert 2 * Min(roundTrip, timeout) <= roundTrip + timeout <= 2 * h + 1;
    }
  }

  /** A timeout in [0, MAX_TIMEOUT] stays there after any update with a
      non-negative round trip, so repeated adaptation keeps it in range. */
  lemma {:induction false} NewTimeoutStaysInRange(roundTrip: int, timeout: int)
    requires 0 <= roundTrip && 0 <= timeout <= MAX_TIMEOUT
    ensures 0 <= NewTimeout(roundTrip, timeout) <= MAX_TIMEOUT
  {
    NewTimeoutBounds(roundTrip, timeout);
  }

  class StopAndWait {
    var timeout: int
    const adaptiveTimeout: bool
    var retransmitPacket: Option<TransmitBufferObject>

    constructor (timeout: int, adaptiveTimeout: bool)
      ensures this.timeout == timeout && this.adaptiveTimeout == adaptiveTimeout
      ensures retransmitPacket == None
    {
      this.timeout := timeout;
      this.adaptiveTimeout := adaptiveTimeout;
      retransmitPacket := None;
    }

    /** do_addPacket: the slot is overwritten, held packet or not. */
    method AddPacket(obj: TransmitBufferObject)
      modifies this
      ensures retransmitPacket == Some(obj) && timeout == old(timeout)
    {
      retransmitPacket := Some(obj);
    }

    /** currentPacketReadyForRT: a packet is held and strictly more than
        `timeout` has passed since its last transmission. */
    predicate ReadyForRt(now: int)
      reads this
    {
      retransmitPacket.Some? && now - retransmitPacket.value.info.lastTxTime > timeout
    }

    /** do_getPacketData: the held packet's bytes when it is ready for
        retransmission, its last transmission time becoming `now`; otherwise
        None and no change. */
    method GetPacketData(now: int) returns (span: Option<seq<Byte>>)
      modifies this
      ensures span.Some? <==> old(ReadyForRt(now))
      ensures span.Some? ==> span.value == old(retransmitPacket).value.packet.data
      ensures span.Some? ==> retransmitPacket == Some(UpdateLastTxTime(old(retransmitPacket).value, now))
      ensures span.None? ==> retransmitPacket == old(retransmitPacket)
      ensures timeout == old(timeout)
    {
      if ReadyForRt(now) {
        retransmitPacket := Some(UpdateLastTxTime(retransmitPacket.value, now));
        return Some(retransmitPacket.value.packet.data);
      }
      span := None;
    }

    predicate ReadyForNewPacket()
      reads this
    {
      retransmitPacket.None?
    }

    predicate PacketsPending()
      reads this
    {
      retransmitPacket.Some?
    }

    /** do_acknowledgePacket at time `now`: with nothing held, or for another
        SN, nothing changes; for the held SN the slot empties and, when
        adaptive, the timeout becomes NewTimeout(now - firstTxTime, timeout). */
    method AcknowledgePacket(ack: SeqNum, now: int)
      modifies this
      ensures old(retransmitPacket).None? || ack != old(retransmitPacket).value.info.sequenceNumber ==>
                retransmitPacket == old(retransmitPacket) && timeout == old(timeout)
      ensures old(retransmitPacket).Some? && ack == old(retransmitPacket).value.info.sequenceNumber ==>
                && retransmitPacket == None
                && timeout == (if adaptiveTimeout
                               then NewTimeout(now - old(retransmitPacket).value.info.firstTxTime, old(timeout))
                               else old(timeout))
    {
      if retransmitPacket.None? {
        return;
      }
      if ack == retransmitPacket.value.info.sequenceNumber {
        if adaptiveTimeout {
          var timeSinceFirstTx := now - retransmitPacket.value.info.firstTxTime;
          timeout := Min(Halved(timeSinceFirstTx + timeout), MAX_TIMEOUT);
        }
        retransmitPacket := None;
      }
    }
  }

  /** A run of the adaptive buffer: a packet first sent at 0 with timeout
      50 ms is not due at 10 ms, is due at 60 ms, and its ACK at 70 ms sets
      the timeout to (70 + 50) / 2 = 60 ms; a second ACK changes nothing. */
  method AdaptiveScenario(obj: TransmitBufferObject)
    returns (earlyRetransmit: bool, lateRetransmit: bool, timeoutAfterAck: int, pendingAfterAck: bool)
    requires obj.info.firstTxTime == 0 && obj.info.lastTxTime == 0
    ensures !earlyRetransmit && lateRetransmit && timeoutAfterAck == 60000 && !pendingAfterAck
  {
    var buffer := new StopAndWait(50000, true);
    buffer.AddPacket(obj);
    var early := buffer.GetPacketData(10000);
    earlyRetransmit := early.Some?;
    var late := buffer.GetPacketData(60000);
    lateRetransmit := late.Some?;
    buffer.AcknowledgePacket(obj.info.sequenceNumber, 70000);
    buffer.AcknowledgePacket(obj.info.sequenceNumber, 80000);
    timeoutAfterAck := buffer.timeout;
    pendingAfterAck := buffer.PacketsPending();
  }
}
