/** StopAndWaitRTBuffer of the older tree: one slot that addPacket
    overwrites, a fixed 1000 ms timeout, and a retransmission once more than
    the timeout has passed since the last transmission (txTime_, the
    `lastTxTime` of the model). The clock is the parameter `now`. */
module FixedStopAndWaitRt {
  import opened ArqBasics
  import opened BufferObjects

  /** 1000 ms in microseconds. */
  const FIXED_TIMEOUT: int := 1000000

  class StopAndWaitRtBuffer {
    const timeout: int
    var retransmitPacket: Option<TransmitBufferObject>

    constructor ()
      ensures timeout == FIXED_TIMEOUT && retransmitPacket == None
    {
      timeout := FIXED_TIMEOUT;
      retransmitPacket := None;
    }

    /** do_addPacket: the slot is overwritten, held packet or not. */
    method AddPacket(obj: TransmitBufferObject)
      modifies this
      ensures retransmitPacket == Some(obj)
    {
      retransmitPacket := Some(obj);
    }

    /** currentPacketReadyForRT: a packet is held and strictly more than
        the timeout has passed since it was last sent. */
    predicate ReadyForRt(now: int)
      reads this
    {
      retransmitPacket.Some? && now - retransmitPacket.value.info.lastTxTime > timeout
    }

    /** do_getPacketData: the held packet's bytes when ready for
        retransmission, its transmission time becoming `now`; else None. */
    method GetPacketData(now: int) returns (span: Option<seq<Byte>>)
      modifies this
      ensures span.Some? <==> old(ReadyForRt(now))
      ensures span.Some? ==> span.value == old(retransmitPacket).value.packet.data
      ensures span.Some? ==> retransmitPacket == Some(UpdateLastTxTime(old(retransmitPacket).value, now))
      ensures span.None? ==> retransmitPacket == old(retransmitPacket)
    {
      if ReadyForRt(now) {
        retransmitPacket := Some(UpdateLastTxTime(retransmitPacket.value, now));
        return Some(retransmitPacket.value.packet.data);
      }
      span := None;
    }

    predicate ReadyForNewPacket()
      reads this
    {
      retransmitPacket.None?
    }

    predicate PacketsPending()
      reads this
    {
      retransmitPacket.Some?
    }

    /** do_acknowledgePacket: the held SN empties the slot and another SN
        keeps it; with nothing held, `.value()` on the empty optional throws
        bad_optional_access. */
    method AcknowledgePacket(ack: SeqNum) returns (thrown: Option<Exception>)
      modifies this
      ensures old(retransmitPacket).None? ==> thrown == Some(BadOptionalAccess) && retransmitPacket == None
      ensures old(retransmitPacket).Some? ==> thrown == None
      ensures old(retransmitPacket).Some? && ack == old(retransmitPacket).value.info.sequenceNumber ==> retransmitPacket == None
      ensures old(retransmitPacket).Some? && ack != old(retransmitPacket).value.info.sequenceNumber ==>
                retransmitPacket == old(retransmitPacket)
    {
      if retransmitPacket.None? {
        return Some(BadOptionalAccess);
      }
      if ack == retransmitPacket.value.info.sequenceNumber {
        retransmitPacket := None;
      }
      thrown := None;
    }
  }

  /** An ACK that arrives before any packet was added is an error, not a
      no-op; after an add, the matching ACK empties the slot. */
  method EarlyAckScenario(obj: TransmitBufferObject) returns (early: Option<Exception>, late: Option<Exception>, pending: bool)
    ensures early == Some(BadOptionalAccess) && late == None && !pending
  {
    var buffer := new StopAndWaitRtBuffer();
    early := buffer.AcknowledgePacket(obj.info.sequenceNumber);
    buffer.AddPacket(obj);
    late := buffer.AcknowledgePacket(obj.info.sequenceNumber);
    pending := buffer.PacketsPending();
  }

  /** A packet sent at time t is due for retransmission at t + 1000001 us
      and not at t + 1000000 us: the comparison is strict. */
  method TimeoutIsStrict(obj: TransmitBufferObject) returns (atTimeout: bool, justAfter: bool)
    ensures !atTimeout && justAfter
  {
    var buffer := new StopAndWaitRtBuffer();
    buffer.AddPacket(obj);
    var t := obj.info.lastTxTime;
    var first := buffer.GetPacketData(t + FIXED_TIMEOUT);
    atTimeout := first.Some?;
    var second := buffer.GetPacketData(t + FIXED_TIMEOUT + 1);
    justAfter := second.Some?;
  }
}
