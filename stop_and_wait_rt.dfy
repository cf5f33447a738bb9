/** The Stop-and-Wait retransmission buffer of the current tree: at most one
    packet awaits acknowledgement. Whether a packet has timed out is decided by
    the base class's isPacketTimedOut, whose body is not part of this model, so
    it is the parameter `isTimedOut`. */
module StopAndWaitRt {
  import opened ArqBasics
  import opened DataPackets
  import opened BufferObjects

  class StopAndWait {
    const timeout: int
    var retransmitPacket: Option<TransmitBufferObject>

    constructor (timeout: int)
      ensures this.timeout == timeout && retransmitPacket == None
    {
      this.timeout := timeout;
      retransmitPacket := None;
    }

    /** do_addPacket: a held packet makes this throw ArqProtocolException and
        stay as it is; otherwise the packet is stored. */
    method AddPacket(obj: TransmitBufferObject) returns (thrown: Option<Exception>)
      modifies this
      ensures old(retransmitPacket).Some? ==> thrown == Some(ArqProtocolException) && retransmitPacket == old(retransmitPacket)
      ensures old(retransmitPacket).None? ==> thrown == None && retransmitPacket == Some(obj)
    {
      if retransmitPacket.Some? {
        return Some(ArqProtocolException);
      }
      retransmitPacket := Some(obj);
      thrown := None;
    }

    /** do_tryGetPacketSpan: the bytes of the held packet when it has timed out,
        its last transmission time then becoming `now`; otherwise None and no
        change. */
    method TryGetPacketSpan(now: int, isTimedOut: TransmitBufferObject -> bool) returns (span: Option<seq<Byte>>)
      modifies this
      ensures span.Some? <==> old(retransmitPacket).Some? && isTimedOut(old(retransmitPacket).value)
      ensures span.Some? ==> span.value == old(retransmitPacket).value.packet.data
      ensures span.Some? ==> retransmitPacket == Some(UpdateLastTxTime(old(retransmitPacket).value, now))
      ensures span.None? ==> retransmitPacket == old(retransmitPacket)
    {
      if retransmitPacket.Some? && isTimedOut(retransmitPacket.value) {
        retransmitPacket := Some(UpdateLastTxTime(retransmitPacket.value, now));
        return Some(retransmitPacket.value.packet.data);
      }
      span := None;
    }

    predicate ReadyForNewPacket()
      reads this
    {
      retransmitPacket.None?
    }

    predicate PacketsPending()
      reads this
    {
      retransmitPacket.Some?
    }

    /** do_acknowledgePacket: an ACK for the held SN empties the slot; any
        other ACK, and any ACK on an empty slot, changes nothing. */
    method AcknowledgePacket(ack: SeqNum)
      modifies this
      ensures old(retransmitPacket).Some? && ack == old(retransmitPacket).value.info.sequenceNumber
              ==> retransmitPacket == None
      ensures !(old(retransmitPacket).Some? && ack == old(retransmitPacket).value.info.sequenceNumber)
              ==> retransmitPacket == old(retransmitPacket)
    {
      if retransmitPacket.None? {
        return;
      }
      if ack == retransmitPacket.value.info.sequenceNumber {
        retransmitPacket := None;
      }
    }
  }

  /** Exactly one of "ready for a new packet" and "packets pending" holds. */
  lemma ReadyIffNotPending(b: StopAndWait)
    ensures b.ReadyForNewPacket() <==> !b.PacketsPending()
  {
  }

  /** A packet as the tests build it: a default packet carrying SN `sn`. */
  function TestObject(sn: SeqNum): (obj: TransmitBufferObject)
    ensures WellFormed(obj.packet) && obj.info.sequenceNumber == sn
    ensures ParseHeader(obj.packet.data) == Some(obj.packet.header) && obj.packet.header.sequenceNumber == sn
  {
    var p := SetSequenceNumber(SetDataLength(Packet(Header(0, 0, 0), []), 0), sn);
    HeaderFromData(p);
    TransmitBufferObject(p, PacketInfo(0, 0, sn))
  }

  /** The add/acknowledge sequence of the Stop-and-Wait tests: a second add
      is refused, a wrong ACK keeps the packet (which still decodes to its
      SN), the right ACK empties the buffer, and a repeated ACK is harmless. */
  method AcknowledgeScenario(now: int, isTimedOut: TransmitBufferObject -> bool)
    returns (refused: bool, keptAfterWrongAck: bool, emptyAfterAck: bool, emptyAfterRepeat: bool)
    ensures refused && keptAfterWrongAck && emptyAfterAck && emptyAfterRepeat
  {
    var buffer := new StopAndWait(1000000000);
    var thrown := buffer.AddPacket(TestObject(100));
    thrown := buffer.AddPacket(TestObject(100));
    refused := thrown == Some(ArqProtocolException);
    buffer.AcknowledgePacket(100);
    thrown := buffer.AddPacket(TestObject(200));
    buffer.AcknowledgePacket(100);
    keptAfterWrongAck := buffer.PacketsPending()
      && ParseHeader(buffer.retransmitPacket.value.packet.data).value.sequenceNumber == 200;
    buffer.AcknowledgePacket(200);
    emptyAfterAck := buffer.ReadyForNewPacket() && !buffer.PacketsPending();
    var span := buffer.TryGetPacketSpan(now, isTimedOut);
    buffer.AcknowledgePacket(200);
    emptyAfterRepeat := buffer.ReadyForNewPacket() && span == None;
  }
}
