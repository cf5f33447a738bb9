/** The Stop-and-Wait resequencing buffer of the older tree: one slot, an
    expected SN, and an End-of-Tx latch. A packet with the expected SN or the
    one after it fills the slot and becomes the expected SN; once an End-of-Tx
    packet has been handed on, every further packet is dropped unACKed. The
    condition-variable waits become preconditions: adding needs an empty slot
    (or the latch set), taking needs a full one.

    The test `sn == expected + 1` is made after promotion to int, so when the
    expected SN is 65535 the wrapped successor 0 never matches, and a
    transfer that reaches SN 65535 stalls (`StallAsWritten`).
    `AddPacketWrapping` compares with the 16-bit successor instead. The first
    expected SN, named FIRST_SEQUENCE_NUMBER in the constructor but not
    defined in the older tree's headers, is the constructor's argument. */
module LegacyStopAndWaitRs {
  import opened ArqBasics
  import opened DataPackets
  import opened BufferObjects

  class StopAndWait {
    var expectedPacketSeqNum: SeqNum
    var packetForDelivery: Option<Packet>
    var endOfTxPushed: bool

    /** A held packet carries the expected SN. */
    ghost predicate Valid()
      reads this
    {
      packetForDelivery.Some? ==> HeaderSn(packetForDelivery.value) == expectedPacketSeqNum
    }

    constructor (firstSeqNum: SeqNum)
      ensures Valid()
      ensures expectedPacketSeqNum == firstSeqNum && packetForDelivery == None && !endOfTxPushed
    {
      expectedPacketSeqNum := firstSeqNum;
      packetForDelivery := None;
      endOfTxPushed := false;
    }

    /** do_addPacket as written. With the latch set, the slot is emptied and
        nothing is ACKed. Otherwise an SN equal to expected or to expected+1
        (as an int) is held, becomes the expected SN and is ACKed; any other
        SN changes nothing. */
    method AddPacket(packet: Packet) returns (ack: Option<SeqNum>)
      requires Valid() && (packetForDelivery.None? || endOfTxPushed)
      modifies this
      ensures Valid() && endOfTxPushed == old(endOfTxPushed)
      ensures old(endOfTxPushed) ==> && ack == None && packetForDelivery == None
                                     && expectedPacketSeqNum == old(expectedPacketSeqNum)
      ensures !old(endOfTxPushed) && (HeaderSn(packet) == old(expectedPacketSeqNum) || HeaderSn(packet) == old(expectedPacketSeqNum) + 1) ==>
                && ack == Some(HeaderSn(packet)) && packetForDelivery == Some(packet)
                && expectedPacketSeqNum == HeaderSn(packet)
      ensures !old(endOfTxPushed) && HeaderSn(packet) != old(expectedPacketSeqNum) && HeaderSn(packet) != old(expectedPacketSeqNum) + 1 ==>
                && ack == None && packetForDelivery == old(packetForDelivery)
                && expectedPacketSeqNum == old(expectedPacketSeqNum)
    {
      if endOfTxPushed {
        packetForDelivery := None;
        return None;
      }
      var sn := HeaderSn(packet);
      if sn == expectedPacketSeqNum || sn == expectedPacketSeqNum + 1 {
        expectedPacketSeqNum := sn;
        packetForDelivery := Some(packet);
        return Some(sn);
      }
      ack := None;
    }

    /** do_addPacket with the successor taken in 16-bit arithmetic, so that
        65535 is followed by 0. */
    method AddPacketWrapping(packet: Packet) returns (ack: Option<SeqNum>)
      requires Valid() && (packetForDelivery.None? || endOfTxPushed)
      modifies this
      ensures Valid() && endOfTxPushed == old(endOfTxPushed)
      ensures old(endOfTxPushed) ==> && ack == None && packetForDelivery == None
                                     && expectedPacketSeqNum == old(expectedPacketSeqNum)
      ensures !old(endOfTxPushed) && (HeaderSn(packet) == old(expectedPacketSeqNum) || HeaderSn(packet) == Inc16(old(expectedPacketSeqNum))) ==>
                && ack == Some(HeaderSn(packet)) && packetForDelivery == Some(packet)
                && expectedPacketSeqNum == HeaderSn(packet)
      ensures !old(endOfTxPushed) && HeaderSn(packet) != old(expectedPacketSeqNum) && HeaderSn(packet) != Inc16(old(expectedPacketSeqNum)) ==>
                && ack == None && packetForDelivery == old(packetForDelivery)
                && expectedPacketSeqNum == old(expectedPacketSeqNum)
    {
      if endOfTxPushed {
        packetForDelivery := None;
        return None;
      }
      var sn := HeaderSn(packet);
      if sn == expectedPacketSeqNum || sn == Inc16(expectedPacketSeqNum) {
        expectedPacketSeqNum := sn;
        packetForDelivery := Some(packet);
        return Some(sn);
      }
      ack := None;
    }

    predicate PacketsPending()
      reads this
    {
      packetForDelivery.Some?
    }

    /** do_getNextPacket: hands over the held packet and empties the slot;
        handing over an End-of-Tx packet sets the latch. */
    method GetNextPacket() returns (p: Packet)
      requires Valid() && packetForDelivery.Some?
      modifies this
      ensures Valid()
      ensures Some(p) == old(packetForDelivery) && packetForDelivery == None
      ensures endOfTxPushed == (old(endOfTxPushed) || IsEndOfTx(p))
      ensures expectedPacketSeqNum == old(expectedPacketSeqNum)
    {
      p := packetForDelivery.value;
      if IsEndOfTx(p) {
        endOfTxPushed := true;
      }
      packetForDelivery := None;
    }
  }

  /** As written: with SN 65535 delivered, neither the next SN (0, as the
      sender's 16-bit counter wraps) nor any retry of it is ever ACKed. */
  method StallAsWritten(last: Packet, next: Packet) returns (ack: Option<SeqNum>, nextAck: Option<SeqNum>, retryAck: Option<SeqNum>)
    requires HeaderSn(last) == 0xFFFF && !IsEndOfTx(last) && HeaderSn(next) == 0
    ensures ack == Some(0xFFFF) && nextAck == None && retryAck == None
  {
    var rs := new StopAndWait(0xFFFE);
    ack := rs.AddPacket(last);
    var delivered := rs.GetNextPacket();
    nextAck := rs.AddPacket(next);
    retryAck := rs.AddPacket(next);
  }

  /** Corrected: the packet after 65535 is SN 0, and it is accepted. */
  method WrapAccepted(last: Packet, next: Packet) returns (ack: Option<SeqNum>, nextAck: Option<SeqNum>)
    requires HeaderSn(last) == 0xFFFF && !IsEndOfTx(last) && HeaderSn(next) == 0
    ensures ack == Some(0xFFFF) && nextAck == Some(0)
  {
    var rs := new StopAndWait(0xFFFE);
    ack := rs.AddPacketWrapping(last);
    var delivered := rs.GetNextPacket();
    nextAck := rs.AddPacketWrapping(next);
  }

  /** The End-of-Tx latch: once an End-of-Tx packet has been handed on, the
      next packet, even one with the expected SN, is dropped unACKed. */
  method EndOfTxLatch(endOfTx: Packet, late: Packet) returns (ack: Option<SeqNum>, lateAck: Option<SeqNum>, pending: bool)
    requires IsEndOfTx(endOfTx) && HeaderSn(late) == HeaderSn(endOfTx)
    ensures ack == Some(HeaderSn(endOfTx)) && lateAck == None && !pending
  {
    var rs := new StopAndWait(HeaderSn(endOfTx));
    ack := rs.AddPacket(endOfTx);
    var delivered := rs.GetNextPacket();
    lateAck := rs.AddPacket(late);
    pending := rs.PacketsPending();
  }
}
