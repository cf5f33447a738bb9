/** The Stop-and-Wait resequencing buffer of the current tree: one slot for
    the packet awaiting delivery, and the SN it expects next. A packet with
    the expected SN fills the slot and is ACKed; an earlier SN is re-ACKed
    (its ACK was lost); anything else is ignored.

    The comparison "earlier" is made on raw 16-bit values, so once the SNs
    wrap, the retransmission of the last delivered packet (SN 65535 when
    0 is expected) is no longer re-ACKed and the sender waits forever for an
    ACK (`LostAckAfterWrapAsWritten`). `AddPacketSerial` is the evidently
    intended comparison, in serial-number arithmetic. */
module StopAndWaitRs {
  import opened ArqBasics
  import opened DataPackets
  import opened BufferObjects
  import opened InOrderRuns

  /** `a` comes before `b` in serial-number arithmetic on 16 bits: `b` is at
      most 32767 steps ahead of `a`, counting around the wrap. */
  predicate Before(a: SeqNum, b: SeqNum) {
    0 < Wrap16(b - a) < 0x8000
  }

  /** The SN just delivered always comes before the one now expected, across
      the wrap as elsewhere. */
  lemma {:induction false} PrevIsBefore(e: SeqNum)
    ensures Before(Prev16(e), e)
  {
    if e == 0 {
      assert Prev16(e) == 0xFFFF;
      assert Wrap16(e - 0xFFFF) == 1;
    } else {
      assert Prev16(e) == e - 1;
    }
  }

  /** Away from the wrap (the two SNs less than half the space apart as plain
      numbers) serial order is the plain order the code uses. */
  lemma {:induction false} BeforeAgreesAwayFromWrap(a: SeqNum, b: SeqNum)
    requires -0x8000 < b - a < 0x8000
    ensures Before(a, b) <==> a < b
  {
    if a < b {
      assert Wrap16(b - a) == b - a;
    } else if a > b {
      assert Wrap16(b - a) == b - a + SEQ_MODULUS;
    }
  }

  class StopAndWait {
    var expectedPacketSeqNum: SeqNum
    var packetForDelivery: Option<Packet>
    /** The SN expected first, and every packet delivered so far. */
    ghost const first: SeqNum
    ghost var delivered: seq<Packet>

    /** Delivered packets are the run first, first+1, ... and the held packet,
        if any, carries the SN expected next. */
    ghost predicate Valid()
      reads this
    {
      && Run(delivered, first, expectedPacketSeqNum)
      && (packetForDelivery.Some? ==> HeaderSn(packetForDelivery.value) == expectedPacketSeqNum)
    }

    constructor (firstSeqNum: SeqNum)
      ensures Valid() && first == firstSeqNum && delivered == []
      ensures expectedPacketSeqNum == firstSeqNum && packetForDelivery == None
    {
      expectedPacketSeqNum := firstSeqNum;
      packetForDelivery := None;
      first := firstSeqNum;
      delivered := [];
    }

    /** do_addPacket as written. Full slot: no ACK, no change. Expected SN:
        held and ACKed. A smaller SN: re-ACKed, nothing stored. A larger SN:
        no ACK, no change. The expected SN never moves here. */
    method AddPacket(packet: Packet) returns (ack: Option<SeqNum>)
      requires Valid()
      modifies this
      ensures Valid()
      ensures expectedPacketSeqNum == old(expectedPacketSeqNum) && delivered == old(delivered)
      ensures old(packetForDelivery).Some? ==> ack == None && packetForDelivery == old(packetForDelivery)
      ensures old(packetForDelivery).None? && HeaderSn(packet) == expectedPacketSeqNum ==>
                ack == Some(HeaderSn(packet)) && packetForDelivery == Some(packet)
      ensures old(packetForDelivery).None? && HeaderSn(packet) < expectedPacketSeqNum ==>
                ack == Some(HeaderSn(packet)) && packetForDelivery == None
      ensures old(packetForDelivery).None? && HeaderSn(packet) > expectedPacketSeqNum ==>
                ack == None && packetForDelivery == None
    {
      var receivedSequenceNumber := HeaderSn(packet);
      if packetForDelivery.Some? {
        return None;
      }
      if receivedSequenceNumber == expectedPacketSeqNum {
        packetForDelivery := Some(packet);
        return Some(receivedSequenceNumber);
      } else if receivedSequenceNumber < expectedPacketSeqNum {
        return Some(receivedSequenceNumber);
      }
      ack := None;
    }

    /** do_addPacket with the evidently intended comparison: an SN before the
        expected one in serial-number arithmetic is re-ACKed. */
    method AddPacketSerial(packet: Packet) returns (ack: Option<SeqNum>)
      requires Valid()
      modifies this
      ensures Valid()
      ensures expectedPacketSeqNum == old(expectedPacketSeqNum) && delivered == old(delivered)
      ensures old(packetForDelivery).Some? ==> ack == None && packetForDelivery == old(packetForDelivery)
      ensures old(packetForDelivery).None? && HeaderSn(packet) == expectedPacketSeqNum ==>
                ack == Some(HeaderSn(packet)) && packetForDelivery == Some(packet)
      ensures old(packetForDelivery).None? && Before(HeaderSn(packet), expectedPacketSeqNum) ==>
                ack == Some(HeaderSn(packet)) && packetForDelivery == None
      ensures old(packetForDelivery).None? && HeaderSn(packet) != expectedPacketSeqNum
              && !Before(HeaderSn(packet), expectedPacketSeqNum) ==>
                ack == None && packetForDelivery == None
    {
      var receivedSequenceNumber := HeaderSn(packet);
      if packetForDelivery.Some? {
        return None;
      }
      if receivedSequenceNumber == expectedPacketSeqNum {
        packetForDelivery := Some(packet);
        return Some(receivedSequenceNumber);
      } else if Before(receivedSequenceNumber, expectedPacketSeqNum) {
        return Some(receivedSequenceNumber);
      }
      ack := None;
    }

    predicate PacketsPending()
      reads this
    {
      packetForDelivery.Some?
    }

    /** do_getNextPacket: hands over the held packet, empties the slot and
        expects the next SN; with an empty slot, None and no change. */
    method GetNextPacket() returns (r: Option<Packet>)
      requires Valid()
      modifies this
      ensures Valid()
      ensures r == old(packetForDelivery)
      ensures packetForDelivery == None
      ensures r.Some? ==> expectedPacketSeqNum == Inc16(old(expectedPacketSeqNum)) && delivered == old(delivered) + [r.value]
      ensures r.None? ==> expectedPacketSeqNum == old(expectedPacketSeqNum) && delivered == old(delivered)
    {
      if packetForDelivery.Some? {
        var ret := packetForDelivery.value;
        RunAccept(delivered, first, expectedPacketSeqNum, ret);
        delivered := delivered + [ret];
        packetForDelivery := None;
        expectedPacketSeqNum := Inc16(expectedPacketSeqNum);
        return Some(ret);
      }
      r := None;
    }
  }

  /** The "add packets" test: SN 100 is ACKed and held, and SN 200 is then
      refused while the slot is full. */
  method AddPacketsScenario() returns (ack: Option<SeqNum>, pending: bool, refused: Option<SeqNum>, stillPending: bool)
    ensures ack == Some(100) && pending && refused == None && stillPending
  {
    var rs := new StopAndWait(100);
    ack := rs.AddPacket(TestPacket(100));
    pending := rs.PacketsPending();
    refused := rs.AddPacket(TestPacket(200));
    stillPending := rs.PacketsPending();
  }

  /** The "remove packets" test: 100 then 101 pass through in turn, each
      emptying the slot when taken, and SN 113 is then not ACKed. */
  method RemovePacketsScenario() returns (sns: seq<SeqNum>, emptyAfter: bool, farAhead: Option<SeqNum>)
    ensures sns == [100, 101] && emptyAfter && farAhead == None
  {
    var rs := new StopAndWait(100);
    var ack := rs.AddPacket(TestPacket(100));
    var p := rs.GetNextPacket();
    var none := rs.GetNextPacket();
    ack := rs.AddPacket(TestPacket(101));
    var q := rs.GetNextPacket();
    sns := [HeaderSn(p.value), HeaderSn(q.value)];
    emptyAfter := !rs.PacketsPending() && none == None;
    farAhead := rs.AddPacket(TestPacket(113));
  }

  /** As written: SN 65535 is delivered, its ACK is lost, and the sender's
      retransmission of 65535 is no longer ACKed, since 65535 < 0 fails. */
  method LostAckAfterWrapAsWritten() returns (ack: Option<SeqNum>, reAck: Option<SeqNum>)
    ensures ack == Some(0xFFFF) && reAck == None
  {
    var rs := new StopAndWait(0xFFFF);
    ack := rs.AddPacket(TestPacket(0xFFFF));
    var p := rs.GetNextPacket();
    reAck := rs.AddPacket(TestPacket(0xFFFF));
  }

  /** Corrected: after any delivery, the retransmission of the packet just
      delivered is re-ACKed, wrap or no wrap. */
  method LostAckIsReAcked(firstSeqNum: SeqNum) returns (ack: Option<SeqNum>, reAck: Option<SeqNum>)
    ensures ack == Some(firstSeqNum) && reAck == Some(firstSeqNum)
  {
    var rs := new StopAndWait(firstSeqNum);
    ack := rs.AddPacketSerial(TestPacket(firstSeqNum));
    var p := rs.GetNextPacket();
    PrevIsBefore(rs.expectedPacketSeqNum);
    Inc16Injective(Prev16(rs.expectedPacketSeqNum), firstSeqNum);
    reAck := rs.AddPacketSerial(TestPacket(firstSeqNum));
  }
}
