/** The Selective-Repeat resequencing buffer of the current tree as its .cpp
    implements it: packets are accepted in order only (the out-of-order
    window its header declares is not used), and a rejected packet is
    answered with an ACK for the last in-order SN once any packet has been
    accepted. */
module SelectiveRepeatRs {
  import opened ArqBasics
  import opened DataPackets
  import opened BufferObjects
  import opened SafeQueues
  import opened InOrderRuns

  class SelectiveRepeat {
    const shadowBuffer: SafeQueue<Packet>
    var nextSequenceNumber: SeqNum
    var canSendAcks: bool
    ghost const first: SeqNum
    /** Every packet ever accepted, oldest first. */
    ghost var accepted: seq<Packet>

    /** Accepted packets form a run from the first SN; the queue holds the
        newest of them; ACKs are enabled exactly when something was accepted. */
    ghost predicate Valid()
      reads this, shadowBuffer
    {
      && Run(accepted, first, nextSequenceNumber)
      && Suffix(shadowBuffer.contents, accepted)
      && (canSendAcks <==> accepted != [])
    }

    constructor (firstSeqNum: SeqNum)
      ensures Valid() && fresh(shadowBuffer)
      ensures first == firstSeqNum && accepted == [] && shadowBuffer.contents == []
      ensures nextSequenceNumber == firstSeqNum && !canSendAcks
    {
      shadowBuffer := new SafeQueue<Packet>();
      nextSequenceNumber := firstSeqNum;
      canSendAcks := false;
      first := firstSeqNum;
      accepted := [];
    }

    /** do_addPacket: the expected SN enables ACKs, advances next, is queued
        and ACKed. Any other SN changes nothing and is answered with ACK
        `next - 1`, the newest accepted SN, or with nothing if no packet has
        been accepted yet. */
    method AddPacket(packet: Packet) returns (ack: Option<SeqNum>)
      requires Valid()
      modifies this, shadowBuffer
      ensures Valid()
      ensures HeaderSn(packet) == old(nextSequenceNumber) ==>
                && ack == Some(HeaderSn(packet))
                && nextSequenceNumber == Inc16(old(nextSequenceNumber))
                && shadowBuffer.contents == old(shadowBuffer.contents) + [packet]
                && accepted == old(accepted) + [packet]
      ensures HeaderSn(packet) != old(nextSequenceNumber) ==>
                && nextSequenceNumber == old(nextSequenceNumber)
                && shadowBuffer.contents == old(shadowBuffer.contents)
                && accepted == old(accepted)
      ensures HeaderSn(packet) != old(nextSequenceNumber) && old(accepted) == [] ==> ack == None
      ensures HeaderSn(packet) != old(nextSequenceNumber) && old(accepted) != [] ==>
                ack == Some(HeaderSn(accepted[|accepted| - 1]))
    {
      var receivedSeqNum := HeaderSn(packet);
      if receivedSeqNum == nextSequenceNumber {
        canSendAcks := true;
        RunAccept(accepted, first, nextSequenceNumber, packet);
        SuffixPush(shadowBuffer.contents, accepted, packet);
        nextSequenceNumber := Inc16(nextSequenceNumber);
        accepted := accepted + [packet];
        shadowBuffer.Push(packet);
        return Some(receivedSeqNum);
      }
      if canSendAcks {
        LastAcceptedSn(accepted, first, nextSequenceNumber);
        return Some(Prev16(nextSequenceNumber));
      }
      ack := None;
    }

    function PacketsPending(): (r: bool)
      reads this, shadowBuffer
      ensures r <==> shadowBuffer.contents != []
    {
      !shadowBuffer.Empty()
    }

    /** do_getNextPacket: the oldest accepted packet not yet taken, or None. */
    method GetNextPacket() returns (r: Option<Packet>)
      requires Valid()
      modifies shadowBuffer
      ensures Valid()
      ensures old(shadowBuffer.contents) == [] ==> r == None && shadowBuffer.contents == []
      ensures old(shadowBuffer.contents) != [] ==> r.Some? && [r.value] + shadowBuffer.contents == old(shadowBuffer.contents)
    {
      r := shadowBuffer.TryPop();
      if r.Some? {
        assert shadowBuffer.contents == old(shadowBuffer.contents)[1..];
        SuffixPop(old(shadowBuffer.contents), accepted);
      }
    }
  }

  /** A gap in the stream of three consecutive packets: before anything is
      accepted the second gets no ACK; after the first is accepted, the third
      is re-ACKed with the first's SN and not queued; the second is then
      accepted, and the queue delivers the first packet first. */
  method GapScenario(p0: Packet, p1: Packet, p2: Packet)
    returns (stray: Option<SeqNum>, ack: Option<SeqNum>, early: Option<SeqNum>, filled: Option<SeqNum>, firstOut: Option<Packet>)
    requires HeaderSn(p1) == Inc16(HeaderSn(p0)) && HeaderSn(p2) == Inc16(HeaderSn(p1))
    ensures stray == None && ack == Some(HeaderSn(p0)) && early == Some(HeaderSn(p0))
    ensures filled == Some(HeaderSn(p1)) && firstOut == Some(p0)
  {
    var rs := new SelectiveRepeat(HeaderSn(p0));
    stray := rs.AddPacket(p1);
    assert rs.accepted == [] && rs.nextSequenceNumber == HeaderSn(p0);
    ack := rs.AddPacket(p0);
    assert rs.accepted == [p0] && rs.shadowBuffer.contents == [p0];
    assert rs.nextSequenceNumber == HeaderSn(p1) != HeaderSn(p2);
    early := rs.AddPacket(p2);
    assert rs.shadowBuffer.contents == [p0] && rs.nextSequenceNumber == HeaderSn(p1);
    filled := rs.AddPacket(p1);
    assert rs.shadowBuffer.contents == [p0] + [p1];
    firstOut := rs.GetNextPacket();
  }
}
