/** The Go-Back-N resequencing buffer: it accepts only the packet carrying
    the next expected SN, queues it for the output buffer and ACKs it.

    The same code serves both trees (the older one under the names
    `expectedSN_` and `rsMutex_`, with a constructor that leaves `expectedSN_`
    uninitialised, so there too the first expected SN is the constructor's
    argument). The class's own comment and the shared tests promise that a
    rejected packet is answered with an ACK for the last in-order SN once one
    has been received, but the code returns no ACK (`AddPacket`,
    `OutOfOrderAsWritten`); `AddPacketReAcking` is that intended behaviour,
    using the `canSendAcks_` flag the class declares. */
module GoBackNRs {
  import opened ArqBasics
  import opened DataPackets
  import opened BufferObjects
  import opened SafeQueues
  import opened InOrderRuns

  class GoBackN {
    const shadowBuffer: SafeQueue<Packet>
    var nextSequenceNumber: SeqNum
    /** Set once an End-of-Tx packet has been accepted; a flag of the
        resequencing-buffer base class, taken to start false. */
    var endOfTxPushed: bool
    var canSendAcks: bool
    ghost const first: SeqNum
    /** Every packet ever accepted, oldest first. */
    ghost var accepted: seq<Packet>

    ghost predicate Valid()
      reads this, shadowBuffer
    {
      && Run(accepted, first, nextSequenceNumber)
      && Suffix(shadowBuffer.contents, accepted)
      && (canSendAcks ==> accepted != [])
    }

    constructor (firstSeqNum: SeqNum)
      ensures Valid() && fresh(shadowBuffer)
      ensures first == firstSeqNum && accepted == [] && shadowBuffer.contents == []
      ensures nextSequenceNumber == firstSeqNum && !endOfTxPushed && !canSendAcks
    {
      shadowBuffer := new SafeQueue<Packet>();
      nextSequenceNumber := firstSeqNum;
      endOfTxPushed := false;
      canSendAcks := false;
      first := firstSeqNum;
      accepted := [];
    }

    /** do_addPacket as written: the expected SN is queued, next advances, an
        End-of-Tx packet sets the flag, and the SN is ACKed; any other SN gets
        no ACK and changes nothing. */
    method AddPacket(packet: Packet) returns (ack: Option<SeqNum>)
      requires Valid()
      modifies this, shadowBuffer
      ensures Valid() && canSendAcks == old(canSendAcks)
      ensures ack.Some? <==> HeaderSn(packet) == old(nextSequenceNumber)
      ensures ack.Some? ==> && ack.value == HeaderSn(packet)
                            && nextSequenceNumber == Inc16(old(nextSequenceNumber))
                            && shadowBuffer.contents == old(shadowBuffer.contents) + [packet]
                            && accepted == old(accepted) + [packet]
                            && endOfTxPushed == (old(endOfTxPushed) || IsEndOfTx(packet))
      ensures ack.None? ==> && nextSequenceNumber == old(nextSequenceNumber)
                            && shadowBuffer.contents == old(shadowBuffer.contents)
                            && accepted == old(accepted) && endOfTxPushed == old(endOfTxPushed)
    {
      var sn := HeaderSn(packet);
      if sn == nextSequenceNumber {
        if IsEndOfTx(packet) {
          endOfTxPushed := true;
        }
        RunAccept(accepted, first, nextSequenceNumber, packet);
        SuffixPush(shadowBuffer.contents, accepted, packet);
        nextSequenceNumber := Inc16(nextSequenceNumber);
        accepted := accepted + [packet];
        shadowBuffer.Push(packet);
        return Some(sn);
      }
      ack := None;
    }

    /** do_addPacket as the class comment and the tests intend: as above, but
        an acceptance enables ACKs, and a rejected packet is answered with
        `next - 1`, the SN of the newest accepted packet, once ACKs are
        enabled. */
    method AddPacketReAcking(packet: Packet) returns (ack: Option<SeqNum>)
      requires Valid()
      modifies this, shadowBuffer
      ensures Valid()
      ensures HeaderSn(packet) == old(nextSequenceNumber) ==>
                && ack == Some(HeaderSn(packet)) && canSendAcks
                && nextSequenceNumber == Inc16(old(nextSequenceNumber))
                && shadowBuffer.contents == old(shadowBuffer.contents) + [packet]
                && accepted == old(accepted) + [packet]
                && endOfTxPushed == (old(endOfTxPushed) || IsEndOfTx(packet))
      ensures HeaderSn(packet) != old(nextSequenceNumber) ==>
                && nextSequenceNumber == old(nextSequenceNumber) && canSendAcks == old(canSendAcks)
                && shadowBuffer.contents == old(shadowBuffer.contents)
                && accepted == old(accepted) && endOfTxPushed == old(endOfTxPushed)
      ensures HeaderSn(packet) != old(nextSequenceNumber) && !canSendAcks ==> ack == None
      ensures HeaderSn(packet) != old(nextSequenceNumber) && canSendAcks ==>
                ack == Some(HeaderSn(accepted[|accepted| - 1]))
    {
      var sn := HeaderSn(packet);
      if sn == nextSequenceNumber {
        canSendAcks := true;
        if IsEndOfTx(packet) {
          endOfTxPushed := true;
        }
        RunAccept(accepted, first, nextSequenceNumber, packet);
        SuffixPush(shadowBuffer.contents, accepted, packet);
        nextSequenceNumber := Inc16(nextSequenceNumber);
        accepted := accepted + [packet];
        shadowBuffer.Push(packet);
        return Some(sn);
      }
      if canSendAcks {
        LastAcceptedSn(accepted, first, nextSequenceNumber);
        return Some(Prev16(nextSequenceNumber));
      }
      ack := None;
    }

    function PacketsPending(): (r: bool)
      reads this, shadowBuffer
      ensures r <==> shadowBuffer.contents != []
    {
      !shadowBuffer.Empty()
    }

    /** do_getNextPacket: the oldest accepted packet not yet taken, or None. */
    method GetNextPacket() returns (r: Option<Packet>)
      requires Valid()
      modifies shadowBuffer
      ensures Valid()
      ensures old(shadowBuffer.contents) == [] ==> r == None && shadowBuffer.contents == []
      ensures old(shadowBuffer.contents) != [] ==> r.Some? && [r.value] + shadowBuffer.contents == old(shadowBuffer.contents)
    {
      r := shadowBuffer.TryPop();
      if r.Some? {
        assert shadowBuffer.contents == old(shadowBuffer.contents)[1..];
        SuffixPop(old(shadowBuffer.contents), accepted);
      }
    }
  }

  /** The in-order and remove tests: `n` packets from `firstSeqNum` on are each
      ACKed with their own SN, then taken out in the same SN order, after which
      nothing is pending. */
  method InOrderScenario(firstSeqNum: SeqNum, n: nat) returns (acks: seq<Option<SeqNum>>, taken: seq<SeqNum>, pendingAfter: bool)
    ensures |acks| == n && |taken| == n
    ensures forall i :: 0 <= i < n ==> acks[i] == Some(Wrap16(firstSeqNum + i))
    ensures forall i :: 0 <= i < n ==> taken[i] == Wrap16(firstSeqNum + i)
    ensures !pendingAfter
  {
    var rs := new GoBackN(firstSeqNum);
    acks := [];
    var i := 0;
    while i < n
      invariant 0 <= i <= n && |acks| == i
      invariant rs.Valid() && rs.first == firstSeqNum
      invariant |rs.accepted| == i && rs.shadowBuffer.contents == rs.accepted
      invariant forall k :: 0 <= k < i ==> acks[k] == Some(Wrap16(firstSeqNum + k))
    {
      var p := TestPacket(Wrap16(firstSeqNum + i));
      assert HeaderSn(p) == rs.nextSequenceNumber;
      var ack := rs.AddPacket(p);
      assert ack == Some(Wrap16(firstSeqNum + i));
      acks := acks + [ack];
      i := i + 1;
    }
    taken := [];
    while i > 0
      invariant 0 <= i <= n && |taken| == n - i
      invariant rs.Valid() && rs.first == firstSeqNum && |rs.accepted| == n
      invariant rs.shadowBuffer.contents == rs.accepted[n - i..]
      invariant forall k :: 0 <= k < n - i ==> taken[k] == Wrap16(firstSeqNum + k)
    {
      ghost var before := rs.shadowBuffer.contents;
      var p := rs.GetNextPacket();
      assert p.value == before[0] == rs.accepted[n - i];
      assert rs.shadowBuffer.contents == before[1..] == rs.accepted[n - (i - 1)..];
      taken := taken + [HeaderSn(p.value)];
      i := i - 1;
    }
    pendingAfter := rs.PacketsPending();
  }

  /** As written, against the out-of-order test: after SN 100 is accepted, a
      second copy of 100 gets no ACK, where the test expects ACK 100. */
  method OutOfOrderAsWritten() returns (ack: Option<SeqNum>, duplicate: Option<SeqNum>)
    ensures ack == Some(100) && duplicate == None
  {
    var rs := new GoBackN(100);
    var p := TestPacket(100);
    assert HeaderSn(p) == 100;
    ack := rs.AddPacket(p);
    assert ack == Some(100) && rs.nextSequenceNumber == 101;
    duplicate := rs.AddPacket(p);
  }

  /** Corrected: after `sn` is accepted, a duplicate of it, the packet two
      ahead and the packet one behind are all answered with ACK `sn`. */
  method OutOfOrder(sn: SeqNum) returns (ack: Option<SeqNum>, duplicate: Option<SeqNum>, ahead: Option<SeqNum>, behind: Option<SeqNum>)
    ensures ack == Some(sn) && duplicate == Some(sn) && ahead == Some(sn) && behind == Some(sn)
  {
    var rs := new GoBackN(sn);
    ack := rs.AddPacketReAcking(TestPacket(sn));
    assert rs.accepted == [TestPacket(sn)];
    duplicate := rs.AddPacketReAcking(TestPacket(sn));
    ahead := rs.AddPacketReAcking(TestPacket(Wrap16(sn + 2)));
    behind := rs.AddPacketReAcking(TestPacket(Wrap16(sn - 1)));
  }
}
