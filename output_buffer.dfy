/** The receiver's output buffer of the older tree: it accepts only the next
    sequence number in order and queues the accepted packets with their
    reception time. */
module OutputBuffers {
  import opened ArqBasics
  import opened DataPackets
  import opened BufferObjects
  import opened SafeQueues
  import InputBuffers

  /** firstSequenceNumber of the older tree. */
  const FIRST_SEQUENCE_NUMBER: SeqNum := 1

  class OutputBuffer {
    const outputPackets: SafeQueue<ReceiveBufferObject>
    var nextSequenceNumber: SeqNum
    /** Every object ever queued, in order. */
    ghost var accepted: seq<ReceiveBufferObject>

    /** The accepted packets carry the SNs 1, 2, 3, ... (mod 2^16) in order;
        next is the one after the last; the queue holds the newest of them. */
    ghost predicate Valid()
      reads this, outputPackets
    {
      && nextSequenceNumber == Wrap16(FIRST_SEQUENCE_NUMBER + |accepted|)
      && (forall i :: 0 <= i < |accepted| ==> accepted[i].packet.header.sequenceNumber == Wrap16(FIRST_SEQUENCE_NUMBER + i))
      && |outputPackets.contents| <= |accepted|
      && outputPackets.contents == accepted[|accepted| - |outputPackets.contents|..]
    }

    constructor ()
      ensures Valid() && fresh(outputPackets)
      ensures nextSequenceNumber == FIRST_SEQUENCE_NUMBER && outputPackets.contents == []
    {
      nextSequenceNumber := FIRST_SEQUENCE_NUMBER;
      accepted := [];
      outputPackets := new SafeQueue<ReceiveBufferObject>();
    }

    /** addPacket: a packet with the next SN is accepted (next advances, the
        packet is queued with time `now`); any other SN is rejected and nothing
        changes. */
    method AddPacket(packet: Packet, now: int) returns (ok: bool)
      requires Valid()
      modifies this, outputPackets
      ensures Valid()
      ensures ok <==> packet.header.sequenceNumber == old(nextSequenceNumber)
      ensures ok ==> nextSequenceNumber == Inc16(old(nextSequenceNumber))
      ensures ok ==> outputPackets.contents == old(outputPackets.contents) + [ReceiveBufferObject(packet, now)]
      ensures !ok ==> nextSequenceNumber == old(nextSequenceNumber) && accepted == old(accepted)
      ensures !ok ==> outputPackets.contents == old(outputPackets.contents)
    {
      if packet.header.sequenceNumber == nextSequenceNumber {
        IncWrap(FIRST_SEQUENCE_NUMBER + |accepted|);
        nextSequenceNumber := Inc16(nextSequenceNumber);
      } else {
        return false;
      }
      var temp := ReceiveBufferObject(packet, now);
      accepted := accepted + [temp];
      outputPackets.Push(temp);
      ok := true;
    }

    /** getPacket: the wait for a packet is the precondition. */
    method GetPacket() returns (obj: ReceiveBufferObject)
      requires Valid() && outputPackets.contents != []
      modifies outputPackets
      ensures Valid()
      ensures [obj] + outputPackets.contents == old(outputPackets.contents)
    {
      obj := outputPackets.PopWait();
    }

    /** tryGetPacket: the oldest accepted packet still queued, or None. */
    method TryGetPacket() returns (r: Option<ReceiveBufferObject>)
      requires Valid()
      modifies outputPackets
      ensures Valid()
      ensures old(outputPackets.contents) == [] ==> r == None && outputPackets.contents == []
      ensures old(outputPackets.contents) != [] ==> r.Some? && [r.value] + outputPackets.contents == old(outputPackets.contents)
    {
      r := outputPackets.TryPop();
    }
  }

  /** Packets leave the output buffer with consecutive SNs. */
  lemma {:induction false} DeliveredSnsConsecutive(b: OutputBuffer, j: int)
    requires b.Valid()
    requires 0 <= j < |b.outputPackets.contents| - 1
    ensures b.outputPackets.contents[j + 1].packet.header.sequenceNumber
         == Inc16(b.outputPackets.contents[j].packet.header.sequenceNumber)
  {
    var k := |b.accepted| - |b.outputPackets.contents| + j;
    assert b.outputPackets.contents[j] == b.accepted[k] && b.outputPackets.contents[j + 1] == b.accepted[k + 1];
    IncWrap(FIRST_SEQUENCE_NUMBER + k);
  }

  /** End to end in the older tree: the first packet taken from a fresh input
      buffer is accepted by a fresh output buffer, and the same packet again is
      then rejected as a duplicate. */
  method FirstPacketAccepted(now: int) returns (first: bool, duplicate: bool)
    ensures first && !duplicate
  {
    var input := new InputBuffers.InputBuffer.Legacy();
    var packet := new DataPacket();
    input.AddPacket(packet, now);
    assert input.inputPackets.contents[0].packet.header.sequenceNumber == 1;
    var obj := input.GetPacket();
    var output := new OutputBuffer();
    first := output.AddPacket(obj.packet, now);
    duplicate := output.AddPacket(obj.packet, now);
  }
}
