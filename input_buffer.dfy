/** The transmitter's input buffer: packets submitted by the application are
    given consecutive sequence numbers and queued for transmission. The older
    tree's input_buffer.cpp is line for line the same code; it differs only in
    starting the counter at 0, so it is the named constructor `Legacy`. */
module InputBuffers {
  import opened ArqBasics
  import opened DataPackets
  import opened BufferObjects
  import opened SafeQueues

  class InputBuffer {
    const inputPackets: SafeQueue<TransmitBufferObject>
    var lastSequenceNumber: SeqNum
    /** The counter's value when the buffer was made. */
    ghost const initialSequenceNumber: SeqNum
    /** Every object ever queued, in order. */
    ghost var history: seq<TransmitBufferObject>

    /** Queued objects are the newest part of the history; the i-th object
        ever queued carries SN initial+1+i (mod 2^16) in its info and in its
        header; its two times are equal; the counter holds the last SN given. */
    ghost predicate Valid()
      reads this, inputPackets
    {
      && |inputPackets.contents| <= |history|
      && inputPackets.contents == history[|history| - |inputPackets.contents|..]
      && lastSequenceNumber == Wrap16(initialSequenceNumber + |history|)
      && forall i :: 0 <= i < |history| ==> Issued(history[i], Wrap16(initialSequenceNumber + 1 + i))
    }

    /** The state of a freshly added object carrying SN `sn`. */
    ghost predicate Issued(obj: TransmitBufferObject, sn: SeqNum) {
      && WellFormed(obj.packet)
      && obj.info.sequenceNumber == sn
      && obj.packet.header.sequenceNumber == sn
      && obj.info.firstTxTime == obj.info.lastTxTime
    }

    /** The current tree's constructor, whose body is not part of this model:
        the starting counter is a parameter. */
    constructor (lastSequenceNumber: SeqNum)
      ensures Valid() && fresh(inputPackets)
      ensures this.lastSequenceNumber == lastSequenceNumber && inputPackets.contents == []
    {
      this.lastSequenceNumber := lastSequenceNumber;
      initialSequenceNumber := lastSequenceNumber;
      history := [];
      inputPackets := new SafeQueue<TransmitBufferObject>();
    }

    /** The older tree: the counter starts at 0. */
    constructor Legacy()
      ensures Valid() && fresh(inputPackets)
      ensures lastSequenceNumber == 0 && inputPackets.contents == []
    {
      lastSequenceNumber := 0;
      initialSequenceNumber := 0;
      history := [];
      inputPackets := new SafeQueue<TransmitBufferObject>();
    }

    /** getNextInfo: pre-increments the counter (wrapping) and stamps both
        times with `now`. */
    method GetNextInfo(now: int) returns (info: PacketInfo)
      modifies this
      ensures lastSequenceNumber == Inc16(old(lastSequenceNumber))
      ensures info == PacketInfo(now, now, lastSequenceNumber)
      ensures history == old(history)
    {
      lastSequenceNumber := Inc16(lastSequenceNumber);
      info := PacketInfo(now, now, lastSequenceNumber);
    }

    /** addPacket: the packet gets the next SN in its header and is queued
        with its info at the back. */
    method AddPacket(packet: DataPacket, now: int)
      requires Valid() && packet.Valid()
      modifies this, inputPackets, packet
      ensures Valid() && packet.Valid()
      ensures lastSequenceNumber == Inc16(old(lastSequenceNumber))
      ensures packet.Value() == SetSequenceNumber(old(packet.Value()), lastSequenceNumber)
      ensures inputPackets.contents
           == old(inputPackets.contents) + [TransmitBufferObject(packet.Value(), PacketInfo(now, now, lastSequenceNumber))]
    {
      var info := GetNextInfo(now);
      packet.UpdateSequenceNumber(info.sequenceNumber);
      var temp := TransmitBufferObject(packet.Value(), info);
      IncWrap(initialSequenceNumber + |history|);
      history := history + [temp];
      inputPackets.Push(temp);
    }

    /** getPacket: the wait for a packet is the precondition. */
    method GetPacket() returns (obj: TransmitBufferObject)
      requires Valid() && inputPackets.contents != []
      modifies inputPackets
      ensures Valid()
      ensures [obj] + inputPackets.contents == old(inputPackets.contents)
    {
      obj := inputPackets.PopWait();
    }

    /** tryGetPacket: the oldest queued object, or None when there is none. */
    method TryGetPacket() returns (r: Option<TransmitBufferObject>)
      requires Valid()
      modifies inputPackets
      ensures Valid()
      ensures old(inputPackets.contents) == [] ==> r == None && inputPackets.contents == []
      ensures old(inputPackets.contents) != [] ==> r.Some? && [r.value] + inputPackets.contents == old(inputPackets.contents)
    {
      r := inputPackets.TryPop();
    }
  }

  /** Consecutive objects in the queue carry consecutive SNs (wrapping), and
      each header SN matches its info: what Valid promises for any reader. */
  lemma {:induction false} QueuedSnsConsecutive(b: InputBuffer, i: int)
    requires b.Valid()
    requires 0 <= i < |b.inputPackets.contents| - 1
    ensures b.inputPackets.contents[i + 1].info.sequenceNumber == Inc16(b.inputPackets.contents[i].info.sequenceNumber)
    ensures b.inputPackets.contents[i].packet.header.sequenceNumber == b.inputPackets.contents[i].info.sequenceNumber
  {
    var q := b.inputPackets.contents;
    var k := |b.history| - |q| + i;
    assert q[i] == b.history[k] && q[i + 1] == b.history[k + 1];
    IncWrap(b.initialSequenceNumber + 1 + k);
  }

  /** In the older tree the first packet added is given SN 1, the first SN the
      output buffer will accept. */
  method LegacyFirstSequenceNumber(now: int) returns (sn: SeqNum)
    ensures sn == 1
  {
    var buffer := new InputBuffer.Legacy();
    var packet := new DataPacket();
    buffer.AddPacket(packet, now);
    assert buffer.inputPackets.contents[0].info.sequenceNumber == 1;
    var obj := buffer.GetPacket();
    assert obj.info.sequenceNumber == 1;
    sn := obj.packet.header.sequenceNumber;
  }
}
