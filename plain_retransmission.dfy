/** The RetransmissionBuffer class of the older tree (no CRTP): one stored
    packet and a `packetAcked` flag that starts false. The stored object
    before the first addPacket is a default-constructed one whose SN C++
    leaves indeterminate, so the constructor takes it as a parameter.

    As written, addPacket never clears `packetAcked`, so after the first
    matching ACK the buffer never reports a pending packet again
    (`NeverPendingAgain`). `AddPacketResetting` is the evidently intended
    addPacket, with `PendingAgain` showing the property it restores. */
module PlainRetransmission {
  import opened ArqBasics
  import opened BufferObjects

  class RetransmissionBuffer {
    var packetAcked: bool
    var retransmitPacket: TransmitBufferObject

    constructor (initial: TransmitBufferObject)
      ensures !packetAcked && retransmitPacket == initial
    {
      packetAcked := false;
      retransmitPacket := initial;
    }

    /** addPacket as written: the packet is replaced and the flag kept. */
    method AddPacket(obj: TransmitBufferObject)
      modifies this
      ensures retransmitPacket == obj && packetAcked == old(packetAcked)
    {
      retransmitPacket := obj;
    }

    /** addPacket as evidently intended: a new packet is unacknowledged. */
    method AddPacketResetting(obj: TransmitBufferObject)
      modifies this
      ensures retransmitPacket == obj && !packetAcked
    {
      retransmitPacket := obj;
      packetAcked := false;
    }

    /** getRetransmitPacketData: the stored packet's bytes unless it has
        been acknowledged. */
    function GetRetransmitPacketData(): (r: Option<seq<Byte>>)
      reads this
      ensures r.Some? <==> !packetAcked
      ensures r.Some? ==> r.value == retransmitPacket.packet.data
    {
      if packetAcked then None else Some(retransmitPacket.packet.data)
    }

    /** acknowledgePacket: the stored SN sets the flag; any other SN leaves
        it as it is. */
    method AcknowledgePacket(ack: SeqNum)
      modifies this
      ensures retransmitPacket == old(retransmitPacket)
      ensures packetAcked == (old(packetAcked) || ack == retransmitPacket.info.sequenceNumber)
    {
      if ack == retransmitPacket.info.sequenceNumber {
        packetAcked := true;
      }
    }

    function PacketsPending(): (r: bool)
      reads this
      ensures r <==> GetRetransmitPacketData().Some?
    {
      !packetAcked
    }
  }

  /** As written: once a packet has been acknowledged, adding any further
      packet leaves the buffer reporting nothing pending and offering no
      data, so the new packet is never (re)sent. */
  method NeverPendingAgain(initial: TransmitBufferObject, first: TransmitBufferObject, next: TransmitBufferObject)
    returns (pendingAfterAdd: bool, data: Option<seq<Byte>>)
    ensures !pendingAfterAdd && data == None
  {
    var buffer := new RetransmissionBuffer(initial);
    buffer.AddPacket(first);
    buffer.AcknowledgePacket(first.info.sequenceNumber);
    buffer.AddPacket(next);
    pendingAfterAdd := buffer.PacketsPending();
    data := buffer.GetRetransmitPacketData();
  }

  /** Corrected: after the same ACK, the next added packet is pending and
      its bytes are offered for retransmission until its own ACK. */
  method PendingAgain(initial: TransmitBufferObject, first: TransmitBufferObject, next: TransmitBufferObject)
    returns (pendingAfterAdd: bool, data: Option<seq<Byte>>, pendingAfterAck: bool)
    ensures pendingAfterAdd && data == Some(next.packet.data) && !pendingAfterAck
  {
    var buffer := new RetransmissionBuffer(initial);
    buffer.AddPacketResetting(first);
    buffer.AcknowledgePacket(first.info.sequenceNumber);
    buffer.AddPacketResetting(next);
    pendingAfterAdd := buffer.PacketsPending();
    data := buffer.GetRetransmitPacketData();
    buffer.AcknowledgePacket(next.info.sequenceNumber);
    pendingAfterAck := buffer.PacketsPending();
  }
}
