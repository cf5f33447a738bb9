/** The records carried through the transmit and receive paths: a packet with
    its transmission bookkeeping, and a packet with its reception time. Times
    are integers in microseconds. */
module BufferObjects {
  import opened ArqBasics
  import opened DataPackets

  datatype PacketInfo = PacketInfo(firstTxTime: int, lastTxTime: int, sequenceNumber: SeqNum)

  datatype TransmitBufferObject = TransmitBufferObject(packet: Packet, info: PacketInfo)

  datatype ReceiveBufferObject = ReceiveBufferObject(packet: Packet, rxTime: int)

  /** TransmitBufferObject::updateLastTxTime: only the last transmission time
      moves. */
  function UpdateLastTxTime(obj: TransmitBufferObject, now: int): (r: TransmitBufferObject)
    ensures r.info.lastTxTime == now
    ensures r.packet == obj.packet
    ensures r.info.firstTxTime == obj.info.firstTxTime && r.info.sequenceNumber == obj.info.sequenceNumber
  {
    obj.(info := obj.info.(lastTxTime := now))
  }

  /** The sequence number carried in the packet's header. */
  function HeaderSn(p: Packet): SeqNum {
    p.header.sequenceNumber
  }
}
