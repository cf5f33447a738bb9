/** The acknowledgement packet the receiver sends back to the transmitter: a
    single sequence number, serialised exactly as the SN codec does. */
module ControlPackets {
  import opened ArqBasics
  import opened SeqNumCodec

  class ControlPacket {
    /** The sequence number being acknowledged. */
    var sequenceNumber: SeqNum

    constructor (sn: SeqNum)
      ensures sequenceNumber == sn
    {
      sequenceNumber := sn;
    }

    /** Writes the acknowledged SN to the front of `buffer`, with the result
        and bytes of the SN codec. */
    method Serialise(buffer: array<Byte>) returns (ok: bool)
      modifies buffer
      ensures ok <==> buffer.Length >= SEQ_NUM_SIZE
      ensures !ok ==> buffer[..] == old(buffer[..])
      ensures ok ==> buffer[..] == EncodeU16(sequenceNumber) + old(buffer[2..])
    {
      ok := SerialiseSeqNum(sequenceNumber, buffer, 0);
    }

    /** Reads the acknowledged SN from the front of `buffer`; a buffer shorter
        than two bytes fails and leaves the field as it was. */
    method Deserialise(buffer: seq<Byte>) returns (ok: bool)
      modifies this
      ensures ok <==> |buffer| >= SEQ_NUM_SIZE
      ensures !ok ==> sequenceNumber == old(sequenceNumber)
      ensures ok ==> Some(sequenceNumber) == ReadSeqNum(buffer)
    {
      ok, sequenceNumber := DeserialiseSeqNum(sequenceNumber, buffer);
    }
  }

  /** The serialise/deserialise cycle of the control packet: the SN is
      restored even when the field was changed between the two calls, and a
      one-byte buffer can be neither written nor read. */
  method ControlPacketRoundTrip(sn: SeqNum, changed: SeqNum) returns (restored: SeqNum, shortWrite: bool, shortRead: bool)
    ensures restored == sn
    ensures !shortWrite && !shortRead
  {
    var packet := new ControlPacket(sn);
    var small := new Byte[1](_ => 0);
    shortWrite := packet.Serialise(small);
    var buffer := new Byte[2](_ => 0);
    var ok := packet.Serialise(buffer);
    packet.sequenceNumber := changed;
    shortRead := packet.Deserialise(small[..]);
    assert packet.sequenceNumber == changed;
    ReadWrittenSeqNum(sn, []);
    assert buffer[..] == EncodeU16(sn) + [];
    ok := packet.Deserialise(buffer[..]);
    restored := packet.sequenceNumber;
  }
}
