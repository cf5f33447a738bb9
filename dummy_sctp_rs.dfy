/** The dummy-SCTP resequencing buffer of the current tree. SCTP delivers
    packets in order but padded with zeros to the MTU, so the buffer checks
    the padding, keeps the first DATA_PKT_MAX_PAYLOAD_SIZE bytes, and accepts
    the packet if its SN is the expected one. The payload length that fixes
    where the padding starts is a parameter; so is the first expected SN,
    which the constructor's definition leaves uninitialised. */
module DummySctpRs {
  import opened ArqBasics
  import opened DataPackets
  import opened BufferObjects
  import opened SafeQueues
  import opened InOrderRuns

  /** The SN held in bytes 1 and 2 of a received buffer. */
  function WireSn(bytes: seq<Byte>): SeqNum
    requires |bytes| >= HEADER_SIZE
  {
    ParseHeader(bytes).value.sequenceNumber
  }

  /** What the buffer demands of a received packet: at least MTU bytes, with
      every byte from the end of a full packet up to the MTU zero. */
  ghost predicate Padded(data: seq<Byte>, packetPayloadLength: nat) {
    && |data| >= MAX_TRANSMISSION_UNIT
    && forall i :: packetPayloadLength + HEADER_SIZE <= i < MAX_TRANSMISSION_UNIT ==> data[i] == 0
  }

  /** The packet the buffer queues for a received buffer: its first
      DATA_PKT_MAX_PAYLOAD_SIZE bytes, header read from them. */
  function Trimmed(data: seq<Byte>): (r: Packet)
    requires |data| >= DATA_PKT_MAX_PAYLOAD_SIZE
    ensures r.data == data[..DATA_PKT_MAX_PAYLOAD_SIZE] && WellFormed(r)
    ensures HeaderSn(r) == WireSn(data)
  {
    var t := data[..DATA_PKT_MAX_PAYLOAD_SIZE];
    HeaderBytesParse(t);
    Packet(ParseHeader(t).value, t)
  }

  class DummySctp {
    const packetPayloadLength: nat
    const shadowBuffer: SafeQueue<Packet>
    var nextSequenceNumber: SeqNum
    ghost const first: SeqNum
    /** Every packet ever accepted, oldest first. */
    ghost var accepted: seq<Packet>

    ghost predicate Valid()
      reads this, shadowBuffer
    {
      Run(accepted, first, nextSequenceNumber) && Suffix(shadowBuffer.contents, accepted)
    }

    constructor (packetPayloadLength: nat, firstSeqNum: SeqNum)
      ensures Valid() && fresh(shadowBuffer) && this.packetPayloadLength == packetPayloadLength
      ensures first == firstSeqNum && accepted == [] && shadowBuffer.contents == []
      ensures nextSequenceNumber == firstSeqNum
    {
      this.packetPayloadLength := packetPayloadLength;
      shadowBuffer := new SafeQueue<Packet>();
      nextSequenceNumber := firstSeqNum;
      first := firstSeqNum;
      accepted := [];
    }

    /** do_addPacket: the padding is asserted, the buffer trimmed and its SN
        read; the expected SN is queued (trimmed), ACKed, and next advances;
        any other SN gets no ACK and changes nothing. */
    method AddPacket(packet: Packet) returns (ack: Option<SeqNum>)
      requires Valid() && Padded(packet.data, packetPayloadLength)
      modifies this, shadowBuffer
      ensures Valid()
      ensures ack.Some? <==> WireSn(packet.data) == old(nextSequenceNumber)
      ensures ack.Some? ==> && ack.value == WireSn(packet.data)
                            && nextSequenceNumber == Inc16(old(nextSequenceNumber))
                            && shadowBuffer.contents == old(shadowBuffer.contents) + [Trimmed(packet.data)]
                            && accepted == old(accepted) + [Trimmed(packet.data)]
      ensures ack.None? ==> && nextSequenceNumber == old(nextSequenceNumber)
                            && shadowBuffer.contents == old(shadowBuffer.contents) && accepted == old(accepted)
    {
      var pktSpan := packet.data;
      var packetLen := packetPayloadLength + HEADER_SIZE;
      var i := packetLen;
      while i < MAX_TRANSMISSION_UNIT
        invariant packetLen <= i
        invariant forall j :: packetLen <= j < i && j < MAX_TRANSMISSION_UNIT ==> pktSpan[j] == 0
      {
        assert pktSpan[i] == 0;
        i := i + 1;
      }
      var pktSpanTrimmed := pktSpan[..DATA_PKT_MAX_PAYLOAD_SIZE];
      var parsed := DataPacket.FromSerialData(pktSpanTrimmed);
      var receivedSequenceNumber := parsed.value.header.sequenceNumber;
      if receivedSequenceNumber != nextSequenceNumber {
        return None;
      }
      var trimmed := Packet(parsed.value.header, pktSpanTrimmed);
      assert trimmed == Trimmed(packet.data);
      RunAccept(accepted, first, nextSequenceNumber, trimmed);
      SuffixPush(shadowBuffer.contents, accepted, trimmed);
      accepted := accepted + [trimmed];
      shadowBuffer.Push(trimmed);
      nextSequenceNumber := Inc16(nextSequenceNumber);
      ack := Some(receivedSequenceNumber);
    }

    function PacketsPending(): (r: bool)
      reads this, shadowBuffer
      ensures r <==> shadowBuffer.contents != []
    {
      !shadowBuffer.Empty()
    }

    /** do_getNextPacket: the oldest accepted packet not yet taken, or None. */
    method GetNextPacket() returns (r: Option<Packet>)
      requires Valid()
      modifies shadowBuffer
      ensures Valid()
      ensures old(shadowBuffer.contents) == [] ==> r == None && shadowBuffer.contents == []
      ensures old(shadowBuffer.contents) != [] ==> r.Some? && [r.value] + shadowBuffer.contents == old(shadowBuffer.contents)
    {
      r := shadowBuffer.TryPop();
      if r.Some? {
        assert shadowBuffer.contents == old(shadowBuffer.contents)[1..];
        SuffixPop(old(shadowBuffer.contents), accepted);
      }
    }
  }

  /** A full MTU-sized buffer for header `h`: header bytes then zeros. */
  function PaddedPacket(h: Header): (r: Packet)
    ensures |r.data| == MAX_TRANSMISSION_UNIT && WireSn(r.data) == h.sequenceNumber
    ensures forall i :: HEADER_SIZE <= i < MAX_TRANSMISSION_UNIT ==> r.data[i] == 0
  {
    ParseHeaderBytes(h, Zeros(DATA_PKT_MAX_PAYLOAD_SIZE));
    Packet(h, HeaderBytes(h) + Zeros(DATA_PKT_MAX_PAYLOAD_SIZE))
  }

  /** The duplicate test: a padded packet with the expected SN is ACKed and
      queued trimmed to 1495 bytes; the same packet again gets no ACK. */
  method DuplicateScenario(packetPayloadLength: nat, h: Header)
    returns (ack: Option<SeqNum>, duplicate: Option<SeqNum>, queued: seq<Packet>)
    ensures ack == Some(h.sequenceNumber) && duplicate == None
    ensures |queued| == 1 && |queued[0].data| == DATA_PKT_MAX_PAYLOAD_SIZE && HeaderSn(queued[0]) == h.sequenceNumber
  {
    var rs := new DummySctp(packetPayloadLength, h.sequenceNumber);
    var p := PaddedPacket(h);
    ack := rs.AddPacket(p);
    assert rs.nextSequenceNumber == Inc16(h.sequenceNumber) != h.sequenceNumber;
    duplicate := rs.AddPacket(p);
    queued := rs.shadowBuffer.contents;
  }
}
