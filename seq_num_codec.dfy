/** Serialisation of a 16-bit sequence number into (and out of) the front of a
    byte span, in network byte order. A span is modelled as an array together
    with the offset at which the span starts. */
module SeqNumCodec {
  import opened ArqBasics

  /** Number of bytes a serialised sequence number occupies. */
  const SEQ_NUM_SIZE: nat := 2

  /** The sequence number held in the first two bytes of `bytes`, or None if
      there are fewer than two bytes. Bytes past index 1 are ignored. */
  function ReadSeqNum(bytes: seq<Byte>): (r: Option<SeqNum>)
    ensures r.None? <==> |bytes| < SEQ_NUM_SIZE
    ensures r.Some? ==> r.value == (bytes[0] as int) * 256 + bytes[1]
  {
    if |bytes| < SEQ_NUM_SIZE then None else Some(DecodeU16(bytes[0], bytes[1]))
  }

  /** Reading back a written sequence number gives it back, whatever follows. */
  lemma ReadWrittenSeqNum(sn: SeqNum, rest: seq<Byte>)
    ensures ReadSeqNum(EncodeU16(sn) + rest) == Some(sn)
  {
    U16RoundTrip(sn);
  }

  /** Conversely, the first two bytes are exactly the encoding of what is read. */
  lemma WrittenReadSeqNum(bytes: seq<Byte>)
    requires |bytes| >= SEQ_NUM_SIZE
    ensures bytes[..2] == EncodeU16(ReadSeqNum(bytes).value)
  {
    EncodeDecodeU16(bytes[0], bytes[1]);
  }

  /** serialiseSeqNum on the span buffer[pos..]: fails and writes nothing when
      the span is shorter than two bytes, otherwise writes the high byte then
      the low byte and leaves every other byte alone. */
  method SerialiseSeqNum(sn: SeqNum, buffer: array<Byte>, pos: nat) returns (ok: bool)
    requires pos <= buffer.Length
    modifies buffer
    ensures ok <==> buffer.Length - pos >= SEQ_NUM_SIZE
    ensures !ok ==> buffer[..] == old(buffer[..])
    ensures ok ==> buffer[..] == old(buffer[..pos]) + EncodeU16(sn) + old(buffer[pos + 2..])
  {
    if buffer.Length - pos < SEQ_NUM_SIZE {
      return false;
    }
    buffer[pos] := sn / 256;
    buffer[pos + 1] := sn % 256;
    ok := true;
  }

  /** deserialiseSeqNum: `sn` is the caller's variable before the call and
      `sn'` its value afterwards; it is unchanged when the call fails. */
  method DeserialiseSeqNum(sn: SeqNum, buffer: seq<Byte>) returns (ok: bool, sn': SeqNum)
    ensures ok <==> |buffer| >= SEQ_NUM_SIZE
    ensures !ok ==> sn' == sn
    ensures ok ==> Some(sn') == ReadSeqNum(buffer)
  {
    if |buffer| < SEQ_NUM_SIZE {
      return false, sn;
    }
    ok, sn' := true, DecodeU16(buffer[0], buffer[1]);
  }

  /** Every one of the 65536 sequence numbers survives serialising into a
      buffer and deserialising it again, whatever the buffer held before. */
  method SeqNumRoundTrip(sn: SeqNum, buffer: array<Byte>, stale: SeqNum) returns (ok: bool, back: SeqNum)
    requires buffer.Length >= SEQ_NUM_SIZE
    modifies buffer
    ensures ok && back == sn
  {
    var written := SerialiseSeqNum(sn, buffer, 0);
    ReadWrittenSeqNum(sn, buffer[2..]);
    assert buffer[..] == EncodeU16(sn) + buffer[2..];
    ok, back := DeserialiseSeqNum(stale, buffer[..]);
  }
}
