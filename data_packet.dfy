/** The data packet of the current tree: a 5-byte header (conversation id,
    sequence number, payload length) followed by the payload, held together in
    one byte vector whose first five bytes always hold the serialised header. */
module DataPackets {
  import opened ArqBasics
  import opened SeqNumCodec

  /** Packed size of the header: one id byte, two SN bytes, two length bytes. */
  const HEADER_SIZE: nat := 5
  const MAX_TRANSMISSION_UNIT: nat := 1500
  /** Largest payload: the whole packet then fits one Ethernet frame. */
  const DATA_PKT_MAX_PAYLOAD_SIZE: nat := MAX_TRANSMISSION_UNIT - HEADER_SIZE

  /** A conversation id is one byte. */
  type ConversationId = Byte

  datatype Header = Header(id: ConversationId, sequenceNumber: SeqNum, length: U16)

  /** A packet as a value: its header fields and its whole byte vector. */
  datatype Packet = Packet(header: Header, data: seq<Byte>)

  /** The wire layout of a header: id, then SN and length big-endian. */
  function HeaderBytes(h: Header): (r: seq<Byte>)
    ensures |r| == HEADER_SIZE
    ensures r[0] == h.id
    ensures r[1..3] == EncodeU16(h.sequenceNumber) && r[3..] == EncodeU16(h.length)
  {
    [h.id] + EncodeU16(h.sequenceNumber) + EncodeU16(h.length)
  }

  /** The header held in the first five bytes, or None if there are fewer. */
  function ParseHeader(bytes: seq<Byte>): (r: Option<Header>)
    ensures r.None? <==> |bytes| < HEADER_SIZE
  {
    if |bytes| < HEADER_SIZE then None
    else Some(Header(bytes[0], DecodeU16(bytes[1], bytes[2]), DecodeU16(bytes[3], bytes[4])))
  }

  /** Every header survives serialisation, whatever bytes follow it. */
  lemma {:induction false} ParseHeaderBytes(h: Header, rest: seq<Byte>)
    ensures ParseHeader(HeaderBytes(h) + rest) == Some(h)
  {
    var b := HeaderBytes(h) + rest;
    U16RoundTrip(h.sequenceNumber);
    U16RoundTrip(h.length);
    assert b[1] == EncodeU16(h.sequenceNumber)[0] && b[2] == EncodeU16(h.sequenceNumber)[1];
    assert b[3] == EncodeU16(h.length)[0] && b[4] == EncodeU16(h.length)[1];
  }

  /** The first five bytes of any buffer long enough are the serialised form of
      the header parsed from them: no two headers share a wire form. */
  lemma {:induction false} HeaderBytesParse(bytes: seq<Byte>)
    requires |bytes| >= HEADER_SIZE
    ensures HeaderBytes(ParseHeader(bytes).value) == bytes[..HEADER_SIZE]
  {
    EncodeDecodeU16(bytes[1], bytes[2]);
    EncodeDecodeU16(bytes[3], bytes[4]);
  }

  /** DataPacketHeader::serialise on the span buffer[pos..]: fails and writes
      nothing when the span holds fewer than five bytes; otherwise writes the
      header layout there and nothing elsewhere. */
  method SerialiseHeader(h: Header, buffer: array<Byte>, pos: nat) returns (ok: bool)
    requires pos <= buffer.Length
    modifies buffer
    ensures ok <==> buffer.Length - pos >= HEADER_SIZE
    ensures !ok ==> buffer[..] == old(buffer[..])
    ensures ok ==> buffer[..] == old(buffer[..pos]) + HeaderBytes(h) + old(buffer[pos + HEADER_SIZE..])
  {
    if buffer.Length - pos < HEADER_SIZE {
      return false;
    }
    var p := pos;
    buffer[p] := h.id;
    p := p + 1;
    ok := SerialiseSeqNum(h.sequenceNumber, buffer, p);
    p := p + SEQ_NUM_SIZE;
    buffer[p] := h.length / 256;
    buffer[p + 1] := h.length % 256;
    p := p + 2;
    assert p == pos + HEADER_SIZE;
    assert buffer[..] == old(buffer[..pos]) + HeaderBytes(h) + old(buffer[pos + HEADER_SIZE..]);
  }

  /** DataPacketHeader::deserialise: `h` holds the fields before the call and
      `h'` after it; they are unchanged when fewer than five bytes are given. */
  method DeserialiseHeader(h: Header, buffer: seq<Byte>) returns (ok: bool, h': Header)
    ensures ok <==> |buffer| >= HEADER_SIZE
    ensures !ok ==> h' == h
    ensures ok ==> Some(h') == ParseHeader(buffer)
  {
    if |buffer| < HEADER_SIZE {
      return false, h;
    }
    var pos := 0;
    var id := buffer[pos];
    pos := pos + 1;
    var snOk, sn := DeserialiseSeqNum(h.sequenceNumber, buffer[pos..]);
    pos := pos + SEQ_NUM_SIZE;
    var length := DecodeU16(buffer[pos], buffer[pos + 1]);
    pos := pos + 2;
    ok, h' := true, Header(id, sn, length);
  }

  /** The packet invariant: the byte vector starts with the serialised header. */
  ghost predicate WellFormed(p: Packet) {
    |p.data| >= HEADER_SIZE && p.data[..HEADER_SIZE] == HeaderBytes(p.header)
  }

  /** In a well-formed packet the header can be recovered from the bytes alone,
      which is what the receiving side does. */
  lemma {:induction false} HeaderFromData(p: Packet)
    requires WellFormed(p)
    ensures ParseHeader(p.data) == Some(p.header)
  {
    ParseHeaderBytes(p.header, p.data[HEADER_SIZE..]);
    assert p.data == HeaderBytes(p.header) + p.data[HEADER_SIZE..];
  }

  /** The bytes with the header re-serialised over the first five. */
  function Reserialised(h: Header, data: seq<Byte>): (r: seq<Byte>)
    requires |data| >= HEADER_SIZE
    ensures |r| == |data| && r[..HEADER_SIZE] == HeaderBytes(h) && r[HEADER_SIZE..] == data[HEADER_SIZE..]
  {
    HeaderBytes(h) + data[HEADER_SIZE..]
  }

  /** The payload length updateDataLength stores for a requested length. */
  function ClampedLength(len: nat): (r: U16)
    ensures r <= DATA_PKT_MAX_PAYLOAD_SIZE
    ensures len <= DATA_PKT_MAX_PAYLOAD_SIZE ==> r == len
    ensures len > DATA_PKT_MAX_PAYLOAD_SIZE ==> r == DATA_PKT_MAX_PAYLOAD_SIZE
  {
    if len > DATA_PKT_MAX_PAYLOAD_SIZE then DATA_PKT_MAX_PAYLOAD_SIZE else len
  }

  /** updateDataLength on a packet value: the length is clamped, the vector
      resized to header + length (keeping the payload prefix, zero-filling any
      growth) and the header re-serialised. */
  function SetDataLength(p: Packet, len: nat): (r: Packet)
    ensures WellFormed(r)
    ensures r.header == p.header.(length := r.header.length)
    ensures r.header.length <= DATA_PKT_MAX_PAYLOAD_SIZE
    ensures len <= DATA_PKT_MAX_PAYLOAD_SIZE ==> r.header.length == len
    ensures len > DATA_PKT_MAX_PAYLOAD_SIZE ==> r.header.length == DATA_PKT_MAX_PAYLOAD_SIZE
    ensures |r.data| == HEADER_SIZE + r.header.length
    ensures forall i :: HEADER_SIZE <= i < |r.data| ==> r.data[i] == if i < |p.data| then p.data[i] else 0
  {
    var h := p.header.(length := ClampedLength(len));
    Packet(h, Reserialised(h, Resized(p.data, HEADER_SIZE + h.length)))
  }

  /** updateHeader: take the header, then apply its length as above. */
  function SetHeader(p: Packet, hdr: Header): (r: Packet)
    ensures WellFormed(r)
    ensures r.header == hdr.(length := ClampedLength(hdr.length))
    ensures |r.data| == HEADER_SIZE + r.header.length
  {
    SetDataLength(p.(header := hdr), hdr.length)
  }

  /** updateSequenceNumber: only the SN field and its two wire bytes change. */
  function SetSequenceNumber(p: Packet, sn: SeqNum): (r: Packet)
    requires WellFormed(p)
    ensures WellFormed(r)
    ensures r.header == p.header.(sequenceNumber := sn)
    ensures |r.data| == |p.data|
    ensures forall i :: 0 <= i < |p.data| && !(1 <= i < 3) ==> r.data[i] == p.data[i]
  {
    var h := p.header.(sequenceNumber := sn);
    Packet(h, Reserialised(h, p.data))
  }

  /** updateConversationID: only the id field and its wire byte change. */
  function SetConversationId(p: Packet, id: ConversationId): (r: Packet)
    requires WellFormed(p)
    ensures WellFormed(r)
    ensures r.header == p.header.(id := id)
    ensures |r.data| == |p.data|
    ensures forall i :: 1 <= i < |p.data| ==> r.data[i] == p.data[i]
  {
    var h := p.header.(id := id);
    Packet(h, Reserialised(h, p.data))
  }

  /** A packet with payload length zero marks the end of a transmission. */
  predicate IsEndOfTx(p: Packet) {
    p.header.length == 0
  }

  /** End-of-Tx can be read off the two length bytes on the wire. */
  lemma EndOfTxOnWire(p: Packet)
    requires WellFormed(p)
    ensures IsEndOfTx(p) <==> p.data[3] == 0 && p.data[4] == 0
  {
    assert p.data[3..5] == HeaderBytes(p.header)[3..];
  }

  /** Setting the length to zero always yields a bare 5-byte End-of-Tx packet. */
  lemma ZeroLengthIsEndOfTx(p: Packet)
    ensures IsEndOfTx(SetDataLength(p, 0)) && SetDataLength(p, 0).data == HeaderBytes(p.header.(length := 0))
  {
    var r := SetDataLength(p, 0);
    assert r.data == r.data[..HEADER_SIZE];
  }

  /** Repeating updateDataLength with the same length changes nothing more. */
  lemma {:induction false} SetDataLengthIdempotent(p: Packet, len: nat)
    ensures SetDataLength(SetDataLength(p, len), len) == SetDataLength(p, len)
  {
    var q := SetDataLength(p, len);
    var r := SetDataLength(q, len);
    assert r.header == q.header;
    assert r.data[..HEADER_SIZE] == q.data[..HEADER_SIZE];
    assert r.data[HEADER_SIZE..] == q.data[HEADER_SIZE..];
    assert r.data == r.data[..HEADER_SIZE] + r.data[HEADER_SIZE..];
    assert q.data == q.data[..HEADER_SIZE] + q.data[HEADER_SIZE..];
  }

  /** Changing the SN and then reading the header back from the bytes gives the
      new SN with the other fields as before: what the receiver will see. */
  lemma SequenceNumberOnWire(p: Packet, sn: SeqNum)
    requires WellFormed(p)
    ensures ParseHeader(SetSequenceNumber(p, sn).data) == Some(p.header.(sequenceNumber := sn))
  {
    HeaderFromData(SetSequenceNumber(p, sn));
  }

  /** The C++ DataPacket: the header struct and the byte vector, kept in step. */
  class DataPacket {
    var header: Header
    var data: seq<Byte>

    ghost predicate Valid()
      reads this
    {
      WellFormed(Value())
    }

    function Value(): Packet
      reads this
    {
      Packet(header, data)
    }

    /** The default packet: zero header, then a zero length applied, so a
        5-byte End-of-Tx packet. */
    constructor ()
      ensures Valid() && IsEndOfTx(Value())
      ensures header == Header(0, 0, 0) && |data| == HEADER_SIZE
    {
      header := Header(0, 0, 0);
      data := [];
      new;
      UpdateDataLength(0);
      assert data == data[..HEADER_SIZE];
    }

    /** Tx side: construct from a header; its length is applied (clamped) and
        the payload is zero-filled. */
    constructor FromHeader(hdr: Header)
      ensures Valid()
      ensures header == hdr.(length := ClampedLength(hdr.length))
      ensures data == HeaderBytes(header) + Zeros(header.length)
    {
      header := Header(0, 0, 0);
      data := [];
      new;
      UpdateHeader(hdr);
      assert data == data[..HEADER_SIZE] + data[HEADER_SIZE..];
    }

    /** Rx side: construct from serial data, kept verbatim. Fewer than five
        bytes give the DataPacketException that the header's size check
        intends; the header read span is a five-byte subspan, so on shorter
        data the code reads past the end instead. */
    static method FromSerialData(serialData: seq<Byte>) returns (r: Result<DataPacket>)
      ensures r.Err? <==> |serialData| < HEADER_SIZE
      ensures r.Err? ==> r.error == DataPacketException
      ensures r.Ok? ==> fresh(r.value) && r.value.Valid() && r.value.data == serialData
      ensures r.Ok? ==> Some(r.value.header) == ParseHeader(serialData)
    {
      var p := new DataPacket();
      p.data := serialData;
      var ok, h := DeserialiseHeader(p.header, p.data);
      if !ok {
        return Err(DataPacketException);
      }
      p.header := h;
      HeaderBytesParse(serialData);
      r := Ok(p);
    }

    /** Writes the header fields over the first five bytes. */
    method SerialiseHeaderInPlace()
      requires |data| >= HEADER_SIZE
      modifies this
      ensures header == old(header)
      ensures data == Reserialised(header, old(data))
    {
      data := HeaderBytes(header) + data[HEADER_SIZE..];
    }

    method UpdateHeader(hdr: Header)
      modifies this
      ensures Valid() && Value() == SetHeader(old(Value()), hdr)
    {
      header := hdr;
      UpdateDataLength(hdr.length);
    }

    method UpdateSequenceNumber(sn: SeqNum)
      requires Valid()
      modifies this
      ensures Valid() && Value() == SetSequenceNumber(old(Value()), sn)
    {
      header := header.(sequenceNumber := sn);
      SerialiseHeaderInPlace();
    }

    method UpdateConversationId(id: ConversationId)
      requires Valid()
      modifies this
      ensures Valid() && Value() == SetConversationId(old(Value()), id)
    {
      header := header.(id := id);
      SerialiseHeaderInPlace();
    }

    method UpdateDataLength(len: nat)
      modifies this
      ensures Valid() && Value() == SetDataLength(old(Value()), len)
    {
      if len > DATA_PKT_MAX_PAYLOAD_SIZE {
        header := header.(length := DATA_PKT_MAX_PAYLOAD_SIZE);
      } else {
        header := header.(length := len);
      }
      data := Resized(data, HEADER_SIZE + header.length);
      SerialiseHeaderInPlace();
    }

    function IsEndOfTxPacket(): (r: bool)
      reads this
      ensures r <==> IsEndOfTx(Value())
    {
      header.length == 0
    }
  }
}
