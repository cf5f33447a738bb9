/** The data packet of the older tree. The header has the same five-byte wire
    layout as the current one, but the SN is written inline with htons, and the
    payload bound DATA_PKT_MAX_SIZE is defined outside the files modelled here,
    so it is the field `maxSize`. */
module LegacyDataPackets {
  import opened ArqBasics
  import opened DataPackets

  /** DataPacketHeader::serialise (older tree) on the span buffer[pos..]. */
  method SerialiseLegacyHeader(h: Header, buffer: array<Byte>, pos: nat) returns (ok: bool)
    requires pos <= buffer.Length
    modifies buffer
    ensures ok <==> buffer.Length - pos >= HEADER_SIZE
    ensures !ok ==> buffer[..] == old(buffer[..])
    ensures ok ==> buffer[..] == old(buffer[..pos]) + HeaderBytes(h) + old(buffer[pos + HEADER_SIZE..])
  {
    if buffer.Length - pos < HEADER_SIZE {
      return false;
    }
    var p := pos;
    buffer[p] := h.id;
    p := p + 1;
    var temp := EncodeU16(h.sequenceNumber);
    buffer[p], buffer[p + 1] := temp[0], temp[1];
    p := p + 2;
    temp := EncodeU16(h.length);
    buffer[p], buffer[p + 1] := temp[0], temp[1];
    p := p + 2;
    assert buffer[..] == old(buffer[..pos]) + HeaderBytes(h) + old(buffer[pos + HEADER_SIZE..]);
    ok := true;
  }

  /** DataPacketHeader::deserialise of the older data_packet.cpp: `h` before,
      `h'` after; unchanged when fewer than five bytes are given. */
  method DeserialiseLegacyHeader(h: Header, buffer: seq<Byte>) returns (ok: bool, h': Header)
    ensures ok <==> |buffer| >= HEADER_SIZE
    ensures !ok ==> h' == h
    ensures ok ==> Some(h') == ParseHeader(buffer)
  {
    if |buffer| < HEADER_SIZE {
      return false, h;
    }
    var id := buffer[0];
    var sn := DecodeU16(buffer[1], buffer[2]);
    var length := DecodeU16(buffer[3], buffer[4]);
    ok, h' := true, Header(id, sn, length);
  }

  /** The inline DataPacketHeader::deserialise of the older data_packet.hpp as
      written: both memcpy calls copy from the uninitialised local `temp` into
      the buffer instead of from the buffer into `temp`. `stale` stands for the
      indeterminate bytes of `temp`; the buffer is overwritten with them and the
      SN and length are both read from them. */
  method DeserialiseHeaderAsWritten(h: Header, buffer: array<Byte>, stale: seq<Byte>) returns (ok: bool, h': Header)
    requires |stale| == 2
    modifies buffer
    ensures ok <==> buffer.Length >= HEADER_SIZE
    ensures !ok ==> h' == h && buffer[..] == old(buffer[..])
    ensures ok ==> h' == Header(old(buffer[0]), DecodeU16(stale[0], stale[1]), DecodeU16(stale[0], stale[1]))
    ensures ok ==> buffer[..] == old(buffer[..1]) + stale + stale + old(buffer[HEADER_SIZE..])
  {
    if buffer.Length < HEADER_SIZE {
      return false, h;
    }
    var pos := 0;
    var id := buffer[pos];
    pos := pos + 1;
    buffer[pos], buffer[pos + 1] := stale[0], stale[1];
    var sn := DecodeU16(stale[0], stale[1]);
    pos := pos + 2;
    buffer[pos], buffer[pos + 1] := stale[0], stale[1];
    var length := DecodeU16(stale[0], stale[1]);
    pos := pos + 2;
    assert buffer[..] == old(buffer[..1]) + stale + stale + old(buffer[HEADER_SIZE..]);
    ok, h' := true, Header(id, sn, length);
  }

  /** The header test of the older tree run against the inline deserialise,
      for any header and whatever bytes `temp` holds: the id survives, the SN
      and the length come back equal, so a header whose SN differs from its
      length (as the test's {0x4F, 0xE810, 0x12} does) fails the round trip. */
  method HeaderTestAsWritten(before: Header, stale: seq<Byte>) returns (after: Header)
    requires |stale| == 2
    ensures after.id == before.id && after.sequenceNumber == after.length
    ensures before.sequenceNumber != before.length ==> after != before
    ensures stale == [0, 0] ==> after == before.(sequenceNumber := 0, length := 0)
  {
    var buffer := new Byte[HEADER_SIZE](_ => 0);
    var ok := SerialiseLegacyHeader(before, buffer, 0);
    assert buffer[0] == before.id;
    ok, after := DeserialiseHeaderAsWritten(Header(0, 0, 0), buffer, stale);
  }

  /** The same test against the data_packet.cpp deserialise: a four-byte
      buffer cannot be written, a five-byte one round-trips the header. */
  method HeaderTest(before: Header) returns (shortOk: bool, ok: bool, after: Header)
    ensures !shortOk && ok && after == before
  {
    var short := new Byte[HEADER_SIZE - 1](_ => 0);
    shortOk := SerialiseLegacyHeader(before, short, 0);
    var buffer := new Byte[HEADER_SIZE](_ => 0);
    var written := SerialiseLegacyHeader(before, buffer, 0);
    ParseHeaderBytes(before, []);
    assert buffer[..] == HeaderBytes(before) + [];
    ok, after := DeserialiseLegacyHeader(Header(0, 0, 0), buffer[..]);
  }

  /** The length setDataLength stores for a requested length. */
  function LegacyClampedLength(len: nat, maxSize: U16): (r: U16)
    ensures r <= maxSize
    ensures len <= maxSize ==> r == len
    ensures len > maxSize ==> r == maxSize
  {
    if len > maxSize then maxSize else len
  }

  /** setDataLength on a packet value: clamp to maxSize, resize the vector to
      header + length, re-serialise the header. */
  function LegacySetDataLength(p: Packet, len: nat, maxSize: U16): (r: Packet)
    ensures WellFormed(r)
    ensures r.header == p.header.(length := LegacyClampedLength(len, maxSize))
    ensures |r.data| == HEADER_SIZE + r.header.length
    ensures forall i :: HEADER_SIZE <= i < |r.data| ==> r.data[i] == if i < |p.data| then p.data[i] else 0
  {
    var h := p.header.(length := LegacyClampedLength(len, maxSize));
    Packet(h, Reserialised(h, Resized(p.data, HEADER_SIZE + h.length)))
  }

  /** setHeader: copy the header, then apply its length, so the stored length
      is the clamped one. */
  function LegacySetHeader(p: Packet, hdr: Header, maxSize: U16): (r: Packet)
    ensures WellFormed(r)
    ensures r.header.id == hdr.id && r.header.sequenceNumber == hdr.sequenceNumber
    ensures r.header.length == LegacyClampedLength(hdr.length, maxSize)
    ensures r.header.length <= maxSize && (hdr.length <= maxSize ==> r.header.length == hdr.length)
    ensures |r.data| == HEADER_SIZE + r.header.length
    ensures forall i :: HEADER_SIZE <= i < |r.data| ==> r.data[i] == if i < |p.data| then p.data[i] else 0
  {
    LegacySetDataLength(p.(header := hdr), hdr.length, maxSize)
  }

  /** With the bound set to the current payload limit, the older length
      handling and the current one agree. */
  lemma {:induction false} LegacyAgreesWithCurrent(p: Packet, len: nat)
    ensures LegacySetDataLength(p, len, DATA_PKT_MAX_PAYLOAD_SIZE) == SetDataLength(p, len)
  {
    assert LegacyClampedLength(len, DATA_PKT_MAX_PAYLOAD_SIZE) == ClampedLength(len);
  }

  class LegacyDataPacket {
    var header: Header
    var data: seq<Byte>
    /** DATA_PKT_MAX_SIZE. */
    const maxSize: U16

    ghost predicate Valid()
      reads this
    {
      WellFormed(Value())
    }

    function Value(): Packet
      reads this
    {
      Packet(header, data)
    }

    constructor FromHeader(hdr: Header, maxSize: U16)
      ensures this.maxSize == maxSize
      ensures Valid() && Value() == LegacySetHeader(Packet(Header(0, 0, 0), []), hdr, maxSize)
    {
      this.maxSize := maxSize;
      header := Header(0, 0, 0);
      data := [];
      new;
      SetHeader(hdr);
    }

    /** Construct from serial data, kept verbatim. Fewer than five bytes give
        the DataPacketException that the header's size check intends; the
        header read span is a five-byte subspan, so on shorter data the code
        reads past the end instead. */
    static method FromSerialData(serialData: seq<Byte>, maxSize: U16) returns (r: Result<LegacyDataPacket>)
      ensures r.Err? <==> |serialData| < HEADER_SIZE
      ensures r.Err? ==> r.error == DataPacketException
      ensures r.Ok? ==> fresh(r.value) && r.value.Valid() && r.value.data == serialData
      ensures r.Ok? ==> Some(r.value.header) == ParseHeader(serialData) && r.value.maxSize == maxSize
    {
      var p := new LegacyDataPacket.FromHeader(Header(0, 0, 0), maxSize);
      p.data := serialData;
      var ok, h := DeserialiseLegacyHeader(p.header, p.data);
      if !ok {
        return Err(DataPacketException);
      }
      p.header := h;
      HeaderBytesParse(serialData);
      r := Ok(p);
    }

    method SetHeader(hdr: Header)
      modifies this
      ensures Valid() && Value() == LegacySetHeader(old(Value()), hdr, maxSize)
    {
      header := hdr;
      SetDataLength(hdr.length);
    }

    method SetDataLength(len: nat)
      modifies this
      ensures Valid() && Value() == LegacySetDataLength(old(Value()), len, maxSize)
    {
      if len > maxSize {
        header := header.(length := maxSize);
      } else {
        header := header.(length := len);
      }
      data := Resized(data, HEADER_SIZE + header.length);
      data := HeaderBytes(header) + data[HEADER_SIZE..];
    }
  }
}
