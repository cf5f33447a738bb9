/** The dummy-TCP resequencing buffer of the older tree. TCP delivers a byte
    stream cut at arbitrary points and padded with zeros, so each received
    buffer has its trailing zeros removed and is appended to a reassembly
    vector; whole packets (header id 1, the expected SN, the configured
    length, payload bytes 2) are then cut from its front and queued. The
    start of a retransmitted packet, and stray payload bytes, are skipped by
    scanning over the bytes 2 that make up every payload.

    As written, the scans `receiveBuffer_[++startOfNext]` do not stop at the
    end of the vector: a retransmitted packet that ends the vector makes the
    scan read past it (`ScanAsWritten`, `RetransmissionOverrunsAsWritten`).
    The buffer below uses the bounded scan `ScanPast2s`. The packet length
    `packet_length` is a parameter. */
module DummyTcpRs {
  import opened ArqBasics
  import opened DataPackets
  import opened BufferObjects
  import opened SafeQueues
  import opened InOrderRuns
  import OutputBuffers

  /** `n` payload bytes of value 2, the filler every payload consists of. */
  function Twos(n: nat): (r: seq<Byte>)
    ensures |r| == n && forall i :: 0 <= i < n ==> r[i] == 2
  {
    if n == 0 then [] else Twos(n - 1) + [2]
  }

  /** `s` without its trailing zero bytes. */
  function Unpadded(s: seq<Byte>): (r: seq<Byte>)
    ensures |r| <= |s| && r == s[..|r|]
    ensures forall i :: |r| <= i < |s| ==> s[i] == 0
    ensures r == [] || r[|r| - 1] != 0
  {
    if |s| > 0 && s[|s| - 1] == 0 then Unpadded(s[..|s| - 1]) else s
  }

  /** The loop removing trailing zeros: walks back from the end over zero
      bytes and returns the length of what is kept. */
  method TrailingZerosStart(s: seq<Byte>) returns (lastZeroIdx: nat)
    ensures lastZeroIdx <= |s| && s[..lastZeroIdx] == Unpadded(s)
  {
    lastZeroIdx := |s|;
    while lastZeroIdx > 0 && s[lastZeroIdx - 1] == 0
      invariant lastZeroIdx <= |s|
      invariant Unpadded(s[..lastZeroIdx]) == Unpadded(s)
    {
      assert s[..lastZeroIdx][..lastZeroIdx - 1] == s[..lastZeroIdx - 1];
      lastZeroIdx := lastZeroIdx - 1;
    }
    assert s[..lastZeroIdx] == [] || s[..lastZeroIdx][lastZeroIdx - 1] != 0;
  }

  /** Where a scan over bytes 2 starting at index `i` stops: at the first
      byte that is not 2, or at the end. */
  function SkipEnd(s: seq<Byte>, i: nat): (r: nat)
    ensures (if i < |s| then i else |s|) <= r <= |s|
    decreases |s| - i
  {
    if i >= |s| then |s| else if s[i] != 2 then i else SkipEnd(s, i + 1)
  }

  /** The scan steps over 2s only and stops at the first other byte. */
  lemma {:induction false} SkipEndStops(s: seq<Byte>, i: nat)
    ensures forall k :: i <= k < SkipEnd(s, i) ==> s[k] == 2
    ensures SkipEnd(s, i) == |s| || s[SkipEnd(s, i)] != 2
    decreases |s| - i
  {
    if i < |s| && s[i] == 2 {
      SkipEndStops(s, i + 1);
    }
  }

  /** The scan as written: from index `from`, step over bytes 2 without
      checking the end. None means it read the byte at index |s| or beyond,
      which happens exactly when every byte from `from` on is 2; otherwise it
      stops where the bounded scan does. */
  method ScanAsWritten(s: seq<Byte>, from: nat) returns (end: Option<nat>)
    ensures end.None? <==> forall k :: from <= k < |s| ==> s[k] == 2
    ensures end.Some? ==> end.value == SkipEnd(s, from) < |s|
  {
    var i := from;
    while i < |s| && s[i] == 2
      invariant from <= i
      invariant SkipEnd(s, i) == SkipEnd(s, from)
      invariant forall k :: from <= k < i && k < |s| ==> s[k] == 2
    {
      i := i + 1;
    }
    if i >= |s| {
      return None;
    }
    end := Some(i);
  }

  /** The bounded scan the buffer uses. */
  method ScanPast2s(s: seq<Byte>, from: nat) returns (end: nat)
    ensures end == SkipEnd(s, from)
  {
    end := from;
    while end < |s| && s[end] == 2
      invariant from <= end
      invariant SkipEnd(s, end) == SkipEnd(s, from)
    {
      end := end + 1;
    }
    if end > |s| {
      end := |s|;
    }
  }

  /** A packet as the buffer queues it: the configured number of bytes,
      header id 1 and length `packetLength`, header read from the bytes. */
  ghost predicate Whole(p: Packet, packetLength: nat) {
    && p.header.id == 1 && p.header.length == packetLength
    && |p.data| == packetLength + HEADER_SIZE && ParseHeader(p.data) == Some(p.header)
  }

  /** The start of a packet already queued. */
  predicate IsRetransmission(h: Header, next: SeqNum, packetLength: nat) {
    h.id == 1 && h.length == packetLength && h.sequenceNumber < next
  }

  /** The start of the packet expected next. */
  predicate IsExpected(h: Header, next: SeqNum, packetLength: nat) {
    h.id == 1 && h.sequenceNumber == next && h.length == packetLength
  }

  /** Five payload bytes read as a header. */
  predicate IsFiller(h: Header) {
    h.id == 2 && h.sequenceNumber == 0x0202 && h.length == 0x0202
  }

  /** The header is read from the first bytes of the vector alone. */
  lemma ParsePrefix(s: seq<Byte>, n: nat)
    requires HEADER_SIZE <= n <= |s|
    ensures ParseHeader(s[..n]) == ParseHeader(s)
  {
  }

  /** The outcome of processing a reassembly vector: whether it ended
      normally (rather than in a failed assertion), what is left, the packets
      queued, and the SN then expected. */
  datatype Reassembly = Reassembly(ok: bool, rest: seq<Byte>, pushed: seq<Packet>, next: SeqNum)

  /** `r` with the packets `ps` queued before its own. */
  function PushedBefore(ps: seq<Packet>, r: Reassembly): (r': Reassembly)
    ensures r'.pushed == ps + r.pushed && r' == r.(pushed := r'.pushed)
  {
    r.(pushed := ps + r.pushed)
  }

  lemma PushedBeforeTwice(ps: seq<Packet>, qs: seq<Packet>, r: Reassembly)
    ensures PushedBefore(ps, PushedBefore(qs, r)) == PushedBefore(ps + qs, r)
  {
    assert ps + (qs + r.pushed) == (ps + qs) + r.pushed;
  }

  /** processReceiveBuffer as a function of the vector and the expected SN. */
  function Reassemble(rb: seq<Byte>, next: SeqNum, packetLength: nat): Reassembly
    decreases |rb|
  {
    if |rb| < packetLength + HEADER_SIZE then Reassembly(true, rb, [], next)
    else
      var hdr := ParseHeader(rb).value;
      if IsRetransmission(hdr, next, packetLength) then
        Reassemble(rb[SkipEnd(rb, HEADER_SIZE + 1)..], next, packetLength)
      else if IsExpected(hdr, next, packetLength) then
        PushedBefore([Packet(hdr, rb[..packetLength + HEADER_SIZE])],
                     Reassemble(rb[packetLength + HEADER_SIZE..], Inc16(next), packetLength))
      else if IsFiller(hdr) then
        Reassemble(rb[SkipEnd(rb, 1)..], next, packetLength)
      else Reassembly(false, rb, [], next)
  }

  /** One turn of the loop of processReceiveBuffer, branch by branch. */
  lemma ReassembleSkipStep(rb: seq<Byte>, next: SeqNum, packetLength: nat, from: nat)
    requires |rb| >= packetLength + HEADER_SIZE
    requires var h := ParseHeader(rb).value;
      || (from == HEADER_SIZE + 1 && IsRetransmission(h, next, packetLength))
      || (from == 1 && IsFiller(h))
    ensures Reassemble(rb, next, packetLength) == Reassemble(rb[SkipEnd(rb, from)..], next, packetLength)
  {
  }

  lemma ReassemblePushStep(rb: seq<Byte>, next: SeqNum, packetLength: nat, hdr: Header)
    requires |rb| >= packetLength + HEADER_SIZE
    requires ParseHeader(rb) == Some(hdr) && IsExpected(hdr, next, packetLength)
    ensures Reassemble(rb, next, packetLength)
         == PushedBefore([Packet(hdr, rb[..packetLength + HEADER_SIZE])],
                         Reassemble(rb[packetLength + HEADER_SIZE..], Inc16(next), packetLength))
  {
    assert ParseHeader(rb).value == hdr;
    assert !IsRetransmission(hdr, next, packetLength);
  }

  lemma ReassembleFailStep(rb: seq<Byte>, next: SeqNum, packetLength: nat)
    requires |rb| >= packetLength + HEADER_SIZE
    requires var h := ParseHeader(rb).value;
      !IsRetransmission(h, next, packetLength) && !IsExpected(h, next, packetLength) && !IsFiller(h)
    ensures Reassemble(rb, next, packetLength) == Reassembly(false, rb, [], next)
  {
  }

  /** Less than one packet's worth of bytes ends processing normally, with
      nothing queued. */
  lemma ReassembleShort(rb: seq<Byte>, next: SeqNum, packetLength: nat)
    requires |rb| < packetLength + HEADER_SIZE
    ensures Reassemble(rb, next, packetLength) == Reassembly(true, rb, [], next)
  {
  }

  /** Counting on from a wrapped value is counting on from the value. */
  lemma WrapShift(x: int, k: int)
    ensures Wrap16(Wrap16(x) + k) == Wrap16(x + k)
  {
    var q := x / SEQ_MODULUS;
    assert x == q * SEQ_MODULUS + Wrap16(x);
    assert x + k == q * SEQ_MODULUS + (Wrap16(x) + k);
  }

  /** The packets carry consecutive SNs, the first being `next`. */
  ghost predicate SnsFrom(ps: seq<Packet>, next: SeqNum) {
    forall i :: 0 <= i < |ps| ==> HeaderSn(ps[i]) == Wrap16(next + i)
  }

  /** Every packet is whole. */
  ghost predicate AllWhole(ps: seq<Packet>, packetLength: nat) {
    forall i :: 0 <= i < |ps| ==> Whole(ps[i], packetLength)
  }

  /** What processing `rb` with `next` expected may end in: it only removes
      bytes from the front; a normal end leaves less than one packet's worth;
      every queued packet is whole and they carry consecutive SNs from the
      expected one, which ends up just past them. */
  ghost predicate Sound(rb: seq<Byte>, next: SeqNum, packetLength: nat, r: Reassembly) {
    && |r.rest| <= |rb| && r.rest == rb[|rb| - |r.rest|..]
    && (r.ok ==> |r.rest| < packetLength + HEADER_SIZE)
    && r.next == Wrap16(next + |r.pushed|)
    && SnsFrom(r.pushed, next)
    && AllWhole(r.pushed, packetLength)
  }

  /** Dropping a prefix keeps an outcome sound. */
  lemma {:induction false} SoundAfterDrop(rb: seq<Byte>, e: nat, next: SeqNum, packetLength: nat, r: Reassembly)
    requires e <= |rb| && Sound(rb[e..], next, packetLength, r)
    ensures Sound(rb, next, packetLength, r)
  {
    assert rb[e..][|rb[e..]| - |r.rest|..] == rb[|rb| - |r.rest|..];
  }

  /** A packet carrying `next` in front of packets numbered from its
      successor gives packets numbered from `next`. */
  lemma {:induction false} SnsFromCons(p: Packet, ps: seq<Packet>, next: SeqNum)
    requires HeaderSn(p) == next && SnsFrom(ps, Inc16(next))
    ensures SnsFrom([p] + ps, next)
  {
    IncWrap(next);
    forall i | 0 <= i < |[p] + ps|
      ensures HeaderSn(([p] + ps)[i]) == Wrap16(next + i)
    {
      if i > 0 {
        assert ([p] + ps)[i] == ps[i - 1];
        WrapShift(next + 1, i - 1);
      }
    }
  }

  lemma {:induction false} AllWholeCons(p: Packet, ps: seq<Packet>, packetLength: nat)
    requires Whole(p, packetLength) && AllWhole(ps, packetLength)
    ensures AllWhole([p] + ps, packetLength)
  {
    forall i | 0 <= i < |[p] + ps|
      ensures Whole(([p] + ps)[i], packetLength)
    {
      if i > 0 {
        assert ([p] + ps)[i] == ps[i - 1];
      }
    }
  }

  /** Queuing the expected packet in front of a sound outcome for the rest
      keeps it sound. */
  lemma {:induction false} SoundAfterPush(rb: seq<Byte>, next: SeqNum, packetLength: nat, tail: Reassembly)
    requires |rb| >= packetLength + HEADER_SIZE
    requires IsExpected(ParseHeader(rb).value, next, packetLength)
    requires Sound(rb[packetLength + HEADER_SIZE..], Inc16(next), packetLength, tail)
    ensures Sound(rb, next, packetLength,
                  PushedBefore([Packet(ParseHeader(rb).value, rb[..packetLength + HEADER_SIZE])], tail))
  {
    var n := packetLength + HEADER_SIZE;
    var p := Packet(ParseHeader(rb).value, rb[..n]);
    var rest := rb[n..];
    assert rest[|rest| - |tail.rest|..] == rb[|rb| - |tail.rest|..];
    ParsePrefix(rb, n);
    assert Whole(p, packetLength);
    IncWrap(next);
    WrapShift(next + 1, |tail.pushed|);
    SnsFromCons(p, tail.pushed, next);
    AllWholeCons(p, tail.pushed, packetLength);
  }

  /** Every outcome of processing is sound. */
  lemma {:induction false} ReassembleSound(rb: seq<Byte>, next: SeqNum, packetLength: nat)
    ensures Sound(rb, next, packetLength, Reassemble(rb, next, packetLength))
    decreases |rb|
  {
    if |rb| < packetLength + HEADER_SIZE {
      ReassembleShort(rb, next, packetLength);
    } else {
      var hdr := ParseHeader(rb).value;
      if IsRetransmission(hdr, next, packetLength) || IsFiller(hdr) {
        var from := if IsRetransmission(hdr, next, packetLength) then HEADER_SIZE + 1 else 1;
        ReassembleSkipStep(rb, next, packetLength, from);
        var e := SkipEnd(rb, from);
        ReassembleSound(rb[e..], next, packetLength);
        SoundAfterDrop(rb, e, next, packetLength, Reassemble(rb[e..], next, packetLength));
      } else if IsExpected(hdr, next, packetLength) {
        var n := packetLength + HEADER_SIZE;
        ReassemblePushStep(rb, next, packetLength, hdr);
        ReassembleSound(rb[n..], Inc16(next), packetLength);
        SoundAfterPush(rb, next, packetLength, Reassemble(rb[n..], Inc16(next), packetLength));
      } else {
        ReassembleFailStep(rb, next, packetLength);
      }
    }
  }

  class DummyTcp {
    const packetLength: nat
    const shadowBuffer: SafeQueue<Packet>
    /** The reassembly vector `receiveBuffer_`. */
    var receiveBuffer: seq<Byte>
    var nextSn: SeqNum
    /** Every packet ever queued, oldest first. */
    ghost var accepted: seq<Packet>

    /** Queued packets are whole and carry the SNs 1, 2, ... in order. */
    ghost predicate Valid()
      reads this, shadowBuffer
    {
      && Run(accepted, OutputBuffers.FIRST_SEQUENCE_NUMBER, nextSn)
      && Suffix(shadowBuffer.contents, accepted)
      && (forall i :: 0 <= i < |accepted| ==> Whole(accepted[i], packetLength))
    }

    constructor (packetLength: nat)
      ensures Valid() && fresh(shadowBuffer) && this.packetLength == packetLength
      ensures receiveBuffer == [] && accepted == [] && shadowBuffer.contents == []
      ensures nextSn == OutputBuffers.FIRST_SEQUENCE_NUMBER
    {
      this.packetLength := packetLength;
      shadowBuffer := new SafeQueue<Packet>();
      receiveBuffer := [];
      nextSn := OutputBuffers.FIRST_SEQUENCE_NUMBER;
      accepted := [];
    }

    /** The push branch of processReceiveBuffer: the packet joins the
        queue and the expected SN advances. */
    method Push(p: Packet)
      requires Valid() && HeaderSn(p) == nextSn && Whole(p, packetLength)
      modifies this, shadowBuffer
      ensures Valid() && receiveBuffer == old(receiveBuffer)
      ensures accepted == old(accepted) + [p] && shadowBuffer.contents == old(shadowBuffer.contents) + [p]
      ensures nextSn == Inc16(old(nextSn))
    {
      RunAccept(accepted, OutputBuffers.FIRST_SEQUENCE_NUMBER, nextSn, p);
      SuffixPush(shadowBuffer.contents, accepted, p);
      accepted := accepted + [p];
      shadowBuffer.Push(p);
      nextSn := Inc16(nextSn);
    }

    /** The whole push branch of processReceiveBuffer: the first packet's
        worth of bytes, whose header is the expected one, is queued and
        leaves the vector. */
    method PushFront(hdr: Header, ghost queued: seq<Packet>, ghost R: Reassembly) returns (temp: Packet)
      requires Valid() && |receiveBuffer| >= packetLength + HEADER_SIZE
      requires ParseHeader(receiveBuffer) == Some(hdr) && IsExpected(hdr, nextSn, packetLength)
      requires R == PushedBefore(queued, Reassemble(receiveBuffer, nextSn, packetLength))
      modifies this, shadowBuffer
      ensures Valid()
      ensures R == PushedBefore(queued + [temp], Reassemble(receiveBuffer, nextSn, packetLength))
      ensures accepted == old(accepted) + [temp] && shadowBuffer.contents == old(shadowBuffer.contents) + [temp]
      ensures |receiveBuffer| == |old(receiveBuffer)| - (packetLength + HEADER_SIZE)
    {
      var dataPktLen := packetLength + HEADER_SIZE;
      ParsePrefix(receiveBuffer, dataPktLen);
      temp := Packet(hdr, receiveBuffer[..dataPktLen]);
      ReassemblePushStep(receiveBuffer, nextSn, packetLength, hdr);
      Push(temp);
      receiveBuffer := receiveBuffer[dataPktLen..];
      PushedBeforeTwice(queued, [temp], Reassemble(receiveBuffer, nextSn, packetLength));
    }

    /** The two dropping branches of processReceiveBuffer: the bytes up to
        the end of the run of 2s that starts at `from` leave the vector, which
        processes to the same outcome. */
    method DropRun(from: nat)
      requires Valid() && |receiveBuffer| >= packetLength + HEADER_SIZE
      requires var h := ParseHeader(receiveBuffer).value;
        || (from == HEADER_SIZE + 1 && IsRetransmission(h, nextSn, packetLength))
        || (from == 1 && IsFiller(h))
      modifies this
      ensures Valid() && nextSn == old(nextSn) && accepted == old(accepted)
      ensures |receiveBuffer| < |old(receiveBuffer)|
      ensures Reassemble(receiveBuffer, nextSn, packetLength) == Reassemble(old(receiveBuffer), nextSn, packetLength)
    {
      ReassembleSkipStep(receiveBuffer, nextSn, packetLength, from);
      var startOfNext := ScanPast2s(receiveBuffer, from);
      receiveBuffer := receiveBuffer[startOfNext..];
    }

    /** processReceiveBuffer: the vector, the expected SN and the queue end
        as `Reassemble` says, and the result is the number of packets queued
        (or the failed assertion). */
    method ProcessReceiveBuffer() returns (r: Result<nat>)
      requires Valid()
      modifies this, shadowBuffer
      ensures Valid()
      ensures var R := Reassemble(old(receiveBuffer), old(nextSn), packetLength);
        && (r.Ok? <==> R.ok) && (r.Ok? ==> r.value == |R.pushed|)
        && (r.Err? ==> r.error == AssertionFailure)
        && receiveBuffer == R.rest && nextSn == R.next
        && accepted == old(accepted) + R.pushed
        && shadowBuffer.contents == old(shadowBuffer.contents) + R.pushed
    {
      var dataPktLen := packetLength + HEADER_SIZE;
      var packetsSent := 0;
      ghost var R := Reassemble(receiveBuffer, nextSn, packetLength);
      ghost var queued: seq<Packet> := [];
      while |receiveBuffer| >= dataPktLen
        invariant Valid()
        invariant accepted == old(accepted) + queued && |queued| == packetsSent
        invariant shadowBuffer.contents == old(shadowBuffer.contents) + queued
        invariant R == PushedBefore(queued, Reassemble(receiveBuffer, nextSn, packetLength))
        decreases |receiveBuffer|
      {
        var hdr := ParseHeader(receiveBuffer[..dataPktLen]).value;
        ParsePrefix(receiveBuffer, dataPktLen);
        if IsRetransmission(hdr, nextSn, packetLength) {
          DropRun(HEADER_SIZE + 1);
          continue;
        }
        if IsExpected(hdr, nextSn, packetLength) {
          var temp := PushFront(hdr, queued, R);
          assert accepted == old(accepted) + (queued + [temp]);
          assert shadowBuffer.contents == old(shadowBuffer.contents) + (queued + [temp]);
          packetsSent := packetsSent + 1;
          queued := queued + [temp];
        } else {
          if !IsFiller(hdr) {
            ReassembleFailStep(receiveBuffer, nextSn, packetLength);
            return Err(AssertionFailure);
          }
          DropRun(1);
        }
      }
      ReassembleShort(receiveBuffer, nextSn, packetLength);
      r := Ok(packetsSent);
    }

    /** do_addPacket: the received bytes without their trailing zeros are
        appended to the reassembly vector, which is then processed. No ACK is
        ever returned; a failed assertion while processing aborts. */
    method AddPacket(packet: Packet) returns (r: Result<Option<SeqNum>>)
      requires Valid()
      modifies this, shadowBuffer
      ensures Valid()
      ensures var R := Reassemble(old(receiveBuffer) + Unpadded(packet.data), old(nextSn), packetLength);
        && (r.Ok? <==> R.ok) && (r.Ok? ==> r.value == None)
        && (r.Err? ==> r.error == AssertionFailure)
        && receiveBuffer == R.rest && nextSn == R.next
        && accepted == old(accepted) + R.pushed
        && shadowBuffer.contents == old(shadowBuffer.contents) + R.pushed
    {
      var lastZeroIdx := TrailingZerosStart(packet.data);
      receiveBuffer := receiveBuffer + packet.data[..lastZeroIdx];
      var processed := ProcessReceiveBuffer();
      if processed.Err? {
        return Err(processed.error);
      }
      r := Ok(None);
    }

    function PacketsPending(): (r: bool)
      reads this, shadowBuffer
      ensures r <==> shadowBuffer.contents != []
    {
      !shadowBuffer.Empty()
    }

    /** do_getNextPacket: the wait in pop_wait is the precondition. */
    method GetNextPacket() returns (p: Packet)
      requires Valid() && shadowBuffer.contents != []
      modifies shadowBuffer
      ensures Valid()
      ensures [p] + shadowBuffer.contents == old(shadowBuffer.contents)
    {
      p := shadowBuffer.PopWait();
      assert shadowBuffer.contents == old(shadowBuffer.contents)[1..];
      SuffixPop(old(shadowBuffer.contents), accepted);
    }
  }

  /** The bytes of a whole packet on the stream: header, then 2s. */
  function StreamPacket(sn: SeqNum, packetLength: U16): (r: seq<Byte>)
    ensures |r| == HEADER_SIZE + packetLength
    ensures ParseHeader(r) == Some(Header(1, sn, packetLength))
    ensures forall k :: HEADER_SIZE <= k < |r| ==> r[k] == 2
  {
    ParseHeaderBytes(Header(1, sn, packetLength), Twos(packetLength));
    HeaderBytes(Header(1, sn, packetLength)) + Twos(packetLength)
  }

  /** As written: a retransmission of an already queued packet (SN 0 while
      SN 1 is expected) that ends the reassembly vector takes the skip branch,
      and its scan runs past the end of the vector. */
  method RetransmissionOverrunsAsWritten(packetLength: U16) returns (skipBranch: bool, scan: Option<nat>)
    ensures skipBranch && scan == None
  {
    var bytes := StreamPacket(0, packetLength);
    var hdr := ParseHeader(bytes).value;
    skipBranch := hdr.id == 1 && hdr.length == packetLength && hdr.sequenceNumber < OutputBuffers.FIRST_SEQUENCE_NUMBER;
    scan := ScanAsWritten(bytes, HEADER_SIZE + 1);
  }

  /** A scan over a tail made only of bytes 2 runs to the end. */
  lemma {:induction false} SkipEndAllTwos(s: seq<Byte>, i: nat)
    requires forall k :: i <= k < |s| ==> s[k] == 2
    ensures SkipEnd(s, i) == |s|
    decreases |s| - i
  {
    if i < |s| {
      SkipEndAllTwos(s, i + 1);
    }
  }

  /** Corrected: the same retransmission is dropped whole, leaving an empty
      vector, nothing queued and the expected SN unchanged. */
  lemma {:induction false} RetransmissionDropped(packetLength: U16)
    ensures Reassemble(StreamPacket(0, packetLength), OutputBuffers.FIRST_SEQUENCE_NUMBER, packetLength)
         == Reassembly(true, [], [], OutputBuffers.FIRST_SEQUENCE_NUMBER)
  {
    var rb := StreamPacket(0, packetLength);
    SkipEndAllTwos(rb, HEADER_SIZE + 1);
    DropsRetransmission(rb, OutputBuffers.FIRST_SEQUENCE_NUMBER, packetLength);
  }

  /** A vector holding just a retransmitted packet leaves nothing behind. */
  lemma DropsRetransmission(rb: seq<Byte>, next: SeqNum, packetLength: nat)
    requires |rb| >= packetLength + HEADER_SIZE && IsRetransmission(ParseHeader(rb).value, next, packetLength)
    requires SkipEnd(rb, HEADER_SIZE + 1) == |rb|
    ensures Reassemble(rb, next, packetLength) == Reassembly(true, [], [], next)
  {
    assert rb[|rb|..] == [];
  }

  /** Two consecutive whole packets, 1 and 2, are both queued, and the
      expected SN moves on to 3. */
  lemma {:induction false} TwoPacketsReassembled(packetLength: U16)
    ensures var p1, p2 := StreamPacket(1, packetLength), StreamPacket(2, packetLength);
      Reassemble(p1 + p2, 1, packetLength)
        == Reassembly(true, [], [Packet(Header(1, 1, packetLength), p1), Packet(Header(1, 2, packetLength), p2)], 3)
  {
    var p1, p2 := StreamPacket(1, packetLength), StreamPacket(2, packetLength);
    var n := packetLength + HEADER_SIZE;
    var stream := p1 + p2;
    assert stream[..n] == p1 && stream[n..] == p2;
    ParsePrefix(stream, n);
    assert IsExpected(ParseHeader(stream).value, 1, packetLength);
    assert p2[..n] == p2 && p2[n..] == [];
    assert IsExpected(ParseHeader(p2).value, 2, packetLength);
    assert Reassemble(p2, 2, packetLength) == Reassembly(true, [], [Packet(Header(1, 2, packetLength), p2)], 3);
  }

  /** End to end through do_addPacket: two consecutive packets arriving in
      one zero-padded buffer are both queued, in order, and nothing is left. */
  method TwoPacketsInOneBuffer(packetLength: U16, padding: nat) returns (r: Result<Option<SeqNum>>, sns: seq<SeqNum>, left: seq<Byte>)
    requires packetLength > 0
    ensures r == Ok(None) && sns == [1, 2] && left == []
  {
    var rs := new DummyTcp(packetLength);
    var p1, p2 := StreamPacket(1, packetLength), StreamPacket(2, packetLength);
    var data := p1 + p2 + Zeros(padding);
    UnpaddedZeros(p1 + p2, padding);
    assert rs.receiveBuffer + Unpadded(data) == p1 + p2;
    TwoPacketsReassembled(packetLength);
    r := rs.AddPacket(Packet(Header(0, 0, 0), data));
    assert rs.shadowBuffer.contents == [Packet(Header(1, 1, packetLength), p1), Packet(Header(1, 2, packetLength), p2)];
    sns := [HeaderSn(rs.shadowBuffer.contents[0]), HeaderSn(rs.shadowBuffer.contents[1])];
    left := rs.receiveBuffer;
  }

  /** Zero padding after bytes that do not end in zero is exactly what
      removing trailing zeros takes off. */
  lemma {:induction false} UnpaddedZeros(s: seq<Byte>, n: nat)
    requires s != [] && s[|s| - 1] != 0
    ensures Unpadded(s + Zeros(n)) == s
    decreases n
  {
    if n > 0 {
      assert (s + Zeros(n))[..|s + Zeros(n)| - 1] == s + Zeros(n - 1);
      UnpaddedZeros(s, n - 1);
    } else {
      assert s + Zeros(0) == s;
    }
  }
}
