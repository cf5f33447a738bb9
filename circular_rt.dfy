/** The Go-Back-N and Selective-Repeat retransmission buffers of the current
    tree. Their two .cpp files are the same code line for line, so they are one
    class with two named constructors. Packets wait in a vector of optional
    slots used as a circular window starting at `startIdx`; cumulative ACKs
    clear the front of the window and slide it on. Whether a packet has timed
    out is decided by the base class's isPacketTimedOut, whose body is not part
    of this model, so it is the parameter `isTimedOut`.

    The class is the corrected code: the start index is reduced modulo the
    window size, and the packet count only drops for a slot that held a packet.
    The code as written is `AcknowledgeAsWritten`, with the inputs that break
    it in `StartIndexEscapes` and `CountGoesNegative`. */
module CircularRt {
  import opened ArqBasics
  import opened DataPackets
  import opened BufferObjects

  type Slot = Option<TransmitBufferObject>

  /** (s + k) % w for a start s inside the window and 0 <= k <= w, written
      without the modulus. */
  function Idx(s: nat, k: nat, w: nat): (r: nat)
    requires s < w && k <= w
    ensures r < w
  {
    if s + k < w then s + k else s + k - w
  }

  lemma ModSmall(x: int, w: int)
    requires w > 0 && 0 <= x < 2 * w
    ensures x % w == if x < w then x else x - w
  {
    if x >= w {
      assert x == 1 * w + (x - w);
    }
  }

  lemma IdxIsMod(s: nat, k: nat, w: nat)
    requires s < w && k <= w
    ensures Idx(s, k, w) == (s + k) % w
  {
    ModSmall(s + k, w);
  }

  /** The slots in window order: the k-th is buffer[(s + k) % |buffer|]. */
  function Window(buf: seq<Slot>, s: nat): (r: seq<Slot>)
    requires s < |buf|
    ensures |r| == |buf|
    ensures forall k :: 0 <= k < |buf| ==> r[k] == buf[Idx(s, k, |buf|)]
  {
    buf[s..] + buf[..s]
  }

  function Nones(n: nat): (r: seq<Slot>)
    ensures |r| == n && forall k :: 0 <= k < n ==> r[k] == None
  {
    if n == 0 then [] else Nones(n - 1) + [None]
  }

  /** The occupied slots are exactly the first `count` of the window. */
  ghost predicate PrefixOccupied(w: seq<Slot>, count: int) {
    0 <= count <= |w| && forall k :: 0 <= k < |w| ==> (w[k].Some? <==> k < count)
  }

  /** Writing the k-th window slot through the raw index. */
  lemma {:induction false} WindowUpdate(buf: seq<Slot>, s: nat, k: nat, x: Slot)
    requires s < |buf| && k < |buf|
    ensures Window(buf[Idx(s, k, |buf|) := x], s) == Window(buf, s)[k := x]
  {
    var w := |buf|;
    var lhs := Window(buf[Idx(s, k, w) := x], s);
    var rhs := Window(buf, s)[k := x];
    forall j | 0 <= j < w
      ensures lhs[j] == rhs[j]
    {
      assert j != k ==> Idx(s, j, w) != Idx(s, k, w);
    }
  }

  /** The start index after sliding on by d, as the code computes it. */
  lemma SlideIdx(s: nat, d: nat, w: nat)
    requires s < w && d <= w
    ensures (s + d % w) % w == Idx(s, d, w)
  {
    ModSmall(d, w);
    if d < w {
      IdxIsMod(s, d, w);
    } else {
      ModSmall(s, w);
    }
  }

  /** Moving the start on by d slots rotates the window by d. */
  lemma {:induction false} WindowRotate(buf: seq<Slot>, s: nat, d: nat)
    requires s < |buf| && d <= |buf|
    ensures Window(buf, Idx(s, d, |buf|)) == Window(buf, s)[d..] + Window(buf, s)[..d]
  {
    var w := |buf|;
    var lhs := Window(buf, Idx(s, d, w));
    var old_ := Window(buf, s);
    var rhs := old_[d..] + old_[..d];
    forall k | 0 <= k < w
      ensures lhs[k] == rhs[k]
    {
      if k < w - d {
        assert rhs[k] == old_[d + k];
        assert Idx(Idx(s, d, w), k, w) == Idx(s, d + k, w);
      } else {
        assert rhs[k] == old_[k - (w - d)];
        assert Idx(Idx(s, d, w), k, w) == Idx(s, k - (w - d), w);
      }
    }
  }

  /** The first window position from `from` on holding a timed-out packet. */
  function FirstDue(w: seq<Slot>, isTimedOut: TransmitBufferObject -> bool, from: nat): (r: Option<nat>)
    ensures r.Some? ==> from <= r.value < |w| && w[r.value].Some? && isTimedOut(w[r.value].value)
    ensures r.Some? ==> forall k :: from <= k < r.value ==> !(w[k].Some? && isTimedOut(w[k].value))
    ensures r.None? ==> forall k :: from <= k < |w| ==> !(w[k].Some? && isTimedOut(w[k].value))
    decreases |w| - from
  {
    if from >= |w| then None
    else if w[from].Some? && isTimedOut(w[from].value) then Some(from)
    else FirstDue(w, isTimedOut, from + 1)
  }

  function Min(a: int, b: int): int {
    if a < b then a else b
  }

  /** The window after its first n positions are emptied. */
  function ClearFront(w: seq<Slot>, n: nat): (r: seq<Slot>)
    requires n <= |w|
    ensures |r| == |w|
    ensures forall k :: 0 <= k < |w| ==> r[k] == if k < n then None else w[k]
  {
    Nones(n) + w[n..]
  }

  /** Emptying one more position extends the cleared front by one. */
  lemma {:induction false} ClearFrontStep(w: seq<Slot>, n: nat)
    requires n < |w|
    ensures ClearFront(w, n)[n := None] == ClearFront(w, n + 1)
  {
    var lhs := ClearFront(w, n)[n := None];
    var rhs := ClearFront(w, n + 1);
    assert |lhs| == |rhs|;
    forall k | 0 <= k < |w|
      ensures lhs[k] == rhs[k]
    {
    }
  }

  /** Sliding a window with c occupied front positions on by d leaves the
      first c - min(d, c) positions occupied. */
  lemma {:induction false} SlidePrefix(w: seq<Slot>, c: nat, d: nat)
    requires PrefixOccupied(w, c) && d <= |w|
    ensures PrefixOccupied(w[d..] + Nones(d), c - Min(d, c))
  {
    var w' := w[d..] + Nones(d);
    forall k | 0 <= k < |w'|
      ensures w'[k].Some? <==> k < c - Min(d, c)
    {
      if k < |w| - d {
        assert w'[k] == w[d + k];
      } else {
        assert w'[k] == None;
      }
    }
  }

  /** Sliding the start of a window whose first d positions were emptied
      on by d gives the rest of the old window followed by d empty slots. */
  lemma {:induction false} SlideCleared(buf: seq<Slot>, s: nat, w0: seq<Slot>, c0: nat, d: nat)
    requires s < |buf| && d <= |buf| && |w0| == |buf|
    requires PrefixOccupied(w0, c0) && Window(buf, s) == ClearFront(w0, d)
    ensures Window(buf, Idx(s, d, |buf|)) == w0[d..] + Nones(d)
    ensures PrefixOccupied(w0[d..] + Nones(d), c0 - Min(d, c0))
  {
    WindowRotate(buf, s, d);
    var cl := ClearFront(w0, d);
    assert cl[d..] == w0[d..];
    assert cl[..d] == Nones(d);
    SlidePrefix(w0, c0, d);
  }

  class WindowBuffer {
    const windowSize: U16
    const timeout: int
    var buffer: seq<Slot>
    var startIdx: nat
    var nextToAck: SeqNum
    var packetsInBuffer: int

    ghost predicate Valid()
      reads this
    {
      && windowSize >= 1
      && |buffer| == windowSize
      && startIdx < windowSize
      && PrefixOccupied(Window(buffer, startIdx), packetsInBuffer)
    }

    /** The slots in window order. */
    ghost function Slots(): seq<Slot>
      reads this
      requires startIdx < |buffer|
    {
      Window(buffer, startIdx)
    }

    /** The Go-Back-N constructor: windowSize empty slots, start 0, nothing
        counted, and the first SN to be acknowledged. */
    constructor GoBackN(windowSize: U16, timeout: int, firstSeqNum: SeqNum)
      requires windowSize >= 1
      ensures Valid()
      ensures this.windowSize == windowSize && this.timeout == timeout
      ensures buffer == Nones(windowSize) && startIdx == 0 && nextToAck == firstSeqNum && packetsInBuffer == 0
    {
      this.windowSize := windowSize;
      this.timeout := timeout;
      buffer := Nones(windowSize);
      startIdx := 0;
      nextToAck := firstSeqNum;
      packetsInBuffer := 0;
    }

    /** The Selective-Repeat constructor, identical to the Go-Back-N one. */
    constructor SelectiveRepeat(windowSize: U16, timeout: int, firstSeqNum: SeqNum)
      requires windowSize >= 1
      ensures Valid()
      ensures this.windowSize == windowSize && this.timeout == timeout
      ensures buffer == Nones(windowSize) && startIdx == 0 && nextToAck == firstSeqNum && packetsInBuffer == 0
    {
      this.windowSize := windowSize;
      this.timeout := timeout;
      buffer := Nones(windowSize);
      startIdx := 0;
      nextToAck := firstSeqNum;
      packetsInBuffer := 0;
    }

    /** The first empty slot, at window position i and raw index idx, takes
        the packet, which is counted. */
    method FillSlot(ghost i: nat, idx: nat, obj: TransmitBufferObject)
      requires Valid() && i < windowSize && idx == Idx(startIdx, i, windowSize)
      requires buffer[idx].None? && i <= packetsInBuffer
      modifies this
      ensures Valid()
      ensures startIdx == old(startIdx) && nextToAck == old(nextToAck)
      ensures Slots() == old(Slots())[old(packetsInBuffer) := Some(obj)]
      ensures packetsInBuffer == old(packetsInBuffer) + 1
    {
      assert Slots()[i] == buffer[idx];
      WindowUpdate(buffer, startIdx, i, Some(obj));
      buffer := buffer[idx := Some(obj)];
      packetsInBuffer := packetsInBuffer + 1;
    }

    /** do_addPacket: the packet goes into the first empty slot scanning the
        window from its start, and is counted; a full window throws
        ArqProtocolException and changes nothing. */
    method AddPacket(obj: TransmitBufferObject) returns (thrown: Option<Exception>)
      requires Valid()
      modifies this
      ensures Valid()
      ensures startIdx == old(startIdx) && nextToAck == old(nextToAck)
      ensures old(packetsInBuffer) < windowSize ==>
                && thrown == None
                && Slots() == old(Slots())[old(packetsInBuffer) := Some(obj)]
                && packetsInBuffer == old(packetsInBuffer) + 1
      ensures old(packetsInBuffer) == windowSize ==>
                thrown == Some(ArqProtocolException) && buffer == old(buffer) && packetsInBuffer == old(packetsInBuffer)
    {
      var idx := startIdx;
      ghost var i: nat := 0;
      while true
        invariant Valid()
        invariant buffer == old(buffer) && packetsInBuffer == old(packetsInBuffer)
        invariant startIdx == old(startIdx) && nextToAck == old(nextToAck)
        invariant i < windowSize && idx == Idx(startIdx, i, windowSize)
        invariant i <= packetsInBuffer
        decreases windowSize - i
      {
        assert Slots()[i] == buffer[idx];
        if buffer[idx].None? {
          FillSlot(i, idx, obj);
          return None;
        }
        ModSmall(idx + 1, windowSize);
        idx := (idx + 1) % windowSize;
        i := i + 1;
        if idx == startIdx {
          break;
        }
      }
      thrown := Some(ArqProtocolException);
    }

    /** The slot at window position i, at raw index idx, is sent again: its
        last transmission time becomes `now` and its bytes are returned. */
    method RetransmitSlot(ghost i: nat, idx: nat, now: int) returns (data: seq<Byte>)
      requires Valid() && i < windowSize && idx == Idx(startIdx, i, windowSize) && buffer[idx].Some?
      modifies this
      ensures Valid()
      ensures startIdx == old(startIdx) && nextToAck == old(nextToAck) && packetsInBuffer == old(packetsInBuffer)
      ensures data == old(buffer[idx]).value.packet.data
      ensures Slots() == old(Slots())[i := Some(UpdateLastTxTime(old(buffer[idx]).value, now))]
    {
      var updated := UpdateLastTxTime(buffer[idx].value, now);
      WindowUpdate(buffer, startIdx, i, Some(updated));
      buffer := buffer[idx := Some(updated)];
      data := buffer[idx].value.packet.data;
    }

    /** do_tryGetPacketSpan: with nothing held, None; otherwise the bytes of
        the first timed-out packet in window order, whose last transmission
        time becomes `now`; None and no change if no packet has timed out. */
    method TryGetPacketSpan(now: int, isTimedOut: TransmitBufferObject -> bool) returns (span: Option<seq<Byte>>)
      requires Valid()
      modifies this
      ensures Valid()
      ensures startIdx == old(startIdx) && nextToAck == old(nextToAck) && packetsInBuffer == old(packetsInBuffer)
      ensures old(packetsInBuffer) == 0 ==> span == None
      ensures FirstDue(old(Slots()), isTimedOut, 0).None? ==> span == None && buffer == old(buffer)
      ensures FirstDue(old(Slots()), isTimedOut, 0).Some? ==>
                var j := FirstDue(old(Slots()), isTimedOut, 0).value;
                && span == Some(old(Slots())[j].value.packet.data)
                && Slots() == old(Slots())[j := Some(UpdateLastTxTime(old(Slots())[j].value, now))]
    {
      if !(packetsInBuffer > 0) {
        return None;
      }
      var idx := startIdx;
      ghost var i: nat := 0;
      while true
        invariant Valid()
        invariant buffer == old(buffer) && packetsInBuffer == old(packetsInBuffer)
        invariant startIdx == old(startIdx) && nextToAck == old(nextToAck)
        invariant i < windowSize && idx == Idx(startIdx, i, windowSize)
        invariant FirstDue(Slots(), isTimedOut, 0) == FirstDue(Slots(), isTimedOut, i)
        decreases windowSize - i
      {
        assert Slots()[i] == buffer[idx];
        if buffer[idx].Some? && isTimedOut(buffer[idx].value) {
          var data := RetransmitSlot(i, idx, now);
          return Some(data);
        }
        ModSmall(idx + 1, windowSize);
        idx := (idx + 1) % windowSize;
        i := i + 1;
        if idx == startIdx {
          break;
        }
      }
      span := None;
    }

    predicate ReadyForNewPacket()
      reads this
    {
      packetsInBuffer < windowSize
    }

    predicate PacketsPending()
      reads this
    {
      packetsInBuffer > 0
    }

    /** One turn of the clearing loop of do_acknowledgePacket: position i of
        the window is emptied, and counted off if it held a packet, when
        next + i is at most the acknowledged SN. */
    method ClearSlot(i: nat, acked: SeqNum, ghost w0: seq<Slot>, ghost c0: int, ghost d: nat)
      requires |buffer| == windowSize && startIdx < windowSize && i < windowSize
      requires |w0| == windowSize && PrefixOccupied(w0, c0)
      requires d == if acked >= nextToAck then acked + 1 - nextToAck else 0
      requires d <= windowSize
      requires Slots() == ClearFront(w0, Min(i, d))
      requires packetsInBuffer == c0 - Min(Min(i, d), c0)
      modifies this
      ensures |buffer| == windowSize && startIdx == old(startIdx) && nextToAck == old(nextToAck)
      ensures Slots() == ClearFront(w0, Min(i + 1, d))
      ensures packetsInBuffer == c0 - Min(Min(i + 1, d), c0)
    {
      IdxIsMod(startIdx, i, windowSize);
      var idx := (startIdx + i) % windowSize;
      if nextToAck + i <= acked {
        assert i < d && Min(i, d) == i;
        ghost var before := Slots();
        assert before[i] == w0[i];
        assert buffer[Idx(startIdx, i, windowSize)] == before[i];
        assert buffer[idx] == w0[i];
        if buffer[idx].Some? {
          packetsInBuffer := packetsInBuffer - 1;
        }
        WindowUpdate(buffer, startIdx, i, None);
        ClearFrontStep(w0, i);
        buffer := buffer[idx := None];
        assert Slots() == before[i := None];
      }
    }

    /** The end of do_acknowledgePacket: with the first d positions of the
        window emptied, the start moves on by d and next becomes acked + 1. */
    method Slide(acked: SeqNum, ghost w0: seq<Slot>, ghost c0: int, ghost d: nat)
      requires |buffer| == windowSize && windowSize >= 1 && startIdx < windowSize
      requires |w0| == windowSize && PrefixOccupied(w0, c0)
      requires nextToAck <= acked && d == acked + 1 - nextToAck && d <= windowSize
      requires Slots() == ClearFront(w0, d)
      requires packetsInBuffer == c0 - Min(d, c0)
      modifies this
      ensures Valid()
      ensures Slots() == w0[d..] + Nones(d)
      ensures packetsInBuffer == old(packetsInBuffer) && nextToAck == Wrap16(acked + 1)
    {
      SlideCleared(buffer, startIdx, w0, c0, d);
      SlideIdx(startIdx, d, windowSize);
      ghost var newStart := Idx(startIdx, d, windowSize);
      startIdx := (startIdx + (acked + 1 - nextToAck) % windowSize) % windowSize;
      nextToAck := Wrap16(acked + 1);
      assert startIdx == newStart;
    }

    /** do_acknowledgePacket, corrected. An ACK at or beyond next + windowSize,
        an ACK with nothing pending, and a stale ACK below next change nothing.
        Otherwise the d = acked + 1 - next oldest positions are cleared, the
        window slides on by d and next becomes acked + 1. */
    method AcknowledgePacket(acked: SeqNum)
      requires Valid()
      modifies this
      ensures Valid()
      ensures acked >= old(nextToAck) + windowSize || old(packetsInBuffer) == 0 || acked < old(nextToAck) ==>
                Slots() == old(Slots()) && nextToAck == old(nextToAck) && packetsInBuffer == old(packetsInBuffer)
      ensures old(nextToAck) <= acked < old(nextToAck) + windowSize && old(packetsInBuffer) > 0 ==>
                var d := acked + 1 - old(nextToAck);
                && Slots() == old(Slots())[d..] + Nones(d)
                && packetsInBuffer == old(packetsInBuffer) - Min(d, old(packetsInBuffer))
                && nextToAck == Wrap16(acked + 1)
    {
      if acked >= nextToAck + windowSize {
        return;
      }
      if !(packetsInBuffer > 0) {
        return;
      }
      ghost var w0 := Slots();
      ghost var c0 := packetsInBuffer;
      ghost var d: nat := if acked >= nextToAck then acked + 1 - nextToAck else 0;
      var i := 0;
      while i < windowSize
        invariant 0 <= i <= windowSize
        invariant |buffer| == windowSize && startIdx == old(startIdx) && nextToAck == old(nextToAck)
        invariant startIdx < windowSize && d <= windowSize && |w0| == windowSize && PrefixOccupied(w0, c0)
        invariant Slots() == ClearFront(w0, Min(i, d))
        invariant packetsInBuffer == c0 - Min(Min(i, d), c0)
      {
        ClearSlot(i, acked, w0, c0, d);
        i := i + 1;
      }
      assert Min(windowSize, d) == d;
      if acked >= nextToAck {
        Slide(acked, w0, c0, d);
      } else {
        assert Slots() == ClearFront(w0, 0) == w0;
      }
    }
  }

  /** Exactly one of "ready" and "pending" can fail: a valid window is never
      both full and empty. */
  lemma ReadyOrPending(b: WindowBuffer)
    requires b.Valid()
    ensures b.ReadyForNewPacket() || b.PacketsPending()
  {
  }

  /** The SN bookkeeping the cumulative ACK relies on: position k of the
      window holds the packet with SN next + k. */
  ghost predicate InOrder(w: seq<Slot>, next: SeqNum) {
    forall k :: 0 <= k < |w| && w[k].Some? ==> w[k].value.info.sequenceNumber == Wrap16(next + k)
  }

  /** Adding the packet with SN next + count keeps the window in order. */
  lemma {:induction false} AddKeepsOrder(w: seq<Slot>, next: SeqNum, count: nat, obj: TransmitBufferObject)
    requires InOrder(w, next) && count < |w|
    requires obj.info.sequenceNumber == Wrap16(next + count)
    ensures InOrder(w[count := Some(obj)], next)
  {
  }

  /** A cumulative ACK, which drops the leading slots up to the ACKed SN and
      appends empty ones, keeps the window in order from the SN after it. */
  lemma {:induction false} AckKeepsOrder(w: seq<Slot>, next: SeqNum, acked: SeqNum)
    requires InOrder(w, next) && next <= acked < next + |w|
    ensures InOrder(w[acked + 1 - next..] + Nones(acked + 1 - next), Wrap16(acked + 1))
  {
    var d := acked + 1 - next;
    var w' := w[d..] + Nones(d);
    forall k | 0 <= k < |w'| && w'[k].Some?
      ensures w'[k].value.info.sequenceNumber == Wrap16(Wrap16(acked + 1) + k)
    {
      assert w'[k] == w[d + k];
      assert Wrap16(next + d + k) == Wrap16(Wrap16(acked + 1) + k);
    }
  }

  /** The "remove packets" test for any window size and first SN (the SNs
      used do not wrap): ACKs on an empty buffer leave it empty; windowSize
      packets fill it and one more is refused; acknowledging them one by one
      in order empties it again. */
  method RemovePacketsScenario(windowSize: U16, first: SeqNum) returns (emptyAfterEarlyAcks: bool, refused: bool, drained: bool)
    requires windowSize >= 1 && first + windowSize < SEQ_MODULUS
    ensures emptyAfterEarlyAcks && refused && drained
  {
    var b := new WindowBuffer.GoBackN(windowSize, 1000000000, first);
    var i := 0;
    while i < windowSize
      invariant 0 <= i <= windowSize
      invariant b.Valid() && b.windowSize == windowSize
      invariant b.packetsInBuffer == 0 && b.nextToAck == first
    {
      b.AcknowledgePacket(first + i);
      i := i + 1;
    }
    emptyAfterEarlyAcks := !b.PacketsPending();
    i := 0;
    while i < windowSize
      invariant 0 <= i <= windowSize
      invariant b.Valid() && b.windowSize == windowSize
      invariant b.packetsInBuffer == i && b.nextToAck == first
    {
      var _ := b.AddPacket(TestObject(first + i));
      i := i + 1;
    }
    var thrown := b.AddPacket(TestObject(first + windowSize));
    refused := thrown == Some(ArqProtocolException);
    i := 0;
    while i < windowSize
      invariant 0 <= i <= windowSize
      invariant b.Valid() && b.windowSize == windowSize
      invariant b.packetsInBuffer == windowSize - i && b.nextToAck == first + i
    {
      b.AcknowledgePacket(first + i);
      i := i + 1;
    }
    drained := !b.PacketsPending();
  }

  /** The raw state of the window as the code as written leaves it: the start
      index is an unbounded integer and the count can drop below zero. */
  datatype RawWindow = RawWindow(buffer: seq<Slot>, startIdx: int, nextToAck: SeqNum, packetsInBuffer: int)

  /** The clearing loop as written: every position i with next + i <= acked
      is emptied and the count is decremented, occupied or not. */
  function ClearAsWritten(r: RawWindow, acked: SeqNum, i: nat): (r': RawWindow)
    requires |r.buffer| > 0 && r.startIdx >= 0 && i <= |r.buffer|
    ensures |r'.buffer| == |r.buffer| && r'.startIdx == r.startIdx && r'.nextToAck == r.nextToAck
    decreases |r.buffer| - i
  {
    if i == |r.buffer| then r
    else
      var w := |r.buffer|;
      var idx := (r.startIdx + i) % w;
      var r1 := if r.nextToAck + i <= acked
                then r.(buffer := r.buffer[idx := None], packetsInBuffer := r.packetsInBuffer - 1)
                else r;
      ClearAsWritten(r1, acked, i + 1)
  }

  /** do_acknowledgePacket exactly as written. */
  function AcknowledgeAsWritten(r: RawWindow, acked: SeqNum): (r': RawWindow)
    requires |r.buffer| > 0 && r.startIdx >= 0
    ensures |r'.buffer| == |r.buffer| && r'.startIdx >= r.startIdx
  {
    var w := |r.buffer|;
    if acked >= r.nextToAck + w then r
    else if !(r.packetsInBuffer > 0) then r
    else
      var c := ClearAsWritten(r, acked, 0);
      if acked >= c.nextToAck
      then c.(startIdx := c.startIdx + (acked + 1 - c.nextToAck) % w, nextToAck := Wrap16(acked + 1))
      else c
  }

  function TestObject(sn: SeqNum): TransmitBufferObject {
    TransmitBufferObject(Packet(Header(0, sn, 0), HeaderBytes(Header(0, sn, 0))), PacketInfo(0, 0, sn))
  }

  /** Window of two holding SNs 0 and 1: ACK 0 then ACK 1 leaves startIdx at
      2, past the last slot, where the next add and retransmission scan begin
      reading. */
  lemma StartIndexEscapes()
    ensures var r0 := RawWindow([Some(TestObject(0)), Some(TestObject(1))], 0, 0, 2);
            var r2 := AcknowledgeAsWritten(AcknowledgeAsWritten(r0, 0), 1);
            r2.startIdx == 2 && r2.startIdx >= |r2.buffer|
  {
    var r0 := RawWindow([Some(TestObject(0)), Some(TestObject(1))], 0, 0, 2);
    var r1 := AcknowledgeAsWritten(r0, 0);
    assert ClearAsWritten(r0, 0, 0).packetsInBuffer == 1;
    assert r1.startIdx == 1 && r1.nextToAck == 1 && r1.packetsInBuffer == 1;
  }

  /** Window of three holding only SN 100 with next 100: ACK 102 empties
      three positions, two of them already empty, and the count drops to -2
      (an unsigned counter wraps round instead). */
  lemma CountGoesNegative()
    ensures var r0 := RawWindow([Some(TestObject(100)), None, None], 0, 100, 1);
            AcknowledgeAsWritten(r0, 102).packetsInBuffer == -2
  {
    var r0 := RawWindow([Some(TestObject(100)), None, None], 0, 100, 1);
    var r1 := r0.(buffer := r0.buffer[0 := None], packetsInBuffer := 0);
    var r2 := r1.(buffer := r1.buffer[1 := None], packetsInBuffer := -1);
    var r3 := r2.(buffer := r2.buffer[2 := None], packetsInBuffer := -2);
    assert ClearAsWritten(r2, 102, 2) == ClearAsWritten(r3, 102, 3) == r3;
    assert ClearAsWritten(r1, 102, 1) == ClearAsWritten(r2, 102, 2);
    assert ClearAsWritten(r0, 102, 0) == ClearAsWritten(r1, 102, 1);
  }
}
