/** What every in-order resequencing buffer maintains: the packets it has
    accepted carry consecutive sequence numbers (mod 2^16) starting at the
    first expected one, and the next expected SN follows the last of them. */
module InOrderRuns {
  import opened ArqBasics
  import opened DataPackets
  import opened BufferObjects

  /** `accepted` is a consecutive run of SNs from `first`, and `next` is the
      SN after it. */
  ghost predicate Run(accepted: seq<Packet>, first: SeqNum, next: SeqNum) {
    && next == Wrap16(first + |accepted|)
    && (forall i :: 0 <= i < |accepted| ==> HeaderSn(accepted[i]) == Wrap16(first + i))
  }

  /** `queued` is what is still waiting of `accepted`: its newest part. */
  ghost predicate Suffix<T>(queued: seq<T>, accepted: seq<T>) {
    |queued| <= |accepted| && queued == accepted[|accepted| - |queued|..]
  }

  /** Accepting the packet that carries the expected SN keeps a run, one
      longer, with the expected SN incremented (wrapping at 2^16). */
  lemma {:induction false} RunAccept(accepted: seq<Packet>, first: SeqNum, next: SeqNum, p: Packet)
    requires Run(accepted, first, next) && HeaderSn(p) == next
    ensures Run(accepted + [p], first, Inc16(next))
  {
    IncWrap(first + |accepted|);
    var a := accepted + [p];
    forall i | 0 <= i < |a|
      ensures HeaderSn(a[i]) == Wrap16(first + i)
    {
      if i < |accepted| {
        assert a[i] == accepted[i];
      }
    }
  }

  /** Removing the oldest waiting packet keeps the rest a suffix. */
  lemma {:induction false} SuffixPop<T>(queued: seq<T>, accepted: seq<T>)
    requires Suffix(queued, accepted) && queued != []
    ensures Suffix(queued[1..], accepted)
  {
    assert queued[1..] == accepted[|accepted| - |queued[1..]|..];
  }

  /** Appending to both keeps a suffix. */
  lemma {:induction false} SuffixPush<T>(queued: seq<T>, accepted: seq<T>, x: T)
    requires Suffix(queued, accepted)
    ensures Suffix(queued + [x], accepted + [x])
  {
    var a := accepted + [x];
    assert queued + [x] == a[|a| - |queued + [x]|..];
  }

  /** Inc16 is one-to-one: the predecessor of an SN is unique. */
  lemma Inc16Injective(a: U16, b: U16)
    requires Inc16(a) == Inc16(b)
    ensures a == b
  {
  }

  /** The predecessor of `next` in 16-bit arithmetic (`next - 1` stored back
      into a uint16_t). */
  function Prev16(next: SeqNum): (r: SeqNum)
    ensures Inc16(r) == next
  {
    IncWrap(next - 1);
    Wrap16(next - 1)
  }

  /** In a non-empty run, `next - 1` (wrapped) is the SN of the newest
      accepted packet: the last in-order SN the receiver can ACK. */
  lemma {:induction false} LastAcceptedSn(accepted: seq<Packet>, first: SeqNum, next: SeqNum)
    requires Run(accepted, first, next) && accepted != []
    ensures HeaderSn(accepted[|accepted| - 1]) == Prev16(next)
  {
    var n := |accepted|;
    IncWrap(first + (n - 1));
    assert Inc16(HeaderSn(accepted[n - 1])) == next;
    Inc16Injective(HeaderSn(accepted[n - 1]), Prev16(next));
  }

  /** Packets waiting in a buffer whose accepted packets form a run leave it
      with consecutive SNs. */
  lemma {:induction false} QueuedConsecutive(queued: seq<Packet>, accepted: seq<Packet>, first: SeqNum, next: SeqNum, j: int)
    requires Run(accepted, first, next) && Suffix(queued, accepted)
    requires 0 <= j < |queued| - 1
    ensures HeaderSn(queued[j + 1]) == Inc16(HeaderSn(queued[j]))
  {
    var k := |accepted| - |queued| + j;
    assert queued[j] == accepted[k] && queued[j + 1] == accepted[k + 1];
    IncWrap(first + k);
  }

  /** The packet the tests build: a default packet (zero header, End-of-Tx,
      five bytes) with its SN updated. */
  function TestPacket(sn: SeqNum): (r: Packet)
    ensures WellFormed(r) && HeaderSn(r) == sn && IsEndOfTx(r)
  {
    Packet(Header(0, sn, 0), HeaderBytes(Header(0, sn, 0)))
  }
}
