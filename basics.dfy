/** Value types shared by every part of the ARQ model: bytes, 16-bit sequence
    numbers with their wrap-around arithmetic, big-endian 16-bit encoding, and
    the optional/result wrappers standing in for std::optional and exceptions. */
module ArqBasics {

  datatype Option<T> = None | Some(value: T)

  /** The exceptions the modelled code throws; a throwing call returns Err.
      AssertionFailure stands for a failed `assert`, which aborts the program. */
  datatype Exception =
    | DataPacketException
    | ArqProtocolException
    | ConversationIdError
    | InvalidArgument
    | BadOptionalAccess
    | HelpException
    | AssertionFailure

  datatype Result<T> = Ok(value: T) | Err(error: Exception)

  /** A byte of a serialised buffer (std::byte). */
  type Byte = x: int | 0 <= x < 256

  /** An unsigned 16-bit value (uint16_t). */
  type U16 = x: int | 0 <= x < 0x1_0000

  /** A sequence number (arq::SequenceNumber is uint16_t). */
  type SeqNum = U16

  const SEQ_MODULUS: int := 0x1_0000

  /** `++sn` on a uint16_t: wraps from 65535 to 0. */
  function Inc16(x: U16): (r: U16)
    ensures x < 0xFFFF ==> r == x + 1
    ensures x == 0xFFFF ==> r == 0
  {
    if x == 0xFFFF then 0 else x + 1
  }

  /** Conversion of an int back to uint16_t, as in `SequenceNumber s = i;`. */
  function Wrap16(x: int): (r: U16)
    ensures 0 <= x < SEQ_MODULUS ==> r == x
    ensures (r - x) % SEQ_MODULUS == 0
  {
    x % SEQ_MODULUS
  }

  /** Counting on from a wrapped value wraps the same way as counting first. */
  lemma IncWrap(x: int)
    ensures Inc16(Wrap16(x)) == Wrap16(x + 1)
  {
  }

  /** Big-endian (network byte order) two-byte form of a 16-bit value, as
      produced by htons followed by memcpy. */
  function EncodeU16(x: U16): (r: seq<Byte>)
    ensures |r| == 2
  {
    [x / 256, x % 256]
  }

  /** Value of two bytes read in network byte order (memcpy then ntohs). */
  function DecodeU16(hi: Byte, lo: Byte): (r: U16)
    ensures r == (hi as int) * 256 + lo
  {
    hi * 256 + lo
  }

  lemma U16RoundTrip(x: U16)
    ensures DecodeU16(EncodeU16(x)[0], EncodeU16(x)[1]) == x
  {
  }

  lemma U16Injective(hi: Byte, lo: Byte, hi': Byte, lo': Byte)
    requires DecodeU16(hi, lo) == DecodeU16(hi', lo')
    ensures hi == hi' && lo == lo'
  {
  }

  lemma EncodeDecodeU16(hi: Byte, lo: Byte)
    ensures EncodeU16(DecodeU16(hi, lo)) == [hi, lo]
  {
  }

  /** n zero bytes: what std::vector::resize appends. */
  function Zeros(n: nat): (r: seq<Byte>)
    ensures |r| == n
    ensures forall i :: 0 <= i < n ==> r[i] == 0
  {
    if n == 0 then [] else Zeros(n - 1) + [0]
  }

  /** std::vector::resize: keep a prefix, or pad with zero bytes. */
  function Resized(s: seq<Byte>, n: nat): (r: seq<Byte>)
    ensures |r| == n
    ensures n <= |s| ==> r == s[..n]
    ensures n > |s| ==> r[..|s|] == s && r[|s|..] == Zeros(n - |s|)
  {
    if n <= |s| then s[..n] else s + Zeros(n - |s|)
  }
}
